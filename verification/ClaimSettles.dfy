/** Arbitration ends: however frames are delivered, they cannot go on provoking new ones. */
module ClaimSettles {
  import opened Bytes
  import opened J1939Id
  import opened TpTypes
  import opened TpWire
  import opened ClaimSteps
  import opened ClaimSystem

  // ---- The measure ------------------------------------------------------------

  /** Nodes that have not ceded. */
  function Active(nodes: seq<Node>): nat {
    if nodes == [] then 0 else (if nodes[0].state.CannotClaim? then 0 else 1) + Active(nodes[1..])
  }

  /** Nodes with a NAME lower than `x`. */
  function Below(nodes: seq<Node>, x: nat): nat {
    if nodes == [] then 0 else (if nodes[0].name < x then 1 else 0) + Below(nodes[1..], x)
  }

  function Pow(b: nat, e: nat): nat { if e == 0 then 1 else b * Pow(b, e - 1) }

  /** A frame of a higher NAME weighs more than one of a lower NAME to every node. */
  function Weight(nodes: seq<Node>, m: Msg): nat { Pow(|nodes|, Below(nodes, LeValue(m.frame.data))) }

  function Weigh(nodes: seq<Node>, q: seq<Msg>): nat {
    if q == [] then 0 else Weight(nodes, q[0]) + Weigh(nodes, q[1..])
  }

  /** The weight of what is pending at the first `n` nodes. */
  function Total(nodes: seq<Node>, inbox: seq<seq<Msg>>, n: nat): nat
    requires n <= |inbox|
  {
    if n == 0 then 0 else Total(nodes, inbox, n - 1) + Weigh(nodes, inbox[n - 1])
  }

  function Load(s: Sys): nat
    requires Shaped(s)
  {
    Total(s.nodes, s.inbox, |s.inbox|)
  }

  // ---- Its arithmetic -----------------------------------------------------------

  lemma {:induction false} WeighAppend(nodes: seq<Node>, p: seq<Msg>, q: seq<Msg>)
    ensures Weigh(nodes, p + q) == Weigh(nodes, p) + Weigh(nodes, q)
  {
    hide Weight;
    if p == [] {
      assert p + q == q;
    } else {
      WeighAppend(nodes, p[1..], q);
      assert (p + q)[1..] == p[1..] + q;
    }
  }

  lemma WeighWithout(nodes: seq<Node>, q: seq<Msg>, k: nat)
    requires k < |q|
    ensures Weigh(nodes, Without(q, k)) == Weigh(nodes, q) - Weight(nodes, q[k])
  {
    hide Weight;
    assert q == q[..k] + ([q[k]] + q[k + 1..]);
    WeighAppend(nodes, q[..k], [q[k]] + q[k + 1..]);
    WeighAppend(nodes, q[..k], q[k + 1..]);
  }

  lemma {:induction false} SameBelow(a: seq<Node>, b: seq<Node>, x: nat)
    requires |a| == |b| && forall j :: 0 <= j < |a| ==> a[j].name == b[j].name
    ensures Below(a, x) == Below(b, x)
  {
    if a != [] { SameBelow(a[1..], b[1..], x); }
  }

  lemma {:induction false} SameWeigh(a: seq<Node>, b: seq<Node>, q: seq<Msg>)
    requires |a| == |b| && forall j :: 0 <= j < |a| ==> a[j].name == b[j].name
    ensures Weigh(a, q) == Weigh(b, q)
  {
    hide Below, Pow;
    if q != [] {
      SameBelow(a, b, LeValue(q[0].frame.data));
      SameWeigh(a, b, q[1..]);
    }
  }

  lemma {:induction false} BelowGrows(nodes: seq<Node>, x: nat, y: nat)
    requires x <= y
    ensures Below(nodes, x) <= Below(nodes, y)
    ensures x < y && (exists j :: 0 <= j < |nodes| && nodes[j].name == x) ==> Below(nodes, x) < Below(nodes, y)
  {
    if nodes != [] {
      BelowGrows(nodes[1..], x, y);
      if j :| 0 < j < |nodes| && nodes[j].name == x { assert nodes[1..][j - 1].name == x; }
    }
  }

  lemma {:induction false} PowGrows(b: nat, e: nat, f: nat)
    requires b >= 1 && e <= f
    ensures 1 <= Pow(b, e) <= Pow(b, f)
    decreases f
  {
    if e < f {
      PowGrows(b, e, f - 1);
      TimesGrows(b, Pow(b, f - 1));
    } else if e > 0 {
      PowGrows(b, e - 1, e - 1);
      TimesGrows(b, Pow(b, e - 1));
    }
  }

  lemma TimesGrows(b: nat, x: nat)
    requires b >= 1
    ensures x <= b * x
  {
  }

  /** What a step of node `i` does to the total: `extra` is added everywhere else. */
  lemma {:induction false} TotalAfter(nodes: seq<Node>, p: seq<seq<Msg>>, q: seq<seq<Msg>>,
                                      i: nat, extra: seq<Msg>, n: nat)
    requires |p| == |q| && i < |p| && n <= |p|
    requires forall j :: 0 <= j < |p| && j != i ==> q[j] == p[j] + extra
    ensures Total(nodes, q, n) ==
            Total(nodes, p, n) + (if i < n then n - 1 else n) * Weigh(nodes, extra)
            + (if i < n then Weigh(nodes, q[i]) - Weigh(nodes, p[i]) else 0)
  {
    hide Weigh;
    if n > 0 {
      TotalAfter(nodes, p, q, i, extra, n - 1);
      var w := Weigh(nodes, extra);
      assert n * w == (n - 1) * w + w && (n >= 2 ==> (n - 1) * w == (n - 2) * w + w);
      if n - 1 != i { WeighAppend(nodes, p[n - 1], extra); }
    }
  }

  lemma {:induction false} SameTotal(a: seq<Node>, b: seq<Node>, inbox: seq<seq<Msg>>, n: nat)
    requires |a| == |b| && forall j :: 0 <= j < |a| ==> a[j].name == b[j].name
    requires n <= |inbox|
    ensures Total(a, inbox, n) == Total(b, inbox, n)
  {
    if n > 0 {
      SameTotal(a, b, inbox, n - 1);
      SameWeigh(a, b, inbox[n - 1]);
    }
  }

  lemma {:induction false} ActiveAfter(nodes: seq<Node>, i: nat, n: Node)
    requires i < |nodes|
    ensures Active(nodes[i := n]) ==
            Active(nodes) - (if nodes[i].state.CannotClaim? then 0 else 1) + (if n.state.CannotClaim? then 0 else 1)
  {
    if i > 0 {
      ActiveAfter(nodes[1..], i - 1, n);
      assert nodes[i := n][1..] == nodes[1..][i - 1 := n];
    }
  }

  // ---- Progress -------------------------------------------------------------------

  /** Every delivery makes a node cede or lightens what is pending, so deliveries cannot go on for ever. */
  lemma DeliveryProgress(s: Sys, i: nat, k: nat)
    requires Inv(s, None) && i < |s.nodes| && k < |s.inbox[i]|
    ensures var t := Next(s, Deliver(i, k));
            Active(t.nodes) < Active(s.nodes) || (Active(t.nodes) == Active(s.nodes) && Load(t) < Load(s))
  {
    hide OnFrame, ClaimFrame, Resolved, Load, Active;
    var n, m := s.nodes[i], s.inbox[i][k];
    var c := Delivered(s, i, k);
    var r := After(s, Deliver(i, k));
    ActiveAfter(s.nodes, i, r.(out := []));
    if r.state.CannotClaim? == n.state.CannotClaim? {
      assert r.out == [] || (r.out == [ClaimFrame(n.name, n.sa)] && n.name < s.nodes[c].name);
      Lighter(s, i, k, c, r);
    }
  }

  /** Without a cession, the delivered frame goes, and at most an answer of lower NAME comes. */
  lemma Lighter(s: Sys, i: nat, k: nat, c: nat, r: Node)
    requires SysOk(s) && i < |s.nodes| && k < |s.inbox[i]| && r.name == s.nodes[i].name
    requires ClaimOf(s, s.inbox[i][k], c)
    requires r.out == [] || (r.out == [ClaimFrame(r.name, r.sa)] && r.name < s.nodes[c].name)
    ensures Load(Post(s, i, r, Without(s.inbox[i], k))) < Load(s)
  {
    hide ClaimFrame, Weigh, Weight, Total, Without;
    var m := s.inbox[i][k];
    var t := Post(s, i, r, Without(s.inbox[i], k));
    var extra := Sent(r.out, s.now);
    SameTotal(t.nodes, s.nodes, t.inbox, |t.inbox|);
    TotalAfter(s.nodes, s.inbox, t.inbox, i, extra, |t.inbox|);
    WeighWithout(s.nodes, s.inbox[i], k);
    if r.out == [] {
      NothingWeighs(s.nodes);
      assert Weigh(s.nodes, extra) == 0;
      Positive(s, m);
    } else {
      assert extra[0] in extra;
      Outweighs(s, i, c, m, extra[0]);
      assert extra == [extra[0]];
      OneWeighs(s.nodes, extra[0]);
    }
  }

  lemma NothingWeighs(nodes: seq<Node>)
    ensures Weigh(nodes, []) == 0
  {
  }

  lemma OneWeighs(nodes: seq<Node>, m: Msg)
    ensures Weigh(nodes, [m]) == Weight(nodes, m)
  {
    NothingWeighs(nodes);
    assert [m][1..] == [];
  }

  lemma Positive(s: Sys, m: Msg)
    requires |s.nodes| >= 1
    ensures Weight(s.nodes, m) >= 1
  {
    var e := Below(s.nodes, LeValue(m.frame.data));
    PowGrows(|s.nodes|, e, e);
  }

  /** The frame of a higher NAME outweighs the answer to all the others. */
  lemma Outweighs(s: Sys, i: nat, c: nat, m: Msg, answer: Msg)
    requires i < |s.nodes| && ClaimOf(s, m, c) && s.nodes[i].name < s.nodes[c].name
    requires answer.frame == ClaimFrame(s.nodes[i].name, answer.frame.source)
    ensures (|s.nodes| - 1) * Weight(s.nodes, answer) < Weight(s.nodes, m)
  {
    hide LeBytes, LeValue, Below;
    var x, y := s.nodes[i].name, s.nodes[c].name;
    LeRoundTrip64(x);
    LeRoundTrip64(y);
    BelowGrows(s.nodes, x, y);
    var e, f := Below(s.nodes, x), Below(s.nodes, y);
    PowGrows(|s.nodes|, e, e);
    PowGrows(|s.nodes|, e + 1, f);
    assert Weight(s.nodes, answer) == Pow(|s.nodes|, e) && Weight(s.nodes, m) == Pow(|s.nodes|, f);
    OneLess(|s.nodes|, Pow(|s.nodes|, e));
  }

  lemma OneLess(n: nat, w: nat)
    requires w >= 1
    ensures (n - 1) * w < n * w
  {
  }

  /** A delivery takes no node back to before its first poll. */
  lemma DeliveryKeepsPolled(s: Sys, i: nat, k: nat)
    requires Inv(s, None) && AllPolled(s) && i < |s.nodes| && k < |s.inbox[i]|
    ensures AllPolled(Next(s, Deliver(i, k)))
  {
    hide OnFrame, ClaimFrame, Resolved;
    var c := Delivered(s, i, k);
    SameNames(s, Deliver(i, k));
  }

  predicate AllDeliveries(run: seq<Move>) { forall j :: 0 <= j < |run| ==> run[j].Deliver? }

  /** From every state a run can reach, deliveries alone lead to rest, and then the nodes agree: no two that
      have not ceded hold the same address, and the lowest NAME has not ceded. */
  lemma {:induction false} Settles(s: Sys) returns (run: seq<Move>, t: Sys)
    requires Inv(s, None)
    ensures AllDeliveries(run) && Reaches(s, None, run, t) && Settled(t)
    ensures AllPolled(s) ==> AllPolled(t) && Agreed(t)
    ensures |t.nodes| == |s.nodes| && forall l: nat :: IsLowest(s, l) ==> !t.nodes[l].state.CannotClaim?
    decreases Active(s.nodes), Load(s)
  {
    hide Next, Resolved;
    if Settled(s) {
      run, t := [], s;
      if AllPolled(s) { SettledAgrees(s); }
    } else {
      var j: nat :| j < |s.inbox| && s.inbox[j] != [];
      var m := Deliver(j, 0);
      DeliveryProgress(s, j, 0);
      InvKept(s, None, m);
      SameNames(s, m);
      if AllPolled(s) { DeliveryKeepsPolled(s, j, 0); }
      var rest, u := Settles(Next(s, m));
      run, t := [m] + rest, u;
      assert run[1..] == rest;
    }
  }
}
