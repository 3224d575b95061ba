/** Any number of address-claim engines with distinct NAMEs on one bus. Every frame a node queues is pending
    at every other node until it is delivered there; deliveries happen in any order, one node may be far ahead
    of another, and requests, commanded addresses and foreign traffic arrive at any time. */
module ClaimSystem {
  import opened Bytes
  import opened J1939Id
  import opened TpTypes
  import opened TpWire
  import opened ClaimSteps

  /** A frame on its way to one node, and when it was queued. */
  datatype Msg = Msg(frame: OutFrame, at: Instant)

  datatype Sys = Sys(nodes: seq<Node>, inbox: seq<seq<Msg>>, now: Instant)

  datatype Move =
    | PollNode(i: nat)                                   // poll node i
    | Deliver(i: nat, k: nat)                            // the k-th frame pending at node i arrives
    | Outside(i: nat, id: DecodedId, data: seq<u8>)      // any frame at node i that claims no address
    | Advance(to: Instant)

  predicate Shaped(s: Sys) { |s.inbox| == |s.nodes| }

  /** A frame of the kind that takes part in arbitration. */
  predicate IsClaim(id: DecodedId, d: seq<u8>) { id.pgn == ADDRESS_CLAIMED_PGN && |d| >= 8 }

  predicate Enabled(s: Sys, m: Move) {
    && Shaped(s)
    && match m
       case PollNode(i) => i < |s.nodes|
       case Deliver(i, k) => i < |s.nodes| && k < |s.inbox[i]|
       case Outside(i, id, d) => i < |s.nodes| && !IsClaim(id, d)
       case Advance(to) => s.now <= to
  }

  /** `fs` as messages queued at `now`. */
  function Sent(fs: seq<OutFrame>, now: Instant): (q: seq<Msg>)
    ensures |q| == |fs|
    ensures forall f :: f in fs ==> Msg(f, now) in q
    ensures forall m :: m in q ==> m.frame in fs && m.at == now
  {
    var q := seq(|fs|, k requires 0 <= k < |fs| => Msg(fs[k], now));
    assert forall f :: f in fs ==> Msg(f, now) in q by {
      forall f | f in fs ensures Msg(f, now) in q {
        var k :| 0 <= k < |fs| && fs[k] == f;
        assert q[k] == Msg(f, now);
      }
    }
    q
  }

  /** Node `i` becomes `n`, keeps `left` pending, and what it queued becomes pending everywhere else. */
  function Post(s: Sys, i: nat, n: Node, left: seq<Msg>): (r: Sys)
    requires Shaped(s) && i < |s.nodes|
    ensures Shaped(r)
  {
    Sys(s.nodes[i := n.(out := [])],
        seq(|s.inbox|, j requires 0 <= j < |s.inbox| => if j == i then left else s.inbox[j] + Sent(n.out, s.now)),
        s.now)
  }

  function Without(q: seq<Msg>, k: nat): seq<Msg>
    requires k < |q|
  {
    q[..k] + q[k + 1..]
  }

  function Next(s: Sys, m: Move): (r: Sys)
    requires Enabled(s, m)
    ensures Shaped(r) && |r.nodes| == |s.nodes|
  {
    match m
    case PollNode(i) => Post(s, i, Poll(s.nodes[i], s.now).0, s.inbox[i])
    case Deliver(i, k) =>
      var f := s.inbox[i][k].frame;
      Post(s, i, OnFrame(s.nodes[i], WireId(f), f.data, s.now).0, Without(s.inbox[i], k))
    case Outside(i, id, d) => Post(s, i, OnFrame(s.nodes[i], id, d, s.now).0, s.inbox[i])
    case Advance(to) => s.(now := to)
  }

  // ---- The invariant ------------------------------------------------------------

  /** The message is an address claim of node `k`. */
  predicate ClaimOf(s: Sys, m: Msg, k: nat) { k < |s.nodes| && m.frame == ClaimFrame(s.nodes[k].name, m.frame.source) }

  predicate Distinct(nodes: seq<Node>) { forall i, j :: 0 <= i < j < |nodes| ==> nodes[i].name != nodes[j].name }

  /** Every pending frame is the claim of some other node. */
  ghost predicate FromOthers(s: Sys, j: nat, m: Msg) { exists k: nat :: k != j && ClaimOf(s, m, k) }

  ghost predicate SysOk(s: Sys) {
    && Shaped(s)
    && Distinct(s.nodes)
    && (forall i :: 0 <= i < |s.nodes| ==> NodeOk(s.nodes[i]) && s.nodes[i].out == [])
    && (forall j: nat, m :: j < |s.inbox| && m in s.inbox[j] ==> FromOthers(s, j, m))
  }

  /** Two nodes have announced the same address, `a` with the lower NAME. */
  predicate Contend(s: Sys, a: nat, b: nat) {
    && a < |s.nodes| && b < |s.nodes|
    && s.nodes[a].startedAt.Some? && s.nodes[b].startedAt.Some?
    && s.nodes[a].sa == s.nodes[b].sa && s.nodes[a].name < s.nodes[b].name
  }

  /** What will resolve the contention of `a` and `b`: the claim of `a` is pending at `b`, or the claim of `b`
      is pending at `a`. With a delivery bound `d` it was queued early enough for `b` to hear of `a` by the
      later of one bound after `a` started and two bounds after `b` started. */
  predicate Resolves(s: Sys, a: nat, b: nat, d: Option<nat>, m: Msg)
    requires Shaped(s) && Contend(s, a, b)
  {
    var (x, y) := (s.nodes[a], s.nodes[b]);
    || (m in s.inbox[b] && m.frame == ClaimFrame(x.name, x.sa)
        && (d.Some? ==> m.at + d.value <= Max(x.startedAt.value + d.value, y.startedAt.value + 2 * d.value)))
    || (m in s.inbox[a] && m.frame == ClaimFrame(y.name, y.sa) && (d.Some? ==> m.at <= y.startedAt.value))
  }

  ghost predicate Resolved(s: Sys, d: Option<nat>, a: nat, b: nat)
    requires Shaped(s)
  {
    Contend(s, a, b) ==> exists m :: Resolves(s, a, b, d, m)
  }

  predicate IsLowest(s: Sys, l: nat) {
    l < |s.nodes| && forall k :: 0 <= k < |s.nodes| ==> s.nodes[l].name <= s.nodes[k].name
  }

  /** A claim holds only after its window, measured from its start, has passed. */
  predicate ClockOk(s: Sys, i: nat)
    requires i < |s.nodes|
  {
    var n := s.nodes[i];
    && (n.startedAt.Some? ==> n.startedAt.value <= s.now)
    && (n.state.Claimed? && n.startedAt.Some? ==> n.startedAt.value + n.claimWait <= s.now)
  }

  /** With a delivery bound: nothing is pending for longer. */
  ghost predicate OnTime(s: Sys, d: Option<nat>) {
    d.Some? ==> forall j: nat, m :: j < |s.inbox| && m in s.inbox[j] ==> m.at <= s.now <= m.at + d.value
  }

  ghost predicate Inv(s: Sys, d: Option<nat>) {
    && SysOk(s)
    && OnTime(s, d)
    && (forall i :: 0 <= i < |s.nodes| ==> ClockOk(s, i))
    && (forall l: nat :: IsLowest(s, l) ==> !s.nodes[l].state.CannotClaim?)
    && (forall a: nat, b: nat :: Resolved(s, d, a, b))
  }

  // ---- One node's step --------------------------------------------------------------

  /** What every step of a node keeps: its NAME, and that it speaks for itself. */
  ghost predicate Honest(n: Node, r: Node) {
    && r.name == n.name && r.claimWait == n.claimWait && NodeOk(r)
    && forall f :: f in r.out ==> f == ClaimFrame(n.name, f.source)
  }

  lemma StepsHonest(n: Node, id: DecodedId, d: seq<u8>, now: Instant)
    requires NodeOk(n) && n.out == []
    ensures Honest(n, Poll(n, now).0) && Honest(n, OnFrame(n, id, d, now).0)
  {
    hide NodeOk, NameOf;
  }

  lemma PostInbox(s: Sys, i: nat, r: Node, left: seq<Msg>, j: nat, m: Msg)
    requires Shaped(s) && i < |s.nodes| && j < |s.nodes|
    ensures var q := Post(s, i, r, left).inbox[j];
            && (j == i ==> q == left)
            && (j != i ==> (m in q <==> m in s.inbox[j] || m in Sent(r.out, s.now)))
  {
  }

  lemma PostSysOk(s: Sys, i: nat, r: Node, left: seq<Msg>, d: Option<nat>)
    requires SysOk(s) && OnTime(s, d) && i < |s.nodes| && Honest(s.nodes[i], r)
    requires forall m :: m in left ==> m in s.inbox[i]
    ensures SysOk(Post(s, i, r, left)) && OnTime(Post(s, i, r, left), d)
  {
    hide ClaimFrame, FromOthers;
    var t := Post(s, i, r, left);
    forall j: nat, m | j < |t.inbox| && m in t.inbox[j]
      ensures FromOthers(t, j, m) && (d.Some? ==> m.at <= t.now <= m.at + d.value)
    {
      PostMessage(s, i, r, left, d, j, m);
    }
    forall j: nat | j < |t.nodes|
        ensures NodeOk(t.nodes[j]) && t.nodes[j].out == [] && t.nodes[j].name == s.nodes[j].name {
      assert NodeOk(s.nodes[j]);
    }
    DistinctKept(s.nodes, t.nodes);
  }

  lemma DistinctKept(a: seq<Node>, b: seq<Node>)
    requires Distinct(a) && |a| == |b| && forall j :: 0 <= j < |a| ==> b[j].name == a[j].name
    ensures Distinct(b)
  {
  }

  lemma PostMessage(s: Sys, i: nat, r: Node, left: seq<Msg>, d: Option<nat>, j: nat, m: Msg)
    requires SysOk(s) && OnTime(s, d) && i < |s.nodes| && Honest(s.nodes[i], r)
    requires forall x :: x in left ==> x in s.inbox[i]
    requires j < |s.nodes| && m in Post(s, i, r, left).inbox[j]
    ensures FromOthers(Post(s, i, r, left), j, m)
    ensures d.Some? ==> m.at <= s.now <= m.at + d.value
  {
    hide ClaimFrame, NodeOk;
    var t := Post(s, i, r, left);
    PostInbox(s, i, r, left, j, m);
    if m in s.inbox[j] {
      assert FromOthers(s, j, m);
      var k: nat :| k != j && ClaimOf(s, m, k);
      assert ClaimOf(t, m, k);
    } else {
      assert ClaimOf(t, m, i);
    }
  }

  // ---- Contention after one node's step -----------------------------------------------

  /** A pair keeps what resolves it when neither node changed its claim and that message is still pending. */
  lemma PairKept(s: Sys, d: Option<nat>, i: nat, r: Node, left: seq<Msg>, a: nat, b: nat, m: Msg)
    requires SysOk(s) && i < |s.nodes| && Honest(s.nodes[i], r)
    requires Contend(s, a, b) && Resolves(s, a, b, d, m)
    requires i == a || i == b ==> r.sa == s.nodes[i].sa && r.startedAt == s.nodes[i].startedAt
    requires i == b ==> m.frame != ClaimFrame(s.nodes[a].name, s.nodes[a].sa) || m in left
    requires i == a ==> m.frame != ClaimFrame(s.nodes[b].name, s.nodes[b].sa) || m in left
    ensures Resolved(Post(s, i, r, left), d, a, b)
  {
    hide ClaimFrame;
    var t := Post(s, i, r, left);
    PostInbox(s, i, r, left, a, m);
    PostInbox(s, i, r, left, b, m);
    if Contend(t, a, b) { assert Resolves(t, a, b, d, m); }
  }

  /** A node that announces an address is heard of by every other node that announced it. */
  lemma PairAnew(s: Sys, d: Option<nat>, i: nat, x: u8, left: seq<Msg>, a: nat, b: nat)
    requires SysOk(s) && i < |s.nodes| && (i == a || i == b)
    ensures Resolved(Post(s, i, Announce(s.nodes[i], x, s.now), left), d, a, b)
  {
    hide ClaimFrame;
    var r := Announce(s.nodes[i], x, s.now);
    var t := Post(s, i, r, left);
    var m := Msg(ClaimFrame(r.name, x), s.now);
    assert r.out == [ClaimFrame(r.name, x)] && m in Sent(r.out, s.now);
    if Contend(t, a, b) {
      PostInbox(s, i, r, left, if i == a then b else a, m);
      assert Resolves(t, a, b, d, m);
    }
  }

  /** A node that answers the higher NAME `b` by claiming again is heard of by `b`. */
  lemma PairAnswered(s: Sys, d: Option<nat>, i: nat, r: Node, left: seq<Msg>, b: nat, m: Msg)
    requires SysOk(s) && OnTime(s, d) && i < |s.nodes| && r == Emit(s.nodes[i], s.nodes[i].sa)
    requires Contend(s, i, b) && Resolves(s, i, b, d, m) && m in s.inbox[i]
    requires m.frame == ClaimFrame(s.nodes[b].name, s.nodes[b].sa)
    requires m.frame != ClaimFrame(s.nodes[i].name, s.nodes[i].sa)
    ensures Resolved(Post(s, i, r, left), d, i, b)
  {
    hide ClaimFrame;
    var t := Post(s, i, r, left);
    var f := ClaimFrame(r.name, r.sa);
    assert s.nodes[i].out == [] && f in r.out;
    var a := Msg(f, s.now);
    PostInbox(s, i, r, left, b, a);
    if Contend(t, i, b) { assert Resolves(t, i, b, d, a); }
  }

  /** Frames of different NAMEs differ. */
  lemma FramesDiffer(x: u64, y: u64, sa: u8, sb: u8)
    ensures ClaimFrame(x, sa) == ClaimFrame(y, sb) <==> x == y && sa == sb
  {
    LeRoundTrip64(x);
    LeRoundTrip64(y);
  }

  // ---- Every move keeps the invariant ---------------------------------------------------

  /** The node a move concerns after it, and what stays pending there. */
  function After(s: Sys, m: Move): Node
    requires Enabled(s, m) && !m.Advance?
  {
    match m
    case PollNode(i) => Poll(s.nodes[i], s.now).0
    case Deliver(i, k) => OnFrame(s.nodes[i], WireId(s.inbox[i][k].frame), s.inbox[i][k].frame.data, s.now).0
    case Outside(i, id, d) => OnFrame(s.nodes[i], id, d, s.now).0
  }

  function Left(s: Sys, m: Move): seq<Msg>
    requires Enabled(s, m) && !m.Advance?
  {
    if m.Deliver? then Without(s.inbox[m.i], m.k) else s.inbox[m.i]
  }

  /** With a delivery bound, time passes only as far as what is pending allows. */
  ghost predicate Timely(s: Sys, d: Option<nat>, m: Move) {
    m.Advance? && d.Some? ==> forall j, x :: 0 <= j < |s.inbox| && x in s.inbox[j] ==> m.to <= x.at + d.value
  }

  /** A delivered frame is the claim of another node, and arbitration decides on it. */
  lemma Delivered(s: Sys, i: nat, k: nat) returns (c: nat)
    requires SysOk(s) && i < |s.nodes| && k < |s.inbox[i]|
    ensures c < |s.nodes| && c != i && ClaimOf(s, s.inbox[i][k], c) && s.nodes[c].name != s.nodes[i].name
    ensures After(s, Deliver(i, k)) == OnClaim(s.nodes[i], s.inbox[i][k].frame.source, s.nodes[c].name).0
  {
    hide OnFrame, OnClaim, ClaimFrame, WireId;
    var m := s.inbox[i][k];
    assert m in s.inbox[i] && FromOthers(s, i, m);
    c :| c != i && ClaimOf(s, m, c);
    ClaimArrives(s.nodes[i], s.nodes[c].name, m.frame.source, s.now);
  }

  lemma InWithout(q: seq<Msg>, k: nat, m: Msg)
    requires k < |q|
    ensures m in Without(q, k) ==> m in q
    ensures m in q && m != q[k] ==> m in Without(q, k)
  {
    if m in q && m != q[k] {
      var j :| 0 <= j < |q| && q[j] == m;
      assert Without(q, k)[if j < k then j else j - 1] == m;
    }
  }

  lemma PairAfterPoll(s: Sys, d: Option<nat>, i: nat, a: nat, b: nat)
    requires Inv(s, d) && i < |s.nodes|
    ensures Resolved(Next(s, PollNode(i)), d, a, b)
  {
    hide ClaimFrame, Resolves;
    var n := s.nodes[i];
    var r := After(s, PollNode(i));
    StepsHonest(n, DecodedId(0, 0, 0, 0, None), [], s.now);
    if (i == a || i == b) && r == Announce(n, n.sa, s.now) {
      PairAnew(s, d, i, n.sa, s.inbox[i], a, b);
    } else if Contend(s, a, b) {
      assert Resolved(s, d, a, b);
      var w :| Resolves(s, a, b, d, w);
      WitnessPlace(s, d, a, b, w);
      PairKept(s, d, i, r, s.inbox[i], a, b, w);
    }
  }

  lemma WitnessPlace(s: Sys, d: Option<nat>, a: nat, b: nat, w: Msg)
    requires SysOk(s) && Contend(s, a, b) && Resolves(s, a, b, d, w)
    ensures w.frame == ClaimFrame(s.nodes[a].name, s.nodes[a].sa) ==> w in s.inbox[b]
    ensures w.frame == ClaimFrame(s.nodes[b].name, s.nodes[b].sa) ==> w in s.inbox[a]
    ensures w.frame == ClaimFrame(s.nodes[a].name, s.nodes[a].sa)
            || w.frame == ClaimFrame(s.nodes[b].name, s.nodes[b].sa)
  {
    FramesDiffer(s.nodes[a].name, s.nodes[b].name, s.nodes[a].sa, s.nodes[b].sa);
    hide ClaimFrame;
  }

  lemma PairAfterOutside(s: Sys, d: Option<nat>, i: nat, id: DecodedId, data: seq<u8>, a: nat, b: nat)
    requires Inv(s, d) && i < |s.nodes| && !IsClaim(id, data)
    ensures Resolved(Next(s, Outside(i, id, data)), d, a, b)
  {
    hide ClaimFrame, Resolves, NameOf;
    var n := s.nodes[i];
    var r := After(s, Outside(i, id, data));
    StepsHonest(n, id, data, s.now);
    if (i == a || i == b) && |data| >= 9 && r == Announce(n, data[8], s.now) {
      PairAnew(s, d, i, data[8], s.inbox[i], a, b);
    } else if Contend(s, a, b) {
      assert Resolved(s, d, a, b);
      var w :| Resolves(s, a, b, d, w);
      WitnessPlace(s, d, a, b, w);
      PairKept(s, d, i, r, s.inbox[i], a, b, w);
    }
  }

  lemma PairAfterDeliver(s: Sys, d: Option<nat>, i: nat, k: nat, a: nat, b: nat)
    requires Inv(s, d) && i < |s.nodes| && k < |s.inbox[i]|
    ensures Resolved(Next(s, Deliver(i, k)), d, a, b)
  {
    hide ClaimFrame, Resolves, OnFrame, WireId;
    var n := s.nodes[i];
    var m := s.inbox[i][k];
    var r := After(s, Deliver(i, k));
    StepsHonest(n, WireId(m.frame), m.frame.data, s.now);
    var c := Delivered(s, i, k);
    if Contend(s, a, b) && !(r.startedAt.None? && (i == a || i == b)) {
      assert Resolved(s, d, a, b);
      var w :| Resolves(s, a, b, d, w);
      WitnessPlace(s, d, a, b, w);
      InWithout(s.inbox[i], k, w);
      FramesDiffer(s.nodes[a].name, s.nodes[c].name, s.nodes[a].sa, m.frame.source);
      FramesDiffer(s.nodes[b].name, s.nodes[c].name, s.nodes[b].sa, m.frame.source);
      FramesDiffer(s.nodes[a].name, s.nodes[b].name, s.nodes[a].sa, s.nodes[b].sa);
      if i == a && w == m {
        PairAnswered(s, d, i, r, Without(s.inbox[i], k), b, w);
      } else {
        PairKept(s, d, i, r, Without(s.inbox[i], k), a, b, w);
      }
    }
  }

  lemma PairAfter(s: Sys, d: Option<nat>, m: Move, a: nat, b: nat)
    requires Inv(s, d) && Enabled(s, m) && !m.Advance?
    ensures Resolved(Next(s, m), d, a, b)
  {
    hide Inv, Next, Resolved;
    match m
    case PollNode(i) => PairAfterPoll(s, d, i, a, b);
    case Deliver(i, k) => PairAfterDeliver(s, d, i, k, a, b);
    case Outside(i, id, data) => PairAfterOutside(s, d, i, id, data, a, b);
  }

  lemma MoveIsPost(s: Sys, m: Move)
    requires SysOk(s) && Enabled(s, m) && !m.Advance?
    ensures Next(s, m) == Post(s, m.i, After(s, m), Left(s, m))
    ensures forall x :: x in Left(s, m) ==> x in s.inbox[m.i]
    ensures Honest(s.nodes[m.i], After(s, m))
  {
    hide Post, ClaimFrame;
    var (id, data) := match m
      case PollNode(_) => (DecodedId(0, 0, 0, 0, None), [])
      case Deliver(i, k) => (WireId(s.inbox[i][k].frame), s.inbox[i][k].frame.data)
      case Outside(_, id, data) => (id, data);
    StepsHonest(s.nodes[m.i], id, data, s.now);
  }

  /** Only a lower NAME makes a node cede, and its clock fields stay in order. */
  lemma NodeAfter(s: Sys, d: Option<nat>, m: Move)
    requires Inv(s, d) && Enabled(s, m) && !m.Advance?
    ensures After(s, m).state.CannotClaim? ==> !IsLowest(s, m.i)
    ensures ClockOk(Next(s, m), m.i)
  {
    hide ClaimFrame, Resolved, NameOf, WireId;
    MoveIsPost(s, m);
    assert IsLowest(s, m.i) ==> !s.nodes[m.i].state.CannotClaim?;
    assert ClockOk(s, m.i);
    if m.Deliver? {
      hide OnFrame;
      var c := Delivered(s, m.i, m.k);
      assert IsLowest(s, m.i) ==> s.nodes[m.i].name <= s.nodes[c].name;
    }
  }

  lemma InvKept(s: Sys, d: Option<nat>, m: Move)
    requires Inv(s, d) && Enabled(s, m) && Timely(s, d, m)
    ensures Inv(Next(s, m), d)
  {
    hide Inv, Timely;
    if m.Advance? { InvLater(s, d, m.to); } else { InvMoved(s, d, m); }
  }

  lemma InvLater(s: Sys, d: Option<nat>, to: Instant)
    requires Inv(s, d) && Enabled(s, Advance(to)) && Timely(s, d, Advance(to))
    ensures Inv(s.(now := to), d)
  {
    hide Resolved, ClaimFrame, NodeOk;
    var t := s.(now := to);
    forall a: nat, b: nat ensures Resolved(t, d, a, b) { TimePasses(s, d, to, a, b); }
    forall j: nat, m | j < |t.inbox| && m in t.inbox[j] ensures FromOthers(t, j, m) {
      assert FromOthers(s, j, m);
      var k: nat :| k != j && ClaimOf(s, m, k);
      assert ClaimOf(t, m, k);
    }
    forall j: nat | j < |t.nodes| ensures ClockOk(t, j) { ClockKept(s, t, j); }
    assert forall l: nat :: IsLowest(t, l) ==> IsLowest(s, l);
  }

  lemma InvMoved(s: Sys, d: Option<nat>, m: Move)
    requires Inv(s, d) && Enabled(s, m) && !m.Advance?
    ensures Inv(Next(s, m), d)
  {
    hide Resolved, ClaimFrame, After, Honest, Next, SysOk, OnTime, ClockOk, Left;
    var t := Next(s, m);
    MoveIsPost(s, m);
    PostSysOk(s, m.i, After(s, m), Left(s, m), d);
    NodeAfter(s, d, m);
    SameNames(s, m);
    forall a: nat, b: nat ensures Resolved(t, d, a, b) { PairAfter(s, d, m, a, b); }
    forall j: nat | j < |t.nodes| ensures ClockOk(t, j) && (IsLowest(t, j) ==> !t.nodes[j].state.CannotClaim?) {
      ClockKept(s, t, j);
      assert ClockOk(s, j) && (IsLowest(s, j) ==> !s.nodes[j].state.CannotClaim?);
    }
  }

  lemma ClockKept(s: Sys, t: Sys, j: nat)
    requires j < |s.nodes| && j < |t.nodes|
    ensures ClockOk(s, j) && t.nodes[j] == s.nodes[j] && s.now <= t.now ==> ClockOk(t, j)
  {
  }

  lemma TimePasses(s: Sys, d: Option<nat>, to: Instant, a: nat, b: nat)
    requires Shaped(s) && Resolved(s, d, a, b)
    ensures Resolved(s.(now := to), d, a, b)
  {
    if Contend(s, a, b) {
      var m :| Resolves(s, a, b, d, m);
      assert Resolves(s.(now := to), a, b, d, m);
    }
  }

  /** No move changes who a node is, and every node but the moved one stays as it was. */
  lemma SameNames(s: Sys, m: Move)
    requires SysOk(s) && Enabled(s, m)
    ensures forall j :: 0 <= j < |s.nodes| ==>
              Next(s, m).nodes[j].name == s.nodes[j].name && Next(s, m).nodes[j].claimWait == s.nodes[j].claimWait
    ensures forall j :: 0 <= j < |s.nodes| && (m.Advance? || j != m.i) ==> Next(s, m).nodes[j] == s.nodes[j]
    ensures forall l: nat :: IsLowest(s, l) <==> IsLowest(Next(s, m), l)
  {
    if !m.Advance? {
      MoveIsPost(s, m);
      hide After;
      assert Honest(s.nodes[m.i], After(s, m));
    }
  }

  // ---- Whole runs -------------------------------------------------------------------------

  ghost predicate Initial(s: Sys) {
    && Shaped(s)
    && Distinct(s.nodes)
    && (forall i :: 0 <= i < |s.nodes| ==>
          s.nodes[i] == Fresh(s.nodes[i].sa, s.nodes[i].name, s.nodes[i].claimWait) && s.inbox[i] == [])
  }

  ghost predicate Reaches(s: Sys, d: Option<nat>, run: seq<Move>, t: Sys)
    decreases |run|
  {
    if run == [] then t == s
    else Enabled(s, run[0]) && Timely(s, d, run[0]) && Reaches(Next(s, run[0]), d, run[1..], t)
  }

  lemma InitialInv(s: Sys, d: Option<nat>)
    requires Initial(s)
    ensures Inv(s, d)
  {
    forall a: nat, b: nat ensures Resolved(s, d, a, b) { assert !Contend(s, a, b); }
    assert forall l: nat :: IsLowest(s, l) ==> s.nodes[l].state.Claiming?;
  }

  lemma {:induction false} InvReached(s: Sys, d: Option<nat>, run: seq<Move>, t: Sys)
    requires Inv(s, d) && Reaches(s, d, run, t)
    ensures Inv(t, d) && |t.nodes| == |s.nodes|
    ensures forall i :: 0 <= i < |s.nodes| ==>
              t.nodes[i].name == s.nodes[i].name && t.nodes[i].claimWait == s.nodes[i].claimWait
    decreases |run|
  {
    hide Resolved, Next, ClockOk;
    if run != [] {
      InvKept(s, d, run[0]);
      SameNames(s, run[0]);
      InvReached(Next(s, run[0]), d, run[1..], t);
    }
  }

  /** Every node has announced an address or has ceded. */
  predicate AllPolled(s: Sys) {
    forall i :: 0 <= i < |s.nodes| ==> s.nodes[i].state.CannotClaim? || s.nodes[i].startedAt.Some?
  }

  predicate Settled(s: Sys) { forall j :: 0 <= j < |s.inbox| ==> s.inbox[j] == [] }

  /** No two nodes that have not ceded hold the same address. */
  predicate Agreed(s: Sys) {
    forall i, j :: 0 <= i < j < |s.nodes| && !s.nodes[i].state.CannotClaim? && !s.nodes[j].state.CannotClaim?
      ==> s.nodes[i].sa != s.nodes[j].sa
  }

  lemma SettledAgrees(s: Sys)
    requires Inv(s, None) && Settled(s) && AllPolled(s)
    ensures Agreed(s)
  {
    forall i: nat, j: nat | i < j < |s.nodes| && !s.nodes[i].state.CannotClaim? && !s.nodes[j].state.CannotClaim?
      ensures s.nodes[i].sa != s.nodes[j].sa
    {
      assert Resolved(s, None, i, j) && Resolved(s, None, j, i);
    }
  }

  /** For any number of engines with distinct NAMEs and any run: at rest, with every engine polled, no two
      engines that have not ceded hold the same address; and at no point of the run has the engine with the
      lowest NAME ceded. */
  lemma AgreementAtRest(s: Sys, run: seq<Move>, t: Sys)
    requires Initial(s) && Reaches(s, None, run, t)
    ensures Settled(t) && AllPolled(t) ==> Agreed(t)
    ensures |t.nodes| == |s.nodes| && forall l: nat :: IsLowest(s, l) ==> !t.nodes[l].state.CannotClaim?
  {
    InitialInv(s, None);
    InvReached(s, None, run, t);
    if Settled(t) && AllPolled(t) { SettledAgrees(t); }
    forall l: nat | IsLowest(s, l) ensures !t.nodes[l].state.CannotClaim? { assert IsLowest(t, l); }
  }

  /** When every frame arrives within `d` of being queued and twice `d` is less than every claim window, no two
      engines ever hold the same address as claimed, whatever addresses are commanded during the run. */
  lemma TimedExclusivity(s: Sys, d: nat, run: seq<Move>, t: Sys)
    requires Initial(s) && Reaches(s, Some(d), run, t)
    requires forall i :: 0 <= i < |s.nodes| ==> 2 * d < s.nodes[i].claimWait
    ensures forall i, j :: 0 <= i < j < |t.nodes| && t.nodes[i].state.Claimed? && t.nodes[j].state.Claimed?
              ==> t.nodes[i].sa != t.nodes[j].sa
  {
    InitialInv(s, Some(d));
    InvReached(s, Some(d), run, t);
    forall i: nat, j: nat | i < j < |t.nodes| && t.nodes[i].state.Claimed? && t.nodes[j].state.Claimed?
      ensures t.nodes[i].sa != t.nodes[j].sa
    {
      assert ClockOk(t, i) && ClockOk(t, j) && NodeOk(t.nodes[i]) && NodeOk(t.nodes[j]);
      NotBothClaimed(t, d, i, j);
      NotBothClaimed(t, d, j, i);
    }
  }

  lemma NotBothClaimed(t: Sys, d: nat, a: nat, b: nat)
    requires Inv(t, Some(d)) && a < |t.nodes| && b < |t.nodes|
    requires t.nodes[a].state.Claimed? && t.nodes[b].state.Claimed?
    requires 2 * d < t.nodes[a].claimWait && 2 * d < t.nodes[b].claimWait
    ensures !Contend(t, a, b)
  {
    assert Resolved(t, Some(d), a, b) && ClockOk(t, a) && ClockOk(t, b);
  }
}
