/** Arbitration succeeds: from every state of every run the nodes can be brought to hold their addresses, by
    polling them, delivering what is pending, waiting and polling again. */
module ClaimHolds {
  import opened Bytes
  import opened J1939Id
  import opened TpTypes
  import opened ClaimSteps
  import opened ClaimSystem
  import opened ClaimSettles

  predicate AllPolls(run: seq<Move>) { forall j :: 0 <= j < |run| ==> run[j].PollNode? }

  lemma {:induction false} ReachesOn(s: Sys, p: seq<Move>, u: Sys, q: seq<Move>, t: Sys)
    requires Reaches(s, None, p, u) && Reaches(u, None, q, t)
    ensures Reaches(s, None, p + q, t)
    decreases |p|
  {
    hide Next;
    if p == [] {
      assert p + q == q;
    } else {
      ReachesOn(Next(s, p[0]), p[1..], u, q, t);
      assert (p + q)[1..] == p[1..] + q;
    }
  }

  function Polled(n: Node, now: Instant): Node { Poll(n, now).0.(out := []) }

  lemma PollMove(s: Sys, i: nat)
    requires Inv(s, None) && i < |s.nodes|
    ensures Enabled(s, PollNode(i))
    ensures var t := Next(s, PollNode(i));
            && Inv(t, None) && t.now == s.now && t.nodes == s.nodes[i := Polled(s.nodes[i], s.now)]
            && (Poll(s.nodes[i], s.now).0.out == [] ==> t.inbox == s.inbox)
  {
    InvKept(s, None, PollNode(i));
    hide Inv, Poll;
    var t := Next(s, PollNode(i));
    if Poll(s.nodes[i], s.now).0.out == [] {
      assert Sent([], s.now) == [];
      assert forall j :: 0 <= j < |s.inbox| ==> t.inbox[j] == s.inbox[j];
    }
  }

  /** Polling the nodes from `i` on, one after the other. */
  lemma {:induction false} PollsAll(s: Sys, i: nat) returns (run: seq<Move>, t: Sys)
    requires Inv(s, None) && i <= |s.nodes|
    ensures AllPolls(run) && |run| == |s.nodes| - i && Reaches(s, None, run, t) && Inv(t, None)
    ensures |t.nodes| == |s.nodes| && t.now == s.now
    ensures forall j :: 0 <= j < |s.nodes| ==> t.nodes[j] == if j < i then s.nodes[j] else Polled(s.nodes[j], s.now)
    ensures (forall j :: i <= j < |s.nodes| ==> Poll(s.nodes[j], s.now).0.out == []) ==> t.inbox == s.inbox
    decreases |s.nodes| - i
  {
    hide Inv, Poll, Next, Polled;
    if i == |s.nodes| {
      run, t := [], s;
    } else {
      PollMove(s, i);
      var rest, u := PollsAll(Next(s, PollNode(i)), i + 1);
      run, t := [PollNode(i)] + rest, u;
      assert run[1..] == rest;
    }
  }

  /** Every claim window that has begun is over at `to`. */
  predicate WindowsOver(s: Sys, to: Instant) {
    forall i :: 0 <= i < |s.nodes| && s.nodes[i].startedAt.Some? ==>
      s.nodes[i].startedAt.value + s.nodes[i].claimWait <= to
  }

  /** Every node that has not ceded holds its address. */
  predicate AllHeld(s: Sys) {
    forall i :: 0 <= i < |s.nodes| ==> s.nodes[i].state.CannotClaim? || s.nodes[i].state.Claimed?
  }

  /** Some time by which all windows are over. */
  lemma {:induction false} LatestEnd(nodes: seq<Node>, now: Instant) returns (to: Instant)
    ensures to >= now
    ensures forall i :: 0 <= i < |nodes| && nodes[i].startedAt.Some? ==>
              nodes[i].startedAt.value + nodes[i].claimWait <= to
    decreases |nodes|
  {
    to := now;
    if nodes != [] {
      var n := nodes[0];
      to := LatestEnd(nodes[1..], if n.startedAt.Some? then Max(now, n.startedAt.value + n.claimWait) else now);
      assert forall i :: 1 <= i < |nodes| ==> nodes[i] == nodes[1..][i - 1];
    }
  }

  lemma PollWhenOver(n: Node, now: Instant)
    requires NodeOk(n) && n.out == [] && (n.state.CannotClaim? || n.startedAt.Some?)
    requires n.startedAt.Some? ==> n.startedAt.value + n.claimWait <= now
    ensures Poll(n, now).0 == if n.state.CannotClaim? then n else n.(state := Claimed)
  {
  }

  /** At rest, with every node polled, waiting until the windows are over and polling every node once leaves every
      node that has not ceded in possession of its address, and all addresses held are distinct. */
  lemma WaitAndPoll(s: Sys, to: Instant) returns (run: seq<Move>, t: Sys)
    requires Inv(s, None) && Settled(s) && AllPolled(s) && s.now <= to && WindowsOver(s, to)
    ensures |run| == |s.nodes| + 1 && run[0] == Advance(to) && AllPolls(run[1..]) && Reaches(s, None, run, t)
    ensures |t.nodes| == |s.nodes| && Settled(t) && Agreed(t) && AllHeld(t)
    ensures forall i :: 0 <= i < |s.nodes| ==>
              t.nodes[i] == if s.nodes[i].state.CannotClaim? then s.nodes[i] else s.nodes[i].(state := Claimed)
  {
    hide Resolved, ClockOk, Poll;
    var late := s.(now := to);
    InvKept(s, None, Advance(to));
    forall j | 0 <= j < |s.nodes|
      ensures Poll(s.nodes[j], to).0 == if s.nodes[j].state.CannotClaim? then s.nodes[j]
                                        else s.nodes[j].(state := Claimed)
    {
      PollWhenOver(s.nodes[j], to);
    }
    var polls, u := PollsAll(late, 0);
    run, t := [Advance(to)] + polls, u;
    assert run[1..] == polls;
    assert Next(s, Advance(to)) == late;
    SettledAgrees(t);
  }

  lemma PollAnnounces(n: Node, now: Instant)
    requires NodeOk(n)
    ensures var r := Polled(n, now); r.state.CannotClaim? || r.startedAt.Some?
  {
  }

  /** The four parts of a run that ends with every address claimed. */
  predicate Claims(run: seq<Move>, polls: seq<Move>, deliveries: seq<Move>, to: Instant, again: seq<Move>) {
    AllPolls(polls) && AllDeliveries(deliveries) && AllPolls(again) && run == polls + deliveries + [Advance(to)] + again
  }

  /** From every state of every run: polling every node once, delivering what is pending, waiting until the windows
      are over and polling every node once more ends with every node that has not ceded in possession of its address,
      no two of the same, and the lowest NAME among them. */
  lemma EveryNodeClaims(s: Sys)
    returns (run: seq<Move>, t: Sys, polls: seq<Move>, deliveries: seq<Move>, to: Instant, again: seq<Move>)
    requires Inv(s, None)
    ensures Claims(run, polls, deliveries, to, again) && Reaches(s, None, run, t)
    ensures |t.nodes| == |s.nodes| && Settled(t) && AllHeld(t) && Agreed(t)
    ensures forall l: nat :: IsLowest(s, l) ==> t.nodes[l].state.Claimed?
  {
    hide Inv, Next, Reaches, Polled, Settled, Agreed, AllHeld;
    assert forall j :: 0 <= j < |s.nodes| ==> NodeOk(s.nodes[j]) by { NodesOk(s); }
    var s1, s2, rest;
    polls, s1 := PollsAll(s, 0);
    forall j | 0 <= j < |s.nodes| { PollAnnounces(s.nodes[j], s.now); }
    assert AllPolled(s1);
    deliveries, s2 := Settles(s1);
    to := LatestEnd(s2.nodes, s2.now);
    InvReached(s1, None, deliveries, s2);
    rest, t := WaitAndPoll(s2, to);
    again := rest[1..];
    assert rest == [Advance(to)] + again;
    ReachesOn(s, polls, s1, deliveries, s2);
    ReachesOn(s, polls + deliveries, s2, rest, t);
    run := polls + deliveries + [Advance(to)] + again;
    assert run == polls + deliveries + rest;
    InvReached(s, None, polls + deliveries, s2);
    LowestHolds(s, s2, t);
  }

  lemma NodesOk(s: Sys)
    requires Inv(s, None)
    ensures forall j :: 0 <= j < |s.nodes| ==> NodeOk(s.nodes[j])
  {
    hide Resolved, ClockOk, NodeOk;
  }

  /** The lowest NAME has not ceded, so it is among those that hold an address. */
  lemma LowestHolds(s: Sys, u: Sys, t: Sys)
    requires Inv(u, None) && |s.nodes| == |u.nodes| == |t.nodes|
    requires forall i :: 0 <= i < |s.nodes| ==> u.nodes[i].name == s.nodes[i].name
    requires forall i :: 0 <= i < |u.nodes| ==>
               t.nodes[i] == if u.nodes[i].state.CannotClaim? then u.nodes[i] else u.nodes[i].(state := Claimed)
    ensures forall l: nat :: IsLowest(s, l) ==> t.nodes[l].state.Claimed?
  {
    hide SysOk, OnTime, ClockOk, Resolved;
    forall l: nat | IsLowest(s, l) ensures t.nodes[l].state.Claimed? { assert IsLowest(u, l); }
  }
}
