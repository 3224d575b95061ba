/** The address-claim state machine of one node as transition functions. */
module ClaimSteps {
  import opened Bytes
  import opened J1939Id
  import opened TpTypes
  import TpWire

  const ADDRESS_CLAIMED_PGN: Pgn := 60928
  const REQUEST_PGN: Pgn := 59904
  const COMMANDED_ADDRESS_PGN: Pgn := 65240
  const NULL_ADDRESS: u8 := 0xFE
  const ADDRESS_CLAIM_PRIORITY: u8 := 6
  const REQUEST_FOR_ADDRESS_CLAIMED: seq<u8> := [0x00, 0xEE, 0x00]

  datatype ClaimState = Claiming | Claimed | CannotClaim

  datatype AcEvent = NowClaiming(source: u8) | NowClaimed(source: u8) | NowCannotClaim

  datatype Node = Node(name: u64, sa: u8, state: ClaimState, claimWait: nat,
                       startedAt: Option<Instant>, out: seq<OutFrame>)

  /** What the fields of a node say about each other. */
  predicate NodeOk(n: Node) {
    && (n.state.CannotClaim? ==> n.sa == NULL_ADDRESS && n.startedAt.None?)
    && (n.state.Claimed? ==> n.startedAt.Some?)
  }

  function Fresh(sa: u8, name: u64, claimWait: nat): (n: Node)
    ensures NodeOk(n)
  {
    Node(name, sa, Claiming, claimWait, None, [])
  }

  // ---- Transitions ------------------------------------------------------------

  /** Address Claimed by `name` from `sa`, broadcast; from the null address it says "cannot claim". */
  function ClaimFrame(name: u64, sa: u8): (f: OutFrame)
    ensures f.source == sa
  {
    OutFrame(ADDRESS_CLAIMED_PGN, ADDRESS_CLAIM_PRIORITY, sa, Some(GLOBAL_ADDRESS), LeBytes(name, 8))
  }

  function NameOf(d: seq<u8>): nat
    requires |d| >= 8
  {
    LeValue(d[..8])
  }

  function Emit(n: Node, sa: u8): Node { n.(out := n.out + [ClaimFrame(n.name, sa)]) }

  /** The claim window that began at `start` is over. A window of no length always is. */
  predicate WindowOver(start: Instant, wait: nat, now: Instant) { wait == 0 || now >= start + wait }

  /** A node that starts a claim window for `sa`: the claim is announced at once. */
  function Announce(n: Node, sa: u8, now: Instant): Node {
    Emit(n.(sa := sa, state := Claiming, startedAt := Some(now)), sa)
  }

  /** A claim that was announced holds from the first poll on whose time is past the claim window. */
  function Poll(n: Node, now: Instant): (r: (Node, seq<AcEvent>))
    ensures NodeOk(n) ==> NodeOk(r.0)
    ensures n.state.Claiming? && n.startedAt.Some? ==>
              (r.0.state.Claimed? <==> WindowOver(n.startedAt.value, n.claimWait, now))
    ensures r.0.state.Claimed? && !n.state.Claimed? ==> r.1 == [NowClaimed(n.sa)] && r.0 == n.(state := Claimed)
  {
    if !n.state.Claiming? then (n, [])
    else if n.startedAt.None? then (Announce(n, n.sa, now), [NowClaiming(n.sa)])
    else if SatSub(now, n.startedAt.value) >= n.claimWait then (n.(state := Claimed), [NowClaimed(n.sa)])
    else (n, [])
  }

  /** Arbitration: a lower NAME on our address makes us cede, a higher one makes us claim again. */
  function OnClaim(n: Node, sa: u8, name: nat): (r: (Node, seq<AcEvent>))
    ensures NodeOk(n) ==> NodeOk(r.0)
  {
    if n.state.CannotClaim? || sa != n.sa || name == n.name then (n, [])
    else if name < n.name then
      (Emit(n.(state := CannotClaim, sa := NULL_ADDRESS, startedAt := None), NULL_ADDRESS), [NowCannotClaim])
    else (Emit(n, n.sa), [])
  }

  /** The data of a request asks for Address Claimed. */
  predicate AsksForClaim(d: seq<u8>) { |d| >= 3 && d[0] == 0x00 && d[1] == 0xEE && d[2] == 0x00 }

  /** A request is answered with one claim of the address held, or of the null address after a cession. */
  function OnRequest(n: Node, d: seq<u8>): (r: Node)
    ensures NodeOk(n) ==> NodeOk(r)
    ensures r == n.(out := r.out)
    ensures AsksForClaim(d) ==>
              |r.out| == |n.out| + 1 && n.out <= r.out
              && r.out[|n.out|].source == (if n.state.CannotClaim? then NULL_ADDRESS else n.sa)
    ensures !AsksForClaim(d) ==> r == n
  {
    if |d| < 3 || d[..3] != REQUEST_FOR_ADDRESS_CLAIMED then n
    else Emit(n, if n.state.CannotClaim? then NULL_ADDRESS else n.sa)
  }

  /** The data of a commanded address is meant for the node with NAME `name`. */
  predicate Commands(d: seq<u8>, name: u64) { |d| >= 9 && NameOf(d) == name }

  /** A command for our NAME makes us claim the address in its ninth byte, announced at once; another is ignored. */
  function OnCommandedAddress(n: Node, d: seq<u8>, now: Instant): (r: (Node, seq<AcEvent>))
    ensures NodeOk(n) ==> NodeOk(r.0)
    ensures Commands(d, n.name) ==>
              && r.0.sa == d[8] && r.0.state == Claiming && r.0.startedAt == Some(now) && r.0.name == n.name
              && |r.0.out| == |n.out| + 1 && n.out <= r.0.out && r.0.out[|n.out|].source == d[8]
              && r.1 == [NowClaiming(d[8])]
    ensures !Commands(d, n.name) ==> r == (n, [])
  {
    if |d| < 9 || NameOf(d) != n.name then (n, [])
    else (Announce(n, d[8], now), [NowClaiming(d[8])])
  }

  function OnFrame(n: Node, id: DecodedId, d: seq<u8>, now: Instant): (r: (Node, seq<AcEvent>))
    ensures NodeOk(n) ==> NodeOk(r.0)
  {
    if id.pgn == ADDRESS_CLAIMED_PGN then (if |d| < 8 then (n, []) else OnClaim(n, id.source, NameOf(d)))
    else if id.pgn == REQUEST_PGN then (OnRequest(n, d), [])
    else if id.pgn == COMMANDED_ADDRESS_PGN then OnCommandedAddress(n, d, now)
    else (n, [])
  }

  /** A claim frame keeps its meaning over the wire: the receiver arbitrates against the sender's NAME and
      address. */
  lemma ClaimArrives(n: Node, name: u64, sa: u8, now: Instant)
    ensures var f := ClaimFrame(name, sa);
            OnFrame(n, TpWire.WireId(f), f.data, now) == OnClaim(n, sa, name)
  {
    var f := ClaimFrame(name, sa);
    DecodeEncode(f.wirePgn, f.priority, f.source, f.dest);
    LeRoundTrip64(name);
    assert f.data[..8] == f.data;
  }

  // ---- Runs of one node -------------------------------------------------------

  /** The gate's state after `events` were reflected onto it in order. */
  function Reflect(gate: ClaimState, events: seq<AcEvent>): ClaimState {
    if events == [] then gate
    else match events[|events| - 1]
      case NowClaiming(_) => Claiming
      case NowClaimed(_) => Claimed
      case NowCannotClaim => CannotClaim
  }

  /** One call on a node. */
  datatype Call = Tick(now: Instant) | Receive(id: DecodedId, data: seq<u8>, now: Instant) | Drain

  function StepNode(n: Node, c: Call): (r: (Node, seq<AcEvent>))
    ensures NodeOk(n) ==> NodeOk(r.0)
  {
    match c
    case Tick(now) => Poll(n, now)
    case Receive(id, d, now) => OnFrame(n, id, d, now)
    case Drain => (n.(out := []), [])
  }

  /** A node after a run of calls, and the events of all of them. */
  function RunCalls(n: Node, calls: seq<Call>): (r: (Node, seq<AcEvent>))
    decreases |calls|
  {
    if calls == [] then (n, [])
    else
      var s := StepNode(n, calls[0]);
      var t := RunCalls(s.0, calls[1..]);
      (t.0, s.1 + t.1)
  }

  // ---- What becomes of a claim -------------------------------------------------

  /** The call brings a claim of the same address by a lower NAME. */
  predicate Outbids(c: Call, name: u64, sa: u8) {
    && c.Receive? && c.id.pgn == ADDRESS_CLAIMED_PGN && |c.data| >= 8
    && c.id.source == sa && NameOf(c.data) < name
  }

  predicate Outbid(calls: seq<Call>, name: u64, sa: u8) { exists i :: 0 <= i < |calls| && Outbids(calls[i], name, sa) }

  /** The call is a poll after the claim window that began at `start`. */
  predicate PollsLate(c: Call, start: Instant, wait: nat) { c.Tick? && WindowOver(start, wait, c.now) }

  predicate PolledLate(calls: seq<Call>, start: Instant, wait: nat) {
    exists i :: 0 <= i < |calls| && PollsLate(calls[i], start, wait)
  }

  predicate Commanded(c: Call, name: u64) {
    c.Receive? && c.id.pgn == COMMANDED_ADDRESS_PGN && Commands(c.data, name)
  }

  predicate NotCommanded(calls: seq<Call>, name: u64) {
    forall i :: 0 <= i < |calls| ==> !Commanded(calls[i], name)
  }

  /** A node that has ceded stays so until it is commanded, and reports nothing. */
  lemma {:induction false} CededStays(n: Node, calls: seq<Call>)
    requires n.state.CannotClaim? && NotCommanded(calls, n.name)
    ensures RunCalls(n, calls).0.state.CannotClaim? && RunCalls(n, calls).1 == []
    decreases |calls|
  {
    hide NameOf;
    if calls != [] {
      assert !Commanded(calls[0], n.name);
      CededStays(StepNode(n, calls[0]).0, calls[1..]);
    }
  }

  lemma OutbidFrom(calls: seq<Call>, name: u64, sa: u8)
    requires calls != []
    ensures Outbid(calls, name, sa) <==> Outbids(calls[0], name, sa) || Outbid(calls[1..], name, sa)
  {
    hide Outbids;
    if i :| 0 < i < |calls| && Outbids(calls[i], name, sa) { assert calls[1..][i - 1] == calls[i]; }
  }

  lemma PolledLateFrom(calls: seq<Call>, start: Instant, wait: nat)
    requires calls != []
    ensures PolledLate(calls, start, wait) <==> PollsLate(calls[0], start, wait) || PolledLate(calls[1..], start, wait)
  {
    hide PollsLate;
    if i :| 0 < i < |calls| && PollsLate(calls[i], start, wait) { assert calls[1..][i - 1] == calls[i]; }
  }

  /** One call on a node that has announced its address. */
  lemma ClaimStep(n: Node, start: Instant, c: Call)
    requires !n.state.CannotClaim? && n.startedAt == Some(start) && !Commanded(c, n.name)
    ensures var r := StepNode(n, c);
            && r.0.name == n.name && r.0.claimWait == n.claimWait
            && (Outbids(c, n.name, n.sa) ==> r.0.state.CannotClaim? && r.1 == [NowCannotClaim])
            && (!Outbids(c, n.name, n.sa) ==>
                  && r.0.sa == n.sa && r.0.startedAt == n.startedAt
                  && if n.state.Claiming? && PollsLate(c, start, n.claimWait)
                     then r.0.state.Claimed? && r.1 == [NowClaimed(n.sa)] else r.0.state == n.state && r.1 == [])
  {
    hide NameOf;
  }

  /** What becomes of a claim announced at `start`, whatever calls follow but a command: it is lost exactly when a
      lower NAME claims the address; otherwise it holds exactly from the first poll after the claim window on, which
      is reported once. */
  lemma {:induction false} ClaimOutcome(n: Node, start: Instant, calls: seq<Call>)
    requires !n.state.CannotClaim? && n.startedAt == Some(start) && NotCommanded(calls, n.name)
    ensures var r := RunCalls(n, calls);
            && (r.0.state.CannotClaim? <==> Outbid(calls, n.name, n.sa))
            && (!Outbid(calls, n.name, n.sa) ==>
                  && r.0.sa == n.sa && r.0.startedAt == Some(start)
                  && (r.0.state.Claimed? <==> n.state.Claimed? || PolledLate(calls, start, n.claimWait))
                  && r.1 == if n.state.Claiming? && r.0.state.Claimed? then [NowClaimed(n.sa)] else [])
    decreases |calls|
  {
    hide Outbids, PollsLate, Outbid, PolledLate, StepNode, Commanded;
    if calls == [] {
      NothingCalled(n.name, n.sa, start, n.claimWait);
    } else {
      OutbidFrom(calls, n.name, n.sa);
      PolledLateFrom(calls, start, n.claimWait);
      ClaimStep(n, start, calls[0]);
      var s := StepNode(n, calls[0]);
      if Outbids(calls[0], n.name, n.sa) {
        CededStays(s.0, calls[1..]);
      } else {
        ClaimOutcome(s.0, start, calls[1..]);
      }
    }
  }

  lemma NothingCalled(name: u64, sa: u8, start: Instant, wait: nat)
    ensures !Outbid([], name, sa) && !PolledLate([], start, wait)
  {
  }

  /** An engine that announces its address with its first poll, at `start`, and hears of no lower NAME for it nor of a
      command, is claiming until a poll comes after the claim window and holds the address from then on. */
  lemma AnnouncedThenHeld(sa: u8, name: u64, wait: nat, start: Instant, calls: seq<Call>)
    requires !Outbid(calls, name, sa) && NotCommanded(calls, name)
    ensures var r := RunCalls(Fresh(sa, name, wait), [Tick(start)] + calls);
            if PolledLate(calls, start, wait) then r.0.state == Claimed && r.1 == [NowClaiming(sa), NowClaimed(sa)]
            else r.0.state == Claiming && r.1 == [NowClaiming(sa)]
  {
    hide Outbid, PolledLate, NotCommanded, RunCalls;
    var n := Fresh(sa, name, wait);
    var s := StepNode(n, Tick(start));
    assert ([Tick(start)] + calls)[1..] == calls;
    FirstCall(n, [Tick(start)] + calls);
    ClaimOutcome(s.0, start, calls);
  }

  lemma FirstCall(n: Node, calls: seq<Call>)
    requires calls != []
    ensures var s := StepNode(n, calls[0]);
            RunCalls(n, calls) == (RunCalls(s.0, calls[1..]).0, s.1 + RunCalls(s.0, calls[1..]).1)
  {
  }

  /** However the calls are grouped into dispatcher iterations, a gate that showed the engine's state before
      an iteration shows it again once the events are reflected: it opens exactly while the address is held. */
  lemma {:induction false} GateTracksEngine(n: Node, calls: seq<Call>)
    ensures Reflect(n.state, RunCalls(n, calls).1) == RunCalls(n, calls).0.state
    decreases |calls|
  {
    if calls != [] {
      var s := StepNode(n, calls[0]);
      GateTracksEngine(s.0, calls[1..]);
      var rest := RunCalls(s.0, calls[1..]).1;
      assert Reflect(n.state, s.1) == s.0.state;
      if rest == [] { assert s.1 + rest == s.1; }
    }
  }
}
