/** Two engines joined by a lossless, in-order link, with any other traffic arriving at both.
    Frames cross the link under their 29-bit identifiers. After each call the outbound queue is drained:
    frames for the partner enter the link, all others leave the system. */
module TpNet {
  import opened Bytes
  import opened J1939Id
  import opened TpTypes
  import opened TpWire
  import opened TpSteps
  import opened TpSafety

  /** The two nodes, the frames under way from `a` to `b` and back, when each node last heard the other, what the
      link deliveries reported at each node, the grants `b` issued and the number of deliveries so far. */
  datatype Net = Net(a: Engine, b: Engine, ab: seq<OutFrame>, ba: seq<OutFrame>, aHeard: Instant, bHeard: Instant,
                     aEvents: seq<Event>, bEvents: seq<Event>, grants: nat, deliveries: nat, panicked: bool)

  /** The addresses of `a` and `b`. */
  datatype Link = Link(sa: u8, da: u8)

  /** A link delivery, or any call on a node that concerns other peers. */
  datatype Move =
    | ToA(now: Instant, pick: Key)
    | ToB(now: Instant, pick: Key)
    | OtherAtA(call: Input)
    | OtherAtB(call: Input)

  /** At `now` no limit has passed for a session under `k`. */
  predicate InTime(e: Engine, now: Instant, k: Key) {
    && (k in e.rxConn ==> now <= e.rxConn[k].lastActivity + e.config.t2)
    && (k in e.txConn ==> now <= e.txConn[k].lastActivity + e.config.t3)
    && (k in e.etpRx ==> now <= e.etpRx[k].lastActivity + e.config.t2)
    && (k in e.etpTx ==> now <= e.etpTx[k].lastActivity + e.config.t3)
  }

  ghost predicate PeerInTime(e: Engine, now: Instant, x: u8) { forall k: Key :: k.sa == x ==> InTime(e, now, k) }

  // One session told apart from the others with its peer.

  lemma TxApart(e: Engine, now: Instant, k: Key)
    requires k in e.txConn
    ensures PeerInTime(e, now, k.sa) <==>
            now <= e.txConn[k].lastActivity + e.config.t3 && PeerInTime(e.(txConn := e.txConn - {k}), now, k.sa)
  {
    var rest := e.(txConn := e.txConn - {k});
    assert forall q: Key :: InTime(e, now, q) <==>
             InTime(rest, now, q) && (q == k ==> now <= e.txConn[k].lastActivity + e.config.t3);
  }

  lemma RxApart(e: Engine, now: Instant, k: Key)
    requires k in e.rxConn
    ensures PeerInTime(e, now, k.sa) <==>
            now <= e.rxConn[k].lastActivity + e.config.t2 && PeerInTime(e.(rxConn := e.rxConn - {k}), now, k.sa)
  {
    var rest := e.(rxConn := e.rxConn - {k});
    assert forall q: Key :: InTime(e, now, q) <==>
             InTime(rest, now, q) && (q == k ==> now <= e.rxConn[k].lastActivity + e.config.t2);
  }

  lemma EtpTxApart(e: Engine, now: Instant, k: Key)
    requires k in e.etpTx
    ensures PeerInTime(e, now, k.sa) <==>
            now <= e.etpTx[k].lastActivity + e.config.t3 && PeerInTime(e.(etpTx := e.etpTx - {k}), now, k.sa)
  {
    var rest := e.(etpTx := e.etpTx - {k});
    assert forall q: Key :: InTime(e, now, q) <==>
             InTime(rest, now, q) && (q == k ==> now <= e.etpTx[k].lastActivity + e.config.t3);
  }

  lemma EtpRxApart(e: Engine, now: Instant, k: Key)
    requires k in e.etpRx
    ensures PeerInTime(e, now, k.sa) <==>
            now <= e.etpRx[k].lastActivity + e.config.t2 && PeerInTime(e.(etpRx := e.etpRx - {k}), now, k.sa)
  {
    var rest := e.(etpRx := e.etpRx - {k});
    assert forall q: Key :: InTime(e, now, q) <==>
             InTime(rest, now, q) && (q == k ==> now <= e.etpRx[k].lastActivity + e.config.t2);
  }

  /** The call does not concern the peer `x`: a frame from another source, a timeout sweep while no limit
      has passed for a connection with `x`, a transfer opened to another peer. A frame from elsewhere that would
      panic the node is left out. */
  ghost predicate Elsewhere(e: Engine, i: Input, x: u8)
    requires Valid(e)
  {
    match i
    case Frame(id, d, now, pick) => id.source != x && !OnFrame(e, id, d, now, pick).panicked
    case Poll(now, _) => PeerInTime(e, now, x)
    case OpenConn(_, _, _, dest, _, _) => dest != x
    case OpenEtp(_, _, _, dest, _, _) => dest != x
    case TakeOutbound => true
  }

  function Towards(fs: seq<OutFrame>, x: u8): seq<OutFrame> {
    if fs == [] then [] else (if fs[0].dest == Some(x) then [fs[0]] else []) + Towards(fs[1..], x)
  }

  lemma {:induction false} AllTowards(fs: seq<OutFrame>, x: u8)
    requires forall i :: 0 <= i < |fs| ==> fs[i].dest == Some(x)
    ensures Towards(fs, x) == fs
  {
    if fs != [] {
      AllTowards(fs[1..], x);
      assert fs == [fs[0]] + fs[1..];
    }
  }

  lemma {:induction false} NoneTowards(fs: seq<OutFrame>, x: u8)
    requires forall i :: 0 <= i < |fs| ==> fs[i].dest != Some(x)
    ensures Towards(fs, x) == []
  {
    if fs != [] { NoneTowards(fs[1..], x); }
  }

  function Grants(fs: seq<OutFrame>): nat {
    if fs == [] then 0 else (if IsCts(fs[0]) || IsEtpCts(fs[0]) then 1 else 0) + Grants(fs[1..])
  }

  ghost predicate NetOk(n: Net) { Valid(n.a) && Valid(n.b) && n.a.out == [] && n.b.out == [] }

  function Drained(e: Engine): Engine { e.(out := []) }

  /** One move. A delivery from an empty queue and a call that concerns the partner are no moves and change
      nothing. */
  ghost function Next(n: Net, l: Link, mv: Move): (n': Net)
    requires NetOk(n)
    ensures NetOk(n')
  {
    hide Valid, OnFrame, Elsewhere, Step;
    match mv
    case ToA(now, pick) =>
      if n.ba == [] then n
      else
        var r := OnFrame(n.a, WireId(n.ba[0]), n.ba[0].data, now, pick);
        DrainValid(r.engine);
        n.(a := Drained(r.engine), ba := n.ba[1..], ab := n.ab + Towards(r.engine.out, l.da), aHeard := now,
           aEvents := n.aEvents + r.events, deliveries := n.deliveries + 1, panicked := n.panicked || r.panicked)
    case ToB(now, pick) =>
      if n.ab == [] then n
      else
        var r := OnFrame(n.b, WireId(n.ab[0]), n.ab[0].data, now, pick);
        DrainValid(r.engine);
        n.(b := Drained(r.engine), ab := n.ab[1..], ba := n.ba + Towards(r.engine.out, l.sa), bHeard := now,
           bEvents := n.bEvents + r.events, deliveries := n.deliveries + 1,
           grants := n.grants + Grants(Towards(r.engine.out, l.sa)), panicked := n.panicked || r.panicked)
    case OtherAtA(call) =>
      if !Elsewhere(n.a, call, l.da) then n
      else
        var r := Step(n.a, call);
        DrainValid(r.engine);
        n.(a := Drained(r.engine), ab := n.ab + Towards(r.engine.out, l.da))
    case OtherAtB(call) =>
      if !Elsewhere(n.b, call, l.sa) then n
      else
        var r := Step(n.b, call);
        DrainValid(r.engine);
        n.(b := Drained(r.engine), ba := n.ba + Towards(r.engine.out, l.sa))
  }

  ghost function Moves(n: Net, l: Link, mvs: seq<Move>): (n': Net)
    requires NetOk(n)
    ensures NetOk(n')
    decreases |mvs|
  {
    if mvs == [] then n else Moves(Next(n, l, mvs[0]), l, mvs[1..])
  }

  lemma {:induction false} MovesConcat(n: Net, l: Link, p: seq<Move>, q: seq<Move>)
    requires NetOk(n)
    ensures Moves(n, l, p + q) == Moves(Moves(n, l, p), l, q)
    decreases |p|
  {
    hide NetOk, Next;
    if p == [] {
      assert p + q == q;
    } else {
      MovesConcat(Next(n, l, p[0]), l, p[1..], q);
      assert (p + q)[1..] == p[1..] + q;
    }
  }

  predicate OnlyDeliveries(mvs: seq<Move>) { forall i :: 0 <= i < |mvs| ==> mvs[i].ToA? || mvs[i].ToB? }

  /** A delivery that is due, if one is. */
  function NextDelivery(n: Net): (mv: Move)
    ensures mv.ToA? || mv.ToB?
  {
    if n.ab != [] then ToB(0, Key(0, 0)) else ToA(0, Key(0, 0))
  }

  ghost predicate SameFor<T(!new)>(m: map<Key, T>, m': map<Key, T>, x: u8) {
    forall k: Key :: k.sa == x ==> (k in m <==> k in m') && (k in m ==> m[k] == m'[k])
  }

  /** What a call elsewhere leaves as it is: the sessions with `x`, the limits, and the link to `x`. */
  ghost predicate KeepsPeer(e: Engine, e': Engine, x: u8) {
    && e'.config == e.config
    && SameFor(e.rxConn, e'.rxConn, x) && SameFor(e.txConn, e'.txConn, x)
    && SameFor(e.etpRx, e'.etpRx, x) && SameFor(e.etpTx, e'.etpTx, x)
    && Towards(e'.out, x) == []
  }

  lemma FrameElsewhere(e: Engine, i: Input, x: u8)
    requires Valid(e) && e.out == [] && i.Frame? && Elsewhere(e, i, x)
    ensures KeepsPeer(e, Step(e, i).engine, x)
  {
    hide Valid, OnFrame;
    NonInterference(e, i.id, i.data, i.now, i.pick);
    NoneTowards(Step(e, i).engine.out, x);
  }

  /** The sessions under `k` are the same. */
  ghost predicate SameAt(e: Engine, r: Engine, k: Key) {
    && (k in e.rxConn <==> k in r.rxConn) && (k in e.rxConn ==> e.rxConn[k] == r.rxConn[k])
    && (k in e.txConn <==> k in r.txConn) && (k in e.txConn ==> e.txConn[k] == r.txConn[k])
    && (k in e.etpRx <==> k in r.etpRx) && (k in e.etpRx ==> e.etpRx[k] == r.etpRx[k])
    && (k in e.etpTx <==> k in r.etpTx) && (k in e.etpTx ==> e.etpTx[k] == r.etpTx[k])
  }

  lemma SweepKeeps(e: Engine, now: Instant, hint: Sweep, k: Key)
    requires Valid(e)
    requires InTime(e, now, k)
    ensures SameAt(e, PollTimeouts(e, now, hint).engine, k)
  {
    hide Valid, PollTimeouts;
    SweepIsExact(e, now, hint, k);
  }

  lemma SameForAll(e: Engine, r: Engine, x: u8)
    requires forall k: Key :: k.sa == x ==> SameAt(e, r, k)
    ensures SameFor(e.rxConn, r.rxConn, x) && SameFor(e.txConn, r.txConn, x)
    ensures SameFor(e.etpRx, r.etpRx, x) && SameFor(e.etpTx, r.etpTx, x)
  {
    forall k: Key | k.sa == x
      ensures (k in e.rxConn <==> k in r.rxConn) && (k in e.rxConn ==> e.rxConn[k] == r.rxConn[k])
    {
      assert SameAt(e, r, k);
    }
    forall k: Key | k.sa == x
      ensures (k in e.txConn <==> k in r.txConn) && (k in e.txConn ==> e.txConn[k] == r.txConn[k])
    {
      assert SameAt(e, r, k);
    }
    forall k: Key | k.sa == x
      ensures (k in e.etpRx <==> k in r.etpRx) && (k in e.etpRx ==> e.etpRx[k] == r.etpRx[k])
    {
      assert SameAt(e, r, k);
    }
    forall k: Key | k.sa == x
      ensures (k in e.etpTx <==> k in r.etpTx) && (k in e.etpTx ==> e.etpTx[k] == r.etpTx[k])
    {
      assert SameAt(e, r, k);
    }
  }

  lemma PollElsewhere(e: Engine, i: Input, x: u8)
    requires Valid(e) && e.out == [] && i.Poll? && Elsewhere(e, i, x)
    ensures KeepsPeer(e, Step(e, i).engine, x)
  {
    hide Valid, PollTimeouts, Towards, InTime, SameFor, SameAt;
    var r := PollTimeouts(e, i.now, i.hint).engine;
    StepKeepsConfig(e, i);
    SweepTowards(e, i, x);
    forall k: Key | k.sa == x ensures SameAt(e, r, k) { SweepKeeps(e, i.now, i.hint, k); }
    SameForAll(e, r, x);
  }

  lemma NotIdle(e: Engine, now: Instant, k: Key)
    requires InTime(e, now, k)
    ensures k !in IdleRxConn(e, now) && k !in IdleTxConn(e, now) && k !in IdleEtpRx(e, now) && k !in IdleEtpTx(e, now)
  {
  }

  /** The aborts of a sweep go to the peers of the sessions removed. */
  lemma NoneSwept(e: Engine, now: Instant, o: Sweep, x: u8)
    requires Valid(e)
    requires forall k: Key :: k.sa == x ==>
               && k !in IdleRxConn(e, now) && k !in IdleTxConn(e, now)
               && k !in IdleEtpRx(e, now) && k !in IdleEtpTx(e, now)
    requires forall i :: 0 <= i < |o.rxConn| ==> o.rxConn[i] in e.rxConn && o.rxConn[i] in IdleRxConn(e, now)
    requires forall i :: 0 <= i < |o.txConn| ==> o.txConn[i] in e.txConn && o.txConn[i] in IdleTxConn(e, now)
    requires forall i :: 0 <= i < |o.etpRx| ==> o.etpRx[i] in e.etpRx && o.etpRx[i] in IdleEtpRx(e, now)
    requires forall i :: 0 <= i < |o.etpTx| ==> o.etpTx[i] in e.etpTx && o.etpTx[i] in IdleEtpTx(e, now)
    ensures forall i :: 0 <= i < |SweepFrames(e, o)| ==> SweepFrames(e, o)[i].dest != Some(x)
  {
    hide Valid, Idle;
    forall k | k in e.rxConn { RxConnSession(e, k); }
    forall k | k in e.txConn { TxConnSession(e, k); }
    forall k | k in e.etpRx { EtpRxSession(e, k); }
    forall k | k in e.etpTx { EtpTxSession(e, k); }
  }

  lemma SweepTowards(e: Engine, i: Input, x: u8)
    requires Valid(e) && e.out == [] && i.Poll? && Elsewhere(e, i, x)
    ensures Towards(Step(e, i).engine.out, x) == []
  {
    hide Valid, InTime, SweepFrames, PollTimeouts, IdleRxConn, IdleTxConn, IdleEtpRx, IdleEtpTx, Towards, Enumerates;
    forall k: Key | k.sa == x
      ensures && k !in IdleRxConn(e, i.now) && k !in IdleTxConn(e, i.now)
              && k !in IdleEtpRx(e, i.now) && k !in IdleEtpTx(e, i.now)
    {
      NotIdle(e, i.now, k);
    }
    var o := SweepOrder(e, i.now, i.hint);
    InOrder(o.rxConn, IdleRxConn(e, i.now));
    InOrder(o.txConn, IdleTxConn(e, i.now));
    InOrder(o.etpRx, IdleEtpRx(e, i.now));
    InOrder(o.etpTx, IdleEtpTx(e, i.now));
    SweepQueued(e, i.now, i.hint);
    NoneSwept(e, i.now, o, x);
    NoneTowards(SweepFrames(e, o), x);
    assert [] + SweepFrames(e, o) == SweepFrames(e, o);
  }

  lemma OpenElsewhere(e: Engine, i: Input, x: u8)
    requires Valid(e) && e.out == [] && !i.Frame? && !i.Poll? && Elsewhere(e, i, x)
    ensures KeepsPeer(e, Step(e, i).engine, x)
  {
    hide Valid, StartConn, StartEtp, SameFor;
    var r := Step(e, i).engine;
    if i.OpenConn? {
      ConnOpenShape(e, i);
      forall k: Key | k.sa == x ensures SameAt(e, r, k) { }
    } else if i.OpenEtp? {
      EtpOpenShape(e, i);
      forall k: Key | k.sa == x ensures SameAt(e, r, k) { }
    }
    SameForAll(e, r, x);
  }

  /** Opening a transfer touches one key of one table. */
  lemma ConnOpenShape(e: Engine, i: Input)
    requires Valid(e) && i.OpenConn?
    ensures var r := StartConn(e, i.pgn, i.priority, i.ours, i.dest, i.payload, i.now).0;
            && r == e.(txConn := r.txConn)
            && forall k: Key :: k.sa != i.dest ==>
                 (k in e.txConn <==> k in r.txConn) && (k in e.txConn ==> e.txConn[k] == r.txConn[k])
  {
    hide Valid, RtsFrame, Packets;
  }

  lemma EtpOpenShape(e: Engine, i: Input)
    requires Valid(e) && i.OpenEtp?
    ensures var r := StartEtp(e, i.pgn, i.priority, i.ours, i.dest, i.payload, i.now).0;
            && r == e.(etpTx := r.etpTx)
            && forall k: Key :: k.sa != i.dest ==>
                 (k in e.etpTx <==> k in r.etpTx) && (k in e.etpTx ==> e.etpTx[k] == r.etpTx[k])
  {
    hide Valid, EtpRtsFrame, Packets;
  }

  lemma CallElsewhere(e: Engine, i: Input, x: u8)
    requires Valid(e) && e.out == [] && Elsewhere(e, i, x)
    ensures KeepsPeer(e, Step(e, i).engine, x)
  {
    hide Valid, Elsewhere, Step, KeepsPeer;
    if i.Frame? { FrameElsewhere(e, i, x); }
    else if i.Poll? { PollElsewhere(e, i, x); }
    else { OpenElsewhere(e, i, x); }
  }

  /** A call elsewhere changes no session with the partner and puts nothing on the link. */
  lemma OtherTraffic(n: Net, l: Link, mv: Move)
    requires NetOk(n) && (mv.OtherAtA? || mv.OtherAtB?)
    ensures var n' := Next(n, l, mv);
            && n' == n.(a := n'.a, b := n'.b)
            && n'.b.config == n.b.config
            && SameFor(n.a.txConn, n'.a.txConn, l.da) && SameFor(n.a.etpTx, n'.a.etpTx, l.da)
            && SameFor(n.b.rxConn, n'.b.rxConn, l.sa) && SameFor(n.b.etpRx, n'.b.etpRx, l.sa)
  {
    hide Valid, Elsewhere, Step, Towards;
    if mv.OtherAtA? {
      if Elsewhere(n.a, mv.call, l.da) { CallElsewhere(n.a, mv.call, l.da); }
    } else {
      if Elsewhere(n.b, mv.call, l.sa) { CallElsewhere(n.b, mv.call, l.sa); }
    }
  }

  /** A delivery to `b` of a frame from `a`: everything it queues goes back to `a`. */
  lemma DeliverToB(n: Net, l: Link, f: OutFrame, now: Instant, pick: Key)
    requires NetOk(n) && n.ab != [] && n.ab[0] == f && IsTransport(f.wirePgn)
             && f.source == l.sa && f.dest == Some(l.da)
    ensures var r := OnFrame(n.b, WireId(f), f.data, now, pick);
            Next(n, l, ToB(now, pick)) ==
            n.(b := Drained(r.engine), ab := n.ab[1..], ba := n.ba + r.engine.out, bHeard := now,
               bEvents := n.bEvents + r.events, deliveries := n.deliveries + 1,
               grants := n.grants + Grants(r.engine.out), panicked := n.panicked || r.panicked)
  {
    hide Valid, OnFrame, WireId;
    WireIdOf(f);
    NonInterference(n.b, WireId(f), f.data, now, pick);
    AllTowards(OnFrame(n.b, WireId(f), f.data, now, pick).engine.out, l.sa);
  }

  lemma DeliverToA(n: Net, l: Link, f: OutFrame, now: Instant, pick: Key)
    requires NetOk(n) && n.ba != [] && n.ba[0] == f && IsTransport(f.wirePgn)
             && f.source == l.da && f.dest == Some(l.sa)
    ensures var r := OnFrame(n.a, WireId(f), f.data, now, pick);
            Next(n, l, ToA(now, pick)) ==
            n.(a := Drained(r.engine), ba := n.ba[1..], ab := n.ab + r.engine.out, aHeard := now,
               aEvents := n.aEvents + r.events, deliveries := n.deliveries + 1, panicked := n.panicked || r.panicked)
  {
    hide Valid, OnFrame, WireId;
    WireIdOf(f);
    NonInterference(n.a, WireId(f), f.data, now, pick);
    AllTowards(OnFrame(n.a, WireId(f), f.data, now, pick).engine.out, l.da);
  }

  lemma GrantsOfOne(f: OutFrame)
    ensures Grants([]) == 0
    ensures Grants([f]) == if IsCts(f) || IsEtpCts(f) then 1 else 0
  {
  }

  lemma NothingToDeliver(n: Net, l: Link, mv: Move)
    requires NetOk(n) && ((mv.ToA? && n.ba == []) || (mv.ToB? && n.ab == []))
    ensures Next(n, l, mv) == n
  {
  }

  /** Only a frame from elsewhere can take room at `b`. */
  predicate TakesNoRoom(mv: Move) { mv.OtherAtB? ==> !mv.call.Frame? }

  lemma NoNewInbound(e: Engine, i: Input)
    requires Valid(e) && !i.Frame?
    ensures TotalInbound(Step(e, i).engine) <= TotalInbound(e) && Step(e, i).engine.config == e.config
  {
    StepKeepsConfig(e, i);
    hide Valid, SweepFrames, SweepEvents, IdleBam, IdleRxConn, IdleTxConn, IdleEtpRx, IdleEtpTx;
    if i.Poll? {
      RemoveKeysShrinks(e.bam, IdleBam(e, i.now));
      RemoveKeysShrinks(e.rxConn, IdleRxConn(e, i.now));
      RemoveKeysShrinks(e.etpRx, IdleEtpRx(e, i.now));
    }
  }

  lemma KeepsRoom(n: Net, l: Link, mv: Move)
    requires NetOk(n) && (mv.OtherAtA? || mv.OtherAtB?) && TakesNoRoom(mv)
    ensures Room(n.b) ==> Room(Next(n, l, mv).b)
  {
    hide Valid, Elsewhere, Step, TotalInbound;
    if mv.OtherAtB? {
      NoNewInbound(n.b, mv.call);
      DrainedInbound(Step(n.b, mv.call).engine);
    }
  }

  lemma DrainedInbound(e: Engine)
    ensures TotalInbound(Drained(e)) == TotalInbound(e)
  {
  }

  lemma WindowStep(n: Net, l: Link, mv: Move)
    requires NetOk(n)
    ensures Next(n, l, mv).b.config == n.b.config
  {
    hide Valid, OnFrame, Elsewhere, Step;
    match mv
    case ToB(now, pick) => if n.ab != [] { NonInterference(n.b, WireId(n.ab[0]), n.ab[0].data, now, pick); }
    case OtherAtB(call) => StepKeepsConfig(n.b, call);
    case ToA(_, _) =>
    case OtherAtA(_) =>
  }

  lemma {:induction false} WindowKept(n: Net, l: Link, mvs: seq<Move>)
    requires NetOk(n)
    ensures Moves(n, l, mvs).b.config == n.b.config
    decreases |mvs|
  {
    hide Valid, Next;
    if mvs != [] {
      WindowStep(n, l, mvs[0]);
      WindowKept(Next(n, l, mvs[0]), l, mvs[1..]);
    }
  }

  /** A delivery from a queue that holds a frame always counts, so a transfer that has a frame under way
      until its end, and a bound on its deliveries, ends. */
  lemma DeliveryCounts(n: Net, l: Link, now: Instant, pick: Key)
    requires NetOk(n)
    ensures n.ab != [] ==> Next(n, l, ToB(now, pick)).deliveries == n.deliveries + 1
    ensures n.ba != [] ==> Next(n, l, ToA(now, pick)).deliveries == n.deliveries + 1
  {
    hide Valid, OnFrame;
  }

  // ---- Counting grants ------------------------------------------------------------

  /** The packets that `g` full windows of `w` cover. */
  function Cover(g: nat, w: nat): nat { g * w }

  lemma CoverStep(g: nat, w: nat)
    ensures Cover(0, w) == 0 && Cover(g + 1, w) == Cover(g, w) + w
  {
  }

  lemma MulMono(x: int, y: int, w: nat)
    ensures x <= y ==> x * w <= y * w
  {
  }

  lemma AtMostCeil(g: nat, w: nat, total: nat)
    requires w >= 1 && g >= 1 && Cover(g - 1, w) < total
    ensures g <= DivCeil(total, w)
  {
    var q := (total + w - 1) / w;
    assert q * w <= total + w - 1 < q * w + w;
    MulMono(g - 1, q - 1, w);
    MulMono(q, g - 1, w);
  }

  /** As many windows as it takes to cover the packets, and no more, are the quotient rounded up. */
  lemma GrantCount(g: nat, w: nat, total: nat)
    requires w >= 1 && g >= 1 && Cover(g - 1, w) < total <= Cover(g, w)
    ensures g == DivCeil(total, w)
  {
    AtMostCeil(g, w, total);
    var q := (total + w - 1) / w;
    assert q * w <= total + w - 1 < q * w + w;
    MulMono(g + 1, q, w);
  }

  lemma PgnOfCm(wire: Pgn, ours: u8, dest: u8, priority: u8, pgn: Pgn, c: u8, d1: u8, d2: u8, d3: u8, d4: u8)
    ensures PgnOf(CmFrame(wire, ours, dest, priority, pgn, c, d1, d2, d3, d4).data) == Some(pgn)
  {
    hide Byte0, Byte1, Byte2;
    PgnBytes(pgn);
  }
}
