/** Connection mode end to end: two engines on a lossless, in-order link carry every message of 9 to 1785
    bytes across exactly once, with exactly the grants the window asks for, and free both sessions; or
    the receiver has no room, refuses, and both sides are free again. */
module TpConnTransfer {
  import opened Bytes
  import opened J1939Id
  import opened TpTypes
  import opened TpWire
  import opened TpSteps
  import opened TpSafety
  import opened TpLifecycle
  import opened TpBadLink
  import opened TpNet

  datatype Transfer = Transfer(sa: u8, da: u8, pgn: Pgn, priority: u8, payload: seq<u8>) {
    predicate Ok() { TP_MIN_PAYLOAD <= |payload| <= TP_MAX_PAYLOAD && da != GLOBAL_ADDRESS }
    function L(): Link { Link(sa, da) }
    function N(): (n: nat)
      ensures Ok() ==> 2 <= n <= 0xFF
    {
      Packets(|payload|)
    }
    function Msg(): Message { Message(sa, pgn, payload) }
    function TxKey(): Key { Key(da, pgn) }
    function RxKey(): Key { Key(sa, pgn) }
    function Delivered(): Event { Completed(pgn, sa, payload) }
  }

  function DataFrame(t: Transfer, k: nat): OutFrame
    requires t.Ok() && 1 <= k <= t.N()
  {
    OutFrame(TP_DT_PGN, t.priority, t.sa, Some(t.da), PacketData(k, t.payload, k))
  }

  function Burst(t: Transfer, k: nat, w: nat): (fs: seq<OutFrame>)
    requires t.Ok() && 1 <= k && k + w - 1 <= t.N()
    ensures |fs| == w
    ensures forall i :: 0 <= i < w ==> fs[i] == DataFrame(t, k + i)
  {
    seq(w, i requires 0 <= i < w => DataFrame(t, k + i))
  }

  // ---- Both sides of the connection --------------------------------------------

  ghost predicate Sender(a: Engine, t: Transfer, heard: Instant)
    requires t.Ok()
  {
    && t.TxKey() in a.txConn
    && var s := a.txConn[t.TxKey()];
       s == ConnTx(t.pgn, t.sa, t.da, t.priority, t.payload, t.N(), heard)
  }

  /** The only session `b` may hold for the partner is the one of this transfer. */
  ghost predicate Alone(b: Engine, t: Transfer) { forall k :: k in b.rxConn && k.sa == t.sa ==> k == t.RxKey() }

  ghost predicate Receiver(b: Engine, t: Transfer, k: nat, w: nat, heard: Instant)
    requires t.Ok()
  {
    && Alone(b, t)
    && t.RxKey() in b.rxConn
    && 1 <= k <= t.N()
    && DATA_LEN * (k - 1) < |t.payload|
    && var s := b.rxConn[t.RxKey()];
       && s.pgn == t.pgn && s.peer == t.sa && s.ours == t.da && s.priority == t.priority % 8
       && s.totalSize == |t.payload| && s.totalPackets == t.N() && s.senderMax == CTS_NO_LIMIT
       && s.nextSeq == k && s.window == w && s.lastActivity == heard
       && s.buf == t.payload[..DATA_LEN * (k - 1)]
  }

  ghost predicate NoReceiver(b: Engine, t: Transfer) { Alone(b, t) && t.RxKey() !in b.rxConn }

  // ---- The phases of a transfer --------------------------------------------------

  /** The window, and the grants issued so far. */
  function W(n: Net): nat { n.b.config.ctsWindow }

  ghost predicate Asking(n: Net, t: Transfer)
    requires t.Ok()
  {
    && n.ab == [RtsFrame(t.sa, t.da, t.priority, t.pgn, |t.payload|, t.N(), CTS_NO_LIMIT)] && n.ba == []
    && Sender(n.a, t, n.aHeard) && Alone(n.b, t)
    && n.aEvents == [] && n.bEvents == [] && n.grants == 0 && n.deliveries == 0
  }

  /** A grant for the packets from `k` on is under way. */
  ghost predicate Granting(n: Net, t: Transfer, k: nat)
    requires t.Ok()
  {
    && 1 <= k <= t.N() && n.grants >= 1 && k - 1 == Cover(n.grants - 1, W(n))
    && (var w := Min(W(n), t.N() - k + 1);
        && 1 <= w <= 0xFF && Receiver(n.b, t, k, w, n.bHeard)
        && n.ba == [CtsFrame(t.da, t.sa, t.priority % 8, t.pgn, w, k)])
    && n.ab == [] && Sender(n.a, t, n.aHeard)
    && n.aEvents == [] && n.bEvents == [] && n.deliveries == k + n.grants - 1
  }

  /** The last `w` packets of a burst are under way, `k` first. */
  ghost predicate Sending(n: Net, t: Transfer, k: nat, w: nat)
    requires t.Ok()
  {
    && 1 <= k && 1 <= w && k + w - 1 == Min(Cover(n.grants, W(n)), t.N())
    && Receiver(n.b, t, k, w, n.bHeard)
    && k + w - 1 <= t.N() && n.ab == Burst(t, k, w) && n.ba == [] && Sender(n.a, t, n.aHeard)
    && n.grants >= 1 && Cover(n.grants - 1, W(n)) < k
    && n.aEvents == [] && n.bEvents == [] && n.deliveries == k + n.grants
  }

  ghost predicate Complete(n: Net, t: Transfer)
    requires t.Ok()
  {
    && n.bEvents == [t.Delivered()] && n.aEvents == [] && NoReceiver(n.b, t) && n.ab == []
    && n.grants >= 1 && Cover(n.grants - 1, W(n)) < t.N() <= Cover(n.grants, W(n))
  }

  ghost predicate Acknowledging(n: Net, t: Transfer)
    requires t.Ok()
  {
    && Complete(n, t) && Sender(n.a, t, n.aHeard)
    && n.ba == [EomaFrame(t.da, t.sa, t.priority % 8, t.pgn, |t.payload|, t.N())]
    && n.deliveries == t.N() + n.grants + 1
  }

  ghost predicate Done(n: Net, t: Transfer)
    requires t.Ok()
  {
    Complete(n, t) && t.TxKey() !in n.a.txConn && n.ba == [] && n.deliveries == t.N() + n.grants + 2
  }

  ghost predicate Refusing(n: Net, t: Transfer)
    requires t.Ok()
  {
    && n.bEvents == [SessionRefused(t.pgn, t.sa, Resources)] && n.aEvents == [] && NoReceiver(n.b, t)
    && n.ab == [] && n.ba == [ConnAbortFrame(t.da, t.sa, t.priority % 8, t.pgn, Resources)] && Sender(n.a, t, n.aHeard)
    && n.grants == 0 && n.deliveries == 1
  }

  ghost predicate Refused(n: Net, t: Transfer)
    requires t.Ok()
  {
    && n.bEvents == [SessionRefused(t.pgn, t.sa, Resources)] && NoReceiver(n.b, t)
    && (var ev := Aborted(t.pgn, t.da, Resources); n.aEvents == [ev] || n.aEvents == [ev, ev])
    && t.TxKey() !in n.a.txConn
    && n.ab == [] && n.ba == [] && n.grants == 0 && n.deliveries == 2
  }

  ghost predicate Phase(n: Net, t: Transfer) {
    && t.Ok() && NetOk(n) && !n.panicked && W(n) >= 1
    && (Asking(n, t) || (exists k :: Granting(n, t, k)) || (exists k, w :: Sending(n, t, k, w))
        || Acknowledging(n, t) || Done(n, t) || Refusing(n, t) || Refused(n, t))
  }

  // ---- Deliveries ------------------------------------------------------------------

  /** What the request does at the receiver. */
  lemma RequestHandled(b: Engine, t: Transfer, f: OutFrame, now: Instant)
    requires Valid(b) && t.Ok() && Alone(b, t)
    requires f == RtsFrame(t.sa, t.da, t.priority, t.pgn, |t.payload|, t.N(), CTS_NO_LIMIT)
    ensures var r := OnRts(b, WireId(f), f.data, now);
            && r.engine.config == b.config && !r.panicked
            && (t.RxKey() in b.rxConn || Room(b) ==>
                  var w := Min(b.config.ctsWindow, t.N());
                  && 1 <= w && Receiver(r.engine, t, 1, w, now) && r.events == []
                  && r.engine.out == b.out + [CtsFrame(t.da, t.sa, t.priority % 8, t.pgn, w, 1)])
            && (!(t.RxKey() in b.rxConn || Room(b)) ==>
                  && NoReceiver(r.engine, t) && r.events == [SessionRefused(t.pgn, t.sa, Resources)]
                  && r.engine.out == b.out + [ConnAbortFrame(t.da, t.sa, t.priority % 8, t.pgn, Resources)])
  {
    hide Valid, WireId, PgnOf, U16, Byte0, Byte1, Byte2, AnnounceOk;
    WireIdOf(f);
    ValidConfig(b);
    AnnounceParses(t.Msg());
    assert f.data == RtsData(t.Msg());
    assert t.payload[..0] == [];
  }

  /** The request reaches the receiver: it grants the first window, or refuses for want of room. */
  lemma RequestArrives(n: Net, t: Transfer, now: Instant, pick: Key)
    requires Phase(n, t) && Asking(n, t)
    ensures var n' := Next(n, t.L(), ToB(now, pick));
            && !n'.panicked && W(n') == W(n)
            && if t.RxKey() in n.b.rxConn || Room(n.b) then Granting(n', t, 1) else Refusing(n', t)
  {
    hide Valid, Cover, Next, OnFrame, WireId, OnRts, Byte0, Byte1, Byte2, Room;
    var f := n.ab[0];
    WireIdOf(f);
    DeliverToB(n, t.L(), f, now, pick);
    RxConnOnFrame(n.b, WireId(f), f.data, now, pick);
    RequestHandled(n.b, t, f, now);
    CoverStep(0, W(n));
    GrantsOfOne(OnRts(n.b, WireId(f), f.data, now).engine.out[0]);
  }

  lemma BurstAnswers(a: Engine, t: Transfer, k: nat, w: nat, heard: Instant, now: Instant)
    requires Valid(a) && t.Ok() && Sender(a, t, heard) && 1 <= k <= t.N() && 1 <= w && k + w - 1 <= t.N()
    ensures ConnBurst(a.txConn[t.TxKey()].(lastActivity := now), k, w) == Burst(t, k, w)
  {
    hide Valid, PacketData;
    var s := a.txConn[t.TxKey()].(lastActivity := now);
    assert BurstLength(s.totalPackets, k, w) == w;
  }

  lemma GrantHandled(a: Engine, t: Transfer, k: nat, w: nat, f: OutFrame, heard: Instant, now: Instant)
    requires Valid(a) && t.Ok() && Sender(a, t, heard) && 1 <= k <= t.N() && 1 <= w && k + w - 1 <= t.N()
    requires f == CtsFrame(t.da, t.sa, t.priority % 8, t.pgn, w, k)
    ensures var r := OnCts(a, WireId(f), f.data, now);
            && Sender(r.engine, t, now) && r.events == [] && !r.panicked
            && r.engine.out == a.out + Burst(t, k, w)
  {
    hide Valid, WireId, PgnOf, Byte0, Byte1, Byte2, ConnBurst, Burst;
    WireIdOf(f);
    PgnOfCm(TP_CM_PGN, t.da, t.sa, t.priority % 8, t.pgn, CTS_CONTROL, w, k, 0xFF, 0xFF);
    BurstAnswers(a, t, k, w, heard, now);
  }

  /** A grant reaches the sender, which answers with exactly the packets granted. */
  lemma GrantArrives(n: Net, t: Transfer, k: nat, now: Instant, pick: Key)
    requires Phase(n, t) && Granting(n, t, k)
    ensures var n' := Next(n, t.L(), ToA(now, pick));
            Sending(n', t, k, Min(W(n), t.N() - k + 1)) && !n'.panicked && W(n') == W(n)
  {
    hide Valid, Cover, Next, OnFrame, WireId, OnCts, Byte0, Byte1, Byte2, Burst;
    var f := n.ba[0];
    WireIdOf(f);
    DeliverToA(n, t.L(), f, now, pick);
    TxConnOnFrame(n.a, WireId(f), f.data, now, pick);
    GrantHandled(n.a, t, k, Min(W(n), t.N() - k + 1), f, n.aHeard, now);
    CoverStep(n.grants - 1, W(n));
  }

  lemma BurstDest(t: Transfer, k: nat, w: nat)
    requires t.Ok() && 1 <= k && k + w - 1 <= t.N()
    ensures forall i :: 0 <= i < |Burst(t, k, w)| ==> Burst(t, k, w)[i].dest == Some(t.da)
    ensures w >= 1 ==> Burst(t, k, w)[0] == DataFrame(t, k) && Burst(t, k, w)[1..] == Burst(t, k + 1, w - 1)
  {
    hide PacketData;
  }

  /** What a data packet does to the session that expects it. */
  lemma PacketArrives(b: Engine, t: Transfer, k: nat, w: nat, heard: Instant, now: Instant, pick: Key)
    requires Valid(b) && t.Ok() && Receiver(b, t, k, w, heard)
    ensures var r := OnConnDt(b, t.sa, DataFrame(t, k).data, now, pick);
            && (k == t.N() ==>
                  && NoReceiver(r.engine, t) && r.events == [t.Delivered()]
                  && r.engine.out == b.out + [EomaFrame(t.da, t.sa, t.priority % 8, t.pgn, |t.payload|, t.N())])
            && (k < t.N() && w > 1 ==>
                  Receiver(r.engine, t, k + 1, w - 1, now) && r.engine.out == b.out && r.events == [])
            && (k < t.N() && w == 1 ==>
                  var w' := Min(b.config.ctsWindow, t.N() - k);
                  && Receiver(r.engine, t, k + 1, w', now) && r.events == []
                  && r.engine.out == b.out + [CtsFrame(t.da, t.sa, t.priority % 8, t.pgn, w', k + 1)])
            && r.engine.config == b.config && !r.panicked
  {
    hide Valid, PacketData, IsPacket, Taken, Byte0, Byte1, Byte2, CmFrame;
    var d := DataFrame(t, k).data;
    RxConnSession(b, t.RxKey());
    assert IsPacket(t.Msg(), d) by { IsPacketK(t, k); }
    PrefixGrows(t.Msg(), k, d, b.rxConn[t.RxKey()].buf);
    assert t.payload[..|t.payload|] == t.payload;
    var found := SessionOf(b.rxConn.Keys, t.sa, pick);
    assert found == Some(t.RxKey());
  }

  lemma IsPacketK(t: Transfer, k: nat)
    requires t.Ok() && 1 <= k <= t.N()
    ensures IsPacket(t.Msg(), PacketData(k, t.payload, k))
  {
  }

  /** The link step of a data packet, in terms of what the packet does at the receiver. */
  lemma DataDelivered(n: Net, t: Transfer, k: nat, w: nat, now: Instant, pick: Key)
    requires Phase(n, t) && Sending(n, t, k, w)
    ensures var r := OnConnDt(n.b, t.sa, DataFrame(t, k).data, now, pick);
            Next(n, t.L(), ToB(now, pick)) ==
            n.(b := Drained(r.engine), ab := Burst(t, k + 1, w - 1), ba := r.engine.out, bHeard := now,
               bEvents := r.events, deliveries := n.deliveries + 1,
               grants := n.grants + Grants(r.engine.out), panicked := r.panicked)
  {
    hide Valid, Cover, Next, OnFrame, WireId, PacketData, OnConnDt, Burst;
    BurstDest(t, k, w);
    var f := DataFrame(t, k);
    WireIdOf(f);
    DeliverToB(n, t.L(), f, now, pick);
    RxConnOnFrame(n.b, WireId(f), f.data, now, pick);
  }

  lemma LastDataArrives(n: Net, t: Transfer, w: nat, now: Instant, pick: Key)
    requires Phase(n, t) && Sending(n, t, t.N(), w)
    ensures var n' := Next(n, t.L(), ToB(now, pick)); Acknowledging(n', t) && !n'.panicked && W(n') == W(n)
  {
    hide Valid, Cover, Next, PacketData, OnConnDt, Burst, Byte0, Byte1, Byte2;
    DataDelivered(n, t, t.N(), w, now, pick);
    PacketArrives(n.b, t, t.N(), w, n.bHeard, now, pick);
    GrantsOfOne(EomaFrame(t.da, t.sa, t.priority % 8, t.pgn, |t.payload|, t.N()));
    EmptyBurst(t, t.N() + 1);
  }

  lemma DataArrives(n: Net, t: Transfer, k: nat, w: nat, now: Instant, pick: Key)
    requires Phase(n, t) && Sending(n, t, k, w) && k < t.N() && w > 1
    ensures var n' := Next(n, t.L(), ToB(now, pick)); Sending(n', t, k + 1, w - 1) && !n'.panicked && W(n') == W(n)
  {
    hide Valid, Cover, Next, PacketData, OnConnDt, Burst, Byte0, Byte1, Byte2;
    DataDelivered(n, t, k, w, now, pick);
    PacketArrives(n.b, t, k, w, n.bHeard, now, pick);
  }

  lemma BurstEnds(n: Net, t: Transfer, k: nat, now: Instant, pick: Key)
    requires Phase(n, t) && Sending(n, t, k, 1) && k < t.N()
    ensures var n' := Next(n, t.L(), ToB(now, pick)); Granting(n', t, k + 1) && !n'.panicked && W(n') == W(n)
  {
    hide Valid, Cover, Next, PacketData, OnConnDt, Burst, Byte0, Byte1, Byte2;
    DataDelivered(n, t, k, 1, now, pick);
    PacketArrives(n.b, t, k, 1, n.bHeard, now, pick);
    GrantsOfOne(CtsFrame(t.da, t.sa, t.priority % 8, t.pgn, Min(W(n), t.N() - k), k + 1));
    EmptyBurst(t, k + 1);
  }

  lemma EmptyBurst(t: Transfer, k: nat)
    requires t.Ok() && 1 <= k && k - 1 <= t.N()
    ensures Burst(t, k, 0) == []
  {
  }

  lemma AckArrives(n: Net, t: Transfer, now: Instant, pick: Key)
    requires Phase(n, t) && Acknowledging(n, t)
    ensures var n' := Next(n, t.L(), ToA(now, pick)); Done(n', t) && !n'.panicked && W(n') == W(n)
  {
    hide Valid, Cover, Next, OnFrame, WireId, PgnOf, Byte0, Byte1, Byte2;
    var f := n.ba[0];
    WireIdOf(f);
    PgnOfCm(TP_CM_PGN, t.da, t.sa, t.priority % 8, t.pgn, EOMA_CONTROL,
            Byte0(|t.payload|), Byte1(|t.payload|), t.N(), 0xFF);
    DeliverToA(n, t.L(), f, now, pick);
    TxConnOnFrame(n.a, WireId(f), f.data, now, pick);
  }

  lemma RefusalArrives(n: Net, t: Transfer, now: Instant, pick: Key)
    requires Phase(n, t) && Refusing(n, t)
    ensures var n' := Next(n, t.L(), ToA(now, pick)); Refused(n', t) && !n'.panicked && W(n') == W(n)
  {
    hide Valid, Cover, Next, OnFrame, WireId, PgnOf, Byte0, Byte1, Byte2;
    var f := n.ba[0];
    WireIdOf(f);
    PgnOfCm(TP_CM_PGN, t.da, t.sa, t.priority % 8, t.pgn, CONN_ABORT_CONTROL, 2, 0xFF, 0xFF, 0xFF);
    DeliverToA(n, t.L(), f, now, pick);
    TxConnOnFrame(n.a, WireId(f), f.data, now, pick);
  }

  // ---- The theorem -----------------------------------------------------------------

  /** A call elsewhere leaves the transfer where it was. */
  lemma OtherMove(n: Net, t: Transfer, mv: Move)
    requires Phase(n, t) && (mv.OtherAtA? || mv.OtherAtB?)
    ensures Phase(Next(n, t.L(), mv), t)
  {
    hide Valid, Cover, Next, Burst, CmFrame;
    OtherTraffic(n, t.L(), mv);
    var n' := Next(n, t.L(), mv);
    if k :| Granting(n, t, k) {
      assert Granting(n', t, k);
    } else if k, w :| Sending(n, t, k, w) {
      assert Sending(n', t, k, w);
    }
  }

  lemma LinkMove(n: Net, t: Transfer, mv: Move)
    requires Phase(n, t) && (mv.ToA? || mv.ToB?)
    ensures Phase(Next(n, t.L(), mv), t)
  {
    hide Valid, Cover, Next, Burst, CmFrame, Sender, Receiver, Alone, NoReceiver;
    var l := t.L();
    if mv.ToB? && Asking(n, t) {
      RequestArrives(n, t, mv.now, mv.pick);
    } else if mv.ToA? && exists k :: Granting(n, t, k) {
      var k :| Granting(n, t, k);
      GrantArrives(n, t, k, mv.now, mv.pick);
    } else if mv.ToB? && exists k, w :: Sending(n, t, k, w) {
      var k, w :| Sending(n, t, k, w);
      if k == t.N() { LastDataArrives(n, t, w, mv.now, mv.pick); }
      else if w > 1 { DataArrives(n, t, k, w, mv.now, mv.pick); }
      else { BurstEnds(n, t, k, mv.now, mv.pick); }
    } else if mv.ToA? && Acknowledging(n, t) {
      AckArrives(n, t, mv.now, mv.pick);
    } else if mv.ToA? && Refusing(n, t) {
      RefusalArrives(n, t, mv.now, mv.pick);
    } else {
      assert (mv.ToA? && n.ba == []) || (mv.ToB? && n.ab == []);
      NothingToDeliver(n, l, mv);
    }
  }

  lemma {:induction false} PhaseKept(n: Net, t: Transfer, mvs: seq<Move>)
    requires Phase(n, t)
    ensures Phase(Moves(n, t.L(), mvs), t)
    decreases |mvs|
  {
    hide Valid, Next, Phase, NetOk;
    if mvs != [] {
      assert NetOk(n) by { PhaseIsOk(n, t); }
      if mvs[0].OtherAtA? || mvs[0].OtherAtB? { OtherMove(n, t, mvs[0]); } else { LinkMove(n, t, mvs[0]); }
      PhaseKept(Next(n, t.L(), mvs[0]), t, mvs[1..]);
    }
  }

  lemma PhaseIsOk(n: Net, t: Transfer)
    requires Phase(n, t)
    ensures NetOk(n)
  {
  }

  lemma SenderOpens(a: Engine, t: Transfer, now: Instant)
    requires Valid(a) && t.Ok()
    ensures var r := StartConn(a, t.pgn, t.priority, t.sa, t.da, t.payload, now);
            Sender(r.0, t, now) && r.0.out == a.out
            && r.1 == Some([RtsFrame(t.sa, t.da, t.priority, t.pgn, |t.payload|, t.N(), CTS_NO_LIMIT)])
  {
    hide Valid, CmFrame;
  }

  /** Opening the transfer: the sender registers its session and puts the request on the link. */
  ghost function Open(a: Engine, b: Engine, t: Transfer, now: Instant): (n: Net)
    requires Valid(a) && Valid(b) && a.out == [] && b.out == [] && t.Ok() && Alone(b, t)
    ensures Phase(n, t) && Asking(n, t) && n.b == b
  {
    hide Valid, CmFrame, Sender, StartConn;
    SenderOpens(a, t, now);
    ValidConfig(b);
    Net(StartConn(a, t.pgn, t.priority, t.sa, t.da, t.payload, now).0, b,
        StartConn(a, t.pgn, t.priority, t.sa, t.da, t.payload, now).1.value, [], now, now, [], [], 0, 0, false)
  }

  /** The deliveries a transfer takes: the request, every packet once, every grant and the acknowledgement. */
  function TransferLength(t: Transfer, window: nat): nat
    requires window >= 1
  {
    t.N() + DivCeil(t.N(), window) + 2
  }

  /** In every phase: nothing has been delivered but, at most once, the message; and while anything is under
      way it is under way in one direction only, and a delivery is due. */
  lemma PhaseFacts(n: Net, t: Transfer)
    requires Phase(n, t)
    ensures !n.panicked
    ensures n.bEvents in {[], [t.Delivered()], [SessionRefused(t.pgn, t.sa, Resources)]}
    ensures n.ab == [] || n.ba == []
    ensures n.ab == [] && n.ba == [] <==> Done(n, t) || Refused(n, t)
    ensures n.deliveries <= TransferLength(t, W(n)) && n.grants <= DivCeil(t.N(), W(n))
    ensures Done(n, t) ==> n.grants == DivCeil(t.N(), W(n)) && n.deliveries == TransferLength(t, W(n))
  {
    hide Valid, Cover, Burst, CmFrame, Sender, Receiver, Alone, NoReceiver, DivCeil;
    if Complete(n, t) { GrantCount(n.grants, W(n), t.N()); }
    GrantsSoFar(n, t);
  }

  lemma GrantsSoFar(n: Net, t: Transfer)
    requires Phase(n, t)
    ensures n.grants <= DivCeil(t.N(), W(n))
    ensures !Done(n, t) && !Acknowledging(n, t) ==> n.deliveries <= t.N() + n.grants
  {
    hide Valid, Cover, Burst, CmFrame, Sender, Receiver, Alone, NoReceiver, DivCeil;
    if k :| Granting(n, t, k) {
      AtMostCeil(n.grants, W(n), t.N());
    } else if k, w :| Sending(n, t, k, w) {
      AtMostCeil(n.grants, W(n), t.N());
    } else if Complete(n, t) {
      AtMostCeil(n.grants, W(n), t.N());
    }
  }

  /** The end-to-end theorem. For every message, window and interleaving with other traffic, no panic
      occurs, at most `TransferLength` deliveries happen, and as soon as nothing is under way either the
      message was delivered exactly once with exactly ceil(packets / window) grants, or it was refused
      without a grant; in both cases both sides hold no session of the transfer any more. */
  lemma ConnTransfer(a: Engine, b: Engine, t: Transfer, now: Instant, mvs: seq<Move>)
    requires Valid(a) && Valid(b) && a.out == [] && b.out == [] && t.Ok() && Alone(b, t)
    ensures var n := Moves(Open(a, b, t, now), t.L(), mvs);
            var window := b.config.ctsWindow;
            && !n.panicked
            && window >= 1 && n.deliveries <= TransferLength(t, window)
            && n.bEvents in {[], [t.Delivered()], [SessionRefused(t.pgn, t.sa, Resources)]}
            && (n.ab == [] && n.ba == [] ==>
                  && t.TxKey() !in n.a.txConn && t.RxKey() !in n.b.rxConn
                  && (|| (&& n.bEvents == [t.Delivered()]
                          && n.grants == DivCeil(t.N(), window) && n.deliveries == TransferLength(t, window))
                      || (n.bEvents == [SessionRefused(t.pgn, t.sa, Resources)] && n.grants == 0 && n.deliveries == 2)))
  {
    hide Valid, Next, Phase, TransferLength, Moves;
    ValidConfig(b);
    var n := Moves(Open(a, b, t, now), t.L(), mvs);
    PhaseKept(Open(a, b, t, now), t, mvs);
    PhaseFacts(n, t);
    WindowKept(Open(a, b, t, now), t.L(), mvs);
    PhaseIsOk(n, t);
  }

  /** While the transfer is under way, the timers of its two sessions show when each side last heard the other. */
  lemma TimersShow(n: Net, t: Transfer)
    requires Phase(n, t)
    ensures n.ab != [] || n.ba != [] ==>
              t.TxKey() in n.a.txConn && n.a.txConn[t.TxKey()].lastActivity == n.aHeard
    ensures n.deliveries > 0 && n.bEvents == [] ==>
              t.RxKey() in n.b.rxConn && n.b.rxConn[t.RxKey()].lastActivity == n.bHeard
  {
    hide Valid, Cover, Burst, CmFrame, Alone;
  }

  /** So a sweep leaves the transfer alone exactly when it comes no later than the side's limit after the last frame
      that reached it, and no limit has passed for any other session with the partner. */
  lemma SweepsInTime(n: Net, t: Transfer, now: Instant, hint: Sweep)
    requires Phase(n, t) && NetOk(n)
    ensures n.ab != [] || n.ba != [] ==>
              (Elsewhere(n.a, Poll(now, hint), t.da) <==>
               && now <= n.aHeard + n.a.config.t3
               && PeerInTime(n.a.(txConn := n.a.txConn - {t.TxKey()}), now, t.da))
    ensures n.deliveries > 0 && n.bEvents == [] ==>
              (Elsewhere(n.b, Poll(now, hint), t.sa) <==>
               && now <= n.bHeard + n.b.config.t2
               && PeerInTime(n.b.(rxConn := n.b.rxConn - {t.RxKey()}), now, t.sa))
  {
    hide Valid, Phase;
    TimersShow(n, t);
    if t.TxKey() in n.a.txConn { TxApart(n.a, now, t.TxKey()); }
    if t.RxKey() in n.b.rxConn { RxApart(n.b, now, t.RxKey()); }
  }

  ghost predicate NotRefused(n: Net, t: Transfer)
    requires t.Ok()
  {
    !Refusing(n, t) && !Refused(n, t) && (Asking(n, t) ==> t.RxKey() in n.b.rxConn || Room(n.b))
  }

  /** While no frame from elsewhere reaches a receiver that has room, the message is never refused. */
  lemma {:induction false} RoomMeansDelivery(n: Net, t: Transfer, mvs: seq<Move>)
    requires Phase(n, t) && NotRefused(n, t)
    requires forall i :: 0 <= i < |mvs| ==> TakesNoRoom(mvs[i])
    ensures Phase(Moves(n, t.L(), mvs), t) && NotRefused(Moves(n, t.L(), mvs), t)
    decreases |mvs|
  {
    hide Valid, Next, Phase, NetOk, NotRefused;
    if mvs != [] {
      PhaseIsOk(n, t);
      StaysAdmitted(n, t, mvs[0]);
      RoomMeansDelivery(Next(n, t.L(), mvs[0]), t, mvs[1..]);
    }
  }

  lemma StaysAdmitted(n: Net, t: Transfer, mv: Move)
    requires Phase(n, t) && NotRefused(n, t) && TakesNoRoom(mv)
    ensures Phase(Next(n, t.L(), mv), t) && NotRefused(Next(n, t.L(), mv), t)
  {
    hide Valid, Cover, Next, Burst, CmFrame, Sender, Receiver, Alone, NoReceiver, Room;
    if mv.OtherAtA? || mv.OtherAtB? {
      OtherMove(n, t, mv);
      OtherTraffic(n, t.L(), mv);
      KeepsRoom(n, t.L(), mv);
    } else {
      LinkMove(n, t, mv);
      if mv.ToB? && Asking(n, t) { RequestArrives(n, t, mv.now, mv.pick); }
      else { DeliveryKind(n, t, mv); }
    }
  }

  lemma DeliveryKind(n: Net, t: Transfer, mv: Move)
    requires Phase(n, t) && NotRefused(n, t) && (mv.ToA? || (mv.ToB? && !Asking(n, t)))
    ensures NotRefused(Next(n, t.L(), mv), t)
  {
    hide Valid, Cover, Next, Burst, CmFrame, Sender, Receiver, Alone, NoReceiver, Room;
    if mv.ToA? && exists k :: Granting(n, t, k) {
      var k :| Granting(n, t, k);
      GrantArrives(n, t, k, mv.now, mv.pick);
    } else if mv.ToB? && exists k, w :: Sending(n, t, k, w) {
      var k, w :| Sending(n, t, k, w);
      if k == t.N() { LastDataArrives(n, t, w, mv.now, mv.pick); }
      else if w > 1 { DataArrives(n, t, k, w, mv.now, mv.pick); }
      else { BurstEnds(n, t, k, mv.now, mv.pick); }
    } else if mv.ToA? && Acknowledging(n, t) {
      AckArrives(n, t, mv.now, mv.pick);
    } else {
      NothingToDeliver(n, t.L(), mv);
    }
  }

  // ---- The transfer ends -------------------------------------------------------------

  /** The deliveries a transfer can still take. */
  ghost function DeliveriesLeft(n: Net, t: Transfer): nat
    requires Phase(n, t)
  {
    PhaseFacts(n, t);
    TransferLength(t, W(n)) - n.deliveries
  }

  /** Every delivery counts. */
  lemma OneLeftLess(n: Net, t: Transfer)
    requires Phase(n, t) && NetOk(n) && (n.ab != [] || n.ba != [])
    ensures var m := Next(n, t.L(), NextDelivery(n)); Phase(m, t) && DeliveriesLeft(m, t) < DeliveriesLeft(n, t)
  {
    hide Valid, Next, Phase, NetOk, TransferLength, Done, Refused;
    LinkMove(n, t, NextDelivery(n));
    DeliveryCounts(n, t.L(), 0, Key(0, 0));
    WindowStep(n, t.L(), NextDelivery(n));
  }

  /** In every phase, delivering what is under way, frame by frame, brings the transfer to its end. */
  lemma {:induction false} Drains(n: Net, t: Transfer) returns (mvs: seq<Move>)
    requires Phase(n, t)
    ensures OnlyDeliveries(mvs)
    ensures var m := Moves(n, t.L(), mvs); m.ab == [] && m.ba == []
    decreases DeliveriesLeft(n, t)
  {
    hide Valid, Next, Phase, NetOk, DeliveriesLeft, NextDelivery;
    PhaseIsOk(n, t);
    if n.ab == [] && n.ba == [] {
      mvs := [];
    } else {
      OneLeftLess(n, t);
      var mv := NextDelivery(n);
      var rest := Drains(Next(n, t.L(), mv), t);
      mvs := [mv] + rest;
      assert mvs[1..] == rest;
    }
  }

  /** Whatever has happened so far, delivering what is under way ends the transfer with one event at the
      receiver: the message or its refusal. */
  lemma ConnFinishes(a: Engine, b: Engine, t: Transfer, now: Instant, mvs: seq<Move>) returns (more: seq<Move>)
    requires Valid(a) && Valid(b) && a.out == [] && b.out == [] && t.Ok() && Alone(b, t)
    ensures OnlyDeliveries(more)
    ensures var n := Moves(Open(a, b, t, now), t.L(), mvs + more);
            n.ab == [] && n.ba == [] && |n.bEvents| == 1
  {
    hide Valid, Next, Phase, TransferLength, Moves;
    var n0 := Open(a, b, t, now);
    PhaseKept(n0, t, mvs);
    PhaseIsOk(n0, t);
    more := Drains(Moves(n0, t.L(), mvs), t);
    MovesConcat(n0, t.L(), mvs, more);
    ConnTransfer(a, b, t, now, mvs + more);
  }

  /** A receiver that has room, and that no frame from elsewhere reaches, is handed the message exactly once. */
  lemma ConnDelivers(a: Engine, b: Engine, t: Transfer, now: Instant, mvs: seq<Move>)
    requires Valid(a) && Valid(b) && a.out == [] && b.out == [] && t.Ok() && Alone(b, t)
    requires t.RxKey() in b.rxConn || Room(b)
    requires forall i :: 0 <= i < |mvs| ==> TakesNoRoom(mvs[i])
    ensures var n := Moves(Open(a, b, t, now), t.L(), mvs);
            n.ab == [] && n.ba == [] ==> n.bEvents == [t.Delivered()]
  {
    var n0 := Open(a, b, t, now);
    NotRefusedYet(n0, t);
    RoomMeansDelivery(n0, t, mvs);
    var n := Moves(n0, t.L(), mvs);
    PhaseFacts(n, t);
    hide Valid, Moves, Phase, Open;
  }

  lemma NotRefusedYet(n: Net, t: Transfer)
    requires t.Ok() && Asking(n, t)
    ensures !Refusing(n, t) && !Refused(n, t)
  {
    hide CmFrame, Sender, Alone;
  }
}
