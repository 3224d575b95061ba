/** Extended transport end to end: two engines on a lossless, in-order link carry every message from 1786
    bytes up to the protocol maximum across exactly once, with exactly the grants the window asks for;
    or the receiver's byte limit or session limit refuses it. Packet numbers are relative to the offset
    frame of their burst, which is why this is claimed for a lossless, in-order link. */
module TpEtpTransfer {
  import opened Bytes
  import opened J1939Id
  import opened TpTypes
  import opened TpWire
  import opened TpSteps
  import opened TpSafety
  import opened TpLifecycle
  import opened TpNet

  datatype Transfer = Transfer(sa: u8, da: u8, pgn: Pgn, priority: u8, payload: seq<u8>) {
    predicate Ok() { ETP_MIN_PAYLOAD <= |payload| <= ETP_PROTOCOL_MAX && da != GLOBAL_ADDRESS }
    function L(): Link { Link(sa, da) }
    function N(): (n: nat)
      ensures Ok() ==> 256 <= n < 0x100_0000
    {
      Packets(|payload|)
    }
    function TxKey(): Key { Key(da, pgn) }
    function RxKey(): Key { Key(sa, pgn) }
    function Delivered(): Event { Completed(pgn, sa, payload) }
  }

  lemma PacketStart(t: Transfer, k: nat)
    requires t.Ok() && 1 <= k <= t.N()
    ensures DATA_LEN * (k - 1) < |t.payload|
    ensures k < t.N() ==> DATA_LEN * k < |t.payload|
    ensures k == t.N() ==> |t.payload| <= DATA_LEN * k
  {
  }

  /** Packet `k`, sent under the burst-relative number `tag`. */
  function DataFrame(t: Transfer, tag: u8, k: nat): OutFrame
    requires t.Ok() && 1 <= k <= t.N()
  {
    OutFrame(ETP_DT_PGN, t.priority, t.sa, Some(t.da), PacketData(tag, t.payload, k))
  }

  /** The last `w` packets of a burst that began after packet `offset`, `k` first. */
  function Burst(t: Transfer, offset: nat, k: nat, w: nat): (fs: seq<OutFrame>)
    requires t.Ok() && offset < k && k + w - 1 <= t.N() && k + w - 1 - offset <= 0xFF
    ensures |fs| == w
    ensures forall i :: 0 <= i < w ==> fs[i] == DataFrame(t, k + i - offset, k + i)
  {
    seq(w, i requires 0 <= i < w => DataFrame(t, k + i - offset, k + i))
  }

  // ---- Both sides of the connection --------------------------------------------

  ghost predicate Sender(a: Engine, t: Transfer, heard: Instant)
    requires t.Ok()
  {
    && t.TxKey() in a.etpTx
    && var s := a.etpTx[t.TxKey()];
       s == EtpTx(t.pgn, t.sa, t.da, t.priority, t.payload, t.N(), heard)
  }

  ghost predicate Alone(b: Engine, t: Transfer) { forall k :: k in b.etpRx && k.sa == t.sa ==> k == t.RxKey() }

  /** The session holds the first k-1 packets, in place, in a buffer of the announced size. */
  ghost predicate Receiver(b: Engine, t: Transfer, k: nat, heard: Instant)
    requires t.Ok()
  {
    && Alone(b, t)
    && t.RxKey() in b.etpRx
    && 1 <= k <= t.N()
    && DATA_LEN * (k - 1) < |t.payload|
    && var s := b.etpRx[t.RxKey()];
       && s.pgn == t.pgn && s.peer == t.sa && s.ours == t.da && s.priority == t.priority % 8
       && s.totalSize == |t.payload| && s.totalPackets == t.N()
       && s.nextPacket == k && s.lastActivity == heard
       && |s.buf| == |t.payload|
       && s.buf[..DATA_LEN * (k - 1)] == t.payload[..DATA_LEN * (k - 1)]
  }

  /** In addition, the burst under way began after `offset` and has `w` packets to come. */
  ghost predicate Bursting(b: Engine, t: Transfer, offset: nat, k: nat, w: nat, heard: Instant)
    requires t.Ok()
  {
    && Receiver(b, t, k, heard)
    && b.etpRx[t.RxKey()].dpoOffset == offset && b.etpRx[t.RxKey()].burstRemaining == w
  }

  ghost predicate NoReceiver(b: Engine, t: Transfer) { Alone(b, t) && t.RxKey() !in b.etpRx }

  // ---- The phases of a transfer --------------------------------------------------

  function W(n: Net): nat { n.b.config.ctsWindow }

  function GrantSize(n: Net, t: Transfer, k: nat): int { Min(W(n), t.N() - k + 1) }

  ghost predicate Asking(n: Net, t: Transfer)
    requires t.Ok()
  {
    && n.ab == [EtpRtsFrame(t.sa, t.da, t.priority, t.pgn, |t.payload|)] && n.ba == []
    && Sender(n.a, t, n.aHeard) && Alone(n.b, t)
    && n.aEvents == [] && n.bEvents == [] && n.grants == 0 && n.deliveries == 0
  }

  ghost predicate Granting(n: Net, t: Transfer, k: nat)
    requires t.Ok()
  {
    && 1 <= k <= t.N() && n.grants >= 1 && k - 1 == Cover(n.grants - 1, W(n))
    && 1 <= GrantSize(n, t, k) <= 0xFF && Receiver(n.b, t, k, n.bHeard)
    && n.ba == [EtpCtsFrame(t.da, t.sa, t.priority % 8, t.pgn, GrantSize(n, t, k), k)]
    && n.ab == [] && Sender(n.a, t, n.aHeard)
    && n.aEvents == [] && n.bEvents == [] && n.deliveries == k + 2 * (n.grants - 1)
  }

  /** The offset frame and the whole burst from `k` on are under way. */
  ghost predicate Offering(n: Net, t: Transfer, k: nat)
    requires t.Ok()
  {
    && 1 <= k <= t.N() && n.grants >= 1 && k - 1 == Cover(n.grants - 1, W(n))
    && 1 <= GrantSize(n, t, k) <= 0xFF && Receiver(n.b, t, k, n.bHeard)
    && n.ab == [EtpDpoFrame(t.sa, t.da, t.priority, t.pgn, GrantSize(n, t, k), k - 1)]
               + Burst(t, k - 1, k, GrantSize(n, t, k))
    && n.ba == [] && Sender(n.a, t, n.aHeard)
    && n.aEvents == [] && n.bEvents == [] && n.deliveries == k + 2 * n.grants - 1
  }

  ghost predicate Sending(n: Net, t: Transfer, offset: nat, k: nat, w: nat)
    requires t.Ok()
  {
    && offset < k && 1 <= w && n.grants >= 1 && offset == Cover(n.grants - 1, W(n))
    && k + w - 1 == Min(Cover(n.grants, W(n)), t.N()) && k + w - 1 <= t.N() && k + w - 1 - offset <= 0xFF
    && Bursting(n.b, t, offset, k, w, n.bHeard)
    && n.ab == Burst(t, offset, k, w) && n.ba == [] && Sender(n.a, t, n.aHeard)
    && n.aEvents == [] && n.bEvents == [] && n.deliveries == k + 2 * n.grants
  }

  ghost predicate Complete(n: Net, t: Transfer)
    requires t.Ok()
  {
    && n.bEvents == [t.Delivered()] && n.aEvents == [] && NoReceiver(n.b, t) && n.ab == []
    && n.grants >= 1 && Cover(n.grants - 1, W(n)) < t.N() <= Cover(n.grants, W(n))
  }

  ghost predicate Acknowledging(n: Net, t: Transfer)
    requires t.Ok()
  {
    && Complete(n, t) && Sender(n.a, t, n.aHeard)
    && n.ba == [EtpEomaFrame(t.da, t.sa, t.priority % 8, t.pgn, |t.payload|)]
    && n.deliveries == t.N() + 2 * n.grants + 1
  }

  ghost predicate Done(n: Net, t: Transfer)
    requires t.Ok()
  {
    Complete(n, t) && t.TxKey() !in n.a.etpTx && n.ba == [] && n.deliveries == t.N() + 2 * n.grants + 2
  }

  /** The receiver's two reasons to refuse: the message exceeds its byte limit, or it has no room. */
  function RefusalEvent(b: Engine, t: Transfer): Event {
    if |t.payload| > b.config.maxEtpBytes then Aborted(t.pgn, t.sa, Resources)
    else SessionRefused(t.pgn, t.sa, Resources)
  }

  ghost predicate Refusing(n: Net, t: Transfer)
    requires t.Ok()
  {
    && n.bEvents == [RefusalEvent(n.b, t)] && n.aEvents == [] && Alone(n.b, t)
    && n.ab == [] && n.ba == [EtpAbortFrame(t.da, t.sa, t.priority % 8, t.pgn, Resources)] && Sender(n.a, t, n.aHeard)
    && n.grants == 0 && n.deliveries == 1
  }

  ghost predicate Refused(n: Net, t: Transfer)
    requires t.Ok()
  {
    && n.bEvents == [RefusalEvent(n.b, t)] && Alone(n.b, t)
    && (var ev := Aborted(t.pgn, t.da, Resources); n.aEvents == [ev] || n.aEvents == [ev, ev])
    && t.TxKey() !in n.a.etpTx && n.ab == [] && n.ba == [] && n.grants == 0 && n.deliveries == 2
  }

  ghost predicate Phase(n: Net, t: Transfer) {
    && t.Ok() && NetOk(n) && !n.panicked && W(n) >= 1
    && (Asking(n, t) || (exists k :: Granting(n, t, k)) || (exists k :: Offering(n, t, k))
        || (exists offset, k, w :: Sending(n, t, offset, k, w))
        || Acknowledging(n, t) || Done(n, t) || Refusing(n, t) || Refused(n, t))
  }

  // ---- Deliveries ------------------------------------------------------------------

  lemma SizeBytes32(n: nat)
    requires n < 0x1_0000_0000
    ensures U32(Byte0(n), Byte1(n), Byte2(n), Byte3(n)) == n
  {
    NestedDivision(n);
    FourBytes(n, n / 0x100, n / 0x1_0000, n / 0x100_0000);
  }

  lemma FourBytes(n: nat, a: nat, b: nat, c: nat)
    requires n < 0x1_0000_0000 && a == n / 0x100 && b == a / 0x100 && c == b / 0x100
    ensures n % 0x100 + 0x100 * (a % 0x100) + 0x1_0000 * (b % 0x100) + 0x100_0000 * (c % 0x100) == n
  {
    Quotient(n, 0x100, 0x100_0000);
    Quotient(a, 0x100, 0x1_0000);
    Quotient(b, 0x100, 0x100);
    FourParts(n, a, b, c, n % 0x100, a % 0x100, b % 0x100);
  }

  lemma FourParts(n: nat, a: nat, b: nat, c: nat, r0: u8, r1: u8, r2: u8)
    requires n == a * 0x100 + r0 && a == b * 0x100 + r1 && b == c * 0x100 + r2 && c < 0x100
    ensures r0 + 0x100 * r1 + 0x1_0000 * r2 + 0x100_0000 * (c % 0x100) == n
  {
    assert c % 0x100 == c;
  }

  lemma RequestHandled(b: Engine, t: Transfer, f: OutFrame, now: Instant)
    requires Valid(b) && t.Ok() && Alone(b, t) && f == EtpRtsFrame(t.sa, t.da, t.priority, t.pgn, |t.payload|)
    ensures var r := OnEtpRts(b, WireId(f), f.data, now);
            && r.engine.config == b.config && !r.panicked
            && (if |t.payload| <= b.config.maxEtpBytes && (t.RxKey() in b.etpRx || Room(b)) then
                  var w := Min(b.config.ctsWindow, t.N());
                  && 1 <= w && Receiver(r.engine, t, 1, now) && r.events == []
                  && r.engine.out == b.out + [EtpCtsFrame(t.da, t.sa, t.priority % 8, t.pgn, w, 1)]
                else
                  && Alone(r.engine, t) && r.events == [RefusalEvent(b, t)]
                  && r.engine.out == b.out + [EtpAbortFrame(t.da, t.sa, t.priority % 8, t.pgn, Resources)])
  {
    hide Valid, WireId, PgnOf, U32, Byte0, Byte1, Byte2, Byte3;
    WireIdOf(f);
    ValidConfig(b);
    PgnOfCm(ETP_CM_PGN, t.sa, t.da, t.priority, t.pgn, ETP_RTS_CONTROL, Byte0(|t.payload|), Byte1(|t.payload|),
            Byte2(|t.payload|), Byte3(|t.payload|));
    SizeBytes32(|t.payload|);
    assert t.payload[..0] == [];
  }

  lemma RequestArrives(n: Net, t: Transfer, now: Instant, pick: Key)
    requires Phase(n, t) && Asking(n, t)
    ensures var n' := Next(n, t.L(), ToB(now, pick));
            && !n'.panicked && W(n') == W(n)
            && if |t.payload| <= n.b.config.maxEtpBytes && (t.RxKey() in n.b.etpRx || Room(n.b))
               then Granting(n', t, 1) else Refusing(n', t)
  {
    hide Valid, Cover, Next, OnFrame, WireId, OnEtpRts, Byte0, Byte1, Byte2, Byte3, Room;
    var f := n.ab[0];
    WireIdOf(f);
    DeliverToB(n, t.L(), f, now, pick);
    EtpRxOnFrame(n.b, WireId(f), f.data, now, pick);
    RequestHandled(n.b, t, f, now);
    CoverStep(0, W(n));
    GrantsOfOne(OnEtpRts(n.b, WireId(f), f.data, now).engine.out[0]);
  }

  lemma BurstAnswers(s: EtpTx, t: Transfer, k: nat, w: nat)
    requires t.Ok() && 1 <= k <= t.N() && 1 <= w <= 0xFF && k + w - 1 <= t.N()
    requires s == EtpTx(t.pgn, t.sa, t.da, t.priority, t.payload, t.N(), s.lastActivity)
    ensures EtpBurst(s, k, w) ==
            Some([EtpDpoFrame(t.sa, t.da, t.priority, t.pgn, w, k - 1)] + Burst(t, k - 1, k, w))
  {
    hide PacketData, CmFrame;
    PacketStart(t, k);
    assert EtpBurstLength(s.totalPackets, k, w) == w;
    var fs := EtpBurst(s, k, w).value;
    assert fs[1..] == Burst(t, k - 1, k, w) by {
      forall i | 0 <= i < w ensures fs[1..][i] == Burst(t, k - 1, k, w)[i] {
        assert fs[1..][i] == EtpDt(s, i + 1, k + i);
      }
    }
    assert fs == [fs[0]] + fs[1..];
  }

  lemma GrantHandled(a: Engine, t: Transfer, k: nat, w: nat, f: OutFrame, heard: Instant, now: Instant)
    requires Valid(a) && t.Ok() && Sender(a, t, heard) && 1 <= k <= t.N() && 1 <= w <= 0xFF && k + w - 1 <= t.N()
    requires f == EtpCtsFrame(t.da, t.sa, t.priority % 8, t.pgn, w, k)
    ensures var r := OnEtpCts(a, WireId(f), f.data, now);
            && Sender(r.engine, t, now) && r.events == [] && !r.panicked
            && r.engine.out == a.out + ([EtpDpoFrame(t.sa, t.da, t.priority, t.pgn, w, k - 1)] + Burst(t, k - 1, k, w))
  {
    hide Valid, WireId, PgnOf, U24, Byte0, Byte1, Byte2, EtpBurst, Burst;
    WireIdOf(f);
    PgnOfCm(ETP_CM_PGN, t.da, t.sa, t.priority % 8, t.pgn, ETP_CTS_CONTROL, w, Byte0(k), Byte1(k), Byte2(k));
    U24Bytes(k);
    BurstAnswers(a.etpTx[t.TxKey()].(lastActivity := now), t, k, w);
  }

  lemma GrantArrives(n: Net, t: Transfer, k: nat, now: Instant, pick: Key)
    requires Phase(n, t) && Granting(n, t, k)
    ensures var n' := Next(n, t.L(), ToA(now, pick)); Offering(n', t, k) && !n'.panicked && W(n') == W(n)
  {
    hide Valid, Cover, Next, OnFrame, WireId, OnEtpCts, Byte0, Byte1, Byte2, Burst;
    var f := n.ba[0];
    WireIdOf(f);
    DeliverToA(n, t.L(), f, now, pick);
    EtpTxOnFrame(n.a, WireId(f), f.data, now, pick);
    GrantHandled(n.a, t, k, GrantSize(n, t, k), f, n.aHeard, now);
  }

  lemma OffsetHandled(b: Engine, t: Transfer, k: nat, w: nat, f: OutFrame, heard: Instant, now: Instant)
    requires Valid(b) && t.Ok() && Receiver(b, t, k, heard) && 1 <= w <= 0xFF
    requires f == EtpDpoFrame(t.sa, t.da, t.priority, t.pgn, w, k - 1)
    ensures var r := OnEtpDpo(b, WireId(f), f.data, now);
            Bursting(r.engine, t, k - 1, k, w, now) && r.events == [] && !r.panicked && r.engine.out == b.out
            && r.engine.config == b.config
  {
    hide Valid, WireId, PgnOf, U24, Byte0, Byte1, Byte2;
    WireIdOf(f);
    PgnOfCm(ETP_CM_PGN, t.sa, t.da, t.priority, t.pgn, ETP_DPO_CONTROL, w, Byte0(k - 1), Byte1(k - 1), Byte2(k - 1));
    U24Bytes(k - 1);
  }

  lemma OffsetArrives(n: Net, t: Transfer, k: nat, now: Instant, pick: Key)
    requires Phase(n, t) && Offering(n, t, k)
    ensures var n' := Next(n, t.L(), ToB(now, pick));
            Sending(n', t, k - 1, k, GrantSize(n, t, k)) && !n'.panicked && W(n') == W(n)
  {
    hide Valid, Cover, Next, OnFrame, WireId, OnEtpDpo, Byte0, Byte1, Byte2, Burst;
    var f := n.ab[0];
    WireIdOf(f);
    DeliverToB(n, t.L(), f, now, pick);
    EtpRxOnFrame(n.b, WireId(f), f.data, now, pick);
    OffsetHandled(n.b, t, k, GrantSize(n, t, k), f, n.bHeard, now);
    CoverStep(n.grants - 1, W(n));
    GrantsOfOne(f);
  }

  /** Copying packet `k` into place extends the agreement of buffer and payload by one packet. */
  lemma PacketFills(s: EtpRx, t: Transfer, tag: u8, k: nat)
    requires t.Ok() && 1 <= k <= t.N() && s.nextPacket == k && s.totalSize == |s.buf| == |t.payload|
    requires DATA_LEN * (k - 1) <= |t.payload| && s.buf[..DATA_LEN * (k - 1)] == t.payload[..DATA_LEN * (k - 1)]
    ensures var buf := EtpFilled(s, PacketData(tag, t.payload, k));
            && |buf| == |t.payload|
            && (k < t.N() ==> DATA_LEN * k < |t.payload| && buf[..DATA_LEN * k] == t.payload[..DATA_LEN * k])
            && (k == t.N() ==> buf == t.payload)
  {
    hide PacketData;
    PacketStart(t, k);
    TakenIsChunk(tag, t.payload, k);
    var at := DATA_LEN * (k - 1);
    var c := Chunk(t.payload, k);
    var end := Min(DATA_LEN * k, |t.payload|);
    var buf := EtpFilled(s, PacketData(tag, t.payload, k));
    assert buf == s.buf[..at] + c + s.buf[at + |c|..];
    assert buf[..end] == s.buf[..at] + c;
    assert buf[..end] == t.payload[..end];
    assert t.payload[..|t.payload|] == t.payload && buf[..|buf|] == buf;
  }

  lemma PacketArrives(b: Engine, t: Transfer, offset: nat, k: nat, w: nat, heard: Instant, now: Instant, pick: Key)
    requires Valid(b) && t.Ok() && offset < k && k - offset <= 0xFF && 1 <= w && Bursting(b, t, offset, k, w, heard)
    ensures var r := OnEtpDt(b, t.sa, DataFrame(t, k - offset, k).data, now, pick);
            && (k == t.N() ==>
                  && NoReceiver(r.engine, t) && r.events == [t.Delivered()]
                  && r.engine.out == b.out + [EtpEomaFrame(t.da, t.sa, t.priority % 8, t.pgn, |t.payload|)])
            && (k < t.N() && w > 1 ==>
                  Bursting(r.engine, t, offset, k + 1, w - 1, now) && r.engine.out == b.out && r.events == [])
            && (k < t.N() && w == 1 ==>
                  var w' := Min(b.config.ctsWindow, t.N() - k);
                  && Receiver(r.engine, t, k + 1, now) && r.events == []
                  && r.engine.out == b.out + [EtpCtsFrame(t.da, t.sa, t.priority % 8, t.pgn, w', k + 1)])
            && r.engine.config == b.config && !r.panicked
  {
    hide Valid, PacketData, EtpFilled, Byte0, Byte1, Byte2, Byte3, CmFrame;
    EtpRxSession(b, t.RxKey());
    PacketFills(b.etpRx[t.RxKey()], t, k - offset, k);
    var found := SessionOf(b.etpRx.Keys, t.sa, pick);
    assert found == Some(t.RxKey());
  }

  lemma BurstHead(t: Transfer, offset: nat, k: nat, w: nat)
    requires t.Ok() && offset < k && 1 <= w && k + w - 1 <= t.N() && k + w - 1 - offset <= 0xFF
    ensures Burst(t, offset, k, w)[0] == DataFrame(t, k - offset, k)
    ensures Burst(t, offset, k, w)[1..] == Burst(t, offset, k + 1, w - 1)
    ensures w == 1 ==> Burst(t, offset, k + 1, w - 1) == []
  {
    hide PacketData;
  }

  lemma DataDelivered(n: Net, t: Transfer, offset: nat, k: nat, w: nat, now: Instant, pick: Key)
    requires Phase(n, t) && Sending(n, t, offset, k, w)
    ensures var r := OnEtpDt(n.b, t.sa, DataFrame(t, k - offset, k).data, now, pick);
            Next(n, t.L(), ToB(now, pick)) ==
            n.(b := Drained(r.engine), ab := Burst(t, offset, k + 1, w - 1), ba := r.engine.out,
               bHeard := now, bEvents := r.events, deliveries := n.deliveries + 1,
               grants := n.grants + Grants(r.engine.out), panicked := r.panicked)
  {
    hide Valid, Cover, Next, OnFrame, WireId, PacketData, OnEtpDt, Burst;
    BurstHead(t, offset, k, w);
    var f := DataFrame(t, k - offset, k);
    WireIdOf(f);
    DeliverToB(n, t.L(), f, now, pick);
    EtpRxOnFrame(n.b, WireId(f), f.data, now, pick);
  }

  lemma LastDataArrives(n: Net, t: Transfer, offset: nat, w: nat, now: Instant, pick: Key)
    requires Phase(n, t) && Sending(n, t, offset, t.N(), w)
    ensures var n' := Next(n, t.L(), ToB(now, pick)); Acknowledging(n', t) && !n'.panicked && W(n') == W(n)
  {
    hide Valid, Cover, Next, PacketData, OnEtpDt, Burst, Byte0, Byte1, Byte2, Byte3;
    DataDelivered(n, t, offset, t.N(), w, now, pick);
    PacketArrives(n.b, t, offset, t.N(), w, n.bHeard, now, pick);
    GrantsOfOne(EtpEomaFrame(t.da, t.sa, t.priority % 8, t.pgn, |t.payload|));
    BurstHead(t, offset, t.N(), w);
  }

  lemma DataArrives(n: Net, t: Transfer, offset: nat, k: nat, w: nat, now: Instant, pick: Key)
    requires Phase(n, t) && Sending(n, t, offset, k, w) && k < t.N() && w > 1
    ensures var n' := Next(n, t.L(), ToB(now, pick));
            Sending(n', t, offset, k + 1, w - 1) && !n'.panicked && W(n') == W(n)
  {
    hide Valid, Cover, Next, PacketData, OnEtpDt, Burst, Byte0, Byte1, Byte2;
    DataDelivered(n, t, offset, k, w, now, pick);
    PacketArrives(n.b, t, offset, k, w, n.bHeard, now, pick);
  }

  lemma BurstEnds(n: Net, t: Transfer, offset: nat, k: nat, now: Instant, pick: Key)
    requires Phase(n, t) && Sending(n, t, offset, k, 1) && k < t.N()
    ensures var n' := Next(n, t.L(), ToB(now, pick)); Granting(n', t, k + 1) && !n'.panicked && W(n') == W(n)
  {
    hide Valid, Cover, Next, PacketData, OnEtpDt, Burst, Byte0, Byte1, Byte2;
    DataDelivered(n, t, offset, k, 1, now, pick);
    PacketArrives(n.b, t, offset, k, 1, n.bHeard, now, pick);
    GrantsOfOne(EtpCtsFrame(t.da, t.sa, t.priority % 8, t.pgn, Min(W(n), t.N() - k), k + 1));
    BurstHead(t, offset, k, 1);
  }

  lemma AckArrives(n: Net, t: Transfer, now: Instant, pick: Key)
    requires Phase(n, t) && Acknowledging(n, t)
    ensures var n' := Next(n, t.L(), ToA(now, pick)); Done(n', t) && !n'.panicked && W(n') == W(n)
  {
    hide Valid, Cover, Next, OnFrame, WireId, PgnOf, Byte0, Byte1, Byte2, Byte3;
    var f := n.ba[0];
    WireIdOf(f);
    PgnOfCm(ETP_CM_PGN, t.da, t.sa, t.priority % 8, t.pgn, ETP_EOMA_CONTROL, Byte0(|t.payload|), Byte1(|t.payload|),
            Byte2(|t.payload|), Byte3(|t.payload|));
    DeliverToA(n, t.L(), f, now, pick);
    EtpTxOnFrame(n.a, WireId(f), f.data, now, pick);
  }

  lemma RefusalArrives(n: Net, t: Transfer, now: Instant, pick: Key)
    requires Phase(n, t) && Refusing(n, t)
    ensures var n' := Next(n, t.L(), ToA(now, pick)); Refused(n', t) && !n'.panicked && W(n') == W(n)
  {
    hide Valid, Cover, Next, OnFrame, WireId, PgnOf, Byte0, Byte1, Byte2;
    var f := n.ba[0];
    WireIdOf(f);
    PgnOfCm(ETP_CM_PGN, t.da, t.sa, t.priority % 8, t.pgn, ETP_ABORT_CONTROL, 2, 0xFF, 0xFF, 0xFF);
    DeliverToA(n, t.L(), f, now, pick);
    EtpTxOnFrame(n.a, WireId(f), f.data, now, pick);
  }

  // ---- The theorem -----------------------------------------------------------------

  lemma OtherMove(n: Net, t: Transfer, mv: Move)
    requires Phase(n, t) && (mv.OtherAtA? || mv.OtherAtB?)
    ensures Phase(Next(n, t.L(), mv), t)
  {
    hide Valid, Cover, Next, Burst, CmFrame;
    OtherTraffic(n, t.L(), mv);
    var n' := Next(n, t.L(), mv);
    if k :| Granting(n, t, k) {
      assert Granting(n', t, k);
    } else if k :| Offering(n, t, k) {
      assert Offering(n', t, k);
    } else if offset, k, w :| Sending(n, t, offset, k, w) {
      assert Sending(n', t, offset, k, w);
    }
  }

  lemma LinkMove(n: Net, t: Transfer, mv: Move)
    requires Phase(n, t) && (mv.ToA? || mv.ToB?)
    ensures Phase(Next(n, t.L(), mv), t)
  {
    hide Valid, Cover, Next, Burst, CmFrame, Sender, Receiver, Bursting, Alone, NoReceiver;
    if mv.ToB? && Asking(n, t) {
      RequestArrives(n, t, mv.now, mv.pick);
    } else if mv.ToA? && exists k :: Granting(n, t, k) {
      var k :| Granting(n, t, k);
      GrantArrives(n, t, k, mv.now, mv.pick);
    } else if mv.ToB? && exists k :: Offering(n, t, k) {
      var k :| Offering(n, t, k);
      OffsetArrives(n, t, k, mv.now, mv.pick);
    } else if mv.ToB? && exists offset, k, w :: Sending(n, t, offset, k, w) {
      var offset, k, w :| Sending(n, t, offset, k, w);
      if k == t.N() { LastDataArrives(n, t, offset, w, mv.now, mv.pick); }
      else if w > 1 { DataArrives(n, t, offset, k, w, mv.now, mv.pick); }
      else { BurstEnds(n, t, offset, k, mv.now, mv.pick); }
    } else if mv.ToA? && Acknowledging(n, t) {
      AckArrives(n, t, mv.now, mv.pick);
    } else if mv.ToA? && Refusing(n, t) {
      RefusalArrives(n, t, mv.now, mv.pick);
    } else {
      assert (mv.ToA? && n.ba == []) || (mv.ToB? && n.ab == []);
      NothingToDeliver(n, t.L(), mv);
    }
  }

  lemma PhaseIsOk(n: Net, t: Transfer)
    requires Phase(n, t)
    ensures NetOk(n)
  {
  }

  lemma {:induction false} PhaseKept(n: Net, t: Transfer, mvs: seq<Move>)
    requires Phase(n, t)
    ensures Phase(Moves(n, t.L(), mvs), t)
    decreases |mvs|
  {
    hide Valid, Next, Phase, NetOk;
    if mvs != [] {
      PhaseIsOk(n, t);
      if mvs[0].OtherAtA? || mvs[0].OtherAtB? { OtherMove(n, t, mvs[0]); } else { LinkMove(n, t, mvs[0]); }
      PhaseKept(Next(n, t.L(), mvs[0]), t, mvs[1..]);
    }
  }

  lemma SenderOpens(a: Engine, t: Transfer, now: Instant)
    requires Valid(a) && t.Ok()
    requires |t.payload| <= a.config.maxEtpBytes
    ensures var r := StartEtp(a, t.pgn, t.priority, t.sa, t.da, t.payload, now);
            Sender(r.0, t, now) && r.0.out == a.out
            && r.1 == Some([EtpRtsFrame(t.sa, t.da, t.priority, t.pgn, |t.payload|)])
  {
    hide Valid, CmFrame;
  }

  /** Opening the transfer. The sender's own byte limit is the one condition for it to start. */
  ghost function Open(a: Engine, b: Engine, t: Transfer, now: Instant): (n: Net)
    requires Valid(a) && Valid(b) && a.out == [] && b.out == [] && t.Ok() && Alone(b, t)
    requires |t.payload| <= a.config.maxEtpBytes
    ensures Phase(n, t) && Asking(n, t) && n.b == b
  {
    hide Valid, CmFrame, Sender, StartEtp;
    SenderOpens(a, t, now);
    ValidConfig(b);
    Net(StartEtp(a, t.pgn, t.priority, t.sa, t.da, t.payload, now).0, b,
        StartEtp(a, t.pgn, t.priority, t.sa, t.da, t.payload, now).1.value, [], now, now, [], [], 0, 0, false)
  }

  /** The deliveries a transfer takes: the request, every packet once, a grant and an offset frame per
      window, and the acknowledgement. */
  function TransferLength(t: Transfer, window: nat): nat
    requires window >= 1
  {
    t.N() + 2 * DivCeil(t.N(), window) + 2
  }

  lemma GrantsSoFar(n: Net, t: Transfer)
    requires Phase(n, t)
    ensures n.grants <= DivCeil(t.N(), W(n))
    ensures !Done(n, t) && !Acknowledging(n, t) ==> n.deliveries <= t.N() + 2 * n.grants + 2
  {
    hide Valid, Cover, Burst, CmFrame, Sender, Receiver, Bursting, Alone, NoReceiver, DivCeil;
    if k :| Granting(n, t, k) {
      AtMostCeil(n.grants, W(n), t.N());
    } else if k :| Offering(n, t, k) {
      AtMostCeil(n.grants, W(n), t.N());
    } else if offset, k, w :| Sending(n, t, offset, k, w) {
      AtMostCeil(n.grants, W(n), t.N());
    } else if Complete(n, t) {
      AtMostCeil(n.grants, W(n), t.N());
    }
  }

  lemma PhaseFacts(n: Net, t: Transfer)
    requires Phase(n, t)
    ensures !n.panicked
    ensures n.bEvents in {[], [t.Delivered()], [RefusalEvent(n.b, t)]}
    ensures n.ab == [] || n.ba == []
    ensures n.ab == [] && n.ba == [] <==> Done(n, t) || Refused(n, t)
    ensures n.deliveries <= TransferLength(t, W(n)) && n.grants <= DivCeil(t.N(), W(n))
    ensures Done(n, t) ==> n.grants == DivCeil(t.N(), W(n)) && n.deliveries == TransferLength(t, W(n))
  {
    hide Valid, Cover, Burst, CmFrame, Sender, Receiver, Bursting, Alone, NoReceiver, DivCeil;
    if Complete(n, t) { GrantCount(n.grants, W(n), t.N()); }
    GrantsSoFar(n, t);
  }

  /** The end-to-end theorem. For every message, window and interleaving with other traffic, no panic
      occurs, at most `TransferLength` deliveries happen, and as soon as nothing is under way either the
      message was delivered exactly once with exactly ceil(packets / window) grants and the receiver's
      session is gone, or it was refused without a grant; the sender's session is gone in both cases. */
  lemma EtpTransfer(a: Engine, b: Engine, t: Transfer, now: Instant, mvs: seq<Move>)
    requires Valid(a) && Valid(b) && a.out == [] && b.out == [] && t.Ok() && Alone(b, t)
    requires |t.payload| <= a.config.maxEtpBytes
    ensures var n := Moves(Open(a, b, t, now), t.L(), mvs);
            var window := b.config.ctsWindow;
            && !n.panicked
            && window >= 1 && n.deliveries <= TransferLength(t, window)
            && n.bEvents in {[], [t.Delivered()], [RefusalEvent(b, t)]}
            && (n.ab == [] && n.ba == [] ==>
                  && t.TxKey() !in n.a.etpTx
                  && (|| (&& n.bEvents == [t.Delivered()] && t.RxKey() !in n.b.etpRx
                          && n.grants == DivCeil(t.N(), window) && n.deliveries == TransferLength(t, window))
                      || (n.bEvents == [RefusalEvent(b, t)] && n.grants == 0 && n.deliveries == 2)))
  {
    hide Valid, Next, Phase, TransferLength, Moves;
    ValidConfig(b);
    var n := Moves(Open(a, b, t, now), t.L(), mvs);
    PhaseKept(Open(a, b, t, now), t, mvs);
    PhaseFacts(n, t);
    WindowKept(Open(a, b, t, now), t.L(), mvs);
  }

  /** While the transfer is under way, the timers of its two sessions show when each side last heard the other. */
  lemma TimersShow(n: Net, t: Transfer)
    requires Phase(n, t)
    ensures n.ab != [] || n.ba != [] ==>
              t.TxKey() in n.a.etpTx && n.a.etpTx[t.TxKey()].lastActivity == n.aHeard
    ensures n.deliveries > 0 && n.bEvents == [] ==>
              t.RxKey() in n.b.etpRx && n.b.etpRx[t.RxKey()].lastActivity == n.bHeard
  {
    hide Valid, Cover, Burst, CmFrame, Alone;
  }

  /** So a sweep leaves the transfer alone exactly when it comes no later than the side's limit after the last frame
      that reached it, and no limit has passed for any other session with the partner. */
  lemma SweepsInTime(n: Net, t: Transfer, now: Instant, hint: Sweep)
    requires Phase(n, t) && NetOk(n)
    ensures n.ab != [] || n.ba != [] ==>
              (Elsewhere(n.a, Poll(now, hint), t.da) <==>
               && now <= n.aHeard + n.a.config.t3
               && PeerInTime(n.a.(etpTx := n.a.etpTx - {t.TxKey()}), now, t.da))
    ensures n.deliveries > 0 && n.bEvents == [] ==>
              (Elsewhere(n.b, Poll(now, hint), t.sa) <==>
               && now <= n.bHeard + n.b.config.t2
               && PeerInTime(n.b.(etpRx := n.b.etpRx - {t.RxKey()}), now, t.sa))
  {
    hide Valid, Phase;
    TimersShow(n, t);
    if t.TxKey() in n.a.etpTx { EtpTxApart(n.a, now, t.TxKey()); }
    if t.RxKey() in n.b.etpRx { EtpRxApart(n.b, now, t.RxKey()); }
  }

  ghost predicate NotRefused(n: Net, t: Transfer)
    requires t.Ok()
  {
    && !Refusing(n, t) && !Refused(n, t)
    && (Asking(n, t) ==> |t.payload| <= n.b.config.maxEtpBytes && (t.RxKey() in n.b.etpRx || Room(n.b)))
  }

  /** While no frame from elsewhere reaches a receiver that has room and whose byte limit allows the message, it
      is never refused. */
  lemma {:induction false} RoomMeansDelivery(n: Net, t: Transfer, mvs: seq<Move>)
    requires Phase(n, t) && NotRefused(n, t)
    requires forall i :: 0 <= i < |mvs| ==> TakesNoRoom(mvs[i])
    ensures Phase(Moves(n, t.L(), mvs), t) && NotRefused(Moves(n, t.L(), mvs), t)
    decreases |mvs|
  {
    hide Valid, Next, Phase, NetOk, NotRefused;
    if mvs != [] {
      PhaseIsOk(n, t);
      StaysAdmitted(n, t, mvs[0]);
      RoomMeansDelivery(Next(n, t.L(), mvs[0]), t, mvs[1..]);
    }
  }

  lemma StaysAdmitted(n: Net, t: Transfer, mv: Move)
    requires Phase(n, t) && NotRefused(n, t) && TakesNoRoom(mv)
    ensures Phase(Next(n, t.L(), mv), t) && NotRefused(Next(n, t.L(), mv), t)
  {
    hide Valid, Cover, Next, Burst, CmFrame, Sender, Receiver, Bursting, Alone, NoReceiver, Room;
    if mv.OtherAtA? || mv.OtherAtB? {
      OtherMove(n, t, mv);
      OtherTraffic(n, t.L(), mv);
      KeepsRoom(n, t.L(), mv);
    } else {
      LinkMove(n, t, mv);
      if mv.ToB? && Asking(n, t) { RequestArrives(n, t, mv.now, mv.pick); }
      else { DeliveryKind(n, t, mv); }
    }
  }

  lemma DeliveryKind(n: Net, t: Transfer, mv: Move)
    requires Phase(n, t) && NotRefused(n, t) && (mv.ToA? || (mv.ToB? && !Asking(n, t)))
    ensures NotRefused(Next(n, t.L(), mv), t)
  {
    hide Valid, Cover, Next, Burst, CmFrame, Sender, Receiver, Bursting, Alone, NoReceiver, Room;
    if mv.ToA? && exists k :: Granting(n, t, k) {
      var k :| Granting(n, t, k);
      GrantArrives(n, t, k, mv.now, mv.pick);
    } else if mv.ToB? && exists k :: Offering(n, t, k) {
      var k :| Offering(n, t, k);
      OffsetArrives(n, t, k, mv.now, mv.pick);
    } else if mv.ToB? && exists offset, k, w :: Sending(n, t, offset, k, w) {
      var offset, k, w :| Sending(n, t, offset, k, w);
      if k == t.N() { LastDataArrives(n, t, offset, w, mv.now, mv.pick); }
      else if w > 1 { DataArrives(n, t, offset, k, w, mv.now, mv.pick); }
      else { BurstEnds(n, t, offset, k, mv.now, mv.pick); }
    } else if mv.ToA? && Acknowledging(n, t) {
      AckArrives(n, t, mv.now, mv.pick);
    } else {
      NothingToDeliver(n, t.L(), mv);
    }
  }

  // ---- The transfer ends -------------------------------------------------------------

  /** The deliveries a transfer can still take. */
  ghost function DeliveriesLeft(n: Net, t: Transfer): nat
    requires Phase(n, t)
  {
    PhaseFacts(n, t);
    TransferLength(t, W(n)) - n.deliveries
  }

  /** Every delivery counts. */
  lemma OneLeftLess(n: Net, t: Transfer)
    requires Phase(n, t) && NetOk(n) && (n.ab != [] || n.ba != [])
    ensures var m := Next(n, t.L(), NextDelivery(n)); Phase(m, t) && DeliveriesLeft(m, t) < DeliveriesLeft(n, t)
  {
    hide Valid, Next, Phase, NetOk, TransferLength, Done, Refused;
    LinkMove(n, t, NextDelivery(n));
    DeliveryCounts(n, t.L(), 0, Key(0, 0));
    WindowStep(n, t.L(), NextDelivery(n));
  }

  /** In every phase, delivering what is under way, frame by frame, brings the transfer to its end. */
  lemma {:induction false} Drains(n: Net, t: Transfer) returns (mvs: seq<Move>)
    requires Phase(n, t)
    ensures OnlyDeliveries(mvs)
    ensures var m := Moves(n, t.L(), mvs); m.ab == [] && m.ba == []
    decreases DeliveriesLeft(n, t)
  {
    hide Valid, Next, Phase, NetOk, DeliveriesLeft, NextDelivery;
    PhaseIsOk(n, t);
    if n.ab == [] && n.ba == [] {
      mvs := [];
    } else {
      OneLeftLess(n, t);
      var mv := NextDelivery(n);
      var rest := Drains(Next(n, t.L(), mv), t);
      mvs := [mv] + rest;
      assert mvs[1..] == rest;
    }
  }

  /** Whatever has happened so far, delivering what is under way ends the transfer with one event at the
      receiver: the message or its refusal. */
  lemma EtpFinishes(a: Engine, b: Engine, t: Transfer, now: Instant, mvs: seq<Move>) returns (more: seq<Move>)
    requires Valid(a) && Valid(b) && a.out == [] && b.out == [] && t.Ok() && Alone(b, t)
    requires |t.payload| <= a.config.maxEtpBytes
    ensures OnlyDeliveries(more)
    ensures var n := Moves(Open(a, b, t, now), t.L(), mvs + more);
            n.ab == [] && n.ba == [] && |n.bEvents| == 1
  {
    hide Valid, Next, Phase, TransferLength, Moves;
    var n0 := Open(a, b, t, now);
    PhaseKept(n0, t, mvs);
    PhaseIsOk(n0, t);
    more := Drains(Moves(n0, t.L(), mvs), t);
    MovesConcat(n0, t.L(), mvs, more);
    EtpTransfer(a, b, t, now, mvs + more);
  }

  /** A receiver that has room, and that no frame from elsewhere reaches, is handed the message exactly once. */
  lemma EtpDelivers(a: Engine, b: Engine, t: Transfer, now: Instant, mvs: seq<Move>)
    requires Valid(a) && Valid(b) && a.out == [] && b.out == [] && t.Ok() && Alone(b, t)
    requires |t.payload| <= a.config.maxEtpBytes
    requires |t.payload| <= b.config.maxEtpBytes && (t.RxKey() in b.etpRx || Room(b))
    requires forall i :: 0 <= i < |mvs| ==> TakesNoRoom(mvs[i])
    ensures var n := Moves(Open(a, b, t, now), t.L(), mvs);
            n.ab == [] && n.ba == [] ==> n.bEvents == [t.Delivered()]
  {
    var n0 := Open(a, b, t, now);
    NotRefusedYet(n0, t);
    RoomMeansDelivery(n0, t, mvs);
    var n := Moves(n0, t.L(), mvs);
    PhaseFacts(n, t);
    hide Valid, Moves, Phase, Open;
  }

  lemma NotRefusedYet(n: Net, t: Transfer)
    requires t.Ok() && Asking(n, t)
    ensures !Refusing(n, t) && !Refused(n, t)
  {
    hide CmFrame, Sender, Alone;
  }
}
