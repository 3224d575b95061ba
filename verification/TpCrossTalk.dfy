/** A data frame names its source and not its message, so it goes to whichever session of that source the hash map
    yields first. When that matters, exactly, and what can come of it. */
module TpCrossTalk {
  import opened Bytes
  import opened J1939Id
  import opened TpTypes
  import opened TpWire
  import opened TpSteps
  import opened TpSafety
  import opened TpLifecycle
  import opened TpBadLink
  import opened TpBam

  /** At most one session of the source is open. */
  predicate OneOf(keys: set<Key>, sa: u8) {
    forall k, j :: k in keys && j in keys && k.sa == sa && j.sa == sa ==> k == j }

  lemma OneChoice(keys: set<Key>, sa: u8, p: Key, q: Key)
    requires OneOf(keys, sa)
    ensures SessionOf(keys, sa, p) == SessionOf(keys, sa, q)
  {
  }

  // ---- Exactly when the iteration order matters -------------------------------------------

  /** A data frame that the session of `k` expects changes that session. */
  lemma ExpectedChanges(e: Engine, now: Instant, k: Key)
    requires Valid(e) && k in e.bam
    ensures var r := OnBamDt(e, k.sa, [e.bam[k].nextSeq], now, k).engine;
            k !in r.bam || r.bam[k].nextSeq != e.bam[k].nextSeq
  {
    hide Valid, Taken;
    PickHonoured(e.bam.Keys, k.sa, k);
    BamSession(e, k);
  }

  /** And it leaves the others alone. */
  lemma OthersStay(e: Engine, d: seq<u8>, now: Instant, k: Key, j: Key)
    requires Valid(e) && |d| >= 1 && k in e.bam && j in e.bam && j != k
    ensures var r := OnBamDt(e, k.sa, d, now, k).engine; j in r.bam && r.bam[j] == e.bam[j]
  {
    hide Valid, BamAccept;
    PickHonoured(e.bam.Keys, k.sa, k);
  }

  lemma BamSameChoice(e: Engine, sa: u8, d: seq<u8>, now: Instant, p: Key, q: Key)
    requires Valid(e) && |d| >= 1 && OneOf(e.bam.Keys, sa)
    ensures OnBamDt(e, sa, d, now, p) == OnBamDt(e, sa, d, now, q)
  {
    hide Valid, BamAccept, SessionOf, OneOf;
    OneChoice(e.bam.Keys, sa, p, q);
  }

  /** What a broadcast data frame does is independent of the order of the hash map exactly when at most one
      broadcast session of its source is open. */
  lemma BroadcastDeterminedExactly(e: Engine, sa: u8, now: Instant)
    requires Valid(e)
    ensures (forall d: seq<u8>, p, q :: |d| >= 1 ==> OnBamDt(e, sa, d, now, p) == OnBamDt(e, sa, d, now, q))
            <==> OneOf(e.bam.Keys, sa)
  {
    hide Valid, OnBamDt;
    if OneOf(e.bam.Keys, sa) {
      forall d: seq<u8>, p, q | |d| >= 1 ensures OnBamDt(e, sa, d, now, p) == OnBamDt(e, sa, d, now, q) {
        BamSameChoice(e, sa, d, now, p, q);
      }
    } else {
      var k, j :| k in e.bam && j in e.bam && k.sa == sa && j.sa == sa && k != j;
      var d: seq<u8> := [e.bam[k].nextSeq];
      ExpectedChanges(e, now, k);
      OthersStay(e, d, now, j, k);
      assert OnBamDt(e, sa, d, now, k) != OnBamDt(e, sa, d, now, j);
    }
  }

  lemma ConnExpectedChanges(e: Engine, now: Instant, k: Key)
    requires Valid(e) && k in e.rxConn
    ensures var r := OnConnDt(e, k.sa, [e.rxConn[k].nextSeq], now, k).engine;
            k !in r.rxConn || r.rxConn[k].nextSeq != e.rxConn[k].nextSeq
  {
    hide Valid, Taken, CmFrame, GrantWindow;
    PickHonoured(e.rxConn.Keys, k.sa, k);
    RxConnSession(e, k);
  }

  lemma ConnOthersStay(e: Engine, d: seq<u8>, now: Instant, k: Key, j: Key)
    requires Valid(e) && |d| >= 1 && k in e.rxConn && j in e.rxConn && j != k
    ensures var r := OnConnDt(e, k.sa, d, now, k).engine; j in r.rxConn && r.rxConn[j] == e.rxConn[j]
  {
    hide Valid, ConnAccept, CmFrame;
    PickHonoured(e.rxConn.Keys, k.sa, k);
    RxConnSession(e, k);
  }

  lemma ConnSameChoice(e: Engine, sa: u8, d: seq<u8>, now: Instant, p: Key, q: Key)
    requires Valid(e) && |d| >= 1 && OneOf(e.rxConn.Keys, sa)
    ensures OnConnDt(e, sa, d, now, p) == OnConnDt(e, sa, d, now, q)
  {
    hide Valid, ConnAccept, CmFrame, SessionOf, OneOf;
    OneChoice(e.rxConn.Keys, sa, p, q);
  }

  /** The same for connection-mode data. */
  lemma ConnDeterminedExactly(e: Engine, sa: u8, now: Instant)
    requires Valid(e)
    ensures (forall d: seq<u8>, p, q :: |d| >= 1 ==> OnConnDt(e, sa, d, now, p) == OnConnDt(e, sa, d, now, q))
            <==> OneOf(e.rxConn.Keys, sa)
  {
    hide Valid, OnConnDt;
    if OneOf(e.rxConn.Keys, sa) {
      forall d: seq<u8>, p, q | |d| >= 1 ensures OnConnDt(e, sa, d, now, p) == OnConnDt(e, sa, d, now, q) {
        ConnSameChoice(e, sa, d, now, p, q);
      }
    } else {
      var k, j :| k in e.rxConn && j in e.rxConn && k.sa == sa && j.sa == sa && k != j;
      var d: seq<u8> := [e.rxConn[k].nextSeq];
      ConnExpectedChanges(e, now, k);
      ConnOthersStay(e, d, now, j, k);
      assert OnConnDt(e, sa, d, now, k) != OnConnDt(e, sa, d, now, j);
    }
  }

  // ---- What can come of it ------------------------------------------------------------------

  /** The session of the message holds its first n-1 packets; others of the source may be open. */
  ghost predicate HoldsAt(e: Engine, m: Message, n: nat) {
    && m.Key() in e.bam
    && 1 <= n <= Packets(|m.payload|)
    && e.bam[m.Key()].totalSize == |m.payload| && e.bam[m.Key()].nextSeq == n
    && DATA_LEN * (n - 1) < |m.payload| && e.bam[m.Key()].buf == m.payload[..DATA_LEN * (n - 1)]
  }

  /** The n-th packet of a message, handed to the session of `m`. */
  function Picked(m: Message, priority: u8, n: nat, now: Instant): Input
    requires m.Ok() && 1 <= n <= Packets(|m.payload|)
  {
    var f := BamDt(m.a, priority, m.payload, n);
    Frame(WireId(f), f.data, now, m.Key())
  }

  lemma PickedPacket(e: Engine, m: Message, priority: u8, n: nat, now: Instant)
    requires Valid(e) && m.Ok() && HoldsAt(e, m, n)
    ensures var i := Picked(m, priority, n, now);
            && BamFrameOf(m, i)
            && (n < Packets(|m.payload|) ==> Step(e, i).events == [] && HoldsAt(Step(e, i).engine, m, n + 1))
            && (n == Packets(|m.payload|) ==> Step(e, i).events == [Completed(m.pgn, m.a, m.payload)])
  {
    hide Valid, OnFrame, PacketData, WireId, IsPacket, Taken;
    var i := Picked(m, priority, n, now);
    WireIdOf(BamDt(m.a, priority, m.payload, n));
    BamOnFrame(e, i.id, i.data, i.now, i.pick);
    BamSession(e, m.Key());
    PickHonoured(e.bam.Keys, m.a, m.Key());
    assert IsPacket(m, i.data) by { NthPacket(m, n); }
    PrefixGrows(m, n, i.data, e.bam[m.Key()].buf);
    assert m.payload[..|m.payload|] == m.payload;
  }

  /** The packets from the n-th on. */
  function PickedFrom(m: Message, priority: u8, n: nat, now: Instant): (run: seq<Input>)
    requires m.Ok() && 1 <= n <= Packets(|m.payload|)
    decreases Packets(|m.payload|) - n
  {
    [Picked(m, priority, n, now)] + (if n == Packets(|m.payload|) then [] else PickedFrom(m, priority, n + 1, now))
  }

  lemma {:induction false} PickedRest(e: Engine, m: Message, priority: u8, n: nat, now: Instant)
    requires Valid(e) && m.Ok() && HoldsAt(e, m, n)
    ensures BamTrace(e, m, PickedFrom(m, priority, n, now)) == [Completed(m.pgn, m.a, m.payload)]
    decreases Packets(|m.payload|) - n
  {
    hide Valid, Step, Picked, HoldsAt, BamFrameOf;
    HoldsBound(e, m, n);
    var run := PickedFrom(m, priority, n, now);
    PickedPacket(e, m, priority, n, now);
    var e' := Step(e, run[0]).engine;
    if n < Packets(|m.payload|) {
      PickedRest(e', m, priority, n + 1, now);
      assert run[1..] == PickedFrom(m, priority, n + 1, now);
    } else {
      assert run[1..] == [];
      assert BamTrace(e', m, []) == [];
    }
  }

  lemma HoldsBound(e: Engine, m: Message, n: nat)
    requires HoldsAt(e, m, n)
    ensures 1 <= n <= Packets(|m.payload|)
  {
  }

  /** The announce of a message, as decoded from the wire. */
  function Announced(m: Message, priority: u8, now: Instant): Input
    requires m.Ok()
  {
    var f := BamFrame(m.a, priority, m.pgn, |m.payload|, Packets(|m.payload|));
    Frame(WireId(f), f.data, now, m.Key())
  }

  lemma AnnounceOpens(e: Engine, m: Message, priority: u8, now: Instant)
    requires Valid(e) && m.Ok() && (m.Key() in e.bam || Room(e))
    ensures var r := Step(e, Announced(m, priority, now));
            && r.events == [] && HoldsAt(r.engine, m, 1) && BamFrameOf(m, Announced(m, priority, now))
            && r.engine == e.(bam := r.engine.bam) && r.engine.bam == e.bam[m.Key() := r.engine.bam[m.Key()]]
  {
    hide Valid, OnFrame, PgnOf, U16, AnnounceOk, WireId, Byte0, Byte1, Byte2;
    var i := Announced(m, priority, now);
    WireIdOf(BamFrame(m.a, priority, m.pgn, |m.payload|, Packets(|m.payload|)));
    BamOnFrame(e, i.id, i.data, i.now, i.pick);
    AnnounceParses(m);
    assert i.data == BamData(m);
    assert m.payload[..0] == [];
  }

  /** Two messages of one source announced, and the packets of the first put into the session of the second. */
  function Confused(x: Message, y: Message, priority: u8, now: Instant): seq<Input>
    requires x.Ok() && y.Ok() && |x.payload| == |y.payload|
  {
    [Announced(x, priority, now), Announced(y, priority, now)]
    + PickedFrom(Message(y.a, y.pgn, x.payload), priority, 1, now)
  }

  /** Whatever two messages of one length a source announces under different PGNs, there is an order of the hash
      map under which sending the first completes the second, with the payload of the first. */
  lemma WrongPayload(e: Engine, x: Message, y: Message, priority: u8, now: Instant)
    requires Valid(e) && x.Ok() && y.Ok() && x.a == y.a && x.pgn != y.pgn && |x.payload| == |y.payload|
    requires TotalInbound(e) + 2 <= e.config.maxSessions
    ensures BamTrace(e, y, Confused(x, y, priority, now)) == [Completed(y.pgn, y.a, x.payload)]
  {
    var z := Message(y.a, y.pgn, x.payload);
    hide Valid, Step, Announced, PickedFrom, HoldsAt, BamFrameOf, OnFrame;
    AnnounceOpens(e, x, priority, now);
    var e1 := Step(e, Announced(x, priority, now)).engine;
    OneMore(e, e1, x.Key());
    AnnounceOpens(e1, y, priority, now);
    var e2 := Step(e1, Announced(y, priority, now)).engine;
    SameHold(e2, y, z);
    PickedRest(e2, z, priority, 1, now);
    SameTrace(e2, y, z, PickedFrom(z, priority, 1, now));
    SameFrames(x, y, Announced(x, priority, now));
    var run := Confused(x, y, priority, now);
    assert run[1..][1..] == PickedFrom(z, priority, 1, now);
  }

  lemma OneMore(e: Engine, e1: Engine, k: Key)
    requires e1 == e.(bam := e1.bam) && k in e1.bam && e1.bam == e.bam[k := e1.bam[k]]
    requires TotalInbound(e) + 2 <= e.config.maxSessions
    ensures Room(e1)
  {
    OneKeyMore(e.bam, k, e1.bam[k]);
  }

  lemma OneKeyMore<T>(m: map<Key, T>, k: Key, v: T)
    ensures |m[k := v]| <= |m| + 1
  {
    var m' := m[k := v];
    assert m'.Keys == m.Keys + {k};
    assert |m'.Keys| <= |m.Keys| + 1;
  }

  lemma SameHold(e: Engine, y: Message, z: Message)
    requires HoldsAt(e, y, 1) && z.a == y.a && z.pgn == y.pgn && |z.payload| == |y.payload|
    ensures HoldsAt(e, z, 1)
  {
    assert y.payload[..0] == [] == z.payload[..0];
  }

  lemma SameFrames(x: Message, y: Message, i: Input)
    requires x.a == y.a
    ensures BamFrameOf(x, i) == BamFrameOf(y, i)
  {
  }

  lemma {:induction false} SameTrace(e: Engine, y: Message, z: Message, run: seq<Input>)
    requires Valid(e) && y.a == z.a
    ensures BamTrace(e, y, run) == BamTrace(e, z, run)
    decreases |run|
  {
    hide Valid, Step, BamFrameOf;
    if run != [] {
      SameFrames(y, z, run[0]);
      SameTrace(Step(e, run[0]).engine, y, z, run[1..]);
    }
  }
}
