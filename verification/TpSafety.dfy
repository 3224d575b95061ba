/** What holds of one engine over every run: bounded memory, isolation of peers from each other, the
    exact timeout sweep and the life of a session. */
module TpSafety {
  import opened Bytes
  import opened J1939Id
  import opened TpTypes
  import opened TpWire
  import opened TpSteps

  // ---- Bounded memory and grants ---------------------------------------------

  lemma StepKeepsConfig(e: Engine, i: Input)
    requires Valid(e)
    ensures Step(e, i).engine.config == e.config
  {
    hide Valid, OnFrame, SweepFrames;
    if i.Frame? { NonInterference(e, i.id, i.data, i.now, i.pick); }
  }

  lemma {:induction false} RunKeepsConfig(e: Engine, run: seq<Input>)
    requires Valid(e)
    ensures Run(e, run).config == e.config
    decreases |run|
  {
    hide Valid, Step;
    if run != [] { StepKeepsConfig(e, run[0]); }
    if run != [] { RunKeepsConfig(Step(e, run[0]).engine, run[1..]); }
  }

  /** Whatever calls are made and whatever frames arrive, the inbound sessions stay within the limit the
      engine was built with, and so does every reassembly buffer. */
  lemma BoundedMemory(e: Engine, run: seq<Input>)
    requires Valid(e)
    ensures var e' := Run(e, run);
            && |e'.bam| + |e'.rxConn| + |e'.etpRx| <= e.config.maxSessions
            && (forall k :: k in e'.bam ==> |e'.bam[k].buf| <= e'.bam[k].totalSize <= TP_MAX_PAYLOAD)
            && (forall k :: k in e'.rxConn ==> |e'.rxConn[k].buf| <= e'.rxConn[k].totalSize <= TP_MAX_PAYLOAD)
            && (forall k :: k in e'.etpRx ==> |e'.etpRx[k].buf| == e'.etpRx[k].totalSize <= e.config.maxEtpBytes)
  {
    RunKeepsConfig(e, run);
  }

  predicate IsCts(f: OutFrame) { f.wirePgn == TP_CM_PGN && |f.data| == 8 && f.data[0] == CTS_CONTROL }

  predicate IsEtpCts(f: OutFrame) { f.wirePgn == ETP_CM_PGN && |f.data| == 8 && f.data[0] == ETP_CTS_CONTROL }

  /** A grant frame agrees with the session that issued it: it starts at the packet the session expects
      and ends within the message. */
  ghost predicate GrantsAgree(e: Engine, f: OutFrame) {
    && (IsCts(f) ==>
          exists k :: k in e.rxConn && f.dest == Some(k.sa) && PgnOf(f.data) == Some(k.pgn)
                      && f.data[2] == e.rxConn[k].nextSeq && f.data[1] == e.rxConn[k].window)
    && (IsEtpCts(f) ==>
          exists k :: k in e.etpRx && f.dest == Some(k.sa) && PgnOf(f.data) == Some(k.pgn)
                      && U24(f.data[2], f.data[3], f.data[4]) == e.etpRx[k].nextPacket
                      && 1 <= f.data[1] <= e.config.ctsWindow
                      && e.etpRx[k].nextPacket - 1 + f.data[1] <= e.etpRx[k].totalPackets)
  }

  lemma PgnBytes(pgn: Pgn)
    ensures U24(Byte0(pgn), Byte1(pgn), Byte2(pgn)) == pgn
  {
    U24Bytes(pgn);
  }

  lemma U24Bytes(n: nat)
    requires n < 0x100_0000
    ensures U24(Byte0(n), Byte1(n), Byte2(n)) == n
  {
    NestedDivision(n);
    var a, b := n / 0x100, n / 0x1_0000;
    Quotient(n, 0x100, 0x1_0000);
    Quotient(a, 0x100, 0x100);
    ThreeParts(n, a, b, n % 0x100, a % 0x100);
  }

  lemma ThreeParts(n: nat, a: nat, b: nat, r0: u8, r1: u8)
    requires n == a * 0x100 + r0 && a == b * 0x100 + r1 && b < 0x100
    ensures r0 + 0x100 * r1 + 0x1_0000 * (b % 0x100) == n
  {
    assert b % 0x100 == b;
  }

  /** Every grant the engine queues while handling a frame agrees with a session it then holds. */
  lemma GrantsAgreeOnFrame(e: Engine, id: DecodedId, d: seq<u8>, now: Instant, pick: Key, i: nat)
    requires Valid(e)
    requires |e.out| <= i < |OnFrame(e, id, d, now, pick).engine.out|
    ensures var r := OnFrame(e, id, d, now, pick).engine; GrantsAgree(r, r.out[i])
  {
    hide Valid, OnRts, OnConnDt, OnEtpRts, OnEtpCts, OnEtpDt, PgnOf, ConnBurst, U16, U24, AnnounceOk, ReasonFrom;
    if id.pgn == TP_CM_PGN {
      if d[0] == RTS_CONTROL { GrantAfterRts(e, id, d, now, i); }
    } else if id.pgn == TP_DT_PGN {
      if !Broadcast(id) { GrantAfterConnDt(e, id.source, d, now, pick, i); }
    } else if id.pgn == ETP_CM_PGN {
      if d[0] == ETP_RTS_CONTROL { GrantAfterEtpRts(e, id, d, now, i); }
      else if d[0] == ETP_CTS_CONTROL { NoGrantAfterEtpCts(e, id, d, now, i); }
    } else {
      GrantAfterEtpDt(e, id.source, d, now, pick, i);
    }
  }

  lemma GrantAfterRts(e: Engine, id: DecodedId, d: seq<u8>, now: Instant, i: nat)
    requires Valid(e) && |d| >= 8 && |e.out| <= i < |OnRts(e, id, d, now).engine.out|
    ensures GrantsAgree(OnRts(e, id, d, now).engine, OnRts(e, id, d, now).engine.out[i])
  {
    hide Valid, AnnounceOk, U16, TotalInbound, GrantWindow, Byte0, Byte1, Byte2;
    var r := OnRts(e, id, d, now).engine;
    var k := Key(id.source, PgnOf(d).value);
    PgnBytes(k.pgn);
    if IsCts(r.out[i]) {
      assert k in r.rxConn;
    }
  }

  lemma GrantAfterConnDt(e: Engine, sa: u8, d: seq<u8>, now: Instant, pick: Key, i: nat)
    requires Valid(e) && |d| >= 1 && |e.out| <= i < |OnConnDt(e, sa, d, now, pick).engine.out|
    ensures GrantsAgree(OnConnDt(e, sa, d, now, pick).engine, OnConnDt(e, sa, d, now, pick).engine.out[i])
  {
    hide Valid, U16, GrantWindow, Byte0, Byte1, Byte2, Taken, WindowOk;
    var r := OnConnDt(e, sa, d, now, pick).engine;
    var k := SessionOf(e.rxConn.Keys, sa, pick).value;
    RxConnSession(e, k);
    PgnBytes(k.pgn);
    if IsCts(r.out[i]) {
      assert k in r.rxConn;
    }
  }

  lemma GrantAfterEtpRts(e: Engine, id: DecodedId, d: seq<u8>, now: Instant, i: nat)
    requires Valid(e) && |d| >= 8 && |e.out| <= i < |OnEtpRts(e, id, d, now).engine.out|
    ensures GrantsAgree(OnEtpRts(e, id, d, now).engine, OnEtpRts(e, id, d, now).engine.out[i])
  {
    hide Valid, U32, TotalInbound, EtpGrant, Byte0, Byte1, Byte2, Byte3, Zeros, Packets;
    var r := OnEtpRts(e, id, d, now).engine;
    ValidConfig(e);
    U24Bytes(1);
    var k := Key(id.source, PgnOf(d).value);
    PgnBytes(k.pgn);
    if IsEtpCts(r.out[i]) {
      assert k in r.etpRx;
      EtpPacketsFit(r.etpRx[k].totalSize);
    }
  }

  lemma EtpPacketsFit(size: nat)
    requires size <= ETP_PROTOCOL_MAX
    ensures Packets(size) < 0x100_0000
    ensures size >= 1 ==> Packets(size) >= 1
  {
  }

  lemma NoGrantAfterEtpCts(e: Engine, id: DecodedId, d: seq<u8>, now: Instant, i: nat)
    requires Valid(e) && |d| >= 8 && |e.out| <= i < |OnEtpCts(e, id, d, now).engine.out|
    ensures GrantsAgree(OnEtpCts(e, id, d, now).engine, OnEtpCts(e, id, d, now).engine.out[i])
  {
    hide Valid, U24, Byte0, Byte1, Byte2;
  }

  lemma GrantAfterEtpDt(e: Engine, sa: u8, d: seq<u8>, now: Instant, pick: Key, i: nat)
    requires Valid(e) && |d| >= 1 && |e.out| <= i < |OnEtpDt(e, sa, d, now, pick).engine.out|
    ensures GrantsAgree(OnEtpDt(e, sa, d, now, pick).engine, OnEtpDt(e, sa, d, now, pick).engine.out[i])
  {
    hide Valid, EtpGrant, Byte0, Byte1, Byte2, Byte3, EtpFilled, Packets;
    var r := OnEtpDt(e, sa, d, now, pick).engine;
    var k := SessionOf(e.etpRx.Keys, sa, pick).value;
    EtpRxSession(e, k);
    EtpPacketsFit(e.etpRx[k].totalSize);
    PgnBytes(k.pgn);
    if IsEtpCts(r.out[i]) {
      assert k in r.etpRx;
      U24Bytes(r.etpRx[k].nextPacket);
    }
  }

  // ---- Non-interference -----------------------------------------------------

  ghost predicate Untouched<T(!new)>(m: map<Key, T>, m': map<Key, T>, a: u8) {
    forall k: Key :: k.sa != a ==> (k in m <==> k in m') && (k in m ==> m[k] == m'[k])
  }

  /** Only the business of `a` changed: other peers' sessions are as before in all five tables, and every
      new frame and event is addressed to, or about, `a`. */
  ghost predicate Local(e: Engine, r: Outcome, a: u8) {
    && Untouched(e.bam, r.engine.bam, a)
    && Untouched(e.rxConn, r.engine.rxConn, a)
    && Untouched(e.txConn, r.engine.txConn, a)
    && Untouched(e.etpRx, r.engine.etpRx, a)
    && Untouched(e.etpTx, r.engine.etpTx, a)
    && r.engine.config == e.config
    && e.out <= r.engine.out
    && (forall i :: |e.out| <= i < |r.engine.out| ==> r.engine.out[i].dest == Some(a))
    && (forall i :: 0 <= i < |r.events| ==> r.events[i].source == a)
  }

  lemma LocalBamCm(e: Engine, id: DecodedId, d: seq<u8>, now: Instant)
    requires Valid(e) && |d| >= 8
    ensures Local(e, OnBamCm(e, id.source, d, now), id.source)
    ensures var r := OnBamCm(e, id.source, d, now).engine; r == e.(bam := r.bam, out := r.out)
  {
    hide Valid, Byte0, Byte1, Byte2, Byte3, PgnOf, U16, AnnounceOk;
    var r := OnBamCm(e, id.source, d, now);
    assert r.engine == e.(bam := r.engine.bam, out := r.engine.out);
    assert Untouched(e.bam, r.engine.bam, id.source);
    assert r.engine.out == e.out;
    hide OnBamCm;
  }

  lemma LocalBamDt(e: Engine, sa: u8, d: seq<u8>, now: Instant, pick: Key)
    requires Valid(e) && |d| >= 1
    ensures Local(e, OnBamDt(e, sa, d, now, pick), sa)
    ensures var r := OnBamDt(e, sa, d, now, pick).engine; r == e.(bam := r.bam, out := r.out)
  {
    hide Valid, Byte0, Byte1, Byte2, Byte3, BamAccept;
    var found := SessionOf(e.bam.Keys, sa, pick);
    if found.Some? { BamSession(e, found.value); }
    var r := OnBamDt(e, sa, d, now, pick);
    assert r.engine == e.(bam := r.engine.bam, out := r.engine.out);
    assert Untouched(e.bam, r.engine.bam, sa);
    assert r.engine.out == e.out;
    hide OnBamDt;
  }

  lemma LocalRtsTable(e: Engine, id: DecodedId, d: seq<u8>, now: Instant)
    requires Valid(e) && |d| >= 8
    ensures Untouched(e.rxConn, OnRts(e, id, d, now).engine.rxConn, id.source)
  {
    hide Valid, Byte0, Byte1, Byte2, Byte3, ParseConnRts, AnnounceOk, GrantWindow, TotalInbound;
  }

  lemma LocalRts(e: Engine, id: DecodedId, d: seq<u8>, now: Instant)
    requires Valid(e) && |d| >= 8
    ensures Local(e, OnRts(e, id, d, now), id.source)
    ensures var r := OnRts(e, id, d, now).engine; r == e.(rxConn := r.rxConn, out := r.out)
  {
    hide Valid, Byte0, Byte1, Byte2, Byte3, ParseConnRts, AnnounceOk, GrantWindow, TotalInbound;
    var r := OnRts(e, id, d, now);
    assert r.engine == e.(rxConn := r.engine.rxConn, out := r.engine.out);
    LocalRtsTable(e, id, d, now);
    assert e.out <= r.engine.out
           && forall i :: |e.out| <= i < |r.engine.out| ==> r.engine.out[i].dest == Some(id.source);
    hide OnRts;
  }

  lemma LocalConnDt(e: Engine, sa: u8, d: seq<u8>, now: Instant, pick: Key)
    requires Valid(e) && |d| >= 1
    ensures Local(e, OnConnDt(e, sa, d, now, pick), sa)
    ensures var r := OnConnDt(e, sa, d, now, pick).engine; r == e.(rxConn := r.rxConn, out := r.out)
  {
    hide Valid, Byte0, Byte1, Byte2, Byte3, ConnAccept, WindowOk;
    var found := SessionOf(e.rxConn.Keys, sa, pick);
    if found.Some? { RxConnSession(e, found.value); }
    var r := OnConnDt(e, sa, d, now, pick);
    assert r.engine == e.(rxConn := r.engine.rxConn, out := r.engine.out);
    assert Untouched(e.rxConn, r.engine.rxConn, sa);
    assert e.out <= r.engine.out && forall i :: |e.out| <= i < |r.engine.out| ==> r.engine.out[i].dest == Some(sa);
    hide OnConnDt;
  }

  lemma LocalCts(e: Engine, id: DecodedId, d: seq<u8>, now: Instant)
    requires Valid(e) && |d| >= 8
    ensures Local(e, OnCts(e, id, d, now), id.source)
    ensures var r := OnCts(e, id, d, now).engine; r == e.(txConn := r.txConn, out := r.out)
  {
    hide Valid, Byte0, Byte1, Byte2, Byte3, PgnOf, ConnBurst;
    if PgnOf(d).Some? && Key(id.source, PgnOf(d).value) in e.txConn {
      TxConnSession(e, Key(id.source, PgnOf(d).value));
    }
    var r := OnCts(e, id, d, now);
    assert r.engine == e.(txConn := r.engine.txConn, out := r.engine.out);
    assert Untouched(e.txConn, r.engine.txConn, id.source);
    assert e.out <= r.engine.out
           && forall i :: |e.out| <= i < |r.engine.out| ==> r.engine.out[i].dest == Some(id.source);
    hide OnCts;
  }

  lemma LocalEtpRtsTable(e: Engine, id: DecodedId, d: seq<u8>, now: Instant)
    requires Valid(e) && |d| >= 8
    ensures Untouched(e.etpRx, OnEtpRts(e, id, d, now).engine.etpRx, id.source)
  {
    hide Valid, Byte0, Byte1, Byte2, Byte3, ParseEtpRts, EtpGrant, Packets, TotalInbound;
  }

  lemma LocalEtpRts(e: Engine, id: DecodedId, d: seq<u8>, now: Instant)
    requires Valid(e) && |d| >= 8
    ensures Local(e, OnEtpRts(e, id, d, now), id.source)
    ensures var r := OnEtpRts(e, id, d, now).engine; r == e.(etpRx := r.etpRx, out := r.out)
  {
    hide Valid, Byte0, Byte1, Byte2, Byte3, ParseEtpRts, EtpGrant, Packets, TotalInbound;
    var r := OnEtpRts(e, id, d, now);
    assert r.engine == e.(etpRx := r.engine.etpRx, out := r.engine.out);
    LocalEtpRtsTable(e, id, d, now);
    assert e.out <= r.engine.out
           && forall i :: |e.out| <= i < |r.engine.out| ==> r.engine.out[i].dest == Some(id.source);
    hide OnEtpRts;
  }

  lemma LocalEtpDpo(e: Engine, id: DecodedId, d: seq<u8>, now: Instant)
    requires Valid(e) && |d| >= 8
    ensures Local(e, OnEtpDpo(e, id, d, now), id.source)
    ensures var r := OnEtpDpo(e, id, d, now).engine; r == e.(etpRx := r.etpRx, out := r.out)
  {
    hide Valid, Byte0, Byte1, Byte2, Byte3, PgnOf, U24;
    var r := OnEtpDpo(e, id, d, now);
    assert r.engine == e.(etpRx := r.engine.etpRx, out := r.engine.out);
    assert Untouched(e.etpRx, r.engine.etpRx, id.source);
    assert r.engine.out == e.out;
    hide OnEtpDpo;
  }

  lemma LocalEtpDt(e: Engine, sa: u8, d: seq<u8>, now: Instant, pick: Key)
    requires Valid(e) && |d| >= 1
    ensures Local(e, OnEtpDt(e, sa, d, now, pick), sa)
    ensures var r := OnEtpDt(e, sa, d, now, pick).engine; r == e.(etpRx := r.etpRx, out := r.out)
  {
    hide Valid, Byte0, Byte1, Byte2, Byte3, EtpGrant, EtpFilled, EtpAccept;
    var found := SessionOf(e.etpRx.Keys, sa, pick);
    if found.Some? { EtpRxSession(e, found.value); }
    var r := OnEtpDt(e, sa, d, now, pick);
    assert r.engine == e.(etpRx := r.engine.etpRx, out := r.engine.out);
    assert Untouched(e.etpRx, r.engine.etpRx, sa);
    assert e.out <= r.engine.out && forall i :: |e.out| <= i < |r.engine.out| ==> r.engine.out[i].dest == Some(sa);
    hide OnEtpDt;
  }

  lemma LocalEtpCts(e: Engine, id: DecodedId, d: seq<u8>, now: Instant)
    requires Valid(e) && |d| >= 8
    ensures Local(e, OnEtpCts(e, id, d, now), id.source)
    ensures var r := OnEtpCts(e, id, d, now).engine; r == e.(etpTx := r.etpTx, out := r.out)
  {
    hide Valid, Byte0, Byte1, Byte2, Byte3, PgnOf, EtpBurst, U24;
    if PgnOf(d).Some? && Key(id.source, PgnOf(d).value) in e.etpTx {
      EtpTxSession(e, Key(id.source, PgnOf(d).value));
    }
    var r := OnEtpCts(e, id, d, now);
    assert r.engine == e.(etpTx := r.engine.etpTx, out := r.engine.out);
    assert Untouched(e.etpTx, r.engine.etpTx, id.source);
    assert e.out <= r.engine.out
           && forall i :: |e.out| <= i < |r.engine.out| ==> r.engine.out[i].dest == Some(id.source);
    hide OnEtpCts;
  }

  /** Acknowledgements and aborts queue nothing and touch one key. */
  lemma LocalEnds(e: Engine, id: DecodedId, d: seq<u8>)
    requires Valid(e) && |d| >= 8
    ensures Local(e, OnEndOfMsgAck(e, id, d), id.source) && Local(e, OnConnAbort(e, id, d), id.source)
    ensures var r := OnEndOfMsgAck(e, id, d).engine; r == e.(txConn := r.txConn)
    ensures var r := OnConnAbort(e, id, d).engine; r == e.(rxConn := r.rxConn, txConn := r.txConn)
  {
    hide Valid, PgnOf, ReasonFrom;
  }

  lemma LocalEtpEnds(e: Engine, id: DecodedId, d: seq<u8>)
    requires Valid(e) && |d| >= 8
    ensures Local(e, OnEtpEoma(e, id, d), id.source) && Local(e, OnEtpAbort(e, id, d), id.source)
    ensures var r := OnEtpEoma(e, id, d).engine; r == e.(etpTx := r.etpTx)
    ensures var r := OnEtpAbort(e, id, d).engine; r == e.(etpRx := r.etpRx, etpTx := r.etpTx)
  {
    hide Valid, PgnOf, ReasonFrom;
  }

  /** Handling any frame from a source concerns that source alone. */
  lemma NonInterference(e: Engine, id: DecodedId, d: seq<u8>, now: Instant, pick: Key)
    requires Valid(e)
    ensures Local(e, OnFrame(e, id, d, now, pick), id.source)
  {
    if id.pgn == TP_CM_PGN { LocalTpCm(e, id, d, now); }
    else if id.pgn == TP_DT_PGN { LocalTpDt(e, id, d, now, pick); }
    else if id.pgn == ETP_CM_PGN { LocalEtpCm(e, id, d, now); }
    else {
      hide Valid, OnEtpDt;
      if id.pgn == ETP_DT_PGN && |d| >= 1 { LocalEtpDt(e, id.source, d, now, pick); }
    }
  }

  lemma LocalTpCm(e: Engine, id: DecodedId, d: seq<u8>, now: Instant)
    requires Valid(e)
    ensures Local(e, OnCm(e, id, d, now), id.source)
  {
    hide Valid, OnBamCm, OnRts, OnCts, OnEndOfMsgAck, OnConnAbort;
    if |d| >= 8 {
      LocalBamCm(e, id, d, now);
      LocalRts(e, id, d, now);
      LocalCts(e, id, d, now);
      LocalEnds(e, id, d);
    }
  }

  lemma LocalTpDt(e: Engine, id: DecodedId, d: seq<u8>, now: Instant, pick: Key)
    requires Valid(e)
    ensures Local(e, OnDt(e, id, d, now, pick), id.source)
  {
    hide Valid, OnBamDt, OnConnDt;
    if |d| >= 1 {
      LocalBamDt(e, id.source, d, now, pick);
      LocalConnDt(e, id.source, d, now, pick);
    }
  }

  lemma LocalEtpCm(e: Engine, id: DecodedId, d: seq<u8>, now: Instant)
    requires Valid(e)
    ensures Local(e, OnEtpCm(e, id, d, now), id.source)
  {
    hide Valid, OnEtpRts, OnEtpCts, OnEtpDpo, OnEtpEoma, OnEtpAbort;
    if |d| >= 8 {
      LocalEtpRts(e, id, d, now);
      LocalEtpCts(e, id, d, now);
      LocalEtpDpo(e, id, d, now);
      LocalEtpEnds(e, id, d);
    }
  }

  // ---- The exact timeout sweep ----------------------------------------------

  lemma {:induction false} EnumerationLength(s: seq<Key>, ks: set<Key>)
    requires Enumerates(s, ks)
    ensures |s| == |ks|
    decreases |s|
  {
    if s == [] {
      assert ks == {};
    } else {
      var rest := s[1..];
      assert Enumerates(rest, ks - {s[0]}) by {
        forall k | k in ks - {s[0]} ensures k in rest {
          var i :| 0 <= i < |s| && s[i] == k;
          assert rest[i - 1] == k;
        }
      }
      EnumerationLength(rest, ks - {s[0]});
    }
  }

  /** How many times `ev` occurs. */
  function Count<T(==)>(xs: seq<T>, x: T): nat {
    if xs == [] then 0 else (if xs[0] == x then 1 else 0) + Count(xs[1..], x)
  }

  lemma {:induction false} CountAppend<T>(a: seq<T>, b: seq<T>, ev: T)
    ensures Count(a + b, ev) == Count(a, ev) + Count(b, ev)
    decreases |a|
  {
    if a == [] {
      assert a + b == b;
    } else {
      assert (a + b)[1..] == a[1..] + b;
      CountAppend(a[1..], b, ev);
    }
  }

  function TimeoutOf(k: Key): Event { Aborted(k.pgn, k.sa, Timeout) }

  lemma {:induction false} CountTimeouts(order: seq<Key>, ks: set<Key>, k: Key)
    requires Enumerates(order, ks)
    ensures Count(TimeoutEvents(order), TimeoutOf(k)) == if k in ks then 1 else 0
    decreases |order|
  {
    if order != [] {
      var rest := order[1..];
      assert TimeoutEvents(order)[1..] == TimeoutEvents(rest);
      EnumeratesRest(order, ks);
      CountTimeouts(rest, ks - {order[0]}, k);
    }
  }

  /** The number of tables in which the session of `k` has been idle for longer than its timer. */
  ghost function IdleTables(e: Engine, now: Instant, k: Key): nat {
    (if k in IdleBam(e, now) then 1 else 0) + (if k in IdleRxConn(e, now) then 1 else 0)
    + (if k in IdleTxConn(e, now) then 1 else 0) + (if k in IdleEtpRx(e, now) then 1 else 0)
    + (if k in IdleEtpTx(e, now) then 1 else 0)
  }

  /** A sweep at `now` removes a session exactly when its last activity is further back than the limit of its
      table, and leaves the rest as they were. */
  lemma SweepIsExact(e: Engine, now: Instant, hint: Sweep, k: Key)
    requires Valid(e)
    ensures var r := PollTimeouts(e, now, hint);
            && (k in r.engine.bam <==> k in e.bam && now <= e.bam[k].lastActivity + e.config.t1)
            && (k in r.engine.rxConn <==> k in e.rxConn && now <= e.rxConn[k].lastActivity + e.config.t2)
            && (k in r.engine.txConn <==> k in e.txConn && now <= e.txConn[k].lastActivity + e.config.t3)
            && (k in r.engine.etpRx <==> k in e.etpRx && now <= e.etpRx[k].lastActivity + e.config.t2)
            && (k in r.engine.etpTx <==> k in e.etpTx && now <= e.etpTx[k].lastActivity + e.config.t3)
            && (k in r.engine.bam ==> r.engine.bam[k] == e.bam[k])
            && (k in r.engine.rxConn ==> r.engine.rxConn[k] == e.rxConn[k])
            && (k in r.engine.txConn ==> r.engine.txConn[k] == e.txConn[k])
            && (k in r.engine.etpRx ==> r.engine.etpRx[k] == e.etpRx[k])
            && (k in r.engine.etpTx ==> r.engine.etpTx[k] == e.etpTx[k])
  {
  }

  lemma SweepReports(e: Engine, now: Instant, hint: Sweep, k: Key)
    requires Valid(e)
    ensures var r := PollTimeouts(e, now, hint);
            && Count(r.events, TimeoutOf(k)) == IdleTables(e, now, k)
            && |r.events| == |IdleBam(e, now)| + |IdleRxConn(e, now)| + |IdleTxConn(e, now)|
                             + |IdleEtpRx(e, now)| + |IdleEtpTx(e, now)|
  {
    hide Valid, SweepFrames, Idle;
    var o := SweepOrder(e, now, hint);
    CountTimeouts(o.bam, IdleBam(e, now), k);
    CountTimeouts(o.rxConn, IdleRxConn(e, now), k);
    CountTimeouts(o.txConn, IdleTxConn(e, now), k);
    CountTimeouts(o.etpRx, IdleEtpRx(e, now), k);
    CountTimeouts(o.etpTx, IdleEtpTx(e, now), k);
    var e1 := TimeoutEvents(o.bam);
    var e2 := TimeoutEvents(o.rxConn);
    var e3 := TimeoutEvents(o.txConn);
    var e4 := TimeoutEvents(o.etpRx);
    var e5 := TimeoutEvents(o.etpTx);
    CountAppend(e1, e2, TimeoutOf(k));
    CountAppend(e1 + e2, e3, TimeoutOf(k));
    CountAppend(e1 + e2 + e3, e4, TimeoutOf(k));
    CountAppend(e1 + e2 + e3 + e4, e5, TimeoutOf(k));
    OrderLengths(e, now, hint);
  }

  lemma OrderLengths(e: Engine, now: Instant, hint: Sweep)
    ensures var o := SweepOrder(e, now, hint);
            && |o.bam| == |IdleBam(e, now)| && |o.rxConn| == |IdleRxConn(e, now)|
            && |o.txConn| == |IdleTxConn(e, now)| && |o.etpRx| == |IdleEtpRx(e, now)|
            && |o.etpTx| == |IdleEtpTx(e, now)|
  {
    var o := SweepOrder(e, now, hint);
    EnumerationLength(o.bam, IdleBam(e, now));
    EnumerationLength(o.rxConn, IdleRxConn(e, now));
    EnumerationLength(o.txConn, IdleTxConn(e, now));
    EnumerationLength(o.etpRx, IdleEtpRx(e, now));
    EnumerationLength(o.etpTx, IdleEtpTx(e, now));
  }

  /** The frames a sweep queues. */
  ghost function SweepSent(e: Engine, now: Instant, hint: Sweep): seq<OutFrame>
    requires Valid(e)
  {
    SweepFrames(e, SweepOrder(e, now, hint))
  }

  lemma SweepQueued(e: Engine, now: Instant, hint: Sweep)
    requires Valid(e)
    ensures var o := SweepOrder(e, now, hint);
            && (forall i :: 0 <= i < |o.rxConn| ==> o.rxConn[i] in e.rxConn)
            && (forall i :: 0 <= i < |o.txConn| ==> o.txConn[i] in e.txConn)
            && (forall i :: 0 <= i < |o.etpRx| ==> o.etpRx[i] in e.etpRx)
            && (forall i :: 0 <= i < |o.etpTx| ==> o.etpTx[i] in e.etpTx)
            && PollTimeouts(e, now, hint).engine.out == e.out + SweepFrames(e, o)
  {
    hide Valid, Idle, SweepFrames, SweepEvents;
  }

  // The abort a session of each table is ended with, from our address to its peer.
  function RxAbort(e: Engine, k: Key): OutFrame
    requires k in e.rxConn
  {
    ConnAbortFrame(e.rxConn[k].ours, k.sa, e.rxConn[k].priority, k.pgn, Timeout)
  }
  function TxAbort(e: Engine, k: Key): OutFrame
    requires k in e.txConn
  {
    ConnAbortFrame(e.txConn[k].ours, k.sa, e.txConn[k].priority, k.pgn, Timeout)
  }
  function EtpRxAbort(e: Engine, k: Key): OutFrame
    requires k in e.etpRx
  {
    EtpAbortFrame(e.etpRx[k].ours, k.sa, e.etpRx[k].priority, k.pgn, Timeout)
  }
  function EtpTxAbort(e: Engine, k: Key): OutFrame
    requires k in e.etpTx
  {
    EtpAbortFrame(e.etpTx[k].ours, k.sa, e.etpTx[k].priority, k.pgn, Timeout)
  }

  /** The removals of a sweep that `f` announces to the peer, table by table. */
  function AbortedBy(e: Engine, now: Instant, f: OutFrame): nat {
    |set k | k in IdleRxConn(e, now) && RxAbort(e, k) == f| + |set k | k in IdleTxConn(e, now) && TxAbort(e, k) == f|
    + |set k | k in IdleEtpRx(e, now) && EtpRxAbort(e, k) == f|
    + |set k | k in IdleEtpTx(e, now) && EtpTxAbort(e, k) == f|
  }

  /** A sweep sends every abort frame exactly as often as it removes a session outside the broadcast table whose
      abort it is, and no other frame. */
  lemma SweepAborts(e: Engine, now: Instant, hint: Sweep, f: OutFrame)
    requires Valid(e)
    ensures PollTimeouts(e, now, hint).engine.out == e.out + SweepSent(e, now, hint)
    ensures |SweepSent(e, now, hint)| ==
            |IdleRxConn(e, now)| + |IdleTxConn(e, now)| + |IdleEtpRx(e, now)| + |IdleEtpTx(e, now)|
    ensures Count(SweepSent(e, now, hint), f) == AbortedBy(e, now, f)
  {
    hide Valid, ConnAbortFrame, EtpAbortFrame, TimeoutEvents, Idle, Count, Enumerates,
         RxAbort, TxAbort, EtpRxAbort, EtpTxAbort;
    var o := SweepOrder(e, now, hint);
    OrderLengths(e, now, hint);
    SweptAborts(e, now, o, f);
    InOrder(o.rxConn, IdleRxConn(e, now));
    InOrder(o.txConn, IdleTxConn(e, now));
    InOrder(o.etpRx, IdleEtpRx(e, now));
    InOrder(o.etpTx, IdleEtpTx(e, now));
    var rx, tx := RxConnAborts(e.rxConn, o.rxConn), TxConnAborts(e.txConn, o.txConn);
    var erx, etx := EtpRxAborts(e.etpRx, o.etpRx), EtpTxAborts(e.etpTx, o.etpTx);
    CountAppend(rx, tx, f);
    CountAppend(rx + tx, erx, f);
    CountAppend(rx + tx + erx, etx, f);
  }

  /** The aborts of each table, counted. */
  lemma SweptAborts(e: Engine, now: Instant, o: Sweep, f: OutFrame)
    requires Valid(e)
    requires Enumerates(o.rxConn, IdleRxConn(e, now)) && Enumerates(o.txConn, IdleTxConn(e, now))
    requires Enumerates(o.etpRx, IdleEtpRx(e, now)) && Enumerates(o.etpTx, IdleEtpTx(e, now))
    ensures Count(RxConnAborts(e.rxConn, o.rxConn), f) == |set k | k in IdleRxConn(e, now) && RxAbort(e, k) == f|
    ensures Count(TxConnAborts(e.txConn, o.txConn), f) == |set k | k in IdleTxConn(e, now) && TxAbort(e, k) == f|
    ensures Count(EtpRxAborts(e.etpRx, o.etpRx), f) == |set k | k in IdleEtpRx(e, now) && EtpRxAbort(e, k) == f|
    ensures Count(EtpTxAborts(e.etpTx, o.etpTx), f) == |set k | k in IdleEtpTx(e, now) && EtpTxAbort(e, k) == f|
  {
    hide Valid, ConnAbortFrame, EtpAbortFrame, Idle, Count, Enumerates;
    forall k | k in e.rxConn { RxConnSession(e, k); }
    forall k | k in e.txConn { TxConnSession(e, k); }
    forall k | k in e.etpRx { EtpRxSession(e, k); }
    forall k | k in e.etpTx { EtpTxSession(e, k); }
    InOrder(o.rxConn, IdleRxConn(e, now));
    InOrder(o.txConn, IdleTxConn(e, now));
    InOrder(o.etpRx, IdleEtpRx(e, now));
    InOrder(o.etpTx, IdleEtpTx(e, now));
    CountFrames(o.rxConn, IdleRxConn(e, now), RxConnAborts(e.rxConn, o.rxConn), f,
                set k | k in IdleRxConn(e, now) && RxAbort(e, k) == f);
    CountFrames(o.txConn, IdleTxConn(e, now), TxConnAborts(e.txConn, o.txConn), f,
                set k | k in IdleTxConn(e, now) && TxAbort(e, k) == f);
    CountFrames(o.etpRx, IdleEtpRx(e, now), EtpRxAborts(e.etpRx, o.etpRx), f,
                set k | k in IdleEtpRx(e, now) && EtpRxAbort(e, k) == f);
    CountFrames(o.etpTx, IdleEtpTx(e, now), EtpTxAborts(e.etpTx, o.etpTx), f,
                set k | k in IdleEtpTx(e, now) && EtpTxAbort(e, k) == f);
  }

  lemma InOrder(order: seq<Key>, ks: set<Key>)
    requires Enumerates(order, ks)
    ensures forall i :: 0 <= i < |order| ==> order[i] in ks
  {
  }

  /** Frames made one per key contain `f` as often as there are keys `hits` that make it. */
  lemma {:induction false} CountFrames(order: seq<Key>, ks: set<Key>, fs: seq<OutFrame>, f: OutFrame, hits: set<Key>)
    requires Enumerates(order, ks) && |fs| == |order| && hits <= ks
    requires forall i :: 0 <= i < |order| ==> (order[i] in hits <==> fs[i] == f)
    ensures Count(fs, f) == |hits|
    decreases |order|
  {
    if order == [] {
      assert hits == {};
    } else {
      var k, rest := order[0], order[1..];
      assert Enumerates(rest, ks - {k}) by { EnumeratesRest(order, ks); }
      assert k !in rest;
      CountFrames(rest, ks - {k}, fs[1..], f, hits - {k});
      if k in hits { assert |hits - {k}| == |hits| - 1; } else { assert hits - {k} == hits; }
    }
  }

  lemma EnumeratesRest(order: seq<Key>, ks: set<Key>)
    requires order != [] && Enumerates(order, ks)
    ensures Enumerates(order[1..], ks - {order[0]})
  {
    var rest := order[1..];
    forall x | x in ks - {order[0]} ensures x in rest {
      var i :| 0 <= i < |order| && order[i] == x;
      assert rest[i - 1] == x;
    }
  }
}
