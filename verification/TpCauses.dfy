/** Nothing is reported and nothing is sent without cause: what every event and every queued frame of a call means. */
module TpCauses {
  import opened Bytes
  import opened J1939Id
  import opened TpTypes
  import opened TpWire
  import opened TpSteps
  import opened TpSafety
  import opened TpLifecycle

  // ---- Events ---------------------------------------------------------------------

  /** The call ended the session of `k` in one of the tables in which messages are received. */
  ghost predicate EndsReceipt(e: Engine, e': Engine, k: Key) {
    (k in e.bam && k !in e'.bam) || (k in e.rxConn && k !in e'.rxConn) || (k in e.etpRx && k !in e'.etpRx)
  }

  ghost predicate EndsSome(e: Engine, e': Engine, k: Key) {
    EndsReceipt(e, e', k) || (k in e.txConn && k !in e'.txConn) || (k in e.etpTx && k !in e'.etpTx)
  }

  /** A request for an extended transfer beyond the byte limit. */
  ghost predicate TooLarge(e: Engine, i: Input, k: Key) {
    && i.Frame? && IsEtpCm(i.id, i.data, ETP_RTS_CONTROL) && About(i.id, i.data, k) && !Broadcast(i.id)
    && U32(i.data[1], i.data[2], i.data[3], i.data[4]) > e.config.maxEtpBytes
  }

  /** An announce or request for a session that is not open, when there is no room for one more. */
  ghost predicate NoRoom(e: Engine, i: Input, k: Key) {
    && i.Frame? && About(i.id, i.data, k) && !Room(e)
    && (|| (IsTpCm(i.id, i.data, BAM_CONTROL) && k !in e.bam)
        || (IsTpCm(i.id, i.data, RTS_CONTROL) && !Broadcast(i.id) && k !in e.rxConn)
        || (IsEtpCm(i.id, i.data, ETP_RTS_CONTROL) && !Broadcast(i.id) && k !in e.etpRx))
  }

  /** Why `ev` may be reported. */
  ghost predicate Explained(e: Engine, i: Input, e': Engine, ev: Event) {
    var k := Key(ev.source, ev.pgn);
    match ev
    case Completed(_, _, _) => i.Frame? && i.id.source == k.sa && EndsReceipt(e, e', k)
    case Aborted(_, _, reason) => EndsSome(e, e', k) || (reason == Resources && TooLarge(e, i, k))
    case SessionRefused(_, _, reason) => reason == Resources && NoRoom(e, i, k)
  }

  ghost predicate AllExplained(e: Engine, i: Input, r: Outcome) {
    forall ev :: ev in r.events ==> Explained(e, i, r.engine, ev)
  }

  lemma BamEvents(e: Engine, i: Input)
    requires Valid(e) && i.Frame?
    ensures IsTpCm(i.id, i.data, BAM_CONTROL) ==> AllExplained(e, i, OnBamCm(e, i.id.source, i.data, i.now))
    ensures IsBamDt(i.id, i.data) ==> AllExplained(e, i, OnBamDt(e, i.id.source, i.data, i.now, i.pick))
  {
    hide Valid, AnnounceOk, PgnOf, U16, BamAccept, AllGoOn;
    if IsBamDt(i.id, i.data) {
      var found := SessionOf(e.bam.Keys, i.id.source, i.pick);
      if found.Some? { BamSession(e, found.value); }
    }
  }

  lemma ConnEvents(e: Engine, i: Input)
    requires Valid(e) && i.Frame?
    ensures IsTpCm(i.id, i.data, RTS_CONTROL) ==> AllExplained(e, i, OnRts(e, i.id, i.data, i.now))
    ensures IsTpCm(i.id, i.data, CONN_ABORT_CONTROL) ==> AllExplained(e, i, OnConnAbort(e, i.id, i.data))
  {
    hide Valid, AnnounceOk, PgnOf, U16, CmFrame, GrantWindow, ReasonFrom;
  }

  lemma ConnDtEvents(e: Engine, i: Input)
    requires Valid(e) && i.Frame? && IsConnDt(i.id, i.data)
    ensures AllExplained(e, i, OnConnDt(e, i.id.source, i.data, i.now, i.pick))
  {
    hide Valid, Taken, ConnAccept, CmFrame;
    var found := SessionOf(e.rxConn.Keys, i.id.source, i.pick);
    if found.Some? { RxConnSession(e, found.value); }
  }

  lemma EtpEvents(e: Engine, i: Input)
    requires Valid(e) && i.Frame?
    ensures IsEtpCm(i.id, i.data, ETP_RTS_CONTROL) ==> AllExplained(e, i, OnEtpRts(e, i.id, i.data, i.now))
    ensures IsEtpCm(i.id, i.data, ETP_ABORT_CONTROL) ==> AllExplained(e, i, OnEtpAbort(e, i.id, i.data))
  {
    hide Valid, PgnOf, U32, CmFrame, EtpGrant, Packets, Zeros, ReasonFrom;
  }

  lemma EtpDtEvents(e: Engine, i: Input)
    requires Valid(e) && i.Frame? && IsEtpDt(i.id, i.data)
    ensures AllExplained(e, i, OnEtpDt(e, i.id.source, i.data, i.now, i.pick))
  {
    hide Valid, EtpFilled, EtpAccept, CmFrame, EtpGrant;
    var found := SessionOf(e.etpRx.Keys, i.id.source, i.pick);
    if found.Some? { EtpRxSession(e, found.value); }
  }

  /** The other handlers report nothing. */
  lemma SilentFrames(e: Engine, id: DecodedId, d: seq<u8>, now: Instant)
    requires Valid(e) && |d| >= 8
    ensures OnCts(e, id, d, now).events == [] && OnEndOfMsgAck(e, id, d).events == []
    ensures OnEtpCts(e, id, d, now).events == [] && OnEtpDpo(e, id, d, now).events == []
    ensures OnEtpEoma(e, id, d).events == []
  {
    hide Valid, PgnOf, ConnBurst, EtpAnswer, U24;
  }

  lemma FrameEvents(e: Engine, i: Input)
    requires Valid(e) && i.Frame?
    ensures AllExplained(e, i, OnFrame(e, i.id, i.data, i.now, i.pick))
  {
    hide Valid, Explained, OnBamCm, OnRts, OnCts, OnEndOfMsgAck, OnConnAbort, OnBamDt, OnConnDt,
         OnEtpRts, OnEtpCts, OnEtpDpo, OnEtpEoma, OnEtpAbort, OnEtpDt;
    BamEvents(e, i);
    ConnEvents(e, i);
    EtpEvents(e, i);
    if IsConnDt(i.id, i.data) { ConnDtEvents(e, i); }
    if IsEtpDt(i.id, i.data) { EtpDtEvents(e, i); }
    if |i.data| >= 8 { SilentFrames(e, i.id, i.data, i.now); }
  }

  lemma SweptKey(order: seq<Key>, ks: set<Key>, ev: Event)
    requires Enumerates(order, ks) && ev in TimeoutEvents(order)
    ensures Key(ev.source, ev.pgn) in ks && ev.Aborted?
  {
    var n :| 0 <= n < |order| && TimeoutEvents(order)[n] == ev;
    assert order[n] in ks;
  }

  lemma SweepEventsMean(e: Engine, i: Input)
    requires Valid(e) && i.Poll?
    ensures AllExplained(e, i, PollTimeouts(e, i.now, i.hint))
  {
    hide Valid, SweepFrames, TimeoutEvents, Enumerates, SweptAt, TooLarge, NoRoom;
    var r := PollTimeouts(e, i.now, i.hint);
    var o := SweepOrder(e, i.now, i.hint);
    forall ev | ev in r.events ensures Explained(e, i, r.engine, ev) {
      if ev in TimeoutEvents(o.bam) { SweptKey(o.bam, IdleBam(e, i.now), ev); }
      else if ev in TimeoutEvents(o.rxConn) { SweptKey(o.rxConn, IdleRxConn(e, i.now), ev); }
      else if ev in TimeoutEvents(o.txConn) { SweptKey(o.txConn, IdleTxConn(e, i.now), ev); }
      else if ev in TimeoutEvents(o.etpRx) { SweptKey(o.etpRx, IdleEtpRx(e, i.now), ev); }
      else { SweptKey(o.etpTx, IdleEtpTx(e, i.now), ev); }
    }
  }

  /** Every event of every call is explained: a completion ends a receiving session of that source, an abort ends a
      session or answers a request beyond the byte limit, and a refusal means that there was no room. */
  lemma EventsExplained(e: Engine, i: Input, ev: Event)
    requires Valid(e) && ev in Step(e, i).events
    ensures Explained(e, i, Step(e, i).engine, ev)
  {
    hide Valid, Explained, OnFrame, PollTimeouts, StartConn, StartEtp;
    if i.Frame? { FrameEvents(e, i); } else if i.Poll? { SweepEventsMean(e, i); }
  }

  // ---- Frames ---------------------------------------------------------------------

  predicate CmOf(f: OutFrame, wire: Pgn, control: u8) { f.wirePgn == wire && |f.data| == 8 && f.data[0] == control }

  /** A management frame to the peer of `k` about its PGN. */
  predicate Concerns(f: OutFrame, k: Key) { |f.data| == 8 && f.dest == Some(k.sa) && PgnOf(f.data) == Some(k.pgn) }

  /** Some event of the call tells of the end or the refusal of a session of `k`. */
  ghost predicate Told(r: Outcome, k: Key) {
    exists ev :: ev in r.events && !ev.Completed? && ev.pgn == k.pgn && ev.source == k.sa
  }

  ghost predicate Finished(r: Outcome, k: Key) {
    exists ev :: ev in r.events && ev.Completed? && ev.pgn == k.pgn && ev.source == k.sa
  }

  /** The call is a grant from the peer of an open outgoing transfer under `k`. */
  ghost predicate Granted(e: Engine, i: Input, k: Key, extended: bool) {
    && i.Frame? && About(i.id, i.data, k)
    && if extended then IsEtpCm(i.id, i.data, ETP_CTS_CONTROL) && k in e.etpTx
       else IsTpCm(i.id, i.data, CTS_CONTROL) && k in e.txConn
  }

  /** Why `f` may be queued in the matter of `k`: it grants to an open session, acknowledges a message that the call
      completed, aborts what the call reports, or answers a grant. */
  ghost predicate Caused(e: Engine, i: Input, r: Outcome, f: OutFrame, k: Key) {
    || (CmOf(f, TP_CM_PGN, CTS_CONTROL) && Concerns(f, k) && k in r.engine.rxConn)
    || (CmOf(f, TP_CM_PGN, EOMA_CONTROL) && Concerns(f, k) && Finished(r, k))
    || (CmOf(f, TP_CM_PGN, CONN_ABORT_CONTROL) && Concerns(f, k) && Told(r, k))
    || (CmOf(f, ETP_CM_PGN, ETP_CTS_CONTROL) && Concerns(f, k) && k in r.engine.etpRx)
    || (CmOf(f, ETP_CM_PGN, ETP_EOMA_CONTROL) && Concerns(f, k) && Finished(r, k))
    || (CmOf(f, ETP_CM_PGN, ETP_ABORT_CONTROL) && Concerns(f, k) && Told(r, k))
    || (f.wirePgn == TP_DT_PGN && f.dest == Some(k.sa) && Granted(e, i, k, false))
    || (CmOf(f, ETP_CM_PGN, ETP_DPO_CONTROL) && Concerns(f, k) && Granted(e, i, k, true))
    || (f.wirePgn == ETP_DT_PGN && f.dest == Some(k.sa) && Granted(e, i, k, true))
  }

  ghost predicate HasCause(e: Engine, i: Input, r: Outcome, f: OutFrame) { exists k :: Caused(e, i, r, f, k) }

  /** Every frame queued behind those of `e` has a cause. */
  ghost predicate AllCaused(e: Engine, i: Input, r: Outcome) {
    e.out <= r.engine.out && forall n :: |e.out| <= n < |r.engine.out| ==> HasCause(e, i, r, r.engine.out[n])
  }

  /** A management frame built for `k` concerns `k`. */
  lemma CmConcerns(wire: Pgn, ours: u8, priority: u8, k: Key, c: u8, d1: u8, d2: u8, d3: u8, d4: u8)
    ensures var f := CmFrame(wire, ours, k.sa, priority, k.pgn, c, d1, d2, d3, d4); Concerns(f, k) && CmOf(f, wire, c)
  {
    hide Byte0, Byte1, Byte2;
    PgnBytes(k.pgn);
  }

  /** All frames queued have their cause in the matter of `k`. */
  lemma CausedAll(e: Engine, i: Input, r: Outcome, fs: seq<OutFrame>, k: Key)
    requires r.engine.out == e.out + fs && forall n :: 0 <= n < |fs| ==> Caused(e, i, r, fs[n], k)
    ensures AllCaused(e, i, r)
  {
    hide Caused;
    forall n | |e.out| <= n < |r.engine.out| ensures HasCause(e, i, r, r.engine.out[n]) {
      assert r.engine.out[n] == fs[n - |e.out|];
      assert Caused(e, i, r, r.engine.out[n], k);
    }
  }

  lemma RtsFrames(e: Engine, i: Input)
    requires Valid(e) && i.Frame? && IsTpCm(i.id, i.data, RTS_CONTROL)
    ensures AllCaused(e, i, OnRts(e, i.id, i.data, i.now))
  {
    hide Valid, AnnounceOk, PgnOf, U16, GrantWindow, CmFrame, Granted, Concerns, CmOf, TotalInbound, AllCaused;
    var r := OnRts(e, i.id, i.data, i.now);
    var p := ParseConnRts(i.id, i.data);
    if p.Some? {
      var k := Key(i.id.source, PgnOf(i.data).value);
      var w := GrantWindow(p.value.packets, e.config.ctsWindow, p.value.senderMax);
      CmConcerns(TP_CM_PGN, p.value.ours, p.value.priority, k, CTS_CONTROL, w, 1, 0xFF, 0xFF);
      CmConcerns(TP_CM_PGN, p.value.ours, p.value.priority, k, CONN_ABORT_CONTROL, 2, 0xFF, 0xFF, 0xFF);
      assert r.events != [] ==> r.events[0] in r.events;
      CausedAll(e, i, r, [r.engine.out[|e.out|]], k);
    } else {
      CausedAll(e, i, r, [], Key(0, 0));
    }
  }

  lemma ConnDtFrames(e: Engine, i: Input)
    requires Valid(e) && i.Frame? && IsConnDt(i.id, i.data)
    ensures AllCaused(e, i, OnConnDt(e, i.id.source, i.data, i.now, i.pick))
  {
    hide Valid, Taken, CmFrame, Granted, Concerns, CmOf, GrantWindow, AllCaused, Byte0, Byte1;
    var r := OnConnDt(e, i.id.source, i.data, i.now, i.pick);
    var found := SessionOf(e.rxConn.Keys, i.id.source, i.pick);
    if found.Some? {
      var k := found.value;
      var s := e.rxConn[k];
      RxConnSession(e, k);
      CmConcerns(TP_CM_PGN, s.ours, s.priority, k, EOMA_CONTROL, Byte0(s.totalSize), Byte1(s.totalSize),
                 s.totalPackets, 0xFF);
      if k in r.engine.rxConn {
        var s' := r.engine.rxConn[k];
        CmConcerns(TP_CM_PGN, s.ours, s.priority, k, CTS_CONTROL, s'.window, s'.nextSeq, 0xFF, 0xFF);
      }
      assert r.events != [] ==> r.events[0] in r.events;
      if r.engine.out != e.out { CausedAll(e, i, r, [r.engine.out[|e.out|]], k); }
    }
    if r.engine.out == e.out { CausedAll(e, i, r, [], Key(0, 0)); }
  }

  lemma CtsFrames(e: Engine, i: Input)
    requires Valid(e) && i.Frame? && IsTpCm(i.id, i.data, CTS_CONTROL)
    ensures AllCaused(e, i, OnCts(e, i.id, i.data, i.now))
  {
    hide Valid, PgnOf, ConnBurst, Concerns, CmOf, AllCaused;
    var r := OnCts(e, i.id, i.data, i.now);
    if PgnOf(i.data).Some? && Key(i.id.source, PgnOf(i.data).value) in e.txConn {
      var k := Key(i.id.source, PgnOf(i.data).value);
      TxConnSession(e, k);
      var s := e.txConn[k].(lastActivity := i.now);
      CausedAll(e, i, r, if i.data[1] == 0 then [] else ConnBurst(s, i.data[2], i.data[1]), k);
    } else {
      CausedAll(e, i, r, [], Key(0, 0));
    }
  }

  lemma EtpRtsFrames(e: Engine, i: Input)
    requires Valid(e) && i.Frame? && IsEtpCm(i.id, i.data, ETP_RTS_CONTROL)
    ensures AllCaused(e, i, OnEtpRts(e, i.id, i.data, i.now))
  {
    hide Valid, PgnOf, U32, EtpGrant, CmFrame, Granted, Concerns, CmOf, TotalInbound, Zeros, Packets, AllCaused,
         Byte0, Byte1, Byte2;
    var r := OnEtpRts(e, i.id, i.data, i.now);
    var p := ParseEtpRts(i.id, i.data);
    if p.Some? {
      var k := Key(i.id.source, PgnOf(i.data).value);
      EtpPacketsFit(p.value.size);
      var w := EtpGrant(Packets(p.value.size), e.config.ctsWindow);
      CmConcerns(ETP_CM_PGN, p.value.ours, p.value.priority, k, ETP_CTS_CONTROL, w, Byte0(1), Byte1(1), Byte2(1));
      CmConcerns(ETP_CM_PGN, p.value.ours, p.value.priority, k, ETP_ABORT_CONTROL, 2, 0xFF, 0xFF, 0xFF);
      assert r.events != [] ==> r.events[0] in r.events;
      CausedAll(e, i, r, [r.engine.out[|e.out|]], k);
    } else {
      CausedAll(e, i, r, [], Key(0, 0));
    }
  }

  lemma EtpDtFrames(e: Engine, i: Input)
    requires Valid(e) && i.Frame? && IsEtpDt(i.id, i.data)
    ensures AllCaused(e, i, OnEtpDt(e, i.id.source, i.data, i.now, i.pick))
  {
    hide Valid, EtpFilled, CmFrame, Granted, Concerns, CmOf, EtpGrant, Packets, AllCaused,
         Byte0, Byte1, Byte2, Byte3;
    var r := OnEtpDt(e, i.id.source, i.data, i.now, i.pick);
    var found := SessionOf(e.etpRx.Keys, i.id.source, i.pick);
    if found.Some? {
      var k := found.value;
      var s := e.etpRx[k];
      EtpRxSession(e, k);
      CmConcerns(ETP_CM_PGN, s.ours, s.priority, k, ETP_EOMA_CONTROL, Byte0(s.totalSize), Byte1(s.totalSize),
                 Byte2(s.totalSize), Byte3(s.totalSize));
      if k in r.engine.etpRx {
        var next := r.engine.etpRx[k].nextPacket;
        var w := EtpGrant(s.totalPackets - (next - 1), e.config.ctsWindow);
        CmConcerns(ETP_CM_PGN, s.ours, s.priority, k, ETP_CTS_CONTROL, w, Byte0(next), Byte1(next), Byte2(next));
      }
      assert r.events != [] ==> r.events[0] in r.events;
      if r.engine.out != e.out { CausedAll(e, i, r, [r.engine.out[|e.out|]], k); }
    }
    if r.engine.out == e.out { CausedAll(e, i, r, [], Key(0, 0)); }
  }

  lemma EtpCtsFrames(e: Engine, i: Input)
    requires Valid(e) && i.Frame? && IsEtpCm(i.id, i.data, ETP_CTS_CONTROL)
    ensures AllCaused(e, i, OnEtpCts(e, i.id, i.data, i.now))
  {
    hide Valid, PgnOf, EtpBurst, U24, AllCaused, Caused;
    var r := OnEtpCts(e, i.id, i.data, i.now);
    if PgnOf(i.data).Some? && Key(i.id.source, PgnOf(i.data).value) in e.etpTx {
      var k := Key(i.id.source, PgnOf(i.data).value);
      EtpTxSession(e, k);
      var s := e.etpTx[k].(lastActivity := i.now);
      var fs := EtpAnswer(s, i.data);
      assert Granted(e, i, k, true);
      if fs.Some? { BurstCaused(e, i, r, s, k); }
      CausedAll(e, i, r, if fs.Some? then fs.value else [], k);
    } else {
      CausedAll(e, i, r, [], Key(0, 0));
    }
  }

  lemma BurstCaused(e: Engine, i: Input, r: Outcome, s: EtpTx, k: Key)
    requires i.Frame? && |i.data| >= 8 && s.totalPackets <= Packets(|s.payload|) && s.dest == k.sa && s.pgn == k.pgn
    requires Granted(e, i, k, true) && EtpAnswer(s, i.data).Some?
    ensures var fs := EtpAnswer(s, i.data).value; forall n :: 0 <= n < |fs| ==> Caused(e, i, r, fs[n], k)
  {
    hide Granted, CmFrame, Concerns, CmOf, PgnOf, Finished, Told, EtpDts, Byte0, Byte1, Byte2;
    var next := U24(i.data[2], i.data[3], i.data[4]);
    if i.data[1] != 0 && next != 0 {
      var n := EtpBurstLength(s.totalPackets, next, i.data[1]);
      CmConcerns(ETP_CM_PGN, s.ours, s.priority, k, ETP_DPO_CONTROL, n, Byte0(next - 1), Byte1(next - 1),
                 Byte2(next - 1));
    }
  }

  /** The other handlers send nothing. */
  lemma NothingSent(e: Engine, id: DecodedId, d: seq<u8>, now: Instant, pick: Key)
    requires Valid(e)
    ensures |d| >= 8 ==>
              && OnBamCm(e, id.source, d, now).engine.out == e.out && OnEtpDpo(e, id, d, now).engine.out == e.out
              && OnEndOfMsgAck(e, id, d).engine.out == e.out && OnConnAbort(e, id, d).engine.out == e.out
              && OnEtpEoma(e, id, d).engine.out == e.out && OnEtpAbort(e, id, d).engine.out == e.out
    ensures |d| >= 1 ==> OnBamDt(e, id.source, d, now, pick).engine.out == e.out
  {
    hide Valid, PgnOf, U16, U24, AnnounceOk, BamAccept, AllGoOn, ReasonFrom, TotalInbound;
  }

  lemma FrameFrames(e: Engine, i: Input)
    requires Valid(e) && i.Frame?
    ensures AllCaused(e, i, OnFrame(e, i.id, i.data, i.now, i.pick))
  {
    hide Valid, AllCaused, OnBamCm, OnRts, OnCts, OnEndOfMsgAck, OnConnAbort, OnBamDt, OnConnDt,
         OnEtpRts, OnEtpCts, OnEtpDpo, OnEtpEoma, OnEtpAbort, OnEtpDt;
    NothingSent(e, i.id, i.data, i.now, i.pick);
    var r := OnFrame(e, i.id, i.data, i.now, i.pick);
    if r.engine.out == e.out { CausedAll(e, i, r, [], Key(0, 0)); }
    if IsTpCm(i.id, i.data, RTS_CONTROL) { RtsFrames(e, i); }
    if IsTpCm(i.id, i.data, CTS_CONTROL) { CtsFrames(e, i); }
    if IsConnDt(i.id, i.data) { ConnDtFrames(e, i); }
    if IsEtpCm(i.id, i.data, ETP_RTS_CONTROL) { EtpRtsFrames(e, i); }
    if IsEtpCm(i.id, i.data, ETP_CTS_CONTROL) { EtpCtsFrames(e, i); }
    if IsEtpDt(i.id, i.data) { EtpDtFrames(e, i); }
  }

  /** The abort of a swept session, which its event tells of. */
  lemma SweptCaused(e: Engine, i: Input, r: Outcome, wire: Pgn, ours: u8, priority: u8, k: Key)
    requires wire == TP_CM_PGN || wire == ETP_CM_PGN
    requires TimeoutOf(k) in r.events
    ensures Caused(e, i, r, CmFrame(wire, ours, k.sa, priority, k.pgn, 0xFF, 3, 0xFF, 0xFF, 0xFF), k)
  {
    hide CmFrame, Concerns, CmOf, Granted, Finished;
    CmConcerns(wire, ours, priority, k, 0xFF, 3, 0xFF, 0xFF, 0xFF);
  }

  lemma InEvents(order: seq<Key>, n: nat)
    requires n < |order|
    ensures TimeoutOf(order[n]) in TimeoutEvents(order)
  {
    assert TimeoutEvents(order)[n] == TimeoutOf(order[n]);
  }

  lemma ConnSweepCaused(e: Engine, i: Input, r: Outcome, o: Sweep, n: nat)
    requires Valid(e) && r.events == SweepEvents(o)
    ensures n < |o.rxConn| && o.rxConn[n] in e.rxConn ==>
              var s := e.rxConn[o.rxConn[n]];
              Caused(e, i, r, ConnAbortFrame(s.ours, s.peer, s.priority, s.pgn, Timeout), o.rxConn[n])
    ensures n < |o.txConn| && o.txConn[n] in e.txConn ==>
              var s := e.txConn[o.txConn[n]];
              Caused(e, i, r, ConnAbortFrame(s.ours, s.dest, s.priority, s.pgn, Timeout), o.txConn[n])
  {
    hide Valid, CmFrame, Caused, TimeoutEvents;
    if n < |o.rxConn| && o.rxConn[n] in e.rxConn {
      var k := o.rxConn[n];
      RxConnSession(e, k);
      InEvents(o.rxConn, n);
      SweptCaused(e, i, r, TP_CM_PGN, e.rxConn[k].ours, e.rxConn[k].priority, k);
    }
    if n < |o.txConn| && o.txConn[n] in e.txConn {
      var k := o.txConn[n];
      TxConnSession(e, k);
      InEvents(o.txConn, n);
      SweptCaused(e, i, r, TP_CM_PGN, e.txConn[k].ours, e.txConn[k].priority, k);
    }
  }

  lemma EtpSweepCaused(e: Engine, i: Input, r: Outcome, o: Sweep, n: nat)
    requires Valid(e) && r.events == SweepEvents(o)
    ensures n < |o.etpRx| && o.etpRx[n] in e.etpRx ==>
              var s := e.etpRx[o.etpRx[n]];
              Caused(e, i, r, EtpAbortFrame(s.ours, s.peer, s.priority, s.pgn, Timeout), o.etpRx[n])
    ensures n < |o.etpTx| && o.etpTx[n] in e.etpTx ==>
              var s := e.etpTx[o.etpTx[n]];
              Caused(e, i, r, EtpAbortFrame(s.ours, s.dest, s.priority, s.pgn, Timeout), o.etpTx[n])
  {
    hide Valid, CmFrame, Caused, TimeoutEvents;
    if n < |o.etpRx| && o.etpRx[n] in e.etpRx {
      var k := o.etpRx[n];
      EtpRxSession(e, k);
      InEvents(o.etpRx, n);
      SweptCaused(e, i, r, ETP_CM_PGN, e.etpRx[k].ours, e.etpRx[k].priority, k);
    }
    if n < |o.etpTx| && o.etpTx[n] in e.etpTx {
      var k := o.etpTx[n];
      EtpTxSession(e, k);
      InEvents(o.etpTx, n);
      SweptCaused(e, i, r, ETP_CM_PGN, e.etpTx[k].ours, e.etpTx[k].priority, k);
    }
  }

  lemma SweepFramesMean(e: Engine, i: Input)
    requires Valid(e) && i.Poll?
    ensures AllCaused(e, i, PollTimeouts(e, i.now, i.hint))
  {
    hide Valid, Caused, PollTimeouts, SweepEvents, ConnAbortFrame, EtpAbortFrame, Enumerates;
    var r := PollTimeouts(e, i.now, i.hint);
    var o := SweepOrder(e, i.now, i.hint);
    SweepQueued(e, i.now, i.hint);
    SweepTold(e, i.now, i.hint);
    var a, b := RxConnAborts(e.rxConn, o.rxConn), TxConnAborts(e.txConn, o.txConn);
    var c := EtpRxAborts(e.etpRx, o.etpRx);
    forall n | |e.out| <= n < |r.engine.out| ensures HasCause(e, i, r, r.engine.out[n]) {
      var m := n - |e.out|;
      if m < |a| { ConnSweepCaused(e, i, r, o, m); }
      else if m < |a| + |b| { ConnSweepCaused(e, i, r, o, m - |a|); }
      else if m < |a| + |b| + |c| { EtpSweepCaused(e, i, r, o, m - |a| - |b|); }
      else { EtpSweepCaused(e, i, r, o, m - |a| - |b| - |c|); }
    }
  }

  lemma SweepTold(e: Engine, now: Instant, hint: Sweep)
    requires Valid(e)
    ensures PollTimeouts(e, now, hint).events == SweepEvents(SweepOrder(e, now, hint))
  {
    hide Valid, SweepFrames, SweptAt;
  }

  /** Every frame a call queues has a cause: a grant belongs to a session then open, an acknowledgement to a message
      the call completed, an abort to what the call reports, and data and offset frames to the grant they answer. */
  lemma FramesCaused(e: Engine, i: Input, n: nat) returns (k: Key)
    requires Valid(e) && |e.out| <= n < |Step(e, i).engine.out|
    ensures Caused(e, i, Step(e, i), Step(e, i).engine.out[n], k)
  {
    hide Valid, Caused, OnFrame, PollTimeouts, StartConn, StartEtp;
    var r := Step(e, i);
    if i.Frame? {
      FrameFrames(e, i);
    } else if i.Poll? {
      SweepFramesMean(e, i);
    } else {
      OpenSendsNothing(e, i);
    }
    assert HasCause(e, i, r, r.engine.out[n]);
    k :| Caused(e, i, r, r.engine.out[n], k);
  }

  /** Opening a transfer hands its request to the caller, and draining leaves nothing. */
  lemma OpenSendsNothing(e: Engine, i: Input)
    requires Valid(e) && !i.Frame? && !i.Poll?
    ensures |Step(e, i).engine.out| <= |e.out|
  {
    hide Valid, CmFrame, Packets;
  }
}
