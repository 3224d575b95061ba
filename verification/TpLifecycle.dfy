/** The life of a session: how it may leave its table, over every run. */
module TpLifecycle {
  import opened Bytes
  import opened J1939Id
  import opened TpTypes
  import opened TpWire
  import opened TpSteps
  import opened TpSafety

  // ---- Which frames concern which table --------------------------------------

  predicate IsBamDt(id: DecodedId, d: seq<u8>) { id.pgn == TP_DT_PGN && |d| >= 1 && Broadcast(id) }
  predicate IsConnDt(id: DecodedId, d: seq<u8>) { id.pgn == TP_DT_PGN && |d| >= 1 && !Broadcast(id) }
  predicate IsEtpDt(id: DecodedId, d: seq<u8>) { id.pgn == ETP_DT_PGN && |d| >= 1 }
  predicate IsTpCm(id: DecodedId, d: seq<u8>, control: u8) { id.pgn == TP_CM_PGN && |d| >= 8 && d[0] == control }
  predicate IsEtpCm(id: DecodedId, d: seq<u8>, control: u8) { id.pgn == ETP_CM_PGN && |d| >= 8 && d[0] == control }

  lemma TpCmTables(e: Engine, id: DecodedId, d: seq<u8>, now: Instant)
    requires Valid(e) && |d| >= 8
    ensures var r := OnCm(e, id, d, now).engine;
            && r.etpRx == e.etpRx && r.etpTx == e.etpTx
            && (d[0] != BAM_CONTROL ==> r.bam == e.bam)
            && (d[0] != RTS_CONTROL && d[0] != CONN_ABORT_CONTROL ==> r.rxConn == e.rxConn)
            && (d[0] != CTS_CONTROL && d[0] != EOMA_CONTROL && d[0] != CONN_ABORT_CONTROL ==> r.txConn == e.txConn)
  {
    hide Valid, OnBamCm, OnRts, OnCts, OnEndOfMsgAck, OnConnAbort, Local;
    LocalBamCm(e, id, d, now);
    LocalRts(e, id, d, now);
    LocalCts(e, id, d, now);
    LocalEnds(e, id, d);
  }

  lemma TpDtTables(e: Engine, id: DecodedId, d: seq<u8>, now: Instant, pick: Key)
    requires Valid(e) && |d| >= 1
    ensures var r := OnDt(e, id, d, now, pick).engine;
            && r.txConn == e.txConn && r.etpRx == e.etpRx && r.etpTx == e.etpTx
            && (if Broadcast(id) then r.rxConn == e.rxConn else r.bam == e.bam)
  {
    hide Valid, OnBamDt, OnConnDt, Local;
    LocalBamDt(e, id.source, d, now, pick);
    LocalConnDt(e, id.source, d, now, pick);
  }

  lemma EtpCmTables(e: Engine, id: DecodedId, d: seq<u8>, now: Instant)
    requires Valid(e) && |d| >= 8
    ensures var r := OnEtpCm(e, id, d, now).engine;
            && r.bam == e.bam && r.rxConn == e.rxConn && r.txConn == e.txConn
            && (d[0] != ETP_RTS_CONTROL && d[0] != ETP_DPO_CONTROL && d[0] != ETP_ABORT_CONTROL ==> r.etpRx == e.etpRx)
            && (d[0] != ETP_CTS_CONTROL && d[0] != ETP_EOMA_CONTROL && d[0] != ETP_ABORT_CONTROL ==> r.etpTx == e.etpTx)
  {
    hide Valid, OnEtpRts, OnEtpCts, OnEtpDpo, OnEtpEoma, OnEtpAbort, Local;
    LocalEtpRts(e, id, d, now);
    LocalEtpCts(e, id, d, now);
    LocalEtpDpo(e, id, d, now);
    LocalEtpEnds(e, id, d);
  }

  lemma EtpDtTables(e: Engine, sa: u8, d: seq<u8>, now: Instant, pick: Key)
    requires Valid(e) && |d| >= 1
    ensures var r := OnEtpDt(e, sa, d, now, pick).engine;
            r.bam == e.bam && r.rxConn == e.rxConn && r.txConn == e.txConn && r.etpTx == e.etpTx
  {
    hide Valid, OnEtpDt, Local;
    LocalEtpDt(e, sa, d, now, pick);
  }

  /** The four lemmas above, for whichever handler the frame selects. */
  lemma FrameTables(e: Engine, id: DecodedId, d: seq<u8>, now: Instant, pick: Key)
    requires Valid(e)
    ensures var r := OnFrame(e, id, d, now, pick).engine;
            && (r.bam == e.bam || IsTpCm(id, d, BAM_CONTROL) || IsBamDt(id, d))
            && (r.rxConn == e.rxConn || IsTpCm(id, d, RTS_CONTROL) || IsTpCm(id, d, CONN_ABORT_CONTROL)
                || IsConnDt(id, d))
            && (r.txConn == e.txConn || IsTpCm(id, d, CTS_CONTROL) || IsTpCm(id, d, EOMA_CONTROL)
                || IsTpCm(id, d, CONN_ABORT_CONTROL))
            && (r.etpRx == e.etpRx || IsEtpCm(id, d, ETP_RTS_CONTROL) || IsEtpCm(id, d, ETP_DPO_CONTROL)
                || IsEtpCm(id, d, ETP_ABORT_CONTROL) || IsEtpDt(id, d))
            && (r.etpTx == e.etpTx || IsEtpCm(id, d, ETP_CTS_CONTROL) || IsEtpCm(id, d, ETP_EOMA_CONTROL)
                || IsEtpCm(id, d, ETP_ABORT_CONTROL))
  {
    hide Valid, OnBamCm, OnRts, OnCts, OnEndOfMsgAck, OnConnAbort, OnBamDt, OnConnDt,
         OnEtpRts, OnEtpCts, OnEtpDpo, OnEtpEoma, OnEtpAbort, OnEtpDt;
    if |d| >= 8 {
      TpCmTables(e, id, d, now);
      EtpCmTables(e, id, d, now);
    }
    if |d| >= 1 {
      TpDtTables(e, id, d, now, pick);
      EtpDtTables(e, id.source, d, now, pick);
    }
  }

  lemma BamOnFrame(e: Engine, id: DecodedId, d: seq<u8>, now: Instant, pick: Key)
    requires Valid(e)
    ensures IsTpCm(id, d, BAM_CONTROL) ==> OnFrame(e, id, d, now, pick) == OnBamCm(e, id.source, d, now)
    ensures IsBamDt(id, d) ==> OnFrame(e, id, d, now, pick) == OnBamDt(e, id.source, d, now, pick)
    ensures !IsTpCm(id, d, BAM_CONTROL) && !IsBamDt(id, d)
            ==> OnFrame(e, id, d, now, pick).engine.bam == e.bam
  {
    hide Valid, OnBamCm, OnRts, OnCts, OnEndOfMsgAck, OnConnAbort, OnBamDt, OnConnDt,
         OnEtpRts, OnEtpCts, OnEtpDpo, OnEtpEoma, OnEtpAbort, OnEtpDt;
    FrameTables(e, id, d, now, pick);
  }

  lemma RxConnOnFrame(e: Engine, id: DecodedId, d: seq<u8>, now: Instant, pick: Key)
    requires Valid(e)
    ensures IsTpCm(id, d, RTS_CONTROL) ==> OnFrame(e, id, d, now, pick) == OnRts(e, id, d, now)
    ensures IsConnDt(id, d) ==> OnFrame(e, id, d, now, pick) == OnConnDt(e, id.source, d, now, pick)
    ensures IsTpCm(id, d, CONN_ABORT_CONTROL) ==> OnFrame(e, id, d, now, pick) == OnConnAbort(e, id, d)
    ensures !IsTpCm(id, d, RTS_CONTROL) && !IsConnDt(id, d) && !IsTpCm(id, d, CONN_ABORT_CONTROL)
            ==> OnFrame(e, id, d, now, pick).engine.rxConn == e.rxConn
  {
    hide Valid, OnBamCm, OnRts, OnCts, OnEndOfMsgAck, OnConnAbort, OnBamDt, OnConnDt,
         OnEtpRts, OnEtpCts, OnEtpDpo, OnEtpEoma, OnEtpAbort, OnEtpDt;
    FrameTables(e, id, d, now, pick);
  }

  lemma TxConnOnFrame(e: Engine, id: DecodedId, d: seq<u8>, now: Instant, pick: Key)
    requires Valid(e)
    ensures IsTpCm(id, d, CTS_CONTROL) ==> OnFrame(e, id, d, now, pick) == OnCts(e, id, d, now)
    ensures IsTpCm(id, d, EOMA_CONTROL) ==> OnFrame(e, id, d, now, pick) == OnEndOfMsgAck(e, id, d)
    ensures IsTpCm(id, d, CONN_ABORT_CONTROL) ==> OnFrame(e, id, d, now, pick) == OnConnAbort(e, id, d)
    ensures !IsTpCm(id, d, CTS_CONTROL) && !IsTpCm(id, d, EOMA_CONTROL) && !IsTpCm(id, d, CONN_ABORT_CONTROL)
            ==> OnFrame(e, id, d, now, pick).engine.txConn == e.txConn
  {
    hide Valid, OnBamCm, OnRts, OnCts, OnEndOfMsgAck, OnConnAbort, OnBamDt, OnConnDt,
         OnEtpRts, OnEtpCts, OnEtpDpo, OnEtpEoma, OnEtpAbort, OnEtpDt;
    FrameTables(e, id, d, now, pick);
  }

  lemma EtpRxOnFrame(e: Engine, id: DecodedId, d: seq<u8>, now: Instant, pick: Key)
    requires Valid(e)
    ensures IsEtpCm(id, d, ETP_RTS_CONTROL) ==> OnFrame(e, id, d, now, pick) == OnEtpRts(e, id, d, now)
    ensures IsEtpCm(id, d, ETP_DPO_CONTROL) ==> OnFrame(e, id, d, now, pick) == OnEtpDpo(e, id, d, now)
    ensures IsEtpDt(id, d) ==> OnFrame(e, id, d, now, pick) == OnEtpDt(e, id.source, d, now, pick)
    ensures IsEtpCm(id, d, ETP_ABORT_CONTROL) ==> OnFrame(e, id, d, now, pick) == OnEtpAbort(e, id, d)
    ensures !IsEtpCm(id, d, ETP_RTS_CONTROL) && !IsEtpCm(id, d, ETP_DPO_CONTROL)
            && !IsEtpDt(id, d) && !IsEtpCm(id, d, ETP_ABORT_CONTROL)
            ==> OnFrame(e, id, d, now, pick).engine.etpRx == e.etpRx
  {
    hide Valid, OnBamCm, OnRts, OnCts, OnEndOfMsgAck, OnConnAbort, OnBamDt, OnConnDt,
         OnEtpRts, OnEtpCts, OnEtpDpo, OnEtpEoma, OnEtpAbort, OnEtpDt;
    FrameTables(e, id, d, now, pick);
  }

  lemma EtpTxOnFrame(e: Engine, id: DecodedId, d: seq<u8>, now: Instant, pick: Key)
    requires Valid(e)
    ensures IsEtpCm(id, d, ETP_CTS_CONTROL) ==> OnFrame(e, id, d, now, pick) == OnEtpCts(e, id, d, now)
    ensures IsEtpCm(id, d, ETP_EOMA_CONTROL) ==> OnFrame(e, id, d, now, pick) == OnEtpEoma(e, id, d)
    ensures IsEtpCm(id, d, ETP_ABORT_CONTROL) ==> OnFrame(e, id, d, now, pick) == OnEtpAbort(e, id, d)
    ensures !IsEtpCm(id, d, ETP_CTS_CONTROL) && !IsEtpCm(id, d, ETP_EOMA_CONTROL) && !IsEtpCm(id, d, ETP_ABORT_CONTROL)
            ==> OnFrame(e, id, d, now, pick).engine.etpTx == e.etpTx
  {
    hide Valid, OnBamCm, OnRts, OnCts, OnEndOfMsgAck, OnConnAbort, OnBamDt, OnConnDt,
         OnEtpRts, OnEtpCts, OnEtpDpo, OnEtpEoma, OnEtpAbort, OnEtpDt;
    FrameTables(e, id, d, now, pick);
  }

  // ---- How a session may leave ------------------------------------------------

  datatype Table = Bam | RxConn | TxConn | EtpRecv | EtpSend

  predicate Has(e: Engine, t: Table, k: Key) {
    match t
    case Bam => k in e.bam
    case RxConn => k in e.rxConn
    case TxConn => k in e.txConn
    case EtpRecv => k in e.etpRx
    case EtpSend => k in e.etpTx
  }

  /** A connection-management frame of the peer of `k` about the PGN of `k`. */
  predicate About(id: DecodedId, d: seq<u8>, k: Key) { |d| >= 8 && id.source == k.sa && PgnOf(d) == Some(k.pgn) }

  /** The step completes the session of `k`: the last packet arrived, and the reassembled message, of no
      more than the announced size, is the one event. */
  ghost predicate Completes(r: Outcome, k: Key, size: nat) {
    && |r.events| == 1 && r.events[0].Completed?
    && r.events[0].pgn == k.pgn && r.events[0].source == k.sa && |r.events[0].payload| <= size
  }

  /** The peer of `k` aborts, for the reason its frame gives, which is reported. */
  ghost predicate PeerAborts(r: Outcome, d: seq<u8>, k: Key)
    requires |d| >= 8
  {
    Aborted(k.pgn, k.sa, ReasonFrom(d[1])) in r.events
  }

  ghost predicate TimesOut(i: Input, r: Outcome, last: Instant, limit: nat, k: Key) {
    i.Poll? && i.now > last + limit && TimeoutOf(k) in r.events
  }

  /** The ways out of each table. */
  ghost predicate Leaves(e: Engine, i: Input, t: Table, k: Key)
    requires Valid(e) && Has(e, t, k)
  {
    var r := Step(e, i);
    match t
    case Bam =>
      || (i.Frame? && IsBamDt(i.id, i.data) && e.bam[k].nextSeq == e.bam[k].numPackets == i.data[0]
          && Completes(r, k, e.bam[k].totalSize))
      || TimesOut(i, r, e.bam[k].lastActivity, e.config.t1, k)
    case RxConn =>
      || (i.Frame? && IsConnDt(i.id, i.data) && e.rxConn[k].nextSeq == e.rxConn[k].totalPackets == i.data[0]
          && Completes(r, k, e.rxConn[k].totalSize))
      || (i.Frame? && IsTpCm(i.id, i.data, CONN_ABORT_CONTROL) && About(i.id, i.data, k) && PeerAborts(r, i.data, k))
      || TimesOut(i, r, e.rxConn[k].lastActivity, e.config.t2, k)
    case TxConn =>
      || (i.Frame? && IsTpCm(i.id, i.data, EOMA_CONTROL) && About(i.id, i.data, k))
      || (i.Frame? && IsTpCm(i.id, i.data, CONN_ABORT_CONTROL) && About(i.id, i.data, k) && PeerAborts(r, i.data, k))
      || TimesOut(i, r, e.txConn[k].lastActivity, e.config.t3, k)
    case EtpRecv =>
      || (i.Frame? && IsEtpDt(i.id, i.data)
          && e.etpRx[k].nextPacket == e.etpRx[k].totalPackets == SatAdd32(e.etpRx[k].dpoOffset, i.data[0])
          && Completes(r, k, e.etpRx[k].totalSize))
      || (i.Frame? && IsEtpCm(i.id, i.data, ETP_ABORT_CONTROL) && About(i.id, i.data, k) && PeerAborts(r, i.data, k))
      || TimesOut(i, r, e.etpRx[k].lastActivity, e.config.t2, k)
    case EtpSend =>
      || (i.Frame? && IsEtpCm(i.id, i.data, ETP_EOMA_CONTROL) && About(i.id, i.data, k))
      || (i.Frame? && IsEtpCm(i.id, i.data, ETP_ABORT_CONTROL) && About(i.id, i.data, k) && PeerAborts(r, i.data, k))
      || TimesOut(i, r, e.etpTx[k].lastActivity, e.config.t3, k)
  }

  lemma {:induction false} CountIn(evs: seq<Event>, ev: Event)
    ensures Count(evs, ev) > 0 <==> ev in evs
    decreases |evs|
  {
    if evs != [] {
      CountIn(evs[1..], ev);
      assert evs == [evs[0]] + evs[1..];
    }
  }

  lemma PollExit(e: Engine, i: Input, t: Table, k: Key)
    requires Valid(e) && Has(e, t, k) && i.Poll?
    ensures !Has(Step(e, i).engine, t, k) <==> Leaves(e, i, t, k)
  {
    hide Valid, PollTimeouts, SweepFrames, Idle, About;
    SweepIsExact(e, i.now, i.hint, k);
    SweepReports(e, i.now, i.hint, k);
    CountIn(PollTimeouts(e, i.now, i.hint).events, TimeoutOf(k));
  }

  lemma BamExit(e: Engine, i: Input, k: Key)
    requires Valid(e) && i.Frame? && k in e.bam
    ensures k !in OnFrame(e, i.id, i.data, i.now, i.pick).engine.bam <==> Leaves(e, i, Bam, k)
  {
    hide Valid, OnFrame, AnnounceOk, PgnOf, U16, OnBamDt;
    BamOnFrame(e, i.id, i.data, i.now, i.pick);
    if IsBamDt(i.id, i.data) { BamDtExit(e, i.id.source, i.data, i.now, i.pick, k); }
  }

  lemma BamDtExit(e: Engine, sa: u8, d: seq<u8>, now: Instant, pick: Key, k: Key)
    requires Valid(e) && |d| >= 1 && k in e.bam
    ensures var r := OnBamDt(e, sa, d, now, pick);
            k !in r.engine.bam <==>
            e.bam[k].nextSeq == e.bam[k].numPackets == d[0] && Completes(r, k, e.bam[k].totalSize)
  {
    hide Valid, Taken;
    BamSession(e, k);
    var found := SessionOf(e.bam.Keys, sa, pick);
    if found.Some? { BamSession(e, found.value); }
  }

  lemma RxConnExit(e: Engine, i: Input, k: Key)
    requires Valid(e) && i.Frame? && k in e.rxConn
    ensures k !in OnFrame(e, i.id, i.data, i.now, i.pick).engine.rxConn <==> Leaves(e, i, RxConn, k)
  {
    hide Valid, OnFrame, AnnounceOk, PgnOf, U16, CmFrame, GrantWindow, OnConnDt, ReasonFrom;
    RxConnOnFrame(e, i.id, i.data, i.now, i.pick);
    RxConnSession(e, k);
    if IsConnDt(i.id, i.data) { ConnDtExit(e, i.id.source, i.data, i.now, i.pick, k); }
  }

  lemma ConnDtExit(e: Engine, sa: u8, d: seq<u8>, now: Instant, pick: Key, k: Key)
    requires Valid(e) && |d| >= 1 && k in e.rxConn
    ensures var r := OnConnDt(e, sa, d, now, pick);
            k !in r.engine.rxConn <==>
            e.rxConn[k].nextSeq == e.rxConn[k].totalPackets == d[0] && Completes(r, k, e.rxConn[k].totalSize)
  {
    hide Valid, Taken, ConnAccept, CmFrame;
    RxConnSession(e, k);
    var found := SessionOf(e.rxConn.Keys, sa, pick);
    if found.Some? { RxConnSession(e, found.value); }
  }

  lemma TxConnExit(e: Engine, i: Input, k: Key)
    requires Valid(e) && i.Frame? && k in e.txConn
    ensures k !in OnFrame(e, i.id, i.data, i.now, i.pick).engine.txConn <==> Leaves(e, i, TxConn, k)
  {
    hide Valid, OnFrame, PgnOf, ConnBurst;
    TxConnOnFrame(e, i.id, i.data, i.now, i.pick);
    TxConnSession(e, k);
  }

  lemma EtpRxExit(e: Engine, i: Input, k: Key)
    requires Valid(e) && i.Frame? && k in e.etpRx
    ensures k !in OnFrame(e, i.id, i.data, i.now, i.pick).engine.etpRx <==> Leaves(e, i, EtpRecv, k)
  {
    hide Valid, OnFrame, PgnOf, U24, U32, CmFrame, Zeros, Packets, EtpGrant, OnEtpDt;
    EtpRxOnFrame(e, i.id, i.data, i.now, i.pick);
    EtpRxSession(e, k);
    if IsEtpDt(i.id, i.data) { EtpDtExit(e, i.id.source, i.data, i.now, i.pick, k); }
  }

  lemma EtpDtExit(e: Engine, sa: u8, d: seq<u8>, now: Instant, pick: Key, k: Key)
    requires Valid(e) && |d| >= 1 && k in e.etpRx
    ensures var r := OnEtpDt(e, sa, d, now, pick);
            k !in r.engine.etpRx <==>
            && e.etpRx[k].nextPacket == e.etpRx[k].totalPackets == SatAdd32(e.etpRx[k].dpoOffset, d[0])
            && Completes(r, k, e.etpRx[k].totalSize)
  {
    hide Valid, EtpFilled, EtpAccept, CmFrame, EtpGrant;
    EtpRxSession(e, k);
    var found := SessionOf(e.etpRx.Keys, sa, pick);
    if found.Some? { EtpRxSession(e, found.value); }
  }

  lemma EtpTxExit(e: Engine, i: Input, k: Key)
    requires Valid(e) && i.Frame? && k in e.etpTx
    ensures k !in OnFrame(e, i.id, i.data, i.now, i.pick).engine.etpTx <==> Leaves(e, i, EtpSend, k)
  {
    hide Valid, OnFrame, PgnOf, EtpBurst, U24;
    EtpTxOnFrame(e, i.id, i.data, i.now, i.pick);
    EtpTxSession(e, k);
  }

  /** One call takes a session out of its table exactly by completion, acknowledgement, peer abort or
      timeout. */
  lemma StepExit(e: Engine, i: Input, t: Table, k: Key)
    requires Valid(e) && Has(e, t, k)
    ensures !Has(Step(e, i).engine, t, k) <==> Leaves(e, i, t, k)
  {
    hide Valid, OnFrame, PollTimeouts, About, Completes;
    if i.Poll? {
      PollExit(e, i, t, k);
    } else if i.Frame? {
      match t
      case Bam => BamExit(e, i, k);
      case RxConn => RxConnExit(e, i, k);
      case TxConn => TxConnExit(e, i, k);
      case EtpRecv => EtpRxExit(e, i, k);
      case EtpSend => EtpTxExit(e, i, k);
    }
  }

  // ---- How a session begins ------------------------------------------------------

  /** The call opens the session of `k`, anew if it is open already: a well-formed announce or request that finds
      room, or a transfer of a size the sender may carry. */
  ghost predicate Opens(e: Engine, i: Input, t: Table, k: Key) {
    match t
    case Bam =>
      && i.Frame? && IsTpCm(i.id, i.data, BAM_CONTROL) && About(i.id, i.data, k)
      && AnnounceOk(U16(i.data[1], i.data[2]), i.data[3]) && (k in e.bam || Room(e))
    case RxConn =>
      i.Frame? && IsTpCm(i.id, i.data, RTS_CONTROL) && About(i.id, i.data, k) && Admits(e, i.id, i.data)
    case TxConn =>
      i.OpenConn? && k == Key(i.dest, i.pgn) && TP_MIN_PAYLOAD <= |i.payload| <= TP_MAX_PAYLOAD
    case EtpRecv =>
      && i.Frame? && IsEtpCm(i.id, i.data, ETP_RTS_CONTROL) && About(i.id, i.data, k) && !Broadcast(i.id)
      && (k in e.etpRx || Room(e))
      && var size := U32(i.data[1], i.data[2], i.data[3], i.data[4]);
         ETP_MIN_PAYLOAD <= size <= Min(e.config.maxEtpBytes, ETP_PROTOCOL_MAX)
    case EtpSend =>
      i.OpenEtp? && k == Key(i.dest, i.pgn) && ETP_MIN_PAYLOAD <= |i.payload| <= e.config.maxEtpBytes
  }

  /** The one frame a request is answered with: a grant from packet 1 on, of at least one packet and no more than
      the message has, this node's window allows and the byte of the request that limits a grant allows. */
  predicate FirstGrant(e: Engine, i: Input, f: OutFrame)
    requires i.Frame? && |i.data| >= 8
  {
    && IsCts(f) && f.dest == Some(i.id.source) && f.data[2] == 1
    && 1 <= f.data[1] <= i.data[3] && f.data[1] <= e.config.ctsWindow
    && (i.data[4] != CTS_NO_LIMIT ==> f.data[1] <= Max(1, i.data[4]))
  }

  /** The session holds what the call announced, nothing of the message yet, and was active at this call. */
  ghost predicate Begins(e: Engine, i: Input, e': Engine, t: Table, k: Key)
    requires Opens(e, i, t, k)
  {
    match t
    case Bam =>
      k in e'.bam && e'.bam[k] == BamRx(k.pgn, k.sa, U16(i.data[1], i.data[2]), i.data[3], 1, [], i.now)
    case RxConn =>
      && |e'.out| == |e.out| + 1 && FirstGrant(e, i, e'.out[|e.out|])
      && k in e'.rxConn
      && e'.rxConn[k] == ConnRx(k.pgn, k.sa, i.id.dest.value, i.id.priority, U16(i.data[1], i.data[2]), i.data[3],
                                i.data[4], 1, e'.out[|e.out|].data[1], [], i.now)
    case TxConn =>
      && k in e'.txConn
      && e'.txConn[k] == ConnTx(k.pgn, i.ours, k.sa, i.priority, i.payload, Packets(|i.payload|), i.now)
    case EtpRecv =>
      && k in e'.etpRx
      && var size := U32(i.data[1], i.data[2], i.data[3], i.data[4]);
         e'.etpRx[k] == EtpRx(k.pgn, k.sa, i.id.dest.value, i.id.priority, size, Packets(size), 1, 0, 0,
                              Zeros(size), i.now)
    case EtpSend =>
      && k in e'.etpTx
      && e'.etpTx[k].payload == i.payload && e'.etpTx[k].ours == i.ours && e'.etpTx[k].priority == i.priority
      && e'.etpTx[k].lastActivity == i.now
  }

  lemma BamOpens(e: Engine, i: Input, k: Key)
    requires Valid(e) && i.Frame?
    ensures var r := OnFrame(e, i.id, i.data, i.now, i.pick).engine;
            && (Opens(e, i, Bam, k) ==> Begins(e, i, r, Bam, k))
            && (k in r.bam && k !in e.bam ==> Opens(e, i, Bam, k))
  {
    hide Valid, OnFrame, OnBamDt, AnnounceOk, PgnOf, U16;
    BamOnFrame(e, i.id, i.data, i.now, i.pick);
    if IsBamDt(i.id, i.data) { BamDtStays(e, i, k); }
  }

  lemma RxConnOpens(e: Engine, i: Input, k: Key)
    requires Valid(e) && i.Frame?
    ensures var r := OnFrame(e, i.id, i.data, i.now, i.pick).engine;
            && (Opens(e, i, RxConn, k) ==> Begins(e, i, r, RxConn, k))
            && (k in r.rxConn && k !in e.rxConn ==> Opens(e, i, RxConn, k))
  {
    hide Valid, OnFrame, OnConnDt, OnRts, OnConnAbort;
    RxConnOnFrame(e, i.id, i.data, i.now, i.pick);
    if IsTpCm(i.id, i.data, RTS_CONTROL) { RtsOpens(e, i, k); }
    if IsConnDt(i.id, i.data) { ConnDtStays(e, i, k); }
    if IsTpCm(i.id, i.data, CONN_ABORT_CONTROL) { AbortOpensNone(e, i.id, i.data, k); }
  }

  lemma AbortOpensNone(e: Engine, id: DecodedId, d: seq<u8>, k: Key)
    requires Valid(e) && |d| >= 8
    ensures k in OnConnAbort(e, id, d).engine.rxConn ==>
              k in e.rxConn && OnConnAbort(e, id, d).engine.rxConn[k] == e.rxConn[k]
    ensures k in OnEtpAbort(e, id, d).engine.etpRx ==>
              k in e.etpRx && OnEtpAbort(e, id, d).engine.etpRx[k] == e.etpRx[k]
  {
    hide Valid, PgnOf, ReasonFrom;
  }

  lemma RtsOpens(e: Engine, i: Input, k: Key)
    requires Valid(e) && i.Frame? && IsTpCm(i.id, i.data, RTS_CONTROL)
    ensures var r := OnRts(e, i.id, i.data, i.now).engine;
            && (Opens(e, i, RxConn, k) ==> Begins(e, i, r, RxConn, k))
            && (k in r.rxConn && !Opens(e, i, RxConn, k) ==> k in e.rxConn && r.rxConn[k] == e.rxConn[k])
  {
    hide Valid, AnnounceOk, PgnOf, U16, Byte0, Byte1, Byte2;
    ValidConfig(e);
    AnnouncedPackets(U16(i.data[1], i.data[2]), i.data[3]);
  }

  lemma AnnouncedPackets(size: nat, packets: u8)
    ensures AnnounceOk(size, packets) ==> packets >= 1
  {
  }

  lemma EtpRxOpens(e: Engine, i: Input, k: Key)
    requires Valid(e) && i.Frame?
    ensures var r := OnFrame(e, i.id, i.data, i.now, i.pick).engine;
            && (Opens(e, i, EtpRecv, k) ==> Begins(e, i, r, EtpRecv, k))
            && (k in r.etpRx && k !in e.etpRx ==> Opens(e, i, EtpRecv, k))
  {
    hide Valid, OnFrame, OnEtpDt, OnEtpRts, OnEtpAbort, PgnOf, U24;
    EtpRxOnFrame(e, i.id, i.data, i.now, i.pick);
    if IsEtpCm(i.id, i.data, ETP_RTS_CONTROL) { EtpRtsOpens(e, i, k); }
    if IsEtpDt(i.id, i.data) { EtpDtStays(e, i, k); }
    if IsEtpCm(i.id, i.data, ETP_ABORT_CONTROL) { AbortOpensNone(e, i.id, i.data, k); }
  }

  lemma EtpRtsOpens(e: Engine, i: Input, k: Key)
    requires Valid(e) && i.Frame? && IsEtpCm(i.id, i.data, ETP_RTS_CONTROL)
    ensures var r := OnEtpRts(e, i.id, i.data, i.now).engine;
            && (Opens(e, i, EtpRecv, k) ==> Begins(e, i, r, EtpRecv, k))
            && (k in r.etpRx && !Opens(e, i, EtpRecv, k) ==> k in e.etpRx && r.etpRx[k] == e.etpRx[k])
  {
    hide Valid, PgnOf, U32, CmFrame, EtpGrant, Packets, Zeros;
  }

  lemma TxSideOpens(e: Engine, i: Input, k: Key)
    requires Valid(e)
    ensures var r := Step(e, i).engine;
            && (Opens(e, i, TxConn, k) ==> Begins(e, i, r, TxConn, k))
            && (Opens(e, i, EtpSend, k) ==> Begins(e, i, r, EtpSend, k))
            && (i.OpenConn? || i.OpenEtp? ==>
                  && r.bam == e.bam && r.rxConn == e.rxConn && r.etpRx == e.etpRx
                  && (k in r.txConn && !Opens(e, i, TxConn, k) ==> k in e.txConn && r.txConn[k] == e.txConn[k])
                  && (k in r.etpTx && !Opens(e, i, EtpSend, k) ==> k in e.etpTx && r.etpTx[k] == e.etpTx[k]))
  {
    hide Valid, OnFrame, PollTimeouts, CmFrame, Packets;
  }

  /** One call brings a session into its table exactly by opening it, and it then holds what was announced. */
  lemma StepOpens(e: Engine, i: Input, t: Table, k: Key)
    requires Valid(e)
    ensures Opens(e, i, t, k) ==> Has(Step(e, i).engine, t, k) && Begins(e, i, Step(e, i).engine, t, k)
    ensures Has(Step(e, i).engine, t, k) && !Has(e, t, k) ==> Opens(e, i, t, k)
  {
    hide Valid, OnFrame, PollTimeouts, About, StartConn, StartEtp, Room, AnnounceOk, U16, U32;
    TxSideOpens(e, i, k);
    if i.Frame? {
      match t
      case Bam => BamOpens(e, i, k);
      case RxConn => RxConnOpens(e, i, k);
      case EtpRecv => EtpRxOpens(e, i, k);
      case TxConn => TxSideStays(e, i, k);
      case EtpSend => TxSideStays(e, i, k);
    }
  }

  // ---- What happens to a session that stays ------------------------------------

  /** The session goes on: it is as it was, or one packet further, with what it held unchanged and active at the
      time of this call. Grants and offset frames are activity too. */
  ghost predicate GoesOn(e: Engine, i: Input, e': Engine, t: Table, k: Key)
    requires Has(e, t, k) && Has(e', t, k)
  {
    match t
    case Bam =>
      var s, s' := e.bam[k], e'.bam[k];
      s' == s || (i.Frame? && IsBamDt(i.id, i.data) && i.id.source == k.sa && BamGoesOn(s, s', i.data, i.now))
    case RxConn =>
      var s, s' := e.rxConn[k], e'.rxConn[k];
      || s' == s
      || (&& i.Frame? && IsConnDt(i.id, i.data) && i.id.source == k.sa && i.data[0] == s.nextSeq
          && s'.nextSeq == s.nextSeq + 1 && s.buf <= s'.buf
          && (s.window > 1 ==> s'.window == s.window - 1)
          && s' == s.(nextSeq := s'.nextSeq, window := s'.window, buf := s'.buf, lastActivity := i.now))
    case TxConn =>
      e'.txConn[k] == if i.Frame? && IsTpCm(i.id, i.data, CTS_CONTROL) && About(i.id, i.data, k)
                      then e.txConn[k].(lastActivity := i.now) else e.txConn[k]
    case EtpRecv =>
      var s, s' := e.etpRx[k], e'.etpRx[k];
      if i.Frame? && IsEtpCm(i.id, i.data, ETP_DPO_CONTROL) && About(i.id, i.data, k) then
        s' == s.(dpoOffset := U24(i.data[2], i.data[3], i.data[4]), burstRemaining := i.data[1], lastActivity := i.now)
      else
        || s' == s
        || (&& i.Frame? && IsEtpDt(i.id, i.data) && i.id.source == k.sa
            && SatAdd32(s.dpoOffset, i.data[0]) == s.nextPacket
            && s'.nextPacket == s.nextPacket + 1
            && s' == s.(nextPacket := s'.nextPacket, burstRemaining := SatSub(s.burstRemaining, 1), buf := s'.buf,
                        lastActivity := i.now)
            && SameBelow(s, s'.buf))
    case EtpSend =>
      e'.etpTx[k] == if i.Frame? && IsEtpCm(i.id, i.data, ETP_CTS_CONTROL) && About(i.id, i.data, k)
                     then e.etpTx[k].(lastActivity := i.now) else e.etpTx[k]
  }

  /** The packets received so far are in `buf` as they are in the session. */
  ghost predicate SameBelow(s: EtpRx, buf: seq<u8>) {
    |buf| == |s.buf| && forall j :: 0 <= j < DATA_LEN * (s.nextPacket - 1) && j < |buf| ==> buf[j] == s.buf[j]
  }

  lemma BamStays(e: Engine, i: Input, k: Key)
    requires Valid(e) && i.Frame? && k in e.bam && k in OnFrame(e, i.id, i.data, i.now, i.pick).engine.bam
    ensures Opens(e, i, Bam, k) || GoesOn(e, i, OnFrame(e, i.id, i.data, i.now, i.pick).engine, Bam, k)
  {
    hide Valid, OnFrame, OnBamDt, AnnounceOk, PgnOf, U16;
    BamOnFrame(e, i.id, i.data, i.now, i.pick);
    BamSession(e, k);
    if IsBamDt(i.id, i.data) { BamDtStays(e, i, k); }
  }

  lemma BamDtStays(e: Engine, i: Input, k: Key)
    requires Valid(e) && i.Frame? && IsBamDt(i.id, i.data)
    ensures var r := OnBamDt(e, i.id.source, i.data, i.now, i.pick).engine;
            k in r.bam ==> k in e.bam && GoesOn(e, i, r, Bam, k)
  {
    hide Valid, Taken;
    if k in e.bam { BamSession(e, k); }
  }

  lemma RxConnStays(e: Engine, i: Input, k: Key)
    requires Valid(e) && i.Frame? && k in e.rxConn && k in OnFrame(e, i.id, i.data, i.now, i.pick).engine.rxConn
    ensures Opens(e, i, RxConn, k) || GoesOn(e, i, OnFrame(e, i.id, i.data, i.now, i.pick).engine, RxConn, k)
  {
    hide Valid, OnFrame, OnConnDt, OnRts, OnConnAbort, Opens;
    RxConnOnFrame(e, i.id, i.data, i.now, i.pick);
    if IsTpCm(i.id, i.data, RTS_CONTROL) { RtsOpens(e, i, k); }
    if IsConnDt(i.id, i.data) { ConnDtStays(e, i, k); }
    if IsTpCm(i.id, i.data, CONN_ABORT_CONTROL) { AbortOpensNone(e, i.id, i.data, k); }
  }

  lemma ConnDtStays(e: Engine, i: Input, k: Key)
    requires Valid(e) && i.Frame? && IsConnDt(i.id, i.data)
    ensures var r := OnConnDt(e, i.id.source, i.data, i.now, i.pick).engine;
            k in r.rxConn ==> k in e.rxConn && GoesOn(e, i, r, RxConn, k)
  {
    hide Valid, Taken, CmFrame, GrantWindow;
    if k in e.rxConn { RxConnSession(e, k); }
  }

  lemma EtpRxStays(e: Engine, i: Input, k: Key)
    requires Valid(e) && i.Frame? && k in e.etpRx && k in OnFrame(e, i.id, i.data, i.now, i.pick).engine.etpRx
    ensures Opens(e, i, EtpRecv, k) || GoesOn(e, i, OnFrame(e, i.id, i.data, i.now, i.pick).engine, EtpRecv, k)
  {
    hide Valid, OnFrame, OnEtpDt, OnEtpRts, OnEtpAbort, PgnOf, U24, Opens;
    EtpRxOnFrame(e, i.id, i.data, i.now, i.pick);
    if IsEtpCm(i.id, i.data, ETP_RTS_CONTROL) { EtpRtsOpens(e, i, k); }
    if IsEtpDt(i.id, i.data) { EtpDtStays(e, i, k); }
    if IsEtpCm(i.id, i.data, ETP_ABORT_CONTROL) { AbortOpensNone(e, i.id, i.data, k); }
  }

  lemma EtpDtStays(e: Engine, i: Input, k: Key)
    requires Valid(e) && i.Frame? && IsEtpDt(i.id, i.data)
    ensures var r := OnEtpDt(e, i.id.source, i.data, i.now, i.pick).engine;
            k in r.etpRx ==> k in e.etpRx && GoesOn(e, i, r, EtpRecv, k)
  {
    hide Valid, EtpFilled, CmFrame, EtpGrant, Packets;
    if k in e.etpRx {
      EtpRxSession(e, k);
      FillKeepsPrefix(e.etpRx[k], i.data);
    }
  }

  lemma FillKeepsPrefix(s: EtpRx, d: seq<u8>)
    requires |d| >= 1 && 1 <= s.nextPacket <= Packets(s.totalSize) && |s.buf| == s.totalSize
    ensures SameBelow(s, EtpFilled(s, d))
  {
  }

  /** A session that one call leaves in its table goes on, unless the call opened it anew. */
  lemma StepStays(e: Engine, i: Input, t: Table, k: Key)
    requires Valid(e) && Has(e, t, k) && Has(Step(e, i).engine, t, k)
    ensures Opens(e, i, t, k) || GoesOn(e, i, Step(e, i).engine, t, k)
  {
    hide Valid, OnFrame, PollTimeouts, About, StartConn, StartEtp, Room, AnnounceOk, U16, U24, U32;
    TxSideOpens(e, i, k);
    if i.Poll? {
      SweepIsExact(e, i.now, i.hint, k);
    } else if i.Frame? {
      match t
      case Bam => BamStays(e, i, k);
      case RxConn => RxConnStays(e, i, k);
      case EtpRecv => EtpRxStays(e, i, k);
      case TxConn => TxSideStays(e, i, k);
      case EtpSend => TxSideStays(e, i, k);
    }
  }

  lemma TxSideStays(e: Engine, i: Input, k: Key)
    requires Valid(e) && i.Frame?
    ensures var r := OnFrame(e, i.id, i.data, i.now, i.pick).engine;
            && (k in r.txConn ==> k in e.txConn && GoesOn(e, i, r, TxConn, k))
            && (k in r.etpTx ==> k in e.etpTx && GoesOn(e, i, r, EtpSend, k))
  {
    hide Valid, OnFrame, PgnOf, ConnBurst, EtpAnswer;
    TxConnOnFrame(e, i.id, i.data, i.now, i.pick);
    EtpTxOnFrame(e, i.id, i.data, i.now, i.pick);
  }

  /** Over every run: a session that is gone left at some call of the run, in one of those ways. */
  lemma {:induction false} SessionLifecycle(e: Engine, run: seq<Input>, t: Table, k: Key) returns (n: nat)
    requires Valid(e) && Has(e, t, k) && !Has(Run(e, run), t, k)
    ensures n < |run| && Has(Run(e, run[..n]), t, k) && Leaves(Run(e, run[..n]), run[n], t, k)
    decreases |run|
  {
    hide Valid, Step, Has, Leaves;
    var e1 := Step(e, run[0]).engine;
    if Has(e1, t, k) {
      var m := SessionLifecycle(e1, run[1..], t, k);
      n := m + 1;
      assert run[..n][1..] == run[1..][..m];
    } else {
      StepExit(e, run[0], t, k);
      n := 0;
    }
  }

  // ---- An abort ends the session at the other side too ------------------------------------

  lemma ReasonSurvives(reason: AbortReason)
    ensures ReasonFrom(ReasonCode(reason)) == reason
  {
  }

  /** Whatever abort a peer sends about a connection, in either direction, ends it here and is reported with
      the peer's reason. */
  lemma ConnAbortReaches(e: Engine, k: Key, dest: u8, priority: u8, reason: AbortReason, now: Instant, pick: Key)
    requires Valid(e) && (k in e.rxConn || k in e.txConn)
    ensures var f := ConnAbortFrame(k.sa, dest, priority, k.pgn, reason);
            var r := OnFrame(e, WireId(f), f.data, now, pick);
            && k !in r.engine.rxConn && k !in r.engine.txConn && Aborted(k.pgn, k.sa, reason) in r.events
  {
    hide Valid, OnFrame, WireId, ReasonFrom, ReasonCode, Byte0, Byte1, Byte2;
    var f := ConnAbortFrame(k.sa, dest, priority, k.pgn, reason);
    WireIdOf(f);
    PgnBytes(k.pgn);
    ReasonSurvives(reason);
    RxConnOnFrame(e, WireId(f), f.data, now, pick);
    if k in e.rxConn { RxConnSession(e, k); } else { TxConnSession(e, k); }
  }

  /** The same for extended transfers. */
  lemma EtpAbortReaches(e: Engine, k: Key, dest: u8, priority: u8, reason: AbortReason, now: Instant, pick: Key)
    requires Valid(e) && (k in e.etpRx || k in e.etpTx)
    ensures var f := EtpAbortFrame(k.sa, dest, priority, k.pgn, reason);
            var r := OnFrame(e, WireId(f), f.data, now, pick);
            && k !in r.engine.etpRx && k !in r.engine.etpTx && Aborted(k.pgn, k.sa, reason) in r.events
  {
    hide Valid, OnFrame, WireId, ReasonFrom, ReasonCode, Byte0, Byte1, Byte2;
    var f := EtpAbortFrame(k.sa, dest, priority, k.pgn, reason);
    WireIdOf(f);
    PgnBytes(k.pgn);
    ReasonSurvives(reason);
    EtpRxOnFrame(e, WireId(f), f.data, now, pick);
    if k in e.etpRx { EtpRxSession(e, k); } else { EtpTxSession(e, k); }
  }
}
