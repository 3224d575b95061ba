/** Data of the J1939 transport-protocol engine: frames, events, the five session tables and the
    invariant that every operation keeps. */
module TpTypes {
  import opened Bytes
  import opened J1939Id

  const TP_CM_PGN: Pgn := 60416
  const TP_DT_PGN: Pgn := 60160
  const ETP_CM_PGN: Pgn := 51200
  const ETP_DT_PGN: Pgn := 50944

  const BAM_CONTROL: u8 := 0x20
  const RTS_CONTROL: u8 := 0x10
  const CTS_CONTROL: u8 := 0x11
  const EOMA_CONTROL: u8 := 0x13
  const CONN_ABORT_CONTROL: u8 := 0xFF
  const ETP_RTS_CONTROL: u8 := 0x14
  const ETP_CTS_CONTROL: u8 := 0x15
  const ETP_DPO_CONTROL: u8 := 0x16
  const ETP_EOMA_CONTROL: u8 := 0x17
  const ETP_ABORT_CONTROL: u8 := 0xFF

  const CTS_NO_LIMIT: u8 := 0xFF
  const TP_MIN_PAYLOAD := 9
  const TP_MAX_PAYLOAD := 1785
  const ETP_MIN_PAYLOAD := 1786
  const ETP_PROTOCOL_MAX := 117_440_505
  const DATA_LEN := 7

  /** A point of the monotonic clock, in nanoseconds. */
  type Instant = nat

  /** Session key: the peer's address and the transported PGN. */
  datatype Key = Key(sa: u8, pgn: Pgn)

  datatype AbortReason = AlreadyInSession | Resources | Timeout | Other

  datatype Event =
    | Completed(pgn: Pgn, source: u8, payload: seq<u8>)
    | Aborted(pgn: Pgn, source: u8, reason: AbortReason)
    | SessionRefused(pgn: Pgn, source: u8, reason: AbortReason)

  datatype OutFrame = OutFrame(wirePgn: Pgn, priority: u8, source: u8, dest: Option<u8>, data: seq<u8>)

  /** Broadcast reassembly. */
  datatype BamRx = BamRx(pgn: Pgn, source: u8, totalSize: nat, numPackets: u8, nextSeq: u8,
                         buf: seq<u8>, lastActivity: Instant)

  /** Connection-mode (RTS/CTS) reassembly: this node receives. */
  datatype ConnRx = ConnRx(pgn: Pgn, peer: u8, ours: u8, priority: u8, totalSize: nat, totalPackets: u8,
                           senderMax: u8, nextSeq: u8, window: u8, buf: seq<u8>, lastActivity: Instant)

  /** Connection-mode segmentation: this node sends. */
  datatype ConnTx = ConnTx(pgn: Pgn, ours: u8, dest: u8, priority: u8, payload: seq<u8>, totalPackets: u8,
                           lastActivity: Instant)

  /** Extended-transport reassembly: this node receives. */
  datatype EtpRx = EtpRx(pgn: Pgn, peer: u8, ours: u8, priority: u8, totalSize: nat, totalPackets: u32,
                         nextPacket: u32, dpoOffset: u32, burstRemaining: u32, buf: seq<u8>,
                         lastActivity: Instant)

  /** Extended-transport segmentation: this node sends. */
  datatype EtpTx = EtpTx(pgn: Pgn, ours: u8, dest: u8, priority: u8, payload: seq<u8>, totalPackets: u32,
                         lastActivity: Instant)

  datatype Config = Config(ctsWindow: u8, t1: nat, t2: nat, t3: nat, maxSessions: nat, maxEtpBytes: nat)

  /** The engine as a value: what the fields of the class `TpEngine` hold. */
  datatype Engine = Engine(bam: map<Key, BamRx>, rxConn: map<Key, ConnRx>, txConn: map<Key, ConnTx>,
                           etpRx: map<Key, EtpRx>, etpTx: map<Key, EtpTx>, out: seq<OutFrame>, config: Config)

  /** What one call gives back: the new state, the events and whether the call panicked. */
  datatype Outcome = Outcome(engine: Engine, events: seq<Event>, panicked: bool)

  function Packets(size: nat): nat { DivCeil(size, DATA_LEN) }

  function TotalInbound(e: Engine): nat { |e.bam| + |e.rxConn| + |e.etpRx| }

  // ---- The engine invariant -------------------------------------------------

  predicate BamOk(k: Key, s: BamRx) {
    && s.pgn == k.pgn && s.source == k.sa
    && TP_MIN_PAYLOAD <= s.totalSize <= TP_MAX_PAYLOAD
    && s.numPackets == Packets(s.totalSize)
    && 1 <= s.nextSeq <= s.numPackets
    && |s.buf| <= Min(s.totalSize, DATA_LEN * (s.nextSeq - 1))
  }

  /** The receive window: within what is left, within our own limit and within the sender's. */
  predicate WindowOk(config: Config, s: ConnRx) {
    && 1 <= s.nextSeq <= s.totalPackets
    && 1 <= s.window <= config.ctsWindow
    && s.nextSeq - 1 + s.window <= s.totalPackets
    && (s.senderMax != CTS_NO_LIMIT ==> s.window <= Max(1, s.senderMax))
  }

  predicate ConnRxOk(config: Config, k: Key, s: ConnRx) {
    && s.pgn == k.pgn && s.peer == k.sa
    && TP_MIN_PAYLOAD <= s.totalSize <= TP_MAX_PAYLOAD
    && s.totalPackets == Packets(s.totalSize)
    && WindowOk(config, s)
    && |s.buf| <= Min(s.totalSize, DATA_LEN * (s.nextSeq - 1))
  }

  predicate ConnTxOk(k: Key, s: ConnTx) {
    && s.pgn == k.pgn && s.dest == k.sa
    && TP_MIN_PAYLOAD <= |s.payload| <= TP_MAX_PAYLOAD
    && s.totalPackets == Packets(|s.payload|)
  }

  predicate EtpRxOk(config: Config, k: Key, s: EtpRx) {
    && s.pgn == k.pgn && s.peer == k.sa
    && ETP_MIN_PAYLOAD <= s.totalSize <= Min(config.maxEtpBytes, ETP_PROTOCOL_MAX)
    && s.totalPackets == Packets(s.totalSize)
    && 1 <= s.nextPacket <= s.totalPackets
    && |s.buf| == s.totalSize
  }

  predicate EtpTxOk(config: Config, k: Key, s: EtpTx) {
    && s.pgn == k.pgn && s.dest == k.sa
    && ETP_MIN_PAYLOAD <= |s.payload| <= config.maxEtpBytes
    && s.totalPackets == Packets(|s.payload|) % 0x1_0000_0000
  }

  predicate ConfigOk(config: Config) {
    config.ctsWindow >= 1 && config.maxSessions >= 1 && config.maxEtpBytes >= ETP_MIN_PAYLOAD
  }

  ghost predicate Valid(e: Engine) {
    && ConfigOk(e.config)
    && TotalInbound(e) <= e.config.maxSessions
    && (forall k :: k in e.bam ==> BamOk(k, e.bam[k]))
    && (forall k :: k in e.rxConn ==> ConnRxOk(e.config, k, e.rxConn[k]))
    && (forall k :: k in e.txConn ==> ConnTxOk(k, e.txConn[k]))
    && (forall k :: k in e.etpRx ==> EtpRxOk(e.config, k, e.etpRx[k]))
    && (forall k :: k in e.etpTx ==> EtpTxOk(e.config, k, e.etpTx[k]))
  }
}
