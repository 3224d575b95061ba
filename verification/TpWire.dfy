/** The frames of the transport protocols: parsing, building and segmentation, in closed form. */
module TpWire {
  import opened Bytes
  import opened J1939Id
  import opened TpTypes

  // ---- Window arithmetic ----------------------------------------------------

  /** A window of `w` packets respects every limit; where a limit is zero one packet may still be granted. */
  predicate MayGrant(w: int, remaining: nat, ctsWindow: u8, senderMax: u8) {
    1 <= w <= Max(1, remaining) && w <= Max(1, ctsWindow) && (senderMax != CTS_NO_LIMIT ==> w <= Max(1, senderMax))
  }

  /** The largest window within the configured one, what is outstanding, and the sender's limit if it has one. */
  function GrantWindow(remaining: u8, ctsWindow: u8, senderMax: u8): (w: u8)
    ensures MayGrant(w, remaining, ctsWindow, senderMax)
    ensures forall v: u8 :: MayGrant(v, remaining, ctsWindow, senderMax) ==> v <= w
  {
    var w := Min(remaining, Max(1, ctsWindow));
    var w' := if senderMax != CTS_NO_LIMIT then Min(w, Max(1, senderMax)) else w;
    Max(1, w')
  }

  /** The largest extended window within the configured one and what is outstanding. */
  function EtpGrant(remaining: u32, ctsWindow: u8): (w: u8)
    ensures MayGrant(w, remaining, ctsWindow, CTS_NO_LIMIT)
    ensures forall v: u8 :: MayGrant(v, remaining, ctsWindow, CTS_NO_LIMIT) ==> v <= w
  {
    Max(1, Min(remaining, Max(1, ctsWindow)))
  }

  // ---- Builders -------------------------------------------------------------

  function ReasonCode(r: AbortReason): u8 {
    match r case AlreadyInSession => 1 case Resources => 2 case Timeout => 3 case Other => 4
  }

  function ReasonFrom(code: u8): AbortReason {
    if code == 1 then AlreadyInSession else if code == 2 then Resources else if code == 3 then Timeout else Other
  }

  /** A connection-management frame: four bytes after the control byte, then the transported PGN. */
  function CmFrame(wire: Pgn, ours: u8, dest: u8, priority: u8, pgn: Pgn,
                   control: u8, d1: u8, d2: u8, d3: u8, d4: u8): OutFrame
  {
    OutFrame(wire, priority, ours, Some(dest), [control, d1, d2, d3, d4, Byte0(pgn), Byte1(pgn), Byte2(pgn)])
  }

  function RtsFrame(ours: u8, dest: u8, priority: u8, pgn: Pgn, size: nat, packets: u8, maxPerCts: u8): OutFrame {
    CmFrame(TP_CM_PGN, ours, dest, priority, pgn, RTS_CONTROL, Byte0(size), Byte1(size), packets, maxPerCts)
  }

  function CtsFrame(ours: u8, dest: u8, priority: u8, pgn: Pgn, num: u8, next: u8): OutFrame {
    CmFrame(TP_CM_PGN, ours, dest, priority, pgn, CTS_CONTROL, num, next, 0xFF, 0xFF)
  }

  function EomaFrame(ours: u8, dest: u8, priority: u8, pgn: Pgn, size: nat, packets: u8): OutFrame {
    CmFrame(TP_CM_PGN, ours, dest, priority, pgn, EOMA_CONTROL, Byte0(size), Byte1(size), packets, 0xFF)
  }

  function ConnAbortFrame(ours: u8, dest: u8, priority: u8, pgn: Pgn, reason: AbortReason): OutFrame {
    CmFrame(TP_CM_PGN, ours, dest, priority, pgn, CONN_ABORT_CONTROL, ReasonCode(reason), 0xFF, 0xFF, 0xFF)
  }

  function BamFrame(source: u8, priority: u8, pgn: Pgn, size: nat, packets: u8): OutFrame {
    CmFrame(TP_CM_PGN, source, GLOBAL_ADDRESS, priority, pgn, BAM_CONTROL, Byte0(size), Byte1(size), packets, 0xFF)
  }

  function EtpRtsFrame(ours: u8, dest: u8, priority: u8, pgn: Pgn, size: nat): OutFrame {
    CmFrame(ETP_CM_PGN, ours, dest, priority, pgn, ETP_RTS_CONTROL, Byte0(size), Byte1(size), Byte2(size), Byte3(size))
  }

  function EtpCtsFrame(ours: u8, dest: u8, priority: u8, pgn: Pgn, num: u8, next: u32): OutFrame {
    CmFrame(ETP_CM_PGN, ours, dest, priority, pgn, ETP_CTS_CONTROL, num, Byte0(next), Byte1(next), Byte2(next))
  }

  function EtpDpoFrame(ours: u8, dest: u8, priority: u8, pgn: Pgn, num: u8, offset: u32): OutFrame {
    CmFrame(ETP_CM_PGN, ours, dest, priority, pgn, ETP_DPO_CONTROL, num, Byte0(offset), Byte1(offset), Byte2(offset))
  }

  function EtpEomaFrame(ours: u8, dest: u8, priority: u8, pgn: Pgn, size: nat): OutFrame {
    CmFrame(ETP_CM_PGN, ours, dest, priority, pgn, ETP_EOMA_CONTROL, Byte0(size), Byte1(size), Byte2(size), Byte3(size))
  }

  function EtpAbortFrame(ours: u8, dest: u8, priority: u8, pgn: Pgn, reason: AbortReason): OutFrame {
    CmFrame(ETP_CM_PGN, ours, dest, priority, pgn, ETP_ABORT_CONTROL, ReasonCode(reason), 0xFF, 0xFF, 0xFF)
  }

  // ---- Parsers --------------------------------------------------------------

  /** The transported PGN of a connection-management frame, when it is a valid 18-bit PGN. */
  function PgnOf(d: seq<u8>): Option<Pgn>
    requires |d| >= 8
  {
    var p := U24(d[5], d[6], d[7]);
    if p > PGN_MAX then None else Some(p)
  }

  datatype ConnRts = ConnRts(ours: u8, peer: u8, priority: u8, size: nat, packets: u8, senderMax: u8, pgn: Pgn)

  predicate AnnounceOk(size: nat, packets: u8) {
    TP_MIN_PAYLOAD <= size <= TP_MAX_PAYLOAD && packets == Packets(size)
  }

  function ParseConnRts(id: DecodedId, d: seq<u8>): (r: Option<ConnRts>)
    requires |d| >= 8
    ensures r.Some? ==> r.value.peer == id.source && Some(r.value.ours) == id.dest
                        && AnnounceOk(r.value.size, r.value.packets)
  {
    var size := U16(d[1], d[2]);
    if id.dest.None? || id.dest.value == GLOBAL_ADDRESS || PgnOf(d).None? || !AnnounceOk(size, d[3]) then None
    else Some(ConnRts(id.dest.value, id.source, id.priority, size, d[3], d[4], PgnOf(d).value))
  }

  datatype EtpRts = EtpRts(ours: u8, peer: u8, priority: u8, size: nat, pgn: Pgn)

  function ParseEtpRts(id: DecodedId, d: seq<u8>): (r: Option<EtpRts>)
    requires |d| >= 8
    ensures r.Some? ==> r.value.peer == id.source && Some(r.value.ours) == id.dest
                        && ETP_MIN_PAYLOAD <= r.value.size <= ETP_PROTOCOL_MAX
  {
    var size := U32(d[1], d[2], d[3], d[4]);
    if id.dest.None? || id.dest.value == GLOBAL_ADDRESS || PgnOf(d).None?
       || !(ETP_MIN_PAYLOAD <= size <= ETP_PROTOCOL_MAX) then None
    else Some(EtpRts(id.dest.value, id.source, id.priority, size, PgnOf(d).value))
  }

  // ---- Data packets ---------------------------------------------------------

  /** The payload bytes of packet `k` (1-based): seven of them, fewer in the last packet. */
  function Chunk(payload: seq<u8>, k: nat): (c: seq<u8>)
    requires 1 <= k && DATA_LEN * (k - 1) <= |payload|
    ensures |c| <= DATA_LEN
  {
    payload[DATA_LEN * (k - 1) .. Min(DATA_LEN * k, |payload|)]
  }

  function Filler(n: nat): (s: seq<u8>)
    ensures |s| == n
  {
    seq(n, i => 0xFF)
  }

  /** The eight data bytes of packet `k`, under sequence number `tag`, padded with 0xFF. */
  function PacketData(tag: u8, payload: seq<u8>, k: nat): (d: seq<u8>)
    requires 1 <= k && DATA_LEN * (k - 1) <= |payload|
    ensures |d| == 8 && d[0] == tag
  {
    [tag] + Chunk(payload, k) + Filler(DATA_LEN - |Chunk(payload, k)|)
  }

  /** The bytes a receiver takes from a data frame: at most seven, at most what it still needs. */
  function Taken(need: nat, d: seq<u8>): (t: seq<u8>)
    requires |d| >= 1
    ensures |t| == Min(Min(need, DATA_LEN), |d| - 1)
  {
    d[1 .. 1 + Min(Min(need, DATA_LEN), |d| - 1)]
  }

  /** What a receiver holding the first k-1 packets takes from packet `k` is exactly its chunk. */
  lemma TakenIsChunk(tag: u8, payload: seq<u8>, k: nat)
    requires 1 <= k <= Packets(|payload|)
    ensures DATA_LEN * (k - 1) < |payload|
    ensures Taken(|payload| - DATA_LEN * (k - 1), PacketData(tag, payload, k)) == Chunk(payload, k)
    ensures payload[..DATA_LEN * (k - 1)] + Chunk(payload, k) == payload[..Min(DATA_LEN * k, |payload|)]
    ensures k == Packets(|payload|) <==> |payload| <= DATA_LEN * k
  {
    assert |Chunk(payload, k)| == Min(DATA_LEN, |payload| - DATA_LEN * (k - 1));
  }

  // ---- Segmentation ---------------------------------------------------------

  function BamDt(source: u8, priority: u8, payload: seq<u8>, k: nat): OutFrame
    requires 1 <= k <= 0xFF && DATA_LEN * (k - 1) <= |payload|
  {
    OutFrame(TP_DT_PGN, priority, source, Some(GLOBAL_ADDRESS), PacketData(k, payload, k))
  }

  /** A broadcast message: the announce, then its packets. */
  function BamFrames(pgn: Pgn, priority: u8, source: u8, payload: seq<u8>): (fs: seq<OutFrame>)
    requires TP_MIN_PAYLOAD <= |payload| <= TP_MAX_PAYLOAD
    ensures |fs| == 1 + Packets(|payload|)
  {
    [BamFrame(source, priority, pgn, |payload|, Packets(|payload|))] +
    seq(Packets(|payload|), i requires 0 <= i < Packets(|payload|) => BamDt(source, priority, payload, i + 1))
  }

  function ConnDt(s: ConnTx, k: nat): OutFrame
    requires 1 <= k <= 0xFF && DATA_LEN * (k - 1) <= |s.payload|
  {
    OutFrame(TP_DT_PGN, s.priority, s.ours, Some(s.dest), PacketData(k, s.payload, k))
  }

  /** How many packets a grant of `count` from `start` yields: those numbered 1 to `total`. */
  function BurstLength(total: u8, start: u8, count: u8): (n: nat)
    ensures n <= count && (n > 0 ==> 1 <= start && start + n - 1 <= total)
  {
    if start == 0 then 0 else Min(count, Max(0, total - start + 1))
  }

  function ConnBurst(s: ConnTx, start: u8, count: u8): (fs: seq<OutFrame>)
    requires s.totalPackets == Packets(|s.payload|)
    ensures |fs| == BurstLength(s.totalPackets, start, count)
    ensures forall i :: 0 <= i < |fs| ==> fs[i] == ConnDt(s, start + i)
    ensures forall i :: 0 <= i < |fs| ==> fs[i].wirePgn == TP_DT_PGN && fs[i].dest == Some(s.dest)
  {
    seq(BurstLength(s.totalPackets, start, count),
        i requires 0 <= i < BurstLength(s.totalPackets, start, count) => ConnDt(s, start + i))
  }

  function EtpDt(s: EtpTx, tag: u8, k: nat): OutFrame
    requires 1 <= k && DATA_LEN * (k - 1) <= |s.payload|
  {
    OutFrame(ETP_DT_PGN, s.priority, s.ours, Some(s.dest), PacketData(tag, s.payload, k))
  }

  /** Packets of a granted extended burst: never fewer than one, even past the last packet. */
  function EtpBurstLength(total: u32, next: u32, count: u8): (n: nat)
    requires 1 <= count
    ensures 1 <= n <= count
  {
    Max(1, Min(count, total - next + 1))
  }

  /** The `n` packets of a burst from `next` on, numbered 1 to `n`. */
  function EtpDts(s: EtpTx, next: u32, n: nat): (fs: seq<OutFrame>)
    requires 1 <= next && n <= 0xFF && (n > 0 ==> DATA_LEN * (next + n - 2) <= |s.payload|)
    ensures |fs| == n
    ensures forall i :: 0 <= i < n ==> fs[i] == EtpDt(s, i + 1, next + i)
    ensures forall i :: 0 <= i < n ==> fs[i].wirePgn == ETP_DT_PGN && fs[i].dest == Some(s.dest) && |fs[i].data| == 8
  {
    seq(n, i requires 0 <= i < n => EtpDt(s, i + 1, next + i))
  }

  /** The burst answering an extended grant: the offset frame, then its packets. `None` is the slice
      panic of the program: the first packet would start beyond the payload. */
  function EtpBurst(s: EtpTx, next: u32, count: u8): (r: Option<seq<OutFrame>>)
    requires 1 <= next && 1 <= count
    requires s.totalPackets <= Packets(|s.payload|)
    ensures r.Some? ==> |r.value| == 1 + EtpBurstLength(s.totalPackets, next, count)
    ensures r.Some? ==> forall i :: 0 <= i < |r.value| ==> r.value[i].dest == Some(s.dest) && |r.value[i].data| == 8
    ensures r.Some? ==> forall i :: 0 <= i < |r.value| ==>
                          r.value[i].wirePgn == (if i == 0 then ETP_CM_PGN else ETP_DT_PGN)
  {
    var n := EtpBurstLength(s.totalPackets, next, count);
    if DATA_LEN * (next - 1) > |s.payload| then None
    else Some([EtpDpoFrame(s.ours, s.dest, s.priority, s.pgn, n, next - 1)] + EtpDts(s, next, n))
  }

  // ---- On the wire ------------------------------------------------------------

  /** The identifier a receiver decodes from the 29-bit identifier of `f`. */
  function WireId(f: OutFrame): DecodedId { Decode(Encode(f.wirePgn, f.priority, f.source, f.dest)) }

  predicate IsTransport(pgn: Pgn) { pgn in {TP_CM_PGN, TP_DT_PGN, ETP_CM_PGN, ETP_DT_PGN} }

  /** The identifier of a directed transport frame survives encoding, but for the priority's upper bits. */
  lemma WireIdOf(f: OutFrame)
    requires IsTransport(f.wirePgn) && f.dest.Some?
    ensures WireId(f).pgn == f.wirePgn && WireId(f).source == f.source && WireId(f).dest == f.dest
    ensures WireId(f).priority == f.priority % 8
  {
    DecodeEncode(f.wirePgn, f.priority, f.source, f.dest);
  }
}
