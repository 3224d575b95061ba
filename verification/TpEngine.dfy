/** The transport engine as the program has it: an object whose methods update five session tables and an
    outbound queue, and the segmentation loops. Every method is proved against the transition functions
    of `TpSteps`, for every iteration order of the hash maps. */
module TpEngine {
  import opened Bytes
  import opened J1939Id
  import opened TpTypes
  import opened TpWire
  import S = TpSteps

  // ---- Segmentation loops -----------------------------------------------------

  /** Eight bytes of filler with `tag` and `chunk` copied over them. */
  function Frame8(tag: u8, chunk: seq<u8>): (d: seq<u8>)
    requires |chunk| <= DATA_LEN
    ensures d == [tag] + chunk + Filler(DATA_LEN - |chunk|)
  {
    var d := Filler(8)[0 := tag];
    var r := d[..1] + chunk + d[1 + |chunk|..];
    assert r == [tag] + chunk + Filler(DATA_LEN - |chunk|);
    r
  }

  /** Split a whole message into its announce and packets; `None` for a payload out of range. */
  method SegmentOutbound(pgn: Pgn, priority: u8, source: u8, payload: seq<u8>) returns (r: Option<seq<OutFrame>>)
    ensures r.Some? <==> TP_MIN_PAYLOAD <= |payload| <= TP_MAX_PAYLOAD
    ensures r.Some? ==> r.value == BamFrames(pgn, priority, source, payload)
  {
    hide PacketData, Frame8;
    var size := |payload|;
    if !(TP_MIN_PAYLOAD <= size <= TP_MAX_PAYLOAD) { return None; }
    var numPackets := DivCeil(size, DATA_LEN);
    var frames := [OutFrame(TP_CM_PGN, priority, source, Some(GLOBAL_ADDRESS),
                            [BAM_CONTROL, Byte0(size), Byte1(size), numPackets, 0xFF,
                             Byte0(pgn), Byte1(pgn), Byte2(pgn)])];
    var dts: seq<OutFrame> := [];
    for i := 0 to numPackets
      invariant |dts| == i
      invariant forall j :: 0 <= j < i ==> dts[j] == BamDt(source, priority, payload, j + 1)
    {
      var start := i * DATA_LEN;
      var end := Min(start + DATA_LEN, size);
      PacketIsFrame8(i + 1, payload, i + 1);
      dts := dts + [OutFrame(TP_DT_PGN, priority, source, Some(GLOBAL_ADDRESS), Frame8(i + 1, payload[start..end]))];
    }
    return Some(frames + dts);
  }

  /** The packets answering a grant of `count` from `start` on. The sequence number wraps, and the loop
      stops at the first number outside the message. */
  method BuildDtBurst(s: ConnTx, start: u8, count: u8) returns (frames: seq<OutFrame>)
    requires s.totalPackets == Packets(|s.payload|)
    ensures frames == ConnBurst(s, start, count)
  {
    hide PacketData, Frame8, ConnBurst;
    frames := [];
    var i := 0;
    while i < count
      invariant 0 <= i <= BurstLength(s.totalPackets, start, count) && |frames| == i
      invariant forall j :: 0 <= j < i ==> frames[j] == ConnDt(s, start + j)
    {
      var no := WrapAdd(start, i);
      if no < 1 || no > s.totalPackets { break; }
      var begin := (no - 1) * DATA_LEN;
      var end := Min(begin + DATA_LEN, |s.payload|);
      PacketIsFrame8(no, s.payload, no);
      frames := frames + [OutFrame(TP_DT_PGN, s.priority, s.ours, Some(s.dest), Frame8(no, s.payload[begin..end]))];
      i := i + 1;
    }
  }

  /** The offset frame and packets answering an extended grant. A slice whose end precedes its start panics,
      here `None`: that happens exactly when the first packet granted starts beyond the payload. */
  method BuildEtpBurst(s: EtpTx, next: u32, count: u8) returns (r: Option<seq<OutFrame>>)
    requires 1 <= next < 0x100_0000 && 1 <= count && s.totalPackets <= Packets(|s.payload|)
    ensures r == EtpBurst(s, next, count)
    ensures r.None? <==> DATA_LEN * (next - 1) > |s.payload|
  {
    hide PacketData, EtpDts, Frame8, CmFrame, Packets;
    var offset := next - 1;
    var last := Min(SatSub(SatAdd32(next, count), 1), s.totalPackets);
    var effective := SatAdd32(SatSub(last, next), 1);
    assert effective == EtpBurstLength(s.totalPackets, next, count);
    assert effective <= 0xFF;
    var frames := [EtpDpoFrame(s.ours, s.dest, s.priority, s.pgn, effective % 0x100, offset)];
    var dts: seq<OutFrame> := [];
    for i := 0 to effective
      invariant |dts| == i
      invariant i > 0 ==> DATA_LEN * (next + i - 2) <= |s.payload|
      invariant dts == EtpDts(s, next, i)
    {
      var absolute := next + i;
      var start := (absolute - 1) * DATA_LEN;
      var end := Min(start + DATA_LEN, |s.payload|);
      if end < start {
        EtpStartsBeyond(s, next, count, i);
        return None;
      }
      PacketIsFrame8(i + 1, s.payload, absolute);
      dts := dts + [OutFrame(ETP_DT_PGN, s.priority, s.ours, Some(s.dest), Frame8(i + 1, s.payload[start..end]))];
      EtpDtsGrow(s, next, i);
    }
    return Some(frames + dts);
  }

  /** Only the first packet of a burst can start beyond the payload. */
  lemma EtpStartsBeyond(s: EtpTx, next: u32, count: u8, i: nat)
    requires 1 <= next && 1 <= count && s.totalPackets <= Packets(|s.payload|)
    requires i < EtpBurstLength(s.totalPackets, next, count)
    requires DATA_LEN * (next + i - 1) > |s.payload|
    ensures i == 0
  {
    assert i > 0 ==> next + i <= s.totalPackets;
  }

  lemma PacketIsFrame8(tag: u8, payload: seq<u8>, k: nat)
    requires 1 <= k && DATA_LEN * (k - 1) <= |payload|
    ensures Frame8(tag, payload[DATA_LEN * (k - 1)..Min(DATA_LEN * k, |payload|)]) == PacketData(tag, payload, k)
  {
  }

  lemma EtpDtsGrow(s: EtpTx, next: u32, i: nat)
    requires 1 <= next && i < 0xFF && DATA_LEN * (next + i - 1) <= |s.payload|
    ensures EtpDts(s, next, i + 1) == EtpDts(s, next, i) + [EtpDt(s, i + 1, next + i)]
  {
    hide PacketData;
  }

  // ---- The engine ---------------------------------------------------------------

  class TpEngine {
    var bam: map<Key, BamRx>
    var rxConn: map<Key, ConnRx>
    var txConn: map<Key, ConnTx>
    var etpRx: map<Key, EtpRx>
    var etpTx: map<Key, EtpTx>
    var pendingOut: seq<OutFrame>
    const config: Config

    ghost function State(): Engine
      reads this
    {
      Engine(bam, rxConn, txConn, etpRx, etpTx, pendingOut, config)
    }

    /** A fresh engine; the limits are clamped so that one session and one extended message always fit. */
    constructor (t1: nat, t2: nat, t3: nat, maxSessions: nat, ctsWindow: u8, maxEtpBytes: nat)
      ensures Valid(State())
      ensures State() == Engine(map[], map[], map[], map[], map[], [],
                                Config(Max(1, ctsWindow), t1, t2, t3,
                                       Max(1, maxSessions), Max(ETP_MIN_PAYLOAD, maxEtpBytes)))
    {
      bam, rxConn, txConn, etpRx, etpTx := map[], map[], map[], map[], map[];
      pendingOut := [];
      config := Config(if ctsWindow == 0 then 1 else ctsWindow, t1, t2, t3, Max(maxSessions, 1),
                       if maxEtpBytes < ETP_MIN_PAYLOAD then ETP_MIN_PAYLOAD else maxEtpBytes);
    }

    method TakeOutbound() returns (frames: seq<OutFrame>)
      requires Valid(State())
      modifies this
      ensures frames == old(pendingOut) && State() == old(State()).(out := []) && Valid(State())
    {
      S.DrainValid(State());
      frames := pendingOut;
      pendingOut := [];
    }

    /** Feed one frame. `pick` tells which of a source's sessions the hash map happened to yield. */
    method OnFrame(id: DecodedId, data: seq<u8>, now: Instant)
      returns (events: seq<Event>, panicked: bool, ghost pick: Key)
      requires Valid(State())
      modifies this
      ensures Valid(State())
      ensures Outcome(State(), events, panicked) == S.OnFrame(old(State()), id, data, now, pick)
    {
      hide Valid, S.OnFrame;
      events, panicked, pick := [], false, Key(0, 0);
      ghost var e := State();
      if id.pgn == TP_CM_PGN {
        events := OnCm(id, data, now);
      } else if id.pgn == TP_DT_PGN {
        events, pick := OnDt(id, data, now);
      } else if id.pgn == ETP_CM_PGN {
        events, panicked := OnEtpCm(id, data, now);
      } else if id.pgn == ETP_DT_PGN {
        if |data| != 0 { events, pick := OnEtpDt(id.source, data, now); }
      }
      Dispatched(e, id, data, now, pick);
    }

    static lemma Dispatched(e: Engine, id: DecodedId, d: seq<u8>, now: Instant, pick: Key)
      requires Valid(e)
      ensures S.OnFrame(e, id, d, now, pick) ==
              if id.pgn == TP_CM_PGN then S.OnCm(e, id, d, now)
              else if id.pgn == TP_DT_PGN then S.OnDt(e, id, d, now, pick)
              else if id.pgn == ETP_CM_PGN then S.OnEtpCm(e, id, d, now)
              else if id.pgn == ETP_DT_PGN && |d| > 0 then S.OnEtpDt(e, id.source, d, now, pick)
              else S.Quiet(e)
    {
      hide Valid, S.OnCm, S.OnDt, S.OnEtpCm, S.OnEtpDt;
    }

    method OnCm(id: DecodedId, d: seq<u8>, now: Instant) returns (events: seq<Event>)
      requires Valid(State())
      modifies this
      ensures Outcome(State(), events, false) == S.OnCm(old(State()), id, d, now)
    {
      hide Valid, S.OnBamCm, S.OnRts, S.OnCts, S.OnEndOfMsgAck, S.OnConnAbort;
      events := [];
      if |d| < 8 { return; }
      if d[0] == BAM_CONTROL { events := OnBamCm(id.source, d, now); }
      else if d[0] == RTS_CONTROL { events := OnRts(id, d, now); }
      else if d[0] == CTS_CONTROL { OnCts(id, d, now); }
      else if d[0] == EOMA_CONTROL { OnEndOfMsgAck(id, d); }
      else if d[0] == CONN_ABORT_CONTROL { events := OnConnAbort(id, d); }
    }

    method OnDt(id: DecodedId, d: seq<u8>, now: Instant) returns (events: seq<Event>, ghost pick: Key)
      requires Valid(State())
      modifies this
      ensures Outcome(State(), events, false) == S.OnDt(old(State()), id, d, now, pick)
    {
      hide Valid, S.OnBamDt, S.OnConnDt;
      events, pick := [], Key(0, 0);
      if |d| == 0 { return; }
      match id.dest {
        case None => events, pick := OnBamDt(id.source, d, now);
        case Some(da) =>
          if da == GLOBAL_ADDRESS { events, pick := OnBamDt(id.source, d, now); }
          else { events, pick := OnConnDt(id.source, d, now); }
      }
    }

    method OnBamCm(sa: u8, d: seq<u8>, now: Instant) returns (events: seq<Event>)
      requires Valid(State()) && |d| >= 8
      modifies this
      ensures Outcome(State(), events, false) == S.OnBamCm(old(State()), sa, d, now)
    {
      hide Valid, U16, U24;
      events := [];
      var totalSize := U16(d[1], d[2]);
      var numPackets := d[3];
      if PgnOf(d).None? { return; }
      var pgn := PgnOf(d).value;
      if !(TP_MIN_PAYLOAD <= totalSize <= TP_MAX_PAYLOAD) { return; }
      if numPackets != DivCeil(totalSize, DATA_LEN) { return; }
      var key := Key(sa, pgn);
      if key !in bam && |bam| + |rxConn| + |etpRx| >= config.maxSessions {
        events := [SessionRefused(pgn, sa, Resources)];
        return;
      }
      bam := bam[key := BamRx(pgn, sa, totalSize, numPackets, 1, [], now)];
    }

    method OnBamDt(sa: u8, d: seq<u8>, now: Instant) returns (events: seq<Event>, ghost pick: Key)
      requires Valid(State()) && |d| >= 1
      modifies this
      ensures Outcome(State(), events, false) == S.OnBamDt(old(State()), sa, d, now, pick)
    {
      hide Valid;
      events, pick := [], Key(sa, 0);
      if !exists k :: k in bam && k.sa == sa { return; }
      var key :| key in bam && key.sa == sa;
      pick := key;
      S.BamSession(State(), key);
      var s := bam[key];
      if d[0] != s.nextSeq { return; }
      var take := Min(Min(SatSub(s.totalSize, |s.buf|), DATA_LEN), |d| - 1);
      s := s.(buf := s.buf + d[1..1 + take], lastActivity := now, nextSeq := WrapAdd(s.nextSeq, 1));
      bam := bam[key := s];
      if d[0] >= s.numPackets {
        bam := bam - {key};
        assert bam == old(bam) - {key};
        events := [Completed(s.pgn, s.source, s.buf)];
      }
    }

    method OnRts(id: DecodedId, d: seq<u8>, now: Instant) returns (events: seq<Event>)
      requires Valid(State()) && |d| >= 8
      modifies this
      ensures Outcome(State(), events, false) == S.OnRts(old(State()), id, d, now)
    {
      hide Valid, GrantWindow, CmFrame, PgnOf, U16, AnnounceOk;
      events := [];
      var parsed := ParseConnRts(id, d);
      if parsed.None? { return; }
      var p := parsed.value;
      var key := Key(p.peer, p.pgn);
      if key !in rxConn && |bam| + |rxConn| + |etpRx| >= config.maxSessions {
        pendingOut := pendingOut + [ConnAbortFrame(p.ours, p.peer, p.priority, p.pgn, Resources)];
        events := [SessionRefused(p.pgn, p.peer, Resources)];
        return;
      }
      var window := GrantWindow(p.packets, config.ctsWindow, p.senderMax);
      rxConn := rxConn[key := ConnRx(p.pgn, p.peer, p.ours, p.priority, p.size, p.packets,
                                     p.senderMax, 1, window, [], now)];
      pendingOut := pendingOut + [CtsFrame(p.ours, p.peer, p.priority, p.pgn, window, 1)];
    }

    method OnConnDt(sa: u8, d: seq<u8>, now: Instant) returns (events: seq<Event>, ghost pick: Key)
      requires Valid(State()) && |d| >= 1
      modifies this
      ensures Outcome(State(), events, false) == S.OnConnDt(old(State()), sa, d, now, pick)
    {
      hide Valid, EomaFrame, CtsFrame, GrantWindow, S.SessionOf;
      events, pick := [], Key(sa, 0);
      if !exists k :: k in rxConn && k.sa == sa { return; }
      var key :| key in rxConn && key.sa == sa;
      pick := key;
      S.PickHonoured(rxConn.Keys, sa, key);
      S.RxConnSession(State(), key);
      var s := rxConn[key];
      if d[0] != s.nextSeq { return; }
      var take := Min(Min(SatSub(s.totalSize, |s.buf|), DATA_LEN), |d| - 1);
      s := s.(buf := s.buf + d[1..1 + take], lastActivity := now, nextSeq := WrapAdd(s.nextSeq, 1),
              window := SatSub(s.window, 1));
      rxConn := rxConn[key := s];
      if d[0] >= s.totalPackets {
        rxConn := rxConn - {key};
        assert rxConn == old(rxConn) - {key};
        pendingOut := pendingOut + [EomaFrame(s.ours, s.peer, s.priority, s.pgn, s.totalSize, s.totalPackets)];
        events := [Completed(s.pgn, s.peer, s.buf)];
      } else if s.window == 0 {
        var window := GrantWindow(s.totalPackets - (s.nextSeq - 1), config.ctsWindow, s.senderMax);
        rxConn := rxConn[key := s.(window := window)];
        assert rxConn == old(rxConn)[key := s.(window := window)];
        pendingOut := pendingOut + [CtsFrame(s.ours, s.peer, s.priority, s.pgn, window, s.nextSeq)];
      }
    }

    method StartOutboundConnection(pgn: Pgn, priority: u8, ours: u8, dest: u8, payload: seq<u8>, now: Instant)
      returns (r: Option<seq<OutFrame>>)
      requires Valid(State())
      modifies this
      ensures Valid(State())
      ensures (State(), r) == S.StartConn(old(State()), pgn, priority, ours, dest, payload, now)
    {
      hide Valid, CmFrame;
      if !(TP_MIN_PAYLOAD <= |payload| <= TP_MAX_PAYLOAD) { return None; }
      var n := DivCeil(|payload|, DATA_LEN);
      ghost var e := State();
      txConn := txConn[Key(dest, pgn) := ConnTx(pgn, ours, dest, priority, payload, n, now)];
      assert State() == S.StartConn(e, pgn, priority, ours, dest, payload, now).0;
      return Some([RtsFrame(ours, dest, priority, pgn, |payload|, n, CTS_NO_LIMIT)]);
    }

    method OnCts(id: DecodedId, d: seq<u8>, now: Instant)
      requires Valid(State()) && |d| >= 8
      modifies this
      ensures S.Quiet(State()) == S.OnCts(old(State()), id, d, now)
    {
      hide Valid, ConnBurst, PgnOf;
      if PgnOf(d).None? { return; }
      var key := Key(id.source, PgnOf(d).value);
      if key !in txConn { return; }
      S.TxConnSession(State(), key);
      var s := txConn[key].(lastActivity := now);
      txConn := txConn[key := s];
      if d[1] == 0 {
        assert pendingOut + [] == pendingOut;
        return;
      }
      var burst := BuildDtBurst(s, d[2], d[1]);
      pendingOut := pendingOut + burst;
    }

    method OnEndOfMsgAck(id: DecodedId, d: seq<u8>)
      requires Valid(State()) && |d| >= 8
      modifies this
      ensures S.Quiet(State()) == S.OnEndOfMsgAck(old(State()), id, d)
    {
      hide Valid, PgnOf;
      if PgnOf(d).None? { return; }
      txConn := txConn - {Key(id.source, PgnOf(d).value)};
    }

    method OnConnAbort(id: DecodedId, d: seq<u8>) returns (events: seq<Event>)
      requires Valid(State()) && |d| >= 8
      modifies this
      ensures Outcome(State(), events, false) == S.OnConnAbort(old(State()), id, d)
    {
      hide Valid, PgnOf, ReasonFrom;
      events := [];
      if PgnOf(d).None? { return; }
      var reason := ReasonFrom(d[1]);
      var key := Key(id.source, PgnOf(d).value);
      if key in rxConn {
        S.RxConnSession(State(), key);
        events := events + [Aborted(rxConn[key].pgn, rxConn[key].peer, reason)];
      }
      if key in txConn {
        S.TxConnSession(State(), key);
        events := events + [Aborted(txConn[key].pgn, txConn[key].dest, reason)];
      }
      rxConn := rxConn - {key};
      txConn := txConn - {key};
    }

    method StartOutboundEtp(pgn: Pgn, priority: u8, ours: u8, dest: u8, payload: seq<u8>, now: Instant)
      returns (r: Option<seq<OutFrame>>)
      requires Valid(State())
      modifies this
      ensures Valid(State())
      ensures (State(), r) == S.StartEtp(old(State()), pgn, priority, ours, dest, payload, now)
    {
      hide Valid, CmFrame;
      if !(ETP_MIN_PAYLOAD <= |payload| <= config.maxEtpBytes) { return None; }
      ghost var e := State();
      var n := DivCeil(|payload|, DATA_LEN) % 0x1_0000_0000;
      etpTx := etpTx[Key(dest, pgn) := EtpTx(pgn, ours, dest, priority, payload, n, now)];
      assert State() == S.StartEtp(e, pgn, priority, ours, dest, payload, now).0;
      return Some([EtpRtsFrame(ours, dest, priority, pgn, |payload|)]);
    }

    method OnEtpCm(id: DecodedId, d: seq<u8>, now: Instant) returns (events: seq<Event>, panicked: bool)
      requires Valid(State())
      modifies this
      ensures Outcome(State(), events, panicked) == S.OnEtpCm(old(State()), id, d, now)
    {
      hide Valid, S.OnEtpRts, S.OnEtpCts, S.OnEtpDpo, S.OnEtpEoma, S.OnEtpAbort;
      events, panicked := [], false;
      if |d| < 8 { return; }
      if d[0] == ETP_RTS_CONTROL { events := OnEtpRts(id, d, now); }
      else if d[0] == ETP_CTS_CONTROL { panicked := OnEtpCts(id, d, now); }
      else if d[0] == ETP_DPO_CONTROL { OnEtpDpo(id, d, now); }
      else if d[0] == ETP_EOMA_CONTROL { OnEtpEoma(id, d); }
      else if d[0] == ETP_ABORT_CONTROL { events := OnEtpAbort(id, d); }
    }

    method OnEtpRts(id: DecodedId, d: seq<u8>, now: Instant) returns (events: seq<Event>)
      requires Valid(State()) && |d| >= 8
      modifies this
      ensures Outcome(State(), events, false) == S.OnEtpRts(old(State()), id, d, now)
    {
      hide Valid, EtpGrant, CmFrame, PgnOf, U32, Packets;
      events := [];
      var parsed := ParseEtpRts(id, d);
      if parsed.None? { return; }
      var p := parsed.value;
      if p.size > config.maxEtpBytes {
        pendingOut := pendingOut + [EtpAbortFrame(p.ours, p.peer, p.priority, p.pgn, Resources)];
        events := [Aborted(p.pgn, p.peer, Resources)];
        return;
      }
      var key := Key(p.peer, p.pgn);
      if key !in etpRx && |bam| + |rxConn| + |etpRx| >= config.maxSessions {
        pendingOut := pendingOut + [EtpAbortFrame(p.ours, p.peer, p.priority, p.pgn, Resources)];
        events := [SessionRefused(p.pgn, p.peer, Resources)];
        return;
      }
      var n := EtpPackets(p.size);
      var window := EtpGrant(n, config.ctsWindow);
      etpRx := etpRx[key := EtpRx(p.pgn, p.peer, p.ours, p.priority, p.size, n, 1, 0, 0, S.Zeros(p.size), now)];
      pendingOut := pendingOut + [EtpCtsFrame(p.ours, p.peer, p.priority, p.pgn, window, 1)];
    }

    /** The packet count of an extended message fits its 32-bit field. */
    static function EtpPackets(size: nat): (n: u32)
      requires size <= ETP_PROTOCOL_MAX
      ensures n == Packets(size) < 0x100_0000
    {
      DivCeil(size, DATA_LEN)
    }

    method OnEtpCts(id: DecodedId, d: seq<u8>, now: Instant) returns (panicked: bool)
      requires Valid(State()) && |d| >= 8
      modifies this
      ensures Outcome(State(), [], panicked) == S.OnEtpCts(old(State()), id, d, now)
    {
      hide Valid, EtpBurst, PgnOf;
      panicked := false;
      if PgnOf(d).None? { return; }
      var key := Key(id.source, PgnOf(d).value);
      var num := d[1];
      var next := U24(d[2], d[3], d[4]);
      if key !in etpTx { return; }
      S.EtpTxSession(State(), key);
      var s := etpTx[key].(lastActivity := now);
      etpTx := etpTx[key := s];
      if num == 0 || next == 0 {
        assert pendingOut + [] == pendingOut;
        return;
      }
      var burst := BuildEtpBurst(s, next, num);
      if burst.None? {
        assert pendingOut + [] == pendingOut;
        return true;
      }
      pendingOut := pendingOut + burst.value;
    }

    method OnEtpDpo(id: DecodedId, d: seq<u8>, now: Instant)
      requires Valid(State()) && |d| >= 8
      modifies this
      ensures S.Quiet(State()) == S.OnEtpDpo(old(State()), id, d, now)
    {
      hide Valid, PgnOf;
      if PgnOf(d).None? { return; }
      var key := Key(id.source, PgnOf(d).value);
      if key in etpRx {
        etpRx := etpRx[key := etpRx[key].(dpoOffset := U24(d[2], d[3], d[4]),
                                          burstRemaining := d[1], lastActivity := now)];
      }
    }

    method OnEtpDt(sa: u8, d: seq<u8>, now: Instant) returns (events: seq<Event>, ghost pick: Key)
      requires Valid(State()) && |d| >= 1
      modifies this
      ensures Outcome(State(), events, false) == S.OnEtpDt(old(State()), sa, d, now, pick)
    {
      hide Valid, EtpEomaFrame, EtpCtsFrame, EtpGrant, S.SessionOf, S.EtpFilled;
      events, pick := [], Key(sa, 0);
      if !exists k :: k in etpRx && k.sa == sa { return; }
      var key :| key in etpRx && key.sa == sa;
      pick := key;
      S.PickHonoured(etpRx.Keys, sa, key);
      S.EtpRxSession(State(), key);
      var s := etpRx[key];
      var absolute := SatAdd32(s.dpoOffset, d[0]);
      if absolute != s.nextPacket || absolute == 0 || absolute > s.totalPackets { return; }
      var at := (absolute - 1) * DATA_LEN;
      var take := Min(Min(SatSub(s.totalSize, at), DATA_LEN), |d| - 1);
      FilledIs(s, d, at, take);
      s := s.(buf := s.buf[..at] + d[1..1 + take] + s.buf[at + take..], nextPacket := s.nextPacket + 1,
              burstRemaining := SatSub(s.burstRemaining, 1), lastActivity := now);
      etpRx := etpRx[key := s];
      if s.nextPacket > s.totalPackets {
        etpRx := etpRx - {key};
        assert etpRx == old(etpRx) - {key};
        pendingOut := pendingOut + [EtpEomaFrame(s.ours, s.peer, s.priority, s.pgn, s.totalSize)];
        events := [Completed(s.pgn, s.peer, s.buf)];
      } else if s.burstRemaining == 0 {
        var window := EtpGrant(s.totalPackets - (s.nextPacket - 1), config.ctsWindow);
        pendingOut := pendingOut + [EtpCtsFrame(s.ours, s.peer, s.priority, s.pgn, window, s.nextPacket)];
      }
    }

    static lemma FilledIs(s: EtpRx, d: seq<u8>, at: nat, take: nat)
      requires |d| >= 1 && 1 <= s.nextPacket <= Packets(s.totalSize) && |s.buf| == s.totalSize
      requires at == (s.nextPacket - 1) * DATA_LEN && take == Min(Min(SatSub(s.totalSize, at), DATA_LEN), |d| - 1)
      ensures at + take <= |s.buf|
      ensures s.buf[..at] + d[1..1 + take] + s.buf[at + take..] == S.EtpFilled(s, d)
    {
    }

    method OnEtpEoma(id: DecodedId, d: seq<u8>)
      requires Valid(State()) && |d| >= 8
      modifies this
      ensures S.Quiet(State()) == S.OnEtpEoma(old(State()), id, d)
    {
      hide Valid, PgnOf;
      if PgnOf(d).None? { return; }
      etpTx := etpTx - {Key(id.source, PgnOf(d).value)};
    }

    method OnEtpAbort(id: DecodedId, d: seq<u8>) returns (events: seq<Event>)
      requires Valid(State()) && |d| >= 8
      modifies this
      ensures Outcome(State(), events, false) == S.OnEtpAbort(old(State()), id, d)
    {
      hide Valid, PgnOf, ReasonFrom;
      events := [];
      if PgnOf(d).None? { return; }
      var reason := ReasonFrom(d[1]);
      var key := Key(id.source, PgnOf(d).value);
      if key in etpRx {
        S.EtpRxSession(State(), key);
        events := events + [Aborted(etpRx[key].pgn, etpRx[key].peer, reason)];
      }
      if key in etpTx {
        S.EtpTxSession(State(), key);
        events := events + [Aborted(etpTx[key].pgn, etpTx[key].dest, reason)];
      }
      etpRx := etpRx - {key};
      etpTx := etpTx - {key};
    }

    // ---- Timeouts: one loop a table, in whatever order its hash map yields ----

    method SweepBam(now: Instant) returns (events: seq<Event>, ghost order: seq<Key>)
      requires forall k <- bam :: bam[k].pgn == k.pgn && bam[k].source == k.sa
      modifies this`bam
      ensures S.Enumerates(order, S.IdleBam(old(State()), now))
      ensures bam == old(bam) - S.IdleBam(old(State()), now)
      ensures forall k :: k in bam <==> k in old(bam) && now <= old(bam[k].lastActivity) + config.t1
      ensures forall k :: k in order <==> k in old(bam) && now > old(bam[k].lastActivity) + config.t1
      ensures events == S.TimeoutEvents(order)
    {
      hide S.SomeOrder;
      ghost var idle := S.IdleBam(State(), now);
      var todo := set k | k in bam && S.Idle(now, bam[k].lastActivity, config.t1);
      events, order := [], [];
      while todo != {}
        invariant todo <= idle && S.Enumerates(order, idle - todo)
        invariant bam == old(bam) - (idle - todo)
        invariant events == S.TimeoutEvents(order)
      {
        var key :| key in todo;
        var s := bam[key];
        bam := bam - {key};
        events := events + [Aborted(s.pgn, s.source, Timeout)];
        EnumeratesNext(order, idle, todo, key);
        todo := todo - {key};
        order := order + [key];
      }
      assert idle - todo == idle;
    }

    method SweepRxConn(now: Instant) returns (events: seq<Event>, ghost order: seq<Key>)
      requires forall k <- rxConn :: rxConn[k].pgn == k.pgn && rxConn[k].peer == k.sa
      modifies this`rxConn, this`pendingOut
      ensures S.Enumerates(order, S.IdleRxConn(old(State()), now))
      ensures rxConn == old(rxConn) - S.IdleRxConn(old(State()), now)
      ensures forall k :: k in rxConn <==> k in old(rxConn) && now <= old(rxConn[k].lastActivity) + config.t2
      ensures forall k :: k in order <==> k in old(rxConn) && now > old(rxConn[k].lastActivity) + config.t2
      ensures events == S.TimeoutEvents(order)
      ensures forall i :: 0 <= i < |order| ==> order[i] in old(rxConn)
      ensures pendingOut == old(pendingOut) + S.RxConnAborts(old(rxConn), order)
    {
      hide EtpAbortFrame, ConnAbortFrame;
      ghost var idle := S.IdleRxConn(State(), now);
      var todo := set k | k in rxConn && S.Idle(now, rxConn[k].lastActivity, config.t2);
      events, order := [], [];
      assert S.RxConnAborts(rxConn, order) == [];
      while todo != {}
        invariant todo <= idle && S.Enumerates(order, idle - todo)
        invariant forall i :: 0 <= i < |order| ==> order[i] in old(rxConn)
        invariant rxConn == old(rxConn) - (idle - todo)
        invariant events == S.TimeoutEvents(order)
        invariant pendingOut == old(pendingOut) + S.RxConnAborts(old(rxConn), order)
      {
        var key :| key in todo;
        var s := rxConn[key];
        rxConn := rxConn - {key};
        pendingOut := pendingOut + [ConnAbortFrame(s.ours, s.peer, s.priority, s.pgn, Timeout)];
        events := events + [Aborted(s.pgn, s.peer, Timeout)];
        EnumeratesNext(order, idle, todo, key);
        todo := todo - {key};
        order := order + [key];
      }
      assert idle - todo == idle;
    }

    method SweepTxConn(now: Instant) returns (events: seq<Event>, ghost order: seq<Key>)
      requires forall k <- txConn :: txConn[k].pgn == k.pgn && txConn[k].dest == k.sa
      modifies this`txConn, this`pendingOut
      ensures S.Enumerates(order, S.IdleTxConn(old(State()), now))
      ensures txConn == old(txConn) - S.IdleTxConn(old(State()), now)
      ensures forall k :: k in txConn <==> k in old(txConn) && now <= old(txConn[k].lastActivity) + config.t3
      ensures forall k :: k in order <==> k in old(txConn) && now > old(txConn[k].lastActivity) + config.t3
      ensures events == S.TimeoutEvents(order)
      ensures forall i :: 0 <= i < |order| ==> order[i] in old(txConn)
      ensures pendingOut == old(pendingOut) + S.TxConnAborts(old(txConn), order)
    {
      hide EtpAbortFrame, ConnAbortFrame;
      ghost var idle := S.IdleTxConn(State(), now);
      var todo := set k | k in txConn && S.Idle(now, txConn[k].lastActivity, config.t3);
      events, order := [], [];
      assert S.TxConnAborts(txConn, order) == [];
      while todo != {}
        invariant todo <= idle && S.Enumerates(order, idle - todo)
        invariant forall i :: 0 <= i < |order| ==> order[i] in old(txConn)
        invariant txConn == old(txConn) - (idle - todo)
        invariant events == S.TimeoutEvents(order)
        invariant pendingOut == old(pendingOut) + S.TxConnAborts(old(txConn), order)
      {
        var key :| key in todo;
        var s := txConn[key];
        txConn := txConn - {key};
        pendingOut := pendingOut + [ConnAbortFrame(s.ours, s.dest, s.priority, s.pgn, Timeout)];
        events := events + [Aborted(s.pgn, s.dest, Timeout)];
        EnumeratesNext(order, idle, todo, key);
        todo := todo - {key};
        order := order + [key];
      }
      assert idle - todo == idle;
    }

    method SweepEtpRx(now: Instant) returns (events: seq<Event>, ghost order: seq<Key>)
      requires forall k <- etpRx :: etpRx[k].pgn == k.pgn && etpRx[k].peer == k.sa
      modifies this`etpRx, this`pendingOut
      ensures S.Enumerates(order, S.IdleEtpRx(old(State()), now))
      ensures etpRx == old(etpRx) - S.IdleEtpRx(old(State()), now)
      ensures forall k :: k in etpRx <==> k in old(etpRx) && now <= old(etpRx[k].lastActivity) + config.t2
      ensures forall k :: k in order <==> k in old(etpRx) && now > old(etpRx[k].lastActivity) + config.t2
      ensures events == S.TimeoutEvents(order)
      ensures forall i :: 0 <= i < |order| ==> order[i] in old(etpRx)
      ensures pendingOut == old(pendingOut) + S.EtpRxAborts(old(etpRx), order)
    {
      hide EtpAbortFrame, ConnAbortFrame;
      ghost var idle := S.IdleEtpRx(State(), now);
      var todo := set k | k in etpRx && S.Idle(now, etpRx[k].lastActivity, config.t2);
      events, order := [], [];
      assert S.EtpRxAborts(etpRx, order) == [];
      while todo != {}
        invariant todo <= idle && S.Enumerates(order, idle - todo)
        invariant forall i :: 0 <= i < |order| ==> order[i] in old(etpRx)
        invariant etpRx == old(etpRx) - (idle - todo)
        invariant events == S.TimeoutEvents(order)
        invariant pendingOut == old(pendingOut) + S.EtpRxAborts(old(etpRx), order)
      {
        var key :| key in todo;
        var s := etpRx[key];
        etpRx := etpRx - {key};
        pendingOut := pendingOut + [EtpAbortFrame(s.ours, s.peer, s.priority, s.pgn, Timeout)];
        events := events + [Aborted(s.pgn, s.peer, Timeout)];
        EnumeratesNext(order, idle, todo, key);
        todo := todo - {key};
        order := order + [key];
      }
      assert idle - todo == idle;
    }

    method SweepEtpTx(now: Instant) returns (events: seq<Event>, ghost order: seq<Key>)
      requires forall k <- etpTx :: etpTx[k].pgn == k.pgn && etpTx[k].dest == k.sa
      modifies this`etpTx, this`pendingOut
      ensures S.Enumerates(order, S.IdleEtpTx(old(State()), now))
      ensures etpTx == old(etpTx) - S.IdleEtpTx(old(State()), now)
      ensures forall k :: k in etpTx <==> k in old(etpTx) && now <= old(etpTx[k].lastActivity) + config.t3
      ensures forall k :: k in order <==> k in old(etpTx) && now > old(etpTx[k].lastActivity) + config.t3
      ensures events == S.TimeoutEvents(order)
      ensures forall i :: 0 <= i < |order| ==> order[i] in old(etpTx)
      ensures pendingOut == old(pendingOut) + S.EtpTxAborts(old(etpTx), order)
    {
      hide EtpAbortFrame, ConnAbortFrame;
      ghost var idle := S.IdleEtpTx(State(), now);
      var todo := set k | k in etpTx && S.Idle(now, etpTx[k].lastActivity, config.t3);
      events, order := [], [];
      assert S.EtpTxAborts(etpTx, order) == [];
      while todo != {}
        invariant todo <= idle && S.Enumerates(order, idle - todo)
        invariant forall i :: 0 <= i < |order| ==> order[i] in old(etpTx)
        invariant etpTx == old(etpTx) - (idle - todo)
        invariant events == S.TimeoutEvents(order)
        invariant pendingOut == old(pendingOut) + S.EtpTxAborts(old(etpTx), order)
      {
        var key :| key in todo;
        var s := etpTx[key];
        etpTx := etpTx - {key};
        pendingOut := pendingOut + [EtpAbortFrame(s.ours, s.dest, s.priority, s.pgn, Timeout)];
        events := events + [Aborted(s.pgn, s.dest, Timeout)];
        EnumeratesNext(order, idle, todo, key);
        todo := todo - {key};
        order := order + [key];
      }
      assert idle - todo == idle;
    }

    static lemma EnumeratesNext(order: seq<Key>, idle: set<Key>, todo: set<Key>, key: Key)
      requires S.Enumerates(order, idle - todo) && todo <= idle && key in todo
      ensures S.Enumerates(order + [key], idle - (todo - {key}))
    {
      assert idle - (todo - {key}) == (idle - todo) + {key};
    }

    /** Abort every session idle for longer than its limit; `hint` tells the orders the tables were swept in. */
    method PollTimeouts(now: Instant) returns (events: seq<Event>, ghost hint: S.Sweep)
      requires Valid(State())
      modifies this
      ensures Valid(State()) && S.SweptAt(old(State()), State(), now)
      ensures Outcome(State(), events, false) == S.PollTimeouts(old(State()), now, hint)
    {
      hide *;
      ghost var e := State();
      ValidKeysMatch(e, e);
      IsState();
      var ev, etpEv;
      ghost var bamOrder, rxOrder, txOrder, etpRxOrder, etpTxOrder;
      ev, bamOrder, rxOrder, txOrder := PollTpTimeouts(now);
      IsState();
      StateKeepsIdle(e, now);
      ValidKeysMatch(e, State());
      etpEv, etpRxOrder, etpTxOrder := PollEtpTimeouts(now);
      events := ev + etpEv;
      hint := S.Sweep(bamOrder, rxOrder, txOrder, etpRxOrder, etpTxOrder);
      IsState();
      Swept(e, now, hint);
    }

    method PollTpTimeouts(now: Instant)
      returns (events: seq<Event>, ghost bamOrder: seq<Key>, ghost rxOrder: seq<Key>, ghost txOrder: seq<Key>)
      requires KeysMatch(State())
      modifies this`bam, this`rxConn, this`txConn, this`pendingOut
      ensures S.Enumerates(bamOrder, S.IdleBam(old(State()), now))
      ensures S.Enumerates(rxOrder, S.IdleRxConn(old(State()), now))
              && S.Enumerates(txOrder, S.IdleTxConn(old(State()), now))
      ensures bam == old(bam) - S.IdleBam(old(State()), now)
      ensures rxConn == old(rxConn) - S.IdleRxConn(old(State()), now)
              && txConn == old(txConn) - S.IdleTxConn(old(State()), now)
      ensures events == S.TimeoutEvents(bamOrder) + S.TimeoutEvents(rxOrder) + S.TimeoutEvents(txOrder)
      ensures forall i :: 0 <= i < |rxOrder| ==> rxOrder[i] in old(rxConn)
      ensures forall i :: 0 <= i < |txOrder| ==> txOrder[i] in old(txConn)
      ensures pendingOut == old(pendingOut) + S.RxConnAborts(old(rxConn), rxOrder)
                            + S.TxConnAborts(old(txConn), txOrder)
    {
      SameKeys();
      hide *;
      ghost var e := State();
      IsState();
      var ev;
      events, bamOrder := SweepBam(now);
      StateKeepsIdle(e, now);
      ev, rxOrder := SweepRxConn(now);
      events := events + ev;
      StateKeepsIdle(e, now);
      ev, txOrder := SweepTxConn(now);
      events := events + ev;
    }

    lemma SameKeys()
      requires KeysMatch(State())
      ensures forall k <- bam :: bam[k].pgn == k.pgn && bam[k].source == k.sa
      ensures forall k <- rxConn :: rxConn[k].pgn == k.pgn && rxConn[k].peer == k.sa
      ensures forall k <- txConn :: txConn[k].pgn == k.pgn && txConn[k].dest == k.sa
    {
    }

    lemma IsState()
      ensures State() == Engine(bam, rxConn, txConn, etpRx, etpTx, pendingOut, config)
    {
    }

    /** Which sessions of a table are idle depends on that table alone. */
    lemma StateKeepsIdle(e: Engine, now: Instant)
      requires e.config == config
      ensures rxConn == e.rxConn ==> S.IdleRxConn(State(), now) == S.IdleRxConn(e, now)
      ensures txConn == e.txConn ==> S.IdleTxConn(State(), now) == S.IdleTxConn(e, now)
      ensures etpRx == e.etpRx ==> S.IdleEtpRx(State(), now) == S.IdleEtpRx(e, now)
      ensures etpTx == e.etpTx ==> S.IdleEtpTx(State(), now) == S.IdleEtpTx(e, now)
    {
    }

    static lemma Swept(e: Engine, now: Instant, hint: S.Sweep)
      requires Valid(e)
      requires S.Enumerates(hint.bam, S.IdleBam(e, now))
      requires S.Enumerates(hint.rxConn, S.IdleRxConn(e, now)) && S.Enumerates(hint.txConn, S.IdleTxConn(e, now))
      requires S.Enumerates(hint.etpRx, S.IdleEtpRx(e, now)) && S.Enumerates(hint.etpTx, S.IdleEtpTx(e, now))
      ensures forall i :: 0 <= i < |hint.rxConn| ==> hint.rxConn[i] in e.rxConn
      ensures forall i :: 0 <= i < |hint.txConn| ==> hint.txConn[i] in e.txConn
      ensures forall i :: 0 <= i < |hint.etpRx| ==> hint.etpRx[i] in e.etpRx
      ensures forall i :: 0 <= i < |hint.etpTx| ==> hint.etpTx[i] in e.etpTx
      ensures S.PollTimeouts(e, now, hint) ==
              Outcome(Engine(e.bam - S.IdleBam(e, now), e.rxConn - S.IdleRxConn(e, now),
                             e.txConn - S.IdleTxConn(e, now),
                             e.etpRx - S.IdleEtpRx(e, now), e.etpTx - S.IdleEtpTx(e, now),
                             e.out + S.RxConnAborts(e.rxConn, hint.rxConn) + S.TxConnAborts(e.txConn, hint.txConn)
                             + (S.EtpRxAborts(e.etpRx, hint.etpRx) + S.EtpTxAborts(e.etpTx, hint.etpTx)), e.config),
                      S.TimeoutEvents(hint.bam) + S.TimeoutEvents(hint.rxConn) + S.TimeoutEvents(hint.txConn)
                      + (S.TimeoutEvents(hint.etpRx) + S.TimeoutEvents(hint.etpTx)), false)
    {
      hide Valid, S.TimeoutEvents, S.RxConnAborts, S.TxConnAborts, S.EtpRxAborts, S.EtpTxAborts;
      assert S.SweepOrder(e, now, hint) == hint;
      assert e.out + S.SweepFrames(e, hint) ==
             e.out + S.RxConnAborts(e.rxConn, hint.rxConn) + S.TxConnAborts(e.txConn, hint.txConn)
             + (S.EtpRxAborts(e.etpRx, hint.etpRx) + S.EtpTxAborts(e.etpTx, hint.etpTx));
    }

    method PollEtpTimeouts(now: Instant) returns (events: seq<Event>, ghost rxOrder: seq<Key>, ghost txOrder: seq<Key>)
      requires EtpKeysMatch(State())
      modifies this`etpRx, this`etpTx, this`pendingOut
      ensures S.Enumerates(rxOrder, S.IdleEtpRx(old(State()), now))
              && S.Enumerates(txOrder, S.IdleEtpTx(old(State()), now))
      ensures etpRx == old(etpRx) - S.IdleEtpRx(old(State()), now)
              && etpTx == old(etpTx) - S.IdleEtpTx(old(State()), now)
      ensures events == S.TimeoutEvents(rxOrder) + S.TimeoutEvents(txOrder)
      ensures forall i :: 0 <= i < |rxOrder| ==> rxOrder[i] in old(etpRx)
      ensures forall i :: 0 <= i < |txOrder| ==> txOrder[i] in old(etpTx)
      ensures pendingOut == old(pendingOut) + (S.EtpRxAborts(old(etpRx), rxOrder) + S.EtpTxAborts(old(etpTx), txOrder))
    {
      var ev;
      events, rxOrder := SweepEtpRx(now);
      ev, txOrder := SweepEtpTx(now);
      events := events + ev;
    }

    /** Every session's own fields repeat its key. */
    static ghost predicate KeysMatch(e: Engine) {
      && (forall k <- e.bam :: e.bam[k].pgn == k.pgn && e.bam[k].source == k.sa)
      && (forall k <- e.rxConn :: e.rxConn[k].pgn == k.pgn && e.rxConn[k].peer == k.sa)
      && (forall k <- e.txConn :: e.txConn[k].pgn == k.pgn && e.txConn[k].dest == k.sa)
    }

    static ghost predicate EtpKeysMatch(e: Engine) {
      && (forall k <- e.etpRx :: e.etpRx[k].pgn == k.pgn && e.etpRx[k].peer == k.sa)
      && (forall k <- e.etpTx :: e.etpTx[k].pgn == k.pgn && e.etpTx[k].dest == k.sa)
    }

    static lemma ValidKeysMatch(e: Engine, f: Engine)
      requires Valid(e) && f.etpRx == e.etpRx && f.etpTx == e.etpTx
      ensures KeysMatch(e) && EtpKeysMatch(f)
    {
      hide Valid;
      forall k | k in e.bam { S.BamSession(e, k); }
      forall k | k in e.rxConn { S.RxConnSession(e, k); }
      forall k | k in e.txConn { S.TxConnSession(e, k); }
      forall k | k in e.etpRx { S.EtpRxSession(e, k); }
      forall k | k in e.etpTx { S.EtpTxSession(e, k); }
    }
  }

  // ---- The slice panic ----------------------------------------------------------

  /** A call panics exactly when it is an extended clear-to-send from the receiver of an open transfer that
      asks for at least one packet, the first of them starting beyond the payload. */
  lemma PanicsExactly(e: Engine, id: DecodedId, d: seq<u8>, now: Instant, pick: Key)
    requires Valid(e)
    ensures S.OnFrame(e, id, d, now, pick).panicked <==>
            && id.pgn == ETP_CM_PGN && |d| >= 8 && d[0] == ETP_CTS_CONTROL && PgnOf(d).Some?
            && Key(id.source, PgnOf(d).value) in e.etpTx
            && d[1] > 0 && U24(d[2], d[3], d[4]) > 0
            && DATA_LEN * (U24(d[2], d[3], d[4]) - 1) > |e.etpTx[Key(id.source, PgnOf(d).value)].payload|
  {
    hide Valid;
    if id.pgn == ETP_CM_PGN && |d| >= 8 && d[0] == ETP_CTS_CONTROL && PgnOf(d).Some? {
      var key := Key(id.source, PgnOf(d).value);
      if key in e.etpTx { S.EtpTxSession(e, key); }
    }
  }

  /** A fresh engine. */
  function Fresh(): (e: Engine)
    ensures Valid(e)
  {
    Engine(map[], map[], map[], map[], map[], [], Config(16, 0, 0, 0, 1, ETP_MIN_PAYLOAD))
  }

  /** One call: open an extended transfer of 1786 bytes to address 2. */
  function OpenShortest(): seq<S.Input> { [S.OpenEtp(0, 6, 1, 2, seq(ETP_MIN_PAYLOAD, i => 0), 0)] }

  /** The panic is reached from a fresh engine by that call and a grant from address 2 for packet 300. */
  lemma PanicReachable()
    ensures var id := DecodedId(6, 200, ETP_CM_PGN, 2, Some(1));
            var grant: seq<u8> := [ETP_CTS_CONTROL, 1, 44, 1, 0, 0, 0, 0];
            && U24(grant[2], grant[3], grant[4]) == 300
            && S.OnFrame(S.Run(Fresh(), OpenShortest()), id, grant, 0, Key(0, 0)).panicked
  {
    hide Valid, S.OnFrame, PgnOf, U24, S.Run, Fresh, OpenShortest;
    var e := S.Run(Fresh(), OpenShortest());
    var id := DecodedId(6, 200, ETP_CM_PGN, 2, Some(1));
    var d: seq<u8> := [ETP_CTS_CONTROL, 1, 44, 1, 0, 0, 0, 0];
    OneTransfer();
    ThreeBytes();
    assert PgnOf(d) == Some(0) by { PgnZero(d); }
    PanicsExactly(e, id, d, 0, Key(0, 0));
  }

  lemma PgnZero(d: seq<u8>)
    requires |d| == 8 && U24(d[5], d[6], d[7]) == 0
    ensures PgnOf(d) == Some(0)
  {
    hide U24;
  }

  lemma ThreeBytes()
    ensures U24(44, 1, 0) == 300 && U24(0, 0, 0) == 0
  {
  }

  lemma OneTransfer()
    ensures var e := S.Run(Fresh(), OpenShortest());
            Key(2, 0) in e.etpTx && |e.etpTx[Key(2, 0)].payload| == 1786
  {
    hide Valid, S.StartEtp;
    var call := OpenShortest()[0];
    assert OpenShortest()[1..] == [];
    assert S.Run(Fresh(), OpenShortest()) == S.Step(Fresh(), call).engine;
  }
}
