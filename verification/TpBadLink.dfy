/** No corruption on a bad link. The frames of one message may be lost, repeated and reordered in any
    way, and mixed with any other traffic, calls and timeouts: what the engine completes for that source
    is the message, and no more often than it was announced. Sequence numbers of broadcast and
    connection-mode packets are absolute, which is why this holds for them. */
module TpBadLink {
  import opened Bytes
  import opened J1939Id
  import opened TpTypes
  import opened TpWire
  import opened TpSteps
  import opened TpSafety
  import opened TpLifecycle

  /** A message of source `a`. */
  datatype Message = Message(a: u8, pgn: Pgn, payload: seq<u8>) {
    predicate Ok() { TP_MIN_PAYLOAD <= |payload| <= TP_MAX_PAYLOAD }
    function Key(): Key { TpTypes.Key(a, pgn) }
  }

  function BamData(m: Message): (d: seq<u8>)
    requires m.Ok()
    ensures |d| == 8
  {
    BamFrame(m.a, 0, m.pgn, |m.payload|, Packets(|m.payload|)).data
  }

  function RtsData(m: Message): (d: seq<u8>)
    requires m.Ok()
    ensures |d| == 8
  {
    RtsFrame(m.a, 0, 0, m.pgn, |m.payload|, Packets(|m.payload|), CTS_NO_LIMIT).data
  }

  /** `d` is the data of one of the packets of `m`. */
  ghost predicate IsPacket(m: Message, d: seq<u8>) {
    exists k: nat :: 1 <= k <= Packets(|m.payload|) && k <= 0xFF && d == PacketData(k, m.payload, k)
  }

  lemma SizeBytes(n: nat)
    requires n < 0x1_0000
    ensures U16(Byte0(n), Byte1(n)) == n
  {
  }

  /** The announces of a message parse back to its PGN and size. */
  lemma AnnounceParses(m: Message)
    requires m.Ok()
    ensures PgnOf(BamData(m)) == Some(m.pgn) && U16(BamData(m)[1], BamData(m)[2]) == |m.payload|
    ensures PgnOf(RtsData(m)) == Some(m.pgn) && U16(RtsData(m)[1], RtsData(m)[2]) == |m.payload|
    ensures AnnounceOk(|m.payload|, BamData(m)[3]) && AnnounceOk(|m.payload|, RtsData(m)[3])
  {
    hide Byte0, Byte1, Byte2;
    PgnBytes(m.pgn);
    SizeBytes(|m.payload|);
  }

  // ---- Broadcast --------------------------------------------------------------

  /** The link may do anything to the broadcast frames of `m`, but invents none for its source. Frames of
      other sources, and other frames of this source, are arbitrary. */
  ghost predicate BamLink(m: Message, i: Input) {
    i.Frame? && i.id.source == m.a ==>
      && (IsTpCm(i.id, i.data, BAM_CONTROL) ==> m.Ok() && i.data == BamData(m))
      && (IsBamDt(i.id, i.data) ==> IsPacket(m, i.data))
  }

  /** What the engine holds for the source is a prefix of the message. */
  ghost predicate BamIntact(e: Engine, m: Message) {
    forall k :: k in e.bam && k.sa == m.a ==>
      && k == m.Key()
      && e.bam[k].totalSize == |m.payload|
      && 1 <= e.bam[k].nextSeq <= Packets(|m.payload|)
      && e.bam[k].buf == m.payload[..DATA_LEN * (e.bam[k].nextSeq - 1)]
  }

  predicate BamDataOf(m: Message, i: Input) { i.Frame? && i.id.source == m.a && IsBamDt(i.id, i.data) }

  predicate BamAnnounceOf(m: Message, i: Input) {
    i.Frame? && i.id.source == m.a && IsTpCm(i.id, i.data, BAM_CONTROL)
  }

  function BamOpen(e: Engine, m: Message): nat { if m.Key() in e.bam then 1 else 0 }

  lemma PacketStarts(n: nat, k: nat)
    requires 1 <= k <= Packets(n)
    ensures DATA_LEN * (k - 1) < n
  {
  }

  /** An accepted packet extends a prefix of the message to the next one. */
  lemma PrefixGrows(m: Message, k: nat, d: seq<u8>, buf: seq<u8>)
    requires 1 <= k <= Packets(|m.payload|) && DATA_LEN * (k - 1) <= |m.payload|
    requires buf == m.payload[..DATA_LEN * (k - 1)]
    requires IsPacket(m, d) && d[0] == k
    ensures buf + Taken(SatSub(|m.payload|, |buf|), d) == m.payload[..Min(DATA_LEN * k, |m.payload|)]
    ensures k < Packets(|m.payload|) ==> DATA_LEN * k < |m.payload|
    ensures k == Packets(|m.payload|) ==> Min(DATA_LEN * k, |m.payload|) == |m.payload|
  {
    var j: nat :| 1 <= j <= Packets(|m.payload|) && j <= 0xFF && d == PacketData(j, m.payload, j);
    TakenIsChunk(k, m.payload, k);
  }

  lemma BamDtIntact(e: Engine, m: Message, d: seq<u8>, now: Instant, pick: Key)
    requires Valid(e) && BamIntact(e, m) && |d| >= 1 && IsPacket(m, d)
    ensures var r := OnBamDt(e, m.a, d, now, pick);
            && BamIntact(r.engine, m)
            && (r.events == [] || r.events == [Completed(m.pgn, m.a, m.payload)])
            && |r.events| + BamOpen(r.engine, m) == BamOpen(e, m)
  {
    hide Valid, Taken, Packets, IsPacket;
    var found := SessionOf(e.bam.Keys, m.a, pick);
    if found.Some? {
      var k := found.value;
      var s := e.bam[k];
      var r := OnBamDt(e, m.a, d, now, pick).engine;
      BamSession(e, k);
      PacketStarts(|m.payload|, s.nextSeq);
      if d[0] == s.nextSeq {
        PrefixGrows(m, s.nextSeq, d, s.buf);
        if d[0] >= s.numPackets {
          assert r.bam == e.bam - {k};
        } else {
          assert r.bam == e.bam[k := BamAccept(s, d, now)];
        }
      } else {
        assert r == e;
      }
      assert m.payload[..|m.payload|] == m.payload;
    }
  }

  /** One call keeps what is held a prefix of the message, completes only the message, and pays for a
      completion with an announce. */
  ghost predicate BamStepOk(e: Engine, m: Message, i: Input, r: Outcome) {
    && BamIntact(r.engine, m)
    && (BamDataOf(m, i) ==> r.events == [] || r.events == [Completed(m.pgn, m.a, m.payload)])
    && (if BamDataOf(m, i) then |r.events| else 0) + BamOpen(r.engine, m)
       <= BamOpen(e, m) + (if BamAnnounceOf(m, i) then 1 else 0)
  }

  lemma BamStep(e: Engine, m: Message, i: Input)
    requires Valid(e) && BamIntact(e, m) && BamLink(m, i)
    ensures BamStepOk(e, m, i, Step(e, i))
  {
    hide Valid, Step, BamStepOk, BamIntact, BamLink;
    if i.Frame? { BamFrameStep(e, m, i); } else { BamOtherStep(e, m, i); }
  }

  lemma BamOtherStep(e: Engine, m: Message, i: Input)
    requires !i.Frame? && Valid(e) && BamIntact(e, m)
    ensures BamStepOk(e, m, i, Step(e, i))
  {
    hide Valid, SweepFrames, SweepEvents, Ordered;
    var r := Step(e, i).engine;
    assert r.bam.Keys <= e.bam.Keys;
  }

  lemma BamFrameStep(e: Engine, m: Message, i: Input)
    requires i.Frame? && Valid(e) && BamIntact(e, m) && BamLink(m, i)
    ensures BamStepOk(e, m, i, Step(e, i))
  {
    hide Valid, OnFrame, OnBamDt, IsPacket, OnBamCm, BamData;
    BamOnFrame(e, i.id, i.data, i.now, i.pick);
    if BamDataOf(m, i) {
      BamDtIntact(e, m, i.data, i.now, i.pick);
    } else if BamAnnounceOf(m, i) {
      BamCmIntact(e, m, i.now);
    } else {
      NonInterference(e, i.id, i.data, i.now, i.pick);
    }
  }

  lemma BamCmIntact(e: Engine, m: Message, now: Instant)
    requires Valid(e) && BamIntact(e, m) && m.Ok()
    ensures BamIntact(OnBamCm(e, m.a, BamData(m), now).engine, m)
  {
    hide Valid, PgnOf, U16, AnnounceOk;
    AnnounceParses(m);
  }

  /** The events of the calls that handled broadcast data of the source. */
  ghost function BamEvents(e: Engine, m: Message, run: seq<Input>): seq<Event>
    requires Valid(e)
    decreases |run|
  {
    if run == [] then []
    else (if BamDataOf(m, run[0]) then Step(e, run[0]).events else []) + BamEvents(Step(e, run[0]).engine, m, run[1..])
  }

  function BamAnnounces(m: Message, run: seq<Input>): nat {
    if run == [] then 0 else (if BamAnnounceOf(m, run[0]) then 1 else 0) + BamAnnounces(m, run[1..])
  }

  lemma {:induction false} BamNoCorruption(e: Engine, m: Message, run: seq<Input>)
    requires Valid(e) && BamIntact(e, m)
    requires forall i :: 0 <= i < |run| ==> BamLink(m, run[i])
    ensures forall j :: 0 <= j < |BamEvents(e, m, run)| ==> BamEvents(e, m, run)[j] == Completed(m.pgn, m.a, m.payload)
    ensures |BamEvents(e, m, run)| <= BamAnnounces(m, run) + BamOpen(e, m)
    ensures BamIntact(Run(e, run), m)
    decreases |run|
  {
    hide Valid, Step, BamIntact, BamLink;
    if run != [] {
      BamStep(e, m, run[0]);
      BamNoCorruption(Step(e, run[0]).engine, m, run[1..]);
    }
  }

  // ---- Connection mode --------------------------------------------------------

  ghost predicate ConnLink(m: Message, i: Input) {
    i.Frame? && i.id.source == m.a ==>
      && (IsTpCm(i.id, i.data, RTS_CONTROL) ==> m.Ok() && i.data == RtsData(m))
      && (IsConnDt(i.id, i.data) ==> IsPacket(m, i.data))
  }

  ghost predicate ConnIntact(e: Engine, m: Message) {
    forall k :: k in e.rxConn && k.sa == m.a ==>
      && k == m.Key()
      && e.rxConn[k].totalSize == |m.payload|
      && 1 <= e.rxConn[k].nextSeq <= Packets(|m.payload|)
      && e.rxConn[k].buf == m.payload[..DATA_LEN * (e.rxConn[k].nextSeq - 1)]
  }

  predicate ConnDataOf(m: Message, i: Input) { i.Frame? && i.id.source == m.a && IsConnDt(i.id, i.data) }

  predicate ConnAnnounceOf(m: Message, i: Input) {
    i.Frame? && i.id.source == m.a && IsTpCm(i.id, i.data, RTS_CONTROL)
  }

  function ConnOpen(e: Engine, m: Message): nat { if m.Key() in e.rxConn then 1 else 0 }

  lemma ConnDtIntact(e: Engine, m: Message, d: seq<u8>, now: Instant, pick: Key)
    requires Valid(e) && ConnIntact(e, m) && |d| >= 1 && IsPacket(m, d)
    ensures var r := OnConnDt(e, m.a, d, now, pick);
            && ConnIntact(r.engine, m)
            && (r.events == [] || r.events == [Completed(m.pgn, m.a, m.payload)])
            && |r.events| + ConnOpen(r.engine, m) == ConnOpen(e, m)
  {
    hide Valid, Taken, Packets, IsPacket, CmFrame, GrantWindow;
    var found := SessionOf(e.rxConn.Keys, m.a, pick);
    if found.Some? {
      var s := e.rxConn[found.value];
      RxConnSession(e, found.value);
      PacketStarts(|m.payload|, s.nextSeq);
      if d[0] == s.nextSeq { PrefixGrows(m, s.nextSeq, d, s.buf); }
      assert m.payload[..|m.payload|] == m.payload;
    }
  }

  ghost predicate ConnStepOk(e: Engine, m: Message, i: Input, r: Outcome) {
    && ConnIntact(r.engine, m)
    && (ConnDataOf(m, i) ==> r.events == [] || r.events == [Completed(m.pgn, m.a, m.payload)])
    && (if ConnDataOf(m, i) then |r.events| else 0) + ConnOpen(r.engine, m)
       <= ConnOpen(e, m) + (if ConnAnnounceOf(m, i) then 1 else 0)
  }

  lemma ConnStep(e: Engine, m: Message, i: Input)
    requires Valid(e) && ConnIntact(e, m) && ConnLink(m, i)
    ensures ConnStepOk(e, m, i, Step(e, i))
  {
    hide Valid, Step, ConnStepOk, ConnIntact, ConnLink;
    if i.Frame? { ConnFrameStep(e, m, i); } else { ConnOtherStep(e, m, i); }
  }

  lemma ConnOtherStep(e: Engine, m: Message, i: Input)
    requires !i.Frame? && Valid(e) && ConnIntact(e, m)
    ensures ConnStepOk(e, m, i, Step(e, i))
  {
    hide Valid, SweepFrames, SweepEvents, Ordered;
    var r := Step(e, i).engine;
    assert r.rxConn.Keys <= e.rxConn.Keys;
  }

  lemma ConnFrameStep(e: Engine, m: Message, i: Input)
    requires i.Frame? && Valid(e) && ConnIntact(e, m) && ConnLink(m, i)
    ensures ConnStepOk(e, m, i, Step(e, i))
  {
    hide Valid, OnFrame, OnConnDt, IsPacket, OnRts, RtsData, Admits, PgnOf, U16, AnnounceOk, Packets, ReasonFrom;
    RxConnOnFrame(e, i.id, i.data, i.now, i.pick);
    if ConnDataOf(m, i) {
      ConnDtIntact(e, m, i.data, i.now, i.pick);
    } else if ConnAnnounceOf(m, i) {
      RtsIntact(e, m, i.id, i.now);
    } else {
      NonInterference(e, i.id, i.data, i.now, i.pick);
    }
  }

  lemma RtsIntact(e: Engine, m: Message, id: DecodedId, now: Instant)
    requires Valid(e) && ConnIntact(e, m) && m.Ok() && id.source == m.a
    ensures ConnIntact(OnRts(e, id, RtsData(m), now).engine, m)
  {
    hide Valid, CmFrame, GrantWindow, PgnOf, U16, AnnounceOk;
    AnnounceParses(m);
  }

  ghost function ConnEvents(e: Engine, m: Message, run: seq<Input>): seq<Event>
    requires Valid(e)
    decreases |run|
  {
    if run == [] then []
    else (if ConnDataOf(m, run[0]) then Step(e, run[0]).events else [])
         + ConnEvents(Step(e, run[0]).engine, m, run[1..])
  }

  function ConnAnnounces(m: Message, run: seq<Input>): nat {
    if run == [] then 0 else (if ConnAnnounceOf(m, run[0]) then 1 else 0) + ConnAnnounces(m, run[1..])
  }

  lemma {:induction false} ConnNoCorruption(e: Engine, m: Message, run: seq<Input>)
    requires Valid(e) && ConnIntact(e, m)
    requires forall i :: 0 <= i < |run| ==> ConnLink(m, run[i])
    ensures forall j :: 0 <= j < |ConnEvents(e, m, run)|
              ==> ConnEvents(e, m, run)[j] == Completed(m.pgn, m.a, m.payload)
    ensures |ConnEvents(e, m, run)| <= ConnAnnounces(m, run) + ConnOpen(e, m)
    ensures ConnIntact(Run(e, run), m)
    decreases |run|
  {
    hide Valid, Step, ConnIntact, ConnLink;
    if run != [] {
      ConnStep(e, m, run[0]);
      ConnNoCorruption(Step(e, run[0]).engine, m, run[1..]);
    }
  }
}
