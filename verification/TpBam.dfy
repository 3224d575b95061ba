/** The broadcast round trip: segment, put on the wire under 29-bit identifiers, decode, reassemble. */
module TpBam {
  import opened Bytes
  import opened J1939Id
  import opened TpTypes
  import opened TpWire
  import opened TpSteps
  import opened TpSafety
  import opened TpLifecycle
  import opened TpBadLink

  predicate BamFrameOf(m: Message, i: Input) { BamDataOf(m, i) || BamAnnounceOf(m, i) }

  /** A run in which the broadcast frames of the source are exactly `fs`, in order and as decoded from the
      wire; `last` is when the frame before them arrived. Anything may come between them, but from the first frame
      to the last no sweep later than `t1` after the frame before it. */
  predicate Delivers(m: Message, t1: nat, run: seq<Input>, fs: seq<OutFrame>, last: Option<Instant>) {
    if run == [] then fs == []
    else if BamFrameOf(m, run[0]) then
      && fs != [] && run[0].id == WireId(fs[0]) && run[0].data == fs[0].data
      && Delivers(m, t1, run[1..], fs[1..], Some(run[0].now))
    else
      && (run[0].Poll? && last.Some? && fs != [] ==> run[0].now <= last.value + t1)
      && Delivers(m, t1, run[1..], fs, last)
  }

  /** The events of the calls that handled broadcast frames of the source. */
  ghost function BamTrace(e: Engine, m: Message, run: seq<Input>): seq<Event>
    requires Valid(e)
    decreases |run|
  {
    if run == [] then []
    else (if BamFrameOf(m, run[0]) then Step(e, run[0]).events else []) + BamTrace(Step(e, run[0]).engine, m, run[1..])
  }

  /** The first announce of the run found its session open already, or room for one more. */
  ghost predicate Admitted(e: Engine, m: Message, run: seq<Input>)
    requires Valid(e)
    decreases |run|
  {
    run != [] &&
    if BamAnnounceOf(m, run[0]) then m.Key() in e.bam || Room(e) else Admitted(Step(e, run[0]).engine, m, run[1..])
  }

  /** No other broadcast session of the source is open. */
  ghost predicate Alone(e: Engine, m: Message) { forall k :: k in e.bam && k.sa == m.a ==> k == m.Key() }

  /** The session of the message is open, holds its first n-1 packets and was last active at `last`. */
  ghost predicate Holds(e: Engine, m: Message, n: nat, last: Instant) {
    && Alone(e, m)
    && m.Key() in e.bam
    && 1 <= n <= Packets(|m.payload|)
    && e.bam[m.Key()].totalSize == |m.payload|
    && e.bam[m.Key()].nextSeq == n
    && DATA_LEN * (n - 1) < |m.payload|
    && e.bam[m.Key()].buf == m.payload[..DATA_LEN * (n - 1)]
    && e.bam[m.Key()].lastActivity == last
  }

  function DataFrom(m: Message, priority: u8, n: nat): (fs: seq<OutFrame>)
    requires m.Ok() && 1 <= n <= Packets(|m.payload|) + 1
    ensures |fs| == Packets(|m.payload|) + 1 - n
  {
    seq(Packets(|m.payload|) + 1 - n,
        i requires 0 <= i < Packets(|m.payload|) + 1 - n => BamDt(m.a, priority, m.payload, n + i))
  }

  /** A call that is no broadcast frame of the source leaves the source's broadcast session as it is; a sweep
      removes it only later than `t1` after its last activity. */
  lemma OtherCall(e: Engine, m: Message, i: Input)
    requires Valid(e) && Alone(e, m) && !BamFrameOf(m, i)
    ensures var e' := Step(e, i).engine;
            && Alone(e', m) && e'.config == e.config
            && (m.Key() in e'.bam ==> m.Key() in e.bam && e'.bam[m.Key()] == e.bam[m.Key()])
            && (m.Key() in e.bam && m.Key() !in e'.bam ==>
                  i.Poll? && i.now > e.bam[m.Key()].lastActivity + e.config.t1)
  {
    hide Valid, OnFrame, PollTimeouts;
    StepKeepsConfig(e, i);
    if i.Frame? {
      BamOnFrame(e, i.id, i.data, i.now, i.pick);
      NonInterference(e, i.id, i.data, i.now, i.pick);
    }
  }

  lemma PacketArrives(e: Engine, m: Message, priority: u8, n: nat, last: Instant, i: Input)
    requires Valid(e) && m.Ok() && Holds(e, m, n, last) && BamFrameOf(m, i)
    requires i.id == WireId(BamDt(m.a, priority, m.payload, n)) && i.data == BamDt(m.a, priority, m.payload, n).data
    ensures n < Packets(|m.payload|) ==> Step(e, i).events == [] && Holds(Step(e, i).engine, m, n + 1, i.now)
    ensures n == Packets(|m.payload|) ==>
              Step(e, i).events == [Completed(m.pgn, m.a, m.payload)] && m.Key() !in Step(e, i).engine.bam
              && Alone(Step(e, i).engine, m)
  {
    hide Valid, OnFrame, PacketData, WireId, IsPacket, Taken;
    WireIdOf(BamDt(m.a, priority, m.payload, n));
    BamOnFrame(e, i.id, i.data, i.now, i.pick);
    BamSession(e, m.Key());
    assert IsPacket(m, i.data) by { NthPacket(m, n); }
    PrefixGrows(m, n, i.data, e.bam[m.Key()].buf);
    assert m.payload[..|m.payload|] == m.payload;
  }

  lemma NthPacket(m: Message, n: nat)
    requires 1 <= n <= Packets(|m.payload|) && n <= 0xFF
    ensures IsPacket(m, PacketData(n, m.payload, n))
  {
  }

  lemma {:induction false} RestArrives(e: Engine, m: Message, priority: u8, n: nat, last: Instant, run: seq<Input>)
    requires Valid(e) && m.Ok() && Holds(e, m, n, last)
    requires Delivers(m, e.config.t1, run, DataFrom(m, priority, n), Some(last))
    ensures BamTrace(e, m, run) == [Completed(m.pgn, m.a, m.payload)]
    ensures m.Key() !in Run(e, run).bam
    decreases |run|
  {
    hide Valid, Step, BamDt, WireId, Alone;
    StepKeepsConfig(e, run[0]);
    var fs := DataFrom(m, priority, n);
    var e' := Step(e, run[0]).engine;
    if BamFrameOf(m, run[0]) {
      PacketArrives(e, m, priority, n, last, run[0]);
      if n < Packets(|m.payload|) {
        assert fs[1..] == DataFrom(m, priority, n + 1);
        RestArrives(e', m, priority, n + 1, run[0].now, run[1..]);
      } else {
        assert fs[1..] == [];
        NothingFollows(e', m, Some(run[0].now), run[1..]);
      }
    } else {
      OtherCall(e, m, run[0]);
      RestArrives(e', m, priority, n, last, run[1..]);
    }
  }

  /** After its last frame nothing more is heard of the message. */
  lemma {:induction false} NothingFollows(e: Engine, m: Message, last: Option<Instant>, run: seq<Input>)
    requires Valid(e) && Alone(e, m) && m.Key() !in e.bam && Delivers(m, e.config.t1, run, [], last)
    ensures BamTrace(e, m, run) == [] && m.Key() !in Run(e, run).bam
    decreases |run|
  {
    hide Valid, Step, Alone;
    if run != [] {
      OtherCall(e, m, run[0]);
      NothingFollows(Step(e, run[0]).engine, m, last, run[1..]);
    }
  }

  /** Without a session, the packets of the message are dropped. */
  lemma {:induction false} RestDropped(e: Engine, m: Message, priority: u8, n: nat, last: Option<Instant>,
                                       run: seq<Input>)
    requires Valid(e) && m.Ok() && Alone(e, m) && m.Key() !in e.bam
    requires 1 <= n <= Packets(|m.payload|) + 1 && Delivers(m, e.config.t1, run, DataFrom(m, priority, n), last)
    ensures BamTrace(e, m, run) == [] && m.Key() !in Run(e, run).bam
    decreases |run|
  {
    hide Valid, Step, BamDt, WireId, Alone;
    if run != [] {
      var e' := Step(e, run[0]).engine;
      if BamFrameOf(m, run[0]) {
        PacketDropped(e, m, priority, n, run[0]);
        assert DataFrom(m, priority, n)[1..] == DataFrom(m, priority, n + 1);
        RestDropped(e', m, priority, n + 1, Some(run[0].now), run[1..]);
      } else {
        OtherCall(e, m, run[0]);
        RestDropped(e', m, priority, n, last, run[1..]);
      }
    }
  }

  lemma PacketDropped(e: Engine, m: Message, priority: u8, n: nat, i: Input)
    requires Valid(e) && m.Ok() && Alone(e, m) && m.Key() !in e.bam && 1 <= n <= Packets(|m.payload|)
    requires BamFrameOf(m, i) && i.id == WireId(BamDt(m.a, priority, m.payload, n))
    requires i.data == BamDt(m.a, priority, m.payload, n).data
    ensures Step(e, i) == Outcome(e, [], false)
  {
    hide Valid, OnFrame, PacketData, WireId, BamAccept;
    WireIdOf(BamDt(m.a, priority, m.payload, n));
    BamOnFrame(e, i.id, i.data, i.now, i.pick);
  }

  lemma AnnounceArrives(e: Engine, m: Message, priority: u8, i: Input)
    requires Valid(e) && m.Ok() && Alone(e, m) && BamFrameOf(m, i)
    requires i.id == WireId(BamFrame(m.a, priority, m.pgn, |m.payload|, Packets(|m.payload|)))
    requires i.data == BamData(m)
    ensures BamAnnounceOf(m, i)
    ensures m.Key() in e.bam || Room(e) ==> Step(e, i).events == [] && Holds(Step(e, i).engine, m, 1, i.now)
    ensures !(m.Key() in e.bam || Room(e)) ==> Step(e, i) == Outcome(e, [SessionRefused(m.pgn, m.a, Resources)], false)
  {
    hide Valid, OnFrame, BamAccept, PgnOf, U16, AnnounceOk, WireId, Byte0, Byte1, Byte2;
    WireIdOf(BamFrame(m.a, priority, m.pgn, |m.payload|, Packets(|m.payload|)));
    BamOnFrame(e, i.id, i.data, i.now, i.pick);
    AnnounceParses(m);
    assert m.payload[..0] == [];
  }

  /** The broadcast round trip: for every payload and PGN, whatever else happens in between, as long as no sweep
      comes later than the timeout after the last frame that arrived, the frames of the message yield
      the message exactly once if its announce is admitted, and one refusal if not. */
  lemma {:induction false} BamRoundTrip(e: Engine, m: Message, priority: u8, run: seq<Input>)
    requires Valid(e) && m.Ok() && Alone(e, m)
    requires Delivers(m, e.config.t1, run, BamFrames(m.pgn, priority, m.a, m.payload), None)
    ensures BamTrace(e, m, run) == [if Admitted(e, m, run) then Completed(m.pgn, m.a, m.payload)
                                    else SessionRefused(m.pgn, m.a, Resources)]
    ensures m.Key() !in Run(e, run).bam
    decreases |run|
  {
    hide Valid, Step, BamDt, WireId, Alone, Holds, Room;
    StepKeepsConfig(e, run[0]);
    var fs := BamFrames(m.pgn, priority, m.a, m.payload);
    var e' := Step(e, run[0]).engine;
    if BamFrameOf(m, run[0]) {
      AnnounceArrives(e, m, priority, run[0]);
      assert fs[1..] == DataFrom(m, priority, 1);
      if m.Key() in e.bam || Room(e) {
        RestArrives(e', m, priority, 1, run[0].now, run[1..]);
      } else {
        RestDropped(e', m, priority, 1, Some(run[0].now), run[1..]);
      }
    } else {
      OtherCall(e, m, run[0]);
      BamRoundTrip(e', m, priority, run[1..]);
    }
  }

  // ---- The plain case -----------------------------------------------------------------

  /** The frames handed to the engine one after the other, as decoded from the wire. */
  function Handed(fs: seq<OutFrame>, now: Instant, pick: Key): (run: seq<Input>)
    ensures |run| == |fs| && forall i :: 0 <= i < |fs| ==> run[i] == Frame(WireId(fs[i]), fs[i].data, now, pick)
  {
    seq(|fs|, i requires 0 <= i < |fs| => Frame(WireId(fs[i]), fs[i].data, now, pick))
  }

  lemma BroadcastFrame(m: Message, priority: u8, n: nat, now: Instant, pick: Key)
    requires m.Ok() && n <= Packets(|m.payload|)
    ensures var f := BamFrames(m.pgn, priority, m.a, m.payload)[n];
            && BamFrameOf(m, Frame(WireId(f), f.data, now, pick))
            && (n == 0 ==> BamAnnounceOf(m, Frame(WireId(f), f.data, now, pick)))
  {
    hide WireId, Byte0, Byte1, Byte2;
    WireIdOf(BamFrames(m.pgn, priority, m.a, m.payload)[n]);
  }

  lemma {:induction false} HandedDelivers(m: Message, t1: nat, fs: seq<OutFrame>, now: Instant, pick: Key,
                                         last: Option<Instant>)
    requires forall i :: 0 <= i < |fs| ==> BamFrameOf(m, Frame(WireId(fs[i]), fs[i].data, now, pick))
    ensures Delivers(m, t1, Handed(fs, now, pick), fs, last)
    decreases |fs|
  {
    hide WireId, BamFrameOf, Handed;
    var run := Handed(fs, now, pick);
    if fs != [] {
      HandedDelivers(m, t1, fs[1..], now, pick, Some(now));
      assert run[1..] == Handed(fs[1..], now, pick);
    }
  }

  /** Reassembling what was segmented: an engine with room, handed the frames of a message, reports exactly the
      message and is left without its session. */
  lemma SegmentsReassemble(e: Engine, m: Message, priority: u8, now: Instant, pick: Key)
    requires Valid(e) && m.Ok() && Alone(e, m) && (m.Key() in e.bam || Room(e))
    ensures var run := Handed(BamFrames(m.pgn, priority, m.a, m.payload), now, pick);
            BamTrace(e, m, run) == [Completed(m.pgn, m.a, m.payload)] && m.Key() !in Run(e, run).bam
  {
    hide Valid, Step, WireId, BamFrameOf, BamAnnounceOf, BamFrames, Alone, Room, Delivers, BamTrace, Run;
    var fs := BamFrames(m.pgn, priority, m.a, m.payload);
    var run := Handed(fs, now, pick);
    forall i: nat | i < |fs| ensures BamFrameOf(m, Frame(WireId(fs[i]), fs[i].data, now, pick)) {
      BroadcastFrame(m, priority, i, now, pick);
    }
    HandedDelivers(m, e.config.t1, fs, now, pick, None);
    BroadcastFrame(m, priority, 0, now, pick);
    BamRoundTrip(e, m, priority, run);
  }
}
