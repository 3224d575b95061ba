/** What a session remembers of a run, told from the calls of the run: when it was last active, and the limit its
    sender set. Timeouts and grants follow from these over every run. */
module TpHistory {
  import opened Bytes
  import opened J1939Id
  import opened TpTypes
  import opened TpWire
  import opened TpSteps
  import opened TpSafety
  import opened TpLifecycle

  lemma {:induction false} RunAppend(e: Engine, run: seq<Input>, i: Input)
    requires Valid(e)
    ensures Run(e, run + [i]) == Step(Run(e, run), i).engine
    decreases |run|
  {
    hide Valid, Step;
    if run == [] {
      assert [i][1..] == [];
    } else {
      RunAppend(Step(e, run[0]).engine, run[1..], i);
      assert (run + [i])[1..] == run[1..] + [i];
    }
  }

  // ---- Time ---------------------------------------------------------------------

  function LastActivity(e: Engine, t: Table, k: Key): Instant
    requires Has(e, t, k)
  {
    match t
    case Bam => e.bam[k].lastActivity
    case RxConn => e.rxConn[k].lastActivity
    case TxConn => e.txConn[k].lastActivity
    case EtpRecv => e.etpRx[k].lastActivity
    case EtpSend => e.etpTx[k].lastActivity
  }

  /** How long the sessions of a table may stay silent. */
  function Patience(c: Config, t: Table): nat {
    match t
    case Bam => c.t1
    case RxConn => c.t2
    case TxConn => c.t3
    case EtpRecv => c.t2
    case EtpSend => c.t3
  }

  function Time(i: Input): Instant { if i.TakeOutbound? then 0 else i.now }

  /** The peer was heard: the call moved the session a packet on, or is its grant or its offset frame. */
  ghost predicate Hears(e: Engine, i: Input, t: Table, k: Key)
    requires Valid(e)
  {
    var e' := Step(e, i).engine;
    && Has(e, t, k) && Has(e', t, k)
    && match t
       case Bam => e'.bam[k].nextSeq > e.bam[k].nextSeq
       case RxConn => e'.rxConn[k].nextSeq > e.rxConn[k].nextSeq
       case TxConn => i.Frame? && IsTpCm(i.id, i.data, CTS_CONTROL) && About(i.id, i.data, k)
       case EtpRecv =>
         || e'.etpRx[k].nextPacket > e.etpRx[k].nextPacket
         || (i.Frame? && IsEtpCm(i.id, i.data, ETP_DPO_CONTROL) && About(i.id, i.data, k))
       case EtpSend => i.Frame? && IsEtpCm(i.id, i.data, ETP_CTS_CONTROL) && About(i.id, i.data, k)
  }

  /** The time of the last call of the run that opened the session of `k` or heard its peer. */
  ghost function LastHeard(e: Engine, run: seq<Input>, t: Table, k: Key): Instant
    requires Valid(e)
    decreases |run|
  {
    if run == [] then (if Has(e, t, k) then LastActivity(e, t, k) else 0)
    else
      var before, i := run[..|run| - 1], run[|run| - 1];
      if Opens(Run(e, before), i, t, k) || Hears(Run(e, before), i, t, k) then Time(i) else LastHeard(e, before, t, k)
  }

  /** One call sets a session's timer to its own time exactly when it opens the session or hears its peer. */
  lemma StepTimer(e: Engine, i: Input, t: Table, k: Key)
    requires Valid(e) && Has(Step(e, i).engine, t, k)
    ensures Opens(e, i, t, k) || Hears(e, i, t, k) || Has(e, t, k)
    ensures LastActivity(Step(e, i).engine, t, k) ==
            if Opens(e, i, t, k) || Hears(e, i, t, k) then Time(i) else LastActivity(e, t, k)
  {
    hide Valid, Step, IsBamDt, IsConnDt, IsEtpDt, IsTpCm, IsEtpCm, About, AnnounceOk, U16, U24, U32, Room, FirstGrant;
    StepOpens(e, i, t, k);
    if !Opens(e, i, t, k) { StepStays(e, i, t, k); }
  }

  /** Over every run, the timer of an open session shows when its peer was last heard. */
  lemma {:induction false} TimerIsRight(e: Engine, run: seq<Input>, t: Table, k: Key)
    requires Valid(e) && Has(Run(e, run), t, k)
    ensures LastActivity(Run(e, run), t, k) == LastHeard(e, run, t, k)
    decreases |run|
  {
    hide Valid, Step, Run, Opens, Hears, Has, LastActivity;
    if run == [] {
      assert Run(e, run) == e by { RunNothing(e); }
    } else {
      var before, i := run[..|run| - 1], run[|run| - 1];
      RunAppend(e, before, i);
      assert run == before + [i];
      StepTimer(Run(e, before), i, t, k);
      if !Opens(Run(e, before), i, t, k) && !Hears(Run(e, before), i, t, k) { TimerIsRight(e, before, t, k); }
    }
  }

  lemma RunNothing(e: Engine)
    requires Valid(e)
    ensures Run(e, []) == e
  {
  }

  /** Over every run, a sweep takes a session out exactly when its peer has been silent for longer than the limit of
      its table. */
  lemma TimesOutExactly(e: Engine, run: seq<Input>, now: Instant, hint: Sweep, t: Table, k: Key)
    requires Valid(e) && Has(Run(e, run), t, k)
    ensures Has(Run(e, run + [Poll(now, hint)]), t, k) <==> now <= LastHeard(e, run, t, k) + Patience(e.config, t)
  {
    hide Valid, Run, PollTimeouts, LastHeard;
    RunAppend(e, run, Poll(now, hint));
    RunKeepsConfig(e, run);
    TimerIsRight(e, run, t, k);
    SweepIsExact(Run(e, run), now, hint, k);
  }

  // ---- Grants ---------------------------------------------------------------------

  /** The byte with which the last request admitted for `k` in the run limits a grant. */
  ghost function LastLimit(e: Engine, run: seq<Input>, k: Key): Option<u8>
    requires Valid(e)
    decreases |run|
  {
    if run == [] then (if k in e.rxConn then Some(e.rxConn[k].senderMax) else None)
    else
      var before, i := run[..|run| - 1], run[|run| - 1];
      if Opens(Run(e, before), i, RxConn, k) then Some(i.data[4]) else LastLimit(e, before, k)
  }

  lemma StepLimit(e: Engine, i: Input, k: Key)
    requires Valid(e) && k in Step(e, i).engine.rxConn
    ensures if Opens(e, i, RxConn, k) then Step(e, i).engine.rxConn[k].senderMax == i.data[4]
            else k in e.rxConn && Step(e, i).engine.rxConn[k].senderMax == e.rxConn[k].senderMax
  {
    hide Valid, Step, IsConnDt, IsTpCm, About, AnnounceOk, U16, Room, FirstGrant;
    StepOpens(e, i, RxConn, k);
    if !Opens(e, i, RxConn, k) { StepStays(e, i, RxConn, k); }
  }

  /** Over every run, an open session remembers the limit of the last request admitted for it. */
  lemma {:induction false} LimitIsRight(e: Engine, run: seq<Input>, k: Key)
    requires Valid(e) && k in Run(e, run).rxConn
    ensures LastLimit(e, run, k) == Some(Run(e, run).rxConn[k].senderMax)
    decreases |run|
  {
    hide Valid, Step, Run, Opens;
    if run == [] {
      assert Run(e, run) == e by { RunNothing(e); }
    } else {
      var before, i := run[..|run| - 1], run[|run| - 1];
      RunAppend(e, before, i);
      assert run == before + [i];
      StepLimit(Run(e, before), i, k);
      if !Opens(Run(e, before), i, RxConn, k) { LimitIsRight(e, before, k); }
    }
  }

  /** Over every run, every open receive session expects a packet of its message and its grant ends
      within the message, within this node's window and within the limit its sender last announced. */
  lemma WindowAccounting(e: Engine, run: seq<Input>)
    requires Valid(e)
    ensures var e' := Run(e, run);
            && (forall k :: k in e'.rxConn ==>
                 var s := e'.rxConn[k];
                 && 1 <= s.nextSeq <= s.totalPackets == Packets(s.totalSize)
                 && 1 <= s.window <= e.config.ctsWindow
                 && s.nextSeq - 1 + s.window <= s.totalPackets
                 && LastLimit(e, run, k).Some?
                 && (LastLimit(e, run, k) != Some(CTS_NO_LIMIT) ==> s.window <= Max(1, LastLimit(e, run, k).value)))
            && (forall k :: k in e'.etpRx ==>
                 1 <= e'.etpRx[k].nextPacket <= e'.etpRx[k].totalPackets == Packets(e'.etpRx[k].totalSize))
  {
    hide Valid, Run, LastLimit, Packets;
    RunKeepsConfig(e, run);
    var e' := Run(e, run);
    forall k | k in e'.rxConn ensures ConnRxOk(e.config, k, e'.rxConn[k]) { RxConnSession(e', k); }
    forall k | k in e'.rxConn ensures LastLimit(e, run, k) == Some(e'.rxConn[k].senderMax) { LimitIsRight(e, run, k); }
    forall k | k in e'.etpRx ensures EtpRxOk(e.config, k, e'.etpRx[k]) { EtpRxSession(e', k); }
  }

  /** Frames that `i` queues behind those already waiting. */
  ghost predicate Queues(e: Engine, i: Input, n: nat)
    requires Valid(e)
  {
    |e.out| <= n < |Step(e, i).engine.out|
  }

  lemma OnlyFramesGrant(e: Engine, i: Input, n: nat)
    requires Valid(e) && Queues(e, i, n) && IsCts(Step(e, i).engine.out[n])
    ensures i.Frame?
  {
    hide Valid, OnFrame, PollTimeouts, StartConn, StartEtp, SweepFrames, IsCts;
    if i.OpenConn? || i.OpenEtp? {
      OpenQueuesNothing(e, i);
    } else if i.Poll? {
      SweepQueued(e, i.now, i.hint);
      SweepGrantsNothing(e, SweepOrder(e, i.now, i.hint));
    }
  }

  lemma SweepGrantsNothing(e: Engine, o: Sweep)
    requires forall i :: 0 <= i < |o.rxConn| ==> o.rxConn[i] in e.rxConn
    requires forall i :: 0 <= i < |o.txConn| ==> o.txConn[i] in e.txConn
    requires forall i :: 0 <= i < |o.etpRx| ==> o.etpRx[i] in e.etpRx
    requires forall i :: 0 <= i < |o.etpTx| ==> o.etpTx[i] in e.etpTx
    ensures forall i :: 0 <= i < |SweepFrames(e, o)| ==> !IsCts(SweepFrames(e, o)[i])
  {
    hide Byte0, Byte1, Byte2;
  }

  lemma OpenQueuesNothing(e: Engine, i: Input)
    requires Valid(e) && (i.OpenConn? || i.OpenEtp?)
    ensures Step(e, i).engine.out == e.out
  {
    hide Valid, CmFrame, Packets;
  }

  /** Over every run, no grant the engine sends exceeds what the last request admitted from that peer for that
      message allows, nor this node's window. */
  lemma GrantsHonourRequest(e: Engine, run: seq<Input>, i: Input, n: nat)
    requires Valid(e) && Queues(Run(e, run), i, n) && IsCts(Step(Run(e, run), i).engine.out[n])
    ensures var f := Step(Run(e, run), i).engine.out[n];
            && f.dest.Some? && PgnOf(f.data).Some?
            && var limit := LastLimit(e, run + [i], Key(f.dest.value, PgnOf(f.data).value));
               && limit.Some? && 1 <= f.data[1] <= e.config.ctsWindow
               && (limit.value != CTS_NO_LIMIT ==> f.data[1] <= Max(1, limit.value))
  {
    hide Valid, OnFrame, Run, LastLimit, PgnOf;
    var e0 := Run(e, run);
    OnlyFramesGrant(e0, i, n);
    GrantsAgreeOnFrame(e0, i.id, i.data, i.now, i.pick, n);
    RunAppend(e, run, i);
    WindowAccounting(e, run + [i]);
  }
}
