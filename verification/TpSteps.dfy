/** The transport engine as a transition function: one function per handler, each keeping the engine
    invariant for whatever frame arrives. The class `TpEngine` is proved against these functions. */
module TpSteps {
  import opened Bytes
  import opened J1939Id
  import opened TpTypes
  import opened TpWire

  // ---- Hash-map iteration order ---------------------------------------------

  /** The first key of `sa` in iteration order. The order of a hash map is unknown, so the caller may
      name any such key with `pick`; a `pick` that is none leaves the choice open. Statements that
      quantify over `pick` therefore hold for every iteration order. */
  ghost function SessionOf(keys: set<Key>, sa: u8, pick: Key): (r: Option<Key>)
    ensures r.Some? ==> r.value in keys && r.value.sa == sa
    ensures r.None? ==> forall k :: k in keys ==> k.sa != sa
  {
    if pick in keys && pick.sa == sa then Some(pick)
    else if exists k :: k in keys && k.sa == sa then
      var k :| k in keys && k.sa == sa; Some(k)
    else None
  }

  lemma PickHonoured(ks: set<Key>, sa: u8, pick: Key)
    requires pick in ks && pick.sa == sa
    ensures SessionOf(ks, sa, pick) == Some(pick)
  {
  }

  ghost predicate Enumerates(s: seq<Key>, ks: set<Key>) {
    && (forall i :: 0 <= i < |s| ==> s[i] in ks)
    && (forall k :: k in ks ==> k in s)
    && (forall i, j :: 0 <= i < j < |s| ==> s[i] != s[j])
  }

  ghost function SomeOrder(ks: set<Key>): (s: seq<Key>)
    ensures Enumerates(s, ks)
    decreases |ks|
  {
    if ks == {} then [] else var k :| k in ks; [k] + SomeOrder(ks - {k})
  }

  /** The keys `ks` in iteration order, which `hint` may name as `pick` does above. */
  ghost function Ordered(ks: set<Key>, hint: seq<Key>): (s: seq<Key>)
    ensures Enumerates(s, ks)
  {
    if Enumerates(hint, ks) then hint else SomeOrder(ks)
  }

  // ---- Outcomes and table updates --------------------------------------------

  function Quiet(e: Engine): Outcome { Outcome(e, [], false) }

  ghost predicate Room(e: Engine) { TotalInbound(e) < e.config.maxSessions }

  /** `e` with `fs` appended to its outbound queue. */
  function Enqueue(e: Engine, fs: seq<OutFrame>): Engine { e.(out := e.out + fs) }

  // `Valid` is large; the functions below hide its definition and reach it through these lemmas.

  lemma BamSession(e: Engine, k: Key)
    requires Valid(e) && k in e.bam
    ensures BamOk(k, e.bam[k])
  {
  }

  lemma RxConnSession(e: Engine, k: Key)
    requires Valid(e) && k in e.rxConn
    ensures ConfigOk(e.config) && ConnRxOk(e.config, k, e.rxConn[k])
  {
  }

  lemma TxConnSession(e: Engine, k: Key)
    requires Valid(e) && k in e.txConn
    ensures ConnTxOk(k, e.txConn[k])
  {
  }

  lemma EtpRxSession(e: Engine, k: Key)
    requires Valid(e) && k in e.etpRx
    ensures ConfigOk(e.config) && EtpRxOk(e.config, k, e.etpRx[k])
  {
  }

  lemma EtpTxSession(e: Engine, k: Key)
    requires Valid(e) && k in e.etpTx
    ensures EtpTxOk(e.config, k, e.etpTx[k]) && e.etpTx[k].totalPackets <= Packets(|e.etpTx[k].payload|)
  {
  }

  lemma ValidConfig(e: Engine)
    requires Valid(e)
    ensures ConfigOk(e.config)
  {
  }

  lemma EnqueueValid(e: Engine, fs: seq<OutFrame>)
    requires Valid(e)
    ensures Valid(Enqueue(e, fs))
  {
  }

  lemma DrainValid(e: Engine)
    requires Valid(e)
    ensures Valid(e.(out := []))
  {
  }

  lemma PutBam(e: Engine, k: Key, s: BamRx)
    requires Valid(e) && BamOk(k, s) && (k in e.bam || Room(e))
    ensures Valid(e.(bam := e.bam[k := s]))
  {
  }

  lemma PutRxConn(e: Engine, k: Key, s: ConnRx, fs: seq<OutFrame>)
    requires Valid(e) && ConnRxOk(e.config, k, s) && (k in e.rxConn || Room(e))
    ensures Valid(Enqueue(e.(rxConn := e.rxConn[k := s]), fs))
  {
  }

  lemma PutTxConn(e: Engine, k: Key, s: ConnTx, fs: seq<OutFrame>)
    requires Valid(e) && ConnTxOk(k, s)
    ensures Valid(Enqueue(e.(txConn := e.txConn[k := s]), fs))
    ensures Valid(e.(txConn := e.txConn[k := s]))
  {
  }

  lemma PutEtpRx(e: Engine, k: Key, s: EtpRx, fs: seq<OutFrame>)
    requires Valid(e) && EtpRxOk(e.config, k, s) && (k in e.etpRx || Room(e))
    ensures Valid(Enqueue(e.(etpRx := e.etpRx[k := s]), fs))
    ensures Valid(e.(etpRx := e.etpRx[k := s]))
  {
  }

  lemma PutEtpTx(e: Engine, k: Key, s: EtpTx, fs: seq<OutFrame>)
    requires Valid(e) && EtpTxOk(e.config, k, s)
    ensures Valid(Enqueue(e.(etpTx := e.etpTx[k := s]), fs))
    ensures Valid(e.(etpTx := e.etpTx[k := s]))
  {
  }

  lemma {:induction false} SubsetCard<T>(a: set<T>, b: set<T>)
    requires a <= b
    ensures |a| <= |b|
  {
    if a != {} {
      var x :| x in a;
      SubsetCard(a - {x}, b - {x});
    }
  }

  lemma RemoveKeysShrinks<T>(m: map<Key, T>, ks: set<Key>)
    ensures |m - ks| <= |m|
  {
    assert (m - ks).Keys <= m.Keys;
    SubsetCard((m - ks).Keys, m.Keys);
  }

  /** `e` without the given sessions. */
  function Drop(e: Engine, bam: set<Key>, rxConn: set<Key>, txConn: set<Key>,
                etpRx: set<Key>, etpTx: set<Key>): Engine {
    e.(bam := e.bam - bam, rxConn := e.rxConn - rxConn, txConn := e.txConn - txConn,
       etpRx := e.etpRx - etpRx, etpTx := e.etpTx - etpTx)
  }

  lemma DropValid(e: Engine, bam: set<Key>, rxConn: set<Key>, txConn: set<Key>, etpRx: set<Key>, etpTx: set<Key>,
                  fs: seq<OutFrame>)
    requires Valid(e)
    ensures Valid(Drop(e, bam, rxConn, txConn, etpRx, etpTx))
    ensures Valid(Enqueue(Drop(e, bam, rxConn, txConn, etpRx, etpTx), fs))
  {
    RemoveKeysShrinks(e.bam, bam);
    RemoveKeysShrinks(e.rxConn, rxConn);
    RemoveKeysShrinks(e.etpRx, etpRx);
  }

  lemma DropBam(e: Engine, ks: set<Key>)
    requires Valid(e)
    ensures Valid(e.(bam := e.bam - ks))
  {
    RemoveKeysShrinks(e.bam, ks);
  }

  lemma DropConn(e: Engine, ks: set<Key>, fs: seq<OutFrame>)
    requires Valid(e)
    ensures Valid(Enqueue(e.(rxConn := e.rxConn - ks), fs))
    ensures Valid(e.(txConn := e.txConn - ks))
    ensures Valid(e.(rxConn := e.rxConn - ks, txConn := e.txConn - ks))
  {
    RemoveKeysShrinks(e.rxConn, ks);
  }

  lemma DropEtp(e: Engine, ks: set<Key>, fs: seq<OutFrame>)
    requires Valid(e)
    ensures Valid(Enqueue(e.(etpRx := e.etpRx - ks), fs))
    ensures Valid(e.(etpTx := e.etpTx - ks))
    ensures Valid(e.(etpRx := e.etpRx - ks, etpTx := e.etpTx - ks))
  {
    RemoveKeysShrinks(e.etpRx, ks);
  }

  // ---- Broadcast ------------------------------------------------------------

  function OnBamCm(e: Engine, sa: u8, d: seq<u8>, now: Instant): (r: Outcome)
    requires Valid(e) && |d| >= 8
    ensures Valid(r.engine)
  {
    hide Valid;
    var size := U16(d[1], d[2]);
    if PgnOf(d).None? || !AnnounceOk(size, d[3]) then Quiet(e)
    else
      var k := Key(sa, PgnOf(d).value);
      if k !in e.bam && TotalInbound(e) >= e.config.maxSessions then
        Outcome(e, [SessionRefused(k.pgn, sa, Resources)], false)
      else
        var s := BamRx(k.pgn, sa, size, d[3], 1, [], now);
        PutBam(e, k, s);
        Quiet(e.(bam := e.bam[k := s]))
  }

  /** A broadcast session after it accepted the data frame `d`. */
  function BamAccept(s: BamRx, d: seq<u8>, now: Instant): (r: BamRx)
    requires |d| >= 1
  {
    s.(buf := s.buf + Taken(SatSub(s.totalSize, |s.buf|), d), lastActivity := now, nextSeq := WrapAdd(s.nextSeq, 1))
  }

  /** The session is as it was, or expected this very packet and is one packet further, active at `now`. */
  predicate BamGoesOn(s: BamRx, s': BamRx, d: seq<u8>, now: Instant)
    requires |d| >= 1
  {
    || s' == s
    || (&& d[0] == s.nextSeq && s'.nextSeq == s.nextSeq + 1 && s.buf <= s'.buf
        && s' == s.(nextSeq := s'.nextSeq, buf := s'.buf, lastActivity := now))
  }

  lemma BamAcceptOk(k: Key, s: BamRx, d: seq<u8>, now: Instant)
    requires BamOk(k, s) && |d| >= 1 && d[0] == s.nextSeq < s.numPackets
    ensures BamOk(k, BamAccept(s, d, now)) && BamGoesOn(s, BamAccept(s, d, now), d, now)
  {
  }

  /** No session appears, and each that stays goes on. */
  ghost predicate AllGoOn(m: map<Key, BamRx>, m': map<Key, BamRx>, d: seq<u8>, now: Instant)
    requires |d| >= 1
  {
    forall k :: k in m' ==> k in m && BamGoesOn(m[k], m'[k], d, now)
  }

  lemma NoneMoves(m: map<Key, BamRx>, d: seq<u8>, now: Instant)
    requires |d| >= 1
    ensures AllGoOn(m, m, d, now)
  {
  }

  lemma OneMoves(m: map<Key, BamRx>, k: Key, s': BamRx, d: seq<u8>, now: Instant)
    requires |d| >= 1 && k in m
    ensures AllGoOn(m, m - {k}, d, now)
    ensures BamGoesOn(m[k], s', d, now) ==> AllGoOn(m, m[k := s'], d, now)
  {
  }

  ghost function OnBamDt(e: Engine, sa: u8, d: seq<u8>, now: Instant, pick: Key): (r: Outcome)
    requires Valid(e) && |d| >= 1
    ensures Valid(r.engine)
    ensures AllGoOn(e.bam, r.engine.bam, d, now)
  {
    hide Valid, BamOk, BamAccept, BamGoesOn, AllGoOn;
    var found := SessionOf(e.bam.Keys, sa, pick);
    NoneMoves(e.bam, d, now);
    if found.None? then Quiet(e)
    else
      var k := found.value;
      var s := e.bam[k];
      BamSession(e, k);
      if d[0] != s.nextSeq then Quiet(e)
      else
        var s' := BamAccept(s, d, now);
        OneMoves(e.bam, k, s', d, now);
        if d[0] >= s.numPackets then
          DropBam(e, {k});
          Outcome(e.(bam := e.bam - {k}), [Completed(s.pgn, s.source, s'.buf)], false)
        else
          BamAcceptOk(k, s, d, now);
          PutBam(e, k, s');
          Quiet(e.(bam := e.bam[k := s']))
  }

  // ---- Connection mode, receiver --------------------------------------------

  /** A well-formed request to this node alone, for a session that is open already or for which there is room. */
  ghost predicate Admits(e: Engine, id: DecodedId, d: seq<u8>)
    requires |d| >= 8
  {
    && !Broadcast(id) && PgnOf(d).Some? && AnnounceOk(U16(d[1], d[2]), d[3])
    && (Key(id.source, PgnOf(d).value) in e.rxConn || Room(e))
  }

  /** A request is read byte by byte as it was written. */
  lemma RequestFields(id: DecodedId, d: seq<u8>)
    requires |d| >= 8
    ensures ParseConnRts(id, d).Some? <==> !Broadcast(id) && PgnOf(d).Some? && AnnounceOk(U16(d[1], d[2]), d[3])
    ensures ParseConnRts(id, d).Some? ==>
              ParseConnRts(id, d).value ==
              ConnRts(id.dest.value, id.source, id.priority, U16(d[1], d[2]), d[3], d[4], PgnOf(d).value)
  {
  }

  lemma FirstWindow(e: Engine, p: ConnRts, now: Instant)
    requires ConfigOk(e.config) && AnnounceOk(p.size, p.packets)
    ensures ConnRxOk(e.config, Key(p.peer, p.pgn),
                     ConnRx(p.pgn, p.peer, p.ours, p.priority, p.size, p.packets, p.senderMax, 1,
                            GrantWindow(p.packets, e.config.ctsWindow, p.senderMax), [], now))
  {
  }

  function OnRts(e: Engine, id: DecodedId, d: seq<u8>, now: Instant): (r: Outcome)
    requires Valid(e) && |d| >= 8
    ensures Valid(r.engine)
    ensures Admits(e, id, d) ==>
              && Key(id.source, PgnOf(d).value) in r.engine.rxConn
              && var s := r.engine.rxConn[Key(id.source, PgnOf(d).value)];
                 s == ConnRx(PgnOf(d).value, id.source, id.dest.value, id.priority, U16(d[1], d[2]), d[3], d[4], 1,
                             s.window, [], now)
    ensures !Admits(e, id, d) ==> r.engine.rxConn == e.rxConn
  {
    hide Valid, PgnOf, U16, AnnounceOk, ParseConnRts, ConnRxOk, TotalInbound, GrantWindow, CmFrame;
    var parsed := ParseConnRts(id, d);
    RequestFields(id, d);
    if parsed.None? then Quiet(e)
    else
      var p := parsed.value;
      var k := Key(p.peer, p.pgn);
      if k !in e.rxConn && TotalInbound(e) >= e.config.maxSessions then
        var fs := [ConnAbortFrame(p.ours, p.peer, p.priority, p.pgn, Resources)];
        EnqueueValid(e, fs);
        Outcome(Enqueue(e, fs), [SessionRefused(p.pgn, p.peer, Resources)], false)
      else
        ValidConfig(e);
        FirstWindow(e, p, now);
        var w := GrantWindow(p.packets, e.config.ctsWindow, p.senderMax);
        var s := ConnRx(p.pgn, p.peer, p.ours, p.priority, p.size, p.packets, p.senderMax, 1, w, [], now);
        var fs := [CtsFrame(p.ours, p.peer, p.priority, p.pgn, w, 1)];
        PutRxConn(e, k, s, fs);
        Quiet(Enqueue(e.(rxConn := e.rxConn[k := s]), fs))
  }

  /** A connection-mode session after it accepted `d`: one packet further, and with a fresh window when
      the granted one is used up. */
  function ConnAccept(config: Config, s: ConnRx, d: seq<u8>, now: Instant): (r: ConnRx)
    requires |d| >= 1 && ConfigOk(config) && WindowOk(config, s) && s.nextSeq < s.totalPackets
    ensures r.nextSeq == s.nextSeq + 1 && WindowOk(config, r)
  {
    var next := WrapAdd(s.nextSeq, 1);
    var left := SatSub(s.window, 1);
    s.(buf := s.buf + Taken(SatSub(s.totalSize, |s.buf|), d), lastActivity := now, nextSeq := next,
       window := if left == 0 then GrantWindow(s.totalPackets - (next - 1), config.ctsWindow, s.senderMax) else left)
  }

  ghost function OnConnDt(e: Engine, sa: u8, d: seq<u8>, now: Instant, pick: Key): (r: Outcome)
    requires Valid(e) && |d| >= 1
    ensures Valid(r.engine)
  {
    hide Valid;
    var found := SessionOf(e.rxConn.Keys, sa, pick);
    if found.None? then Quiet(e)
    else
      var k := found.value;
      var s := e.rxConn[k];
      RxConnSession(e, k);
      if d[0] != s.nextSeq then Quiet(e)
      else if d[0] >= s.totalPackets then
        var fs := [EomaFrame(s.ours, s.peer, s.priority, s.pgn, s.totalSize, s.totalPackets)];
        DropConn(e, {k}, fs);
        Outcome(Enqueue(e.(rxConn := e.rxConn - {k}), fs),
                [Completed(s.pgn, s.peer, s.buf + Taken(SatSub(s.totalSize, |s.buf|), d))], false)
      else
        var s' := ConnAccept(e.config, s, d, now);
        var fs := if s.window == 1 then [CtsFrame(s.ours, s.peer, s.priority, s.pgn, s'.window, s'.nextSeq)] else [];
        PutRxConn(e, k, s', fs);
        Quiet(Enqueue(e.(rxConn := e.rxConn[k := s']), fs))
  }

  // ---- Connection mode, sender ----------------------------------------------

  /** Opening a transfer: the new engine and the RTS to send, or `None` for a payload out of range. */
  function StartConn(e: Engine, pgn: Pgn, priority: u8, ours: u8, dest: u8, payload: seq<u8>, now: Instant)
    : (r: (Engine, Option<seq<OutFrame>>))
    requires Valid(e)
    ensures Valid(r.0)
    ensures r.1.Some? <==> TP_MIN_PAYLOAD <= |payload| <= TP_MAX_PAYLOAD
    ensures r.1.None? ==> r.0 == e
    ensures r.1.Some? ==> Key(dest, pgn) in r.0.txConn && r.0.txConn[Key(dest, pgn)].payload == payload
  {
    hide Valid;
    if !(TP_MIN_PAYLOAD <= |payload| <= TP_MAX_PAYLOAD) then (e, None)
    else
      var n := Packets(|payload|);
      var s := ConnTx(pgn, ours, dest, priority, payload, n, now);
      PutTxConn(e, Key(dest, pgn), s, []);
      (e.(txConn := e.txConn[Key(dest, pgn) := s]),
       Some([RtsFrame(ours, dest, priority, pgn, |payload|, n, CTS_NO_LIMIT)]))
  }

  function OnCts(e: Engine, id: DecodedId, d: seq<u8>, now: Instant): (r: Outcome)
    requires Valid(e) && |d| >= 8
    ensures Valid(r.engine)
  {
    hide Valid;
    if PgnOf(d).None? || Key(id.source, PgnOf(d).value) !in e.txConn then Quiet(e)
    else
      var k := Key(id.source, PgnOf(d).value);
      TxConnSession(e, k);
      var s := e.txConn[k].(lastActivity := now);
      var fs := if d[1] == 0 then [] else ConnBurst(s, d[2], d[1]);
      PutTxConn(e, k, s, fs);
      Quiet(Enqueue(e.(txConn := e.txConn[k := s]), fs))
  }

  function OnEndOfMsgAck(e: Engine, id: DecodedId, d: seq<u8>): (r: Outcome)
    requires Valid(e) && |d| >= 8
    ensures Valid(r.engine)
  {
    hide Valid;
    if PgnOf(d).None? then Quiet(e)
    else
      var k := Key(id.source, PgnOf(d).value);
      DropConn(e, {k}, []);
      Quiet(e.(txConn := e.txConn - {k}))
  }

  function OnConnAbort(e: Engine, id: DecodedId, d: seq<u8>): (r: Outcome)
    requires Valid(e) && |d| >= 8
    ensures Valid(r.engine)
  {
    hide Valid;
    if PgnOf(d).None? then Quiet(e)
    else
      var k := Key(id.source, PgnOf(d).value);
      var ev := Aborted(k.pgn, k.sa, ReasonFrom(d[1]));
      DropConn(e, {k}, []);
      Outcome(e.(rxConn := e.rxConn - {k}, txConn := e.txConn - {k}),
              (if k in e.rxConn then [ev] else []) + (if k in e.txConn then [ev] else []), false)
  }

  // ---- Extended transport, receiver -----------------------------------------

  function Zeros(n: nat): (s: seq<u8>)
    ensures |s| == n
  {
    seq(n, i => 0)
  }

  function OnEtpRts(e: Engine, id: DecodedId, d: seq<u8>, now: Instant): (r: Outcome)
    requires Valid(e) && |d| >= 8
    ensures Valid(r.engine)
  {
    hide Valid;
    var parsed := ParseEtpRts(id, d);
    if parsed.None? then Quiet(e)
    else
      var p := parsed.value;
      var k := Key(p.peer, p.pgn);
      var abort := EtpAbortFrame(p.ours, p.peer, p.priority, p.pgn, Resources);
      EnqueueValid(e, [abort]);
      if p.size > e.config.maxEtpBytes then
        Outcome(Enqueue(e, [abort]), [Aborted(p.pgn, p.peer, Resources)], false)
      else if k !in e.etpRx && TotalInbound(e) >= e.config.maxSessions then
        Outcome(Enqueue(e, [abort]), [SessionRefused(p.pgn, p.peer, Resources)], false)
      else
        var n := Packets(p.size);
        var s := EtpRx(p.pgn, p.peer, p.ours, p.priority, p.size, n, 1, 0, 0, Zeros(p.size), now);
        var fs := [EtpCtsFrame(p.ours, p.peer, p.priority, p.pgn, EtpGrant(n, e.config.ctsWindow), 1)];
        PutEtpRx(e, k, s, fs);
        Quiet(Enqueue(e.(etpRx := e.etpRx[k := s]), fs))
  }

  function OnEtpDpo(e: Engine, id: DecodedId, d: seq<u8>, now: Instant): (r: Outcome)
    requires Valid(e) && |d| >= 8
    ensures Valid(r.engine)
  {
    hide Valid;
    if PgnOf(d).None? || Key(id.source, PgnOf(d).value) !in e.etpRx then Quiet(e)
    else
      var k := Key(id.source, PgnOf(d).value);
      EtpRxSession(e, k);
      var s := e.etpRx[k].(dpoOffset := U24(d[2], d[3], d[4]), burstRemaining := d[1], lastActivity := now);
      PutEtpRx(e, k, s, []);
      Quiet(e.(etpRx := e.etpRx[k := s]))
  }

  /** `buf` with `t` copied over it from byte `at`. */
  function Splice(buf: seq<u8>, at: nat, t: seq<u8>): (r: seq<u8>)
    requires at + |t| <= |buf|
    ensures |r| == |buf|
  {
    buf[..at] + t + buf[at + |t|..]
  }

  /** The buffer of an extended session after packet `nextPacket` was copied into place. */
  function EtpFilled(s: EtpRx, d: seq<u8>): (buf: seq<u8>)
    requires |d| >= 1 && s.nextPacket >= 1 && |s.buf| == s.totalSize
    requires s.nextPacket <= Packets(s.totalSize)
    ensures |buf| == s.totalSize
  {
    var at := (s.nextPacket - 1) * DATA_LEN;
    Splice(s.buf, at, Taken(SatSub(s.totalSize, at), d))
  }

  function EtpAccept(s: EtpRx, d: seq<u8>, now: Instant): (r: EtpRx)
    requires |d| >= 1 && 1 <= s.nextPacket < s.totalPackets == Packets(s.totalSize) && |s.buf| == s.totalSize
  {
    s.(buf := EtpFilled(s, d), nextPacket := s.nextPacket + 1, burstRemaining := SatSub(s.burstRemaining, 1),
       lastActivity := now)
  }

  ghost function OnEtpDt(e: Engine, sa: u8, d: seq<u8>, now: Instant, pick: Key): (r: Outcome)
    requires Valid(e) && |d| >= 1
    ensures Valid(r.engine)
  {
    hide Valid;
    var found := SessionOf(e.etpRx.Keys, sa, pick);
    if found.None? then Quiet(e)
    else
      var k := found.value;
      var s := e.etpRx[k];
      EtpRxSession(e, k);
      if SatAdd32(s.dpoOffset, d[0]) != s.nextPacket then Quiet(e)
      else if s.nextPacket >= s.totalPackets then
        var fs := [EtpEomaFrame(s.ours, s.peer, s.priority, s.pgn, s.totalSize)];
        DropEtp(e, {k}, fs);
        Outcome(Enqueue(e.(etpRx := e.etpRx - {k}), fs),
                [Completed(s.pgn, s.peer, EtpFilled(s, d))], false)
      else
        var s' := EtpAccept(s, d, now);
        var w := EtpGrant(s.totalPackets - (s'.nextPacket - 1), e.config.ctsWindow);
        var fs := if s'.burstRemaining == 0
                  then [EtpCtsFrame(s.ours, s.peer, s.priority, s.pgn, w, s'.nextPacket)] else [];
        PutEtpRx(e, k, s', fs);
        Quiet(Enqueue(e.(etpRx := e.etpRx[k := s']), fs))
  }

  // ---- Extended transport, sender -------------------------------------------

  function StartEtp(e: Engine, pgn: Pgn, priority: u8, ours: u8, dest: u8, payload: seq<u8>, now: Instant)
    : (r: (Engine, Option<seq<OutFrame>>))
    requires Valid(e)
    ensures Valid(r.0)
    ensures r.1.Some? <==> ETP_MIN_PAYLOAD <= |payload| <= e.config.maxEtpBytes
    ensures r.1.None? ==> r.0 == e
    ensures r.1.Some? ==> Key(dest, pgn) in r.0.etpTx && r.0.etpTx[Key(dest, pgn)].payload == payload
  {
    hide Valid;
    if !(ETP_MIN_PAYLOAD <= |payload| <= e.config.maxEtpBytes) then (e, None)
    else
      var s := EtpTx(pgn, ours, dest, priority, payload, Packets(|payload|) % 0x1_0000_0000, now);
      PutEtpTx(e, Key(dest, pgn), s, []);
      (e.(etpTx := e.etpTx[Key(dest, pgn) := s]), Some([EtpRtsFrame(ours, dest, priority, pgn, |payload|)]))
  }

  /** The answer to the extended grant `d`: nothing for "wait", otherwise a burst. */
  function EtpAnswer(s: EtpTx, d: seq<u8>): Option<seq<OutFrame>>
    requires |d| >= 8 && s.totalPackets <= Packets(|s.payload|)
  {
    var next := U24(d[2], d[3], d[4]);
    if d[1] == 0 || next == 0 then Some([]) else EtpBurst(s, next, d[1])
  }

  /** An extended grant. A grant whose first packet starts beyond the payload panics: the call has
      then already refreshed the session's timer, and queued nothing. */
  function OnEtpCts(e: Engine, id: DecodedId, d: seq<u8>, now: Instant): (r: Outcome)
    requires Valid(e) && |d| >= 8
    ensures Valid(r.engine)
  {
    hide Valid;
    if PgnOf(d).None? || Key(id.source, PgnOf(d).value) !in e.etpTx then Quiet(e)
    else
      var k := Key(id.source, PgnOf(d).value);
      EtpTxSession(e, k);
      var s := e.etpTx[k].(lastActivity := now);
      var burst := EtpAnswer(s, d);
      var fs := if burst.Some? then burst.value else [];
      PutEtpTx(e, k, s, fs);
      Outcome(Enqueue(e.(etpTx := e.etpTx[k := s]), fs), [], burst.None?)
  }

  function OnEtpEoma(e: Engine, id: DecodedId, d: seq<u8>): (r: Outcome)
    requires Valid(e) && |d| >= 8
    ensures Valid(r.engine)
  {
    hide Valid;
    if PgnOf(d).None? then Quiet(e)
    else
      var k := Key(id.source, PgnOf(d).value);
      DropEtp(e, {k}, []);
      Quiet(e.(etpTx := e.etpTx - {k}))
  }

  function OnEtpAbort(e: Engine, id: DecodedId, d: seq<u8>): (r: Outcome)
    requires Valid(e) && |d| >= 8
    ensures Valid(r.engine)
  {
    hide Valid;
    if PgnOf(d).None? then Quiet(e)
    else
      var k := Key(id.source, PgnOf(d).value);
      var ev := Aborted(k.pgn, k.sa, ReasonFrom(d[1]));
      DropEtp(e, {k}, []);
      Outcome(e.(etpRx := e.etpRx - {k}, etpTx := e.etpTx - {k}),
              (if k in e.etpRx then [ev] else []) + (if k in e.etpTx then [ev] else []), false)
  }

  // ---- Dispatch -------------------------------------------------------------

  function OnCm(e: Engine, id: DecodedId, d: seq<u8>, now: Instant): (r: Outcome)
    requires Valid(e)
    ensures Valid(r.engine)
  {
    hide Valid;
    if |d| < 8 then Quiet(e)
    else if d[0] == BAM_CONTROL then OnBamCm(e, id.source, d, now)
    else if d[0] == RTS_CONTROL then OnRts(e, id, d, now)
    else if d[0] == CTS_CONTROL then OnCts(e, id, d, now)
    else if d[0] == EOMA_CONTROL then OnEndOfMsgAck(e, id, d)
    else if d[0] == CONN_ABORT_CONTROL then OnConnAbort(e, id, d)
    else Quiet(e)
  }

  predicate Broadcast(id: DecodedId) { id.dest.None? || id.dest.value == GLOBAL_ADDRESS }

  ghost function OnDt(e: Engine, id: DecodedId, d: seq<u8>, now: Instant, pick: Key): (r: Outcome)
    requires Valid(e)
    ensures Valid(r.engine)
  {
    hide Valid;
    if |d| == 0 then Quiet(e)
    else if Broadcast(id) then OnBamDt(e, id.source, d, now, pick)
    else OnConnDt(e, id.source, d, now, pick)
  }

  function OnEtpCm(e: Engine, id: DecodedId, d: seq<u8>, now: Instant): (r: Outcome)
    requires Valid(e)
    ensures Valid(r.engine)
  {
    hide Valid;
    if |d| < 8 then Quiet(e)
    else if d[0] == ETP_RTS_CONTROL then OnEtpRts(e, id, d, now)
    else if d[0] == ETP_CTS_CONTROL then OnEtpCts(e, id, d, now)
    else if d[0] == ETP_DPO_CONTROL then OnEtpDpo(e, id, d, now)
    else if d[0] == ETP_EOMA_CONTROL then OnEtpEoma(e, id, d)
    else if d[0] == ETP_ABORT_CONTROL then OnEtpAbort(e, id, d)
    else Quiet(e)
  }

  ghost function OnFrame(e: Engine, id: DecodedId, d: seq<u8>, now: Instant, pick: Key): (r: Outcome)
    requires Valid(e)
    ensures Valid(r.engine)
  {
    hide Valid;
    if id.pgn == TP_CM_PGN then OnCm(e, id, d, now)
    else if id.pgn == TP_DT_PGN then OnDt(e, id, d, now, pick)
    else if id.pgn == ETP_CM_PGN then OnEtpCm(e, id, d, now)
    else if id.pgn == ETP_DT_PGN then (if |d| == 0 then Quiet(e) else OnEtpDt(e, id.source, d, now, pick))
    else Quiet(e)
  }

  // ---- Timeouts -------------------------------------------------------------

  /** `now.saturating_duration_since(last) > limit`: the clock has passed the limit. */
  predicate Idle(now: Instant, last: Instant, limit: nat): (idle: bool)
    ensures idle <==> now > last + limit
  {
    SatSub(now, last) > limit
  }

  function IdleBam(e: Engine, now: Instant): set<Key> {
    set k | k in e.bam && Idle(now, e.bam[k].lastActivity, e.config.t1)
  }
  function IdleRxConn(e: Engine, now: Instant): set<Key> {
    set k | k in e.rxConn && Idle(now, e.rxConn[k].lastActivity, e.config.t2)
  }
  function IdleTxConn(e: Engine, now: Instant): set<Key> {
    set k | k in e.txConn && Idle(now, e.txConn[k].lastActivity, e.config.t3)
  }
  function IdleEtpRx(e: Engine, now: Instant): set<Key> {
    set k | k in e.etpRx && Idle(now, e.etpRx[k].lastActivity, e.config.t2)
  }
  function IdleEtpTx(e: Engine, now: Instant): set<Key> {
    set k | k in e.etpTx && Idle(now, e.etpTx[k].lastActivity, e.config.t3)
  }

  /** The five iteration orders of one sweep. */
  datatype Sweep = Sweep(bam: seq<Key>, rxConn: seq<Key>, txConn: seq<Key>, etpRx: seq<Key>, etpTx: seq<Key>)

  ghost function SweepOrder(e: Engine, now: Instant, hint: Sweep): Sweep {
    Sweep(Ordered(IdleBam(e, now), hint.bam), Ordered(IdleRxConn(e, now), hint.rxConn),
          Ordered(IdleTxConn(e, now), hint.txConn), Ordered(IdleEtpRx(e, now), hint.etpRx),
          Ordered(IdleEtpTx(e, now), hint.etpTx))
  }

  function TimeoutEvents(order: seq<Key>): seq<Event> {
    seq(|order|, i requires 0 <= i < |order| => Aborted(order[i].pgn, order[i].sa, Timeout))
  }

  function RxConnAborts(m: map<Key, ConnRx>, order: seq<Key>): seq<OutFrame>
    requires forall i :: 0 <= i < |order| ==> order[i] in m
  {
    seq(|order|, i requires 0 <= i < |order| =>
      var s := m[order[i]]; ConnAbortFrame(s.ours, s.peer, s.priority, s.pgn, Timeout))
  }

  function TxConnAborts(m: map<Key, ConnTx>, order: seq<Key>): seq<OutFrame>
    requires forall i :: 0 <= i < |order| ==> order[i] in m
  {
    seq(|order|, i requires 0 <= i < |order| =>
      var s := m[order[i]]; ConnAbortFrame(s.ours, s.dest, s.priority, s.pgn, Timeout))
  }

  function EtpRxAborts(m: map<Key, EtpRx>, order: seq<Key>): seq<OutFrame>
    requires forall i :: 0 <= i < |order| ==> order[i] in m
  {
    seq(|order|, i requires 0 <= i < |order| =>
      var s := m[order[i]]; EtpAbortFrame(s.ours, s.peer, s.priority, s.pgn, Timeout))
  }

  function EtpTxAborts(m: map<Key, EtpTx>, order: seq<Key>): seq<OutFrame>
    requires forall i :: 0 <= i < |order| ==> order[i] in m
  {
    seq(|order|, i requires 0 <= i < |order| =>
      var s := m[order[i]]; EtpAbortFrame(s.ours, s.dest, s.priority, s.pgn, Timeout))
  }

  /** The abort frames of a sweep, in the order the tables are swept. */
  ghost function SweepFrames(e: Engine, o: Sweep): seq<OutFrame>
    requires forall i :: 0 <= i < |o.rxConn| ==> o.rxConn[i] in e.rxConn
    requires forall i :: 0 <= i < |o.txConn| ==> o.txConn[i] in e.txConn
    requires forall i :: 0 <= i < |o.etpRx| ==> o.etpRx[i] in e.etpRx
    requires forall i :: 0 <= i < |o.etpTx| ==> o.etpTx[i] in e.etpTx
  {
    RxConnAborts(e.rxConn, o.rxConn) + TxConnAborts(e.txConn, o.txConn)
    + EtpRxAborts(e.etpRx, o.etpRx) + EtpTxAborts(e.etpTx, o.etpTx)
  }

  function SweepEvents(o: Sweep): seq<Event> {
    TimeoutEvents(o.bam) + TimeoutEvents(o.rxConn) + TimeoutEvents(o.txConn)
    + TimeoutEvents(o.etpRx) + TimeoutEvents(o.etpTx)
  }

  /** What a sweep at `now` leaves: exactly the sessions whose last activity is no further back than the limit of
      their table, each as it was. */
  ghost predicate SweptAt(e: Engine, e': Engine, now: Instant) {
    && (forall k :: k in e'.bam <==> k in e.bam && now <= e.bam[k].lastActivity + e.config.t1)
    && (forall k :: k in e'.rxConn <==> k in e.rxConn && now <= e.rxConn[k].lastActivity + e.config.t2)
    && (forall k :: k in e'.txConn <==> k in e.txConn && now <= e.txConn[k].lastActivity + e.config.t3)
    && (forall k :: k in e'.etpRx <==> k in e.etpRx && now <= e.etpRx[k].lastActivity + e.config.t2)
    && (forall k :: k in e'.etpTx <==> k in e.etpTx && now <= e.etpTx[k].lastActivity + e.config.t3)
    && (forall k :: k in e'.bam ==> e'.bam[k] == e.bam[k])
    && (forall k :: k in e'.rxConn ==> e'.rxConn[k] == e.rxConn[k])
    && (forall k :: k in e'.txConn ==> e'.txConn[k] == e.txConn[k])
    && (forall k :: k in e'.etpRx ==> e'.etpRx[k] == e.etpRx[k])
    && (forall k :: k in e'.etpTx ==> e'.etpTx[k] == e.etpTx[k])
  }

  lemma DropSweeps(e: Engine, now: Instant, fs: seq<OutFrame>)
    ensures SweptAt(e, Enqueue(Drop(e, IdleBam(e, now), IdleRxConn(e, now), IdleTxConn(e, now), IdleEtpRx(e, now),
                                    IdleEtpTx(e, now)), fs), now)
  {
  }

  /** One sweep of all five tables. */
  ghost function PollTimeouts(e: Engine, now: Instant, hint: Sweep): (r: Outcome)
    requires Valid(e)
    ensures Valid(r.engine) && SweptAt(e, r.engine, now)
  {
    hide Valid;
    var o := SweepOrder(e, now, hint);
    DropValid(e, IdleBam(e, now), IdleRxConn(e, now), IdleTxConn(e, now), IdleEtpRx(e, now), IdleEtpTx(e, now),
              SweepFrames(e, o));
    DropSweeps(e, now, SweepFrames(e, o));
    Outcome(Enqueue(Drop(e, IdleBam(e, now), IdleRxConn(e, now), IdleTxConn(e, now), IdleEtpRx(e, now),
                         IdleEtpTx(e, now)), SweepFrames(e, o)),
            SweepEvents(o), false)
  }

  // ---- Runs -----------------------------------------------------------------

  /** One call on the engine. */
  datatype Input =
    | Frame(id: DecodedId, data: seq<u8>, now: Instant, pick: Key)
    | Poll(now: Instant, hint: Sweep)
    | OpenConn(pgn: Pgn, priority: u8, ours: u8, dest: u8, payload: seq<u8>, now: Instant)
    | OpenEtp(pgn: Pgn, priority: u8, ours: u8, dest: u8, payload: seq<u8>, now: Instant)
    | TakeOutbound

  ghost function Step(e: Engine, i: Input): (r: Outcome)
    requires Valid(e)
    ensures Valid(r.engine)
  {
    hide Valid;
    match i
    case Frame(id, d, now, pick) => OnFrame(e, id, d, now, pick)
    case Poll(now, hint) => PollTimeouts(e, now, hint)
    case OpenConn(pgn, prio, ours, dest, payload, now) => Quiet(StartConn(e, pgn, prio, ours, dest, payload, now).0)
    case OpenEtp(pgn, prio, ours, dest, payload, now) => Quiet(StartEtp(e, pgn, prio, ours, dest, payload, now).0)
    case TakeOutbound => DrainValid(e); Quiet(e.(out := []))
  }

  /** The state after a run of calls. */
  ghost function Run(e: Engine, run: seq<Input>): (r: Engine)
    requires Valid(e)
    ensures Valid(r)
    decreases |run|
  {
    hide Valid;
    if run == [] then e else Run(Step(e, run[0]).engine, run[1..])
  }
}
