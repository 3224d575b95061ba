/** How far the allocator's peak can go beyond its blocks, and exactly when it can. */
module AllocPeak {
  import opened Bits
  import opened AllocConcurrent
  import opened AllocCounters

  // ---- Putting runs together --------------------------------------------------------

  lemma OnlyPcs(h: Heap)
    requires Exclusive(h)
    ensures PcsOk(h)
  {
  }

  lemma Prepend(h: Heap, m: Move, run: seq<Move>, g: Heap)
    requires Exclusive(h) && Enabled(h, m) && Reaches(Next(h, m), run, g)
    ensures Reaches(h, [m] + run, g)
  {
    hide Exclusive, PcsOk, Next;
    OnlyPcs(h);
    assert ([m] + run)[1..] == run;
  }

  lemma {:induction false} Concat(h: Heap, run: seq<Move>, g: Heap, more: seq<Move>, f: Heap)
    requires Reaches(h, run, g) && Reaches(g, more, f)
    ensures Reaches(h, run + more, f)
    decreases |run|
  {
    hide PcsOk, Next;
    if run == [] {
      assert run + more == more;
    } else {
      Concat(Next(h, run[0]), run[1..], g, more, f);
      assert (run + more)[1..] == run[1..] + more;
    }
  }

  // ---- One thread allocates without interruption ---------------------------------------

  ghost predicate HasFree(h: Heap, from: nat) {
    exists b: nat :: from <= b < h.maxBlocks && IsFree(h, b)
  }

  /** A thread that scans from word `w` on finds a word it can use. */
  lemma {:induction false} ScanFinds(h: Heap, t: nat, w: nat) returns (run: seq<Move>, g: Heap)
    requires Exclusive(h) && t < |h.threads| && h.threads[t] == Scan(w) && HasFree(h, WORD_BITS * w)
    ensures Exclusive(g) && Reaches(h, run, g)
    ensures |g.threads| == |h.threads| && g == h.(threads := h.threads[t := g.threads[t]])
    ensures g.threads[t].Loaded? && g.threads[t].w < |g.words| && g.words[g.threads[t].w] == g.threads[t].seen
    decreases |h.words| - w
  {
    OnlyPcs(h);
    var step := Run(t, false);
    ExclusiveKept(h, step);
    var next := Next(h, step);
    WordDecides(h, w);
    if Usable(h.maxBlocks, w, h.words[w]) {
      g, run := next, [step] + [];
      Prepend(h, step, [], g);
    } else {
      assert next.threads[t] == Scan(w + 1) && next == h.(threads := next.threads);
      SameWordsFree(h, next, WORD_BITS * (w + 1));
      hide Exclusive, Reaches, PcsOk;
      var rest;
      rest, g := ScanFinds(next, t, w + 1);
      run := [step] + rest;
      Prepend(h, step, rest, g);
    }
  }

  lemma SameWordsFree(h: Heap, g: Heap, from: nat)
    requires HasFree(h, from) && g.words == h.words && g.maxBlocks == h.maxBlocks
    ensures HasFree(g, from)
  {
    var b: nat :| from <= b < h.maxBlocks && IsFree(h, b);
    assert IsFree(g, b);
  }

  /** A word with no usable bit holds no free block, so there is one further on. */
  lemma WordDecides(h: Heap, w: nat)
    requires PcsOk(h) && HasFree(h, WORD_BITS * w)
    ensures w < |h.words| && (Usable(h.maxBlocks, w, h.words[w]) || HasFree(h, WORD_BITS * (w + 1)))
  {
    var b: nat :| WORD_BITS * w <= b < h.maxBlocks && IsFree(h, b);
    if b < WORD_BITS * (w + 1) {
      BlockParts(w, b - WORD_BITS * w);
      assert b % WORD_BITS in h.words[w];
    }
  }

  /** Thread `t` alone calls `alloc` and wins some free block. */
  lemma ClaimsAlone(h: Heap, t: nat) returns (run: seq<Move>, g: Heap, b: nat)
    requires Exclusive(h) && t < |h.threads| && h.threads[t].Idle? && !h.locked && HasFree(h, 0)
    ensures Exclusive(g) && Reaches(h, run, g)
    ensures b < h.maxBlocks && IsFree(h, b) && b !in h.live
    ensures g == h.(words := g.words, threads := h.threads[t := Claimed(b)])
    ensures forall c: nat :: IsFree(g, c) <==> IsFree(h, c) && c != b
  {
    OnlyPcs(h);
    var call, step := CallAlloc(t), Run(t, false);
    ExclusiveKept(h, call);
    var h1 := Next(h, call);
    SameWordsFree(h, h1, 0);
    var run1, h2 := ScanFinds(h1, t, 0);
    ClaimTakesFree(h2, t);
    ExclusiveKept(h2, step);
    g := Next(h2, step);
    b := g.threads[t].block;
    FreeAgain(h, h2);
    NotLive(h, b);
    assert g.threads == h.threads[t := Claimed(b)];
    hide Next, Exclusive, IsFree, Reaches;
    NoMoves(g);
    Prepend(h2, step, [], g);
    Concat(h1, run1, h2, [step] + [], g);
    run := [call] + (run1 + ([step] + []));
    Prepend(h, call, run1 + ([step] + []), g);
  }

  lemma NoMoves(h: Heap)
    ensures Reaches(h, [], h)
  {
  }

  /** Thread `t` allocates some free block from first step to last; the peak follows. */
  lemma AllocatesAlone(h: Heap, t: nat) returns (run: seq<Move>, g: Heap, b: nat)
    requires Exclusive(h) && t < |h.threads| && h.threads[t].Idle? && !h.locked
    requires HasFree(h, 0) && h.inUse >= h.peak
    ensures Exclusive(g) && Reaches(h, run, g)
    ensures b < h.maxBlocks && IsFree(h, b) && b !in h.live && g.live == h.live + {b}
    ensures g.threads == h.threads && g.peak == g.inUse == h.inUse + 1
    ensures g.maxBlocks == h.maxBlocks && g.locked == h.locked
    ensures forall c: nat :: IsFree(g, c) <==> IsFree(h, c) && c != b
  {
    hide Exclusive, IsFree, Reaches, HasFree;
    var run1, h1, claimed := ClaimsAlone(h, t);
    b := claimed;
    var run2;
    run2, g := FinishesAlloc(h1, t, h.threads);
    FreeAgain(h1, g);
    run := run1 + run2;
    Concat(h, run1, h1, run2, g);
  }

  lemma NotLive(h: Heap, b: nat)
    requires Exclusive(h) && IsFree(h, b)
    ensures b !in h.live
  {
  }

  lemma FreeAgain(h: Heap, g: Heap)
    requires g.words == h.words
    ensures forall b: nat :: IsFree(g, b) <==> IsFree(h, b)
  {
  }

  lemma FinishesAlloc(h: Heap, t: nat, threads: seq<Pc>) returns (run: seq<Move>, g: Heap)
    requires Exclusive(h) && t < |h.threads| && h.threads[t].Claimed? && h.inUse >= h.peak
    requires t < |threads| && threads[t].Idle? && h.threads == threads[t := h.threads[t]]
    ensures Exclusive(g) && Reaches(h, run, g)
    ensures g.threads == threads && g.live == h.live + {h.threads[t].block} && g.peak == g.inUse == h.inUse + 1
    ensures g.maxBlocks == h.maxBlocks && g.locked == h.locked && g.words == h.words
  {
    var step := Run(t, false);
    ExclusiveKept(h, step);
    var h1 := Next(h, step);
    ExclusiveKept(h1, step);
    var h2 := Next(h1, step);
    ExclusiveKept(h2, step);
    var h3 := Next(h2, step);
    ExclusiveKept(h3, step);
    g := Next(h3, step);
    assert g.threads == threads;
    hide Next, Exclusive;
    Prepend(h3, step, [], g);
    Prepend(h2, step, [step] + [], g);
    Prepend(h1, step, [step] + ([step] + []), g);
    Prepend(h, step, [step] + ([step] + ([step] + [])), g);
    run := [step] + ([step] + ([step] + ([step] + [])));
  }

  // ---- The arena fills up -----------------------------------------------------------------

  ghost predicate Full(h: Heap) { forall b: nat :: b < h.maxBlocks ==> b in h.live }

  /** Thread `t` allocates until every block is taken. */
  lemma {:induction false} FillsUp(h: Heap, t: nat) returns (run: seq<Move>, g: Heap)
    requires Exclusive(h) && AtRest(h) && t < |h.threads| && !h.locked && h.inUse == h.peak == |h.live|
    ensures Exclusive(g) && Reaches(h, run, g)
    ensures g.threads == h.threads && Full(g) && g.inUse == g.peak == h.maxBlocks
    ensures g.maxBlocks == h.maxBlocks && !g.locked
    decreases h.maxBlocks - |h.live|
  {
    LiveAtMost(h);
    if HasFree(h, 0) {
      var run0, h1, b := AllocatesAlone(h, t);
      LiveAtMost(h1);
      assert |h1.live| == |h.live| + 1;
      hide Exclusive, Reaches;
      var rest;
      rest, g := FillsUp(h1, t);
      run := run0 + rest;
      Concat(h, run0, h1, rest, g);
    } else {
      run, g := [], h;
      NoneFree(h);
    }
  }

  lemma LiveAtMost(h: Heap)
    requires Exclusive(h)
    ensures |h.live| <= h.maxBlocks
  {
    AtMost(h.live, h.maxBlocks);
  }

  lemma NoneFree(h: Heap)
    requires Exclusive(h) && AtRest(h) && !HasFree(h, 0)
    ensures Full(h) && |h.live| == h.maxBlocks
  {
    forall b: nat | b < h.maxBlocks ensures b in h.live {
      assert !IsFree(h, b);
      assert Held(h, b);
    }
    assert h.live == Ones(h.maxBlocks);
    OnesCount(h.maxBlocks);
  }

  lemma {:induction false} OnesCount(n: nat)
    ensures |Ones(n)| == n
  {
    if n > 0 { OnesCount(n - 1); }
  }

  // ---- One block given back, and taken again before it leaves in_use --------------------------

  /** Thread `t` frees block `b` up to the point where the block is free and still counted. */
  lemma GivesBack(h: Heap, t: nat, b: nat) returns (run: seq<Move>, g: Heap)
    requires Exclusive(h) && t < |h.threads| && h.threads[t].Idle? && b in h.live
    ensures Exclusive(g) && Reaches(h, run, g)
    ensures g.threads == h.threads[t := Freed] && g.live == h.live - {b} && g.inUse == h.inUse && g.peak == h.peak
    ensures g.maxBlocks == h.maxBlocks && g.locked == h.locked
    ensures forall c: nat :: c < h.maxBlocks ==> (IsFree(g, c) <==> IsFree(h, c) || c == b)
  {
    var call, step := CallDealloc(t, b), Run(t, false);
    ExclusiveKept(h, call);
    var h1 := Next(h, call);
    FreeAgain(h, h1);
    ReleaseFrees(h1, t);
    ExclusiveKept(h1, step);
    g := Next(h1, step);
    hide Next, Exclusive, IsFree;
    Prepend(h1, step, [], g);
    Prepend(h, call, [step] + [], g);
    run := [call] + ([step] + []);
  }

  /** `k` threads have given a block back without leaving in_use, the others are idle, and the arena is full. */
  ghost predicate Piled(h: Heap, k: nat) {
    && Exclusive(h) && Full(h) && !h.locked && h.maxBlocks > 0 && k < |h.threads|
    && (forall t :: 0 <= t < |h.threads| ==> h.threads[t] == if t < k then Freed else Idle)
    && h.inUse == h.peak == h.maxBlocks + k
  }

  lemma OneMore(h: Heap, k: nat) returns (run: seq<Move>, g: Heap)
    requires Piled(h, k) && k < |h.threads| - 1
    ensures Reaches(h, run, g) && Piled(g, k + 1) && g.maxBlocks == h.maxBlocks && |g.threads| == |h.threads|
  {
    NothingFree(h);
    hide Exclusive, Reaches, IsFree;
    var run1, h1 := GivesBack(h, k, 0);
    assert HasFree(h1, 0) by { assert IsFree(h1, 0); }
    var run2, h2, b := AllocatesAlone(h1, |h.threads| - 1);
    assert b == 0;
    run, g := run1 + run2, h2;
    Concat(h, run1, h1, run2, h2);
  }

  lemma NothingFree(h: Heap)
    requires Exclusive(h) && Full(h)
    ensures forall b: nat :: b < h.maxBlocks ==> !IsFree(h, b)
  {
    forall b: nat | b < h.maxBlocks ensures !IsFree(h, b) { assert b in h.live; }
  }

  lemma {:induction false} PilesUp(h: Heap, k: nat) returns (run: seq<Move>, g: Heap)
    requires Piled(h, k)
    ensures Reaches(h, run, g) && Piled(g, |h.threads| - 1) && g.maxBlocks == h.maxBlocks && |g.threads| == |h.threads|
    decreases |h.threads| - k
  {
    if k == |h.threads| - 1 {
      run, g := [], h;
    } else {
      var run0, h1 := OneMore(h, k);
      hide Piled, Reaches;
      var rest;
      rest, g := PilesUp(h1, k + 1);
      run := run0 + rest;
      Concat(h, run0, h1, rest, g);
    }
  }

  // ---- The bound is reached, and the exact condition --------------------------------------------

  /** For every number of blocks and of threads there is a run whose peak is the blocks plus the other threads. */
  lemma PeakAttained(h: Heap) returns (run: seq<Move>, g: Heap)
    requires Initial(h) && h.maxBlocks > 0 && |h.threads| > 0
    ensures Reaches(h, run, g) && g.peak == h.maxBlocks + |h.threads| - 1
  {
    InitialOk(h);
    var run0, h1 := FillsUp(h, 0);
    assert Piled(h1, 0);
    hide Exclusive, Reaches, UseOk, PeakOk;
    var rest;
    rest, g := PilesUp(h1, 0);
    run := run0 + rest;
    Concat(h, run0, h1, rest, g);
  }

  /** The peak is documented as the most blocks live at a time, so never more than there are. Over all runs that
      holds exactly for a single thread, or an allocator without blocks. */
  lemma PeakWithinBlocksExactly(h: Heap)
    requires Initial(h)
    ensures (forall run, g :: Reaches(h, run, g) ==> g.peak <= h.maxBlocks) <==> |h.threads| <= 1 || h.maxBlocks == 0
  {
    hide Initial, Reaches;
    if |h.threads| <= 1 || h.maxBlocks == 0 {
      forall run, g | Reaches(h, run, g) ensures g.peak <= h.maxBlocks { InEveryInterleaving(h, run, g); }
    } else {
      var run, g := PeakAttained(h);
      assert Reaches(h, run, g) && g.peak > h.maxBlocks;
    }
  }
}
