/** A failed allocation is documented to mean that the arena is fully allocated. Each word is read at its own time,
    so over all interleavings that holds exactly with at most two threads or a single bitmap word. */
module AllocFull {
  import opened Bits
  import opened AllocConcurrent
  import opened AllocCounters
  import opened AllocPeak
  import opened AllocFails

  /** At some point of the run no block is free. */
  ghost predicate SawFull(h: Heap, run: seq<Move>) {
    exists n: nat, f :: n <= |run| && Reaches(h, run[..n], f) && !HasFree(f, 0)
  }

  lemma SawFullLater(h: Heap, run: seq<Move>)
    requires run != [] && PcsOk(h) && Enabled(h, run[0]) && SawFull(Next(h, run[0]), run[1..])
    ensures SawFull(h, run)
  {
    hide PcsOk, HasFree, Next;
    var n: nat, f :| n <= |run[1..]| && Reaches(Next(h, run[0]), run[1..][..n], f) && !HasFree(f, 0);
    assert run[..n + 1][1..] == run[1..][..n];
    assert Reaches(h, run[..n + 1], f);
  }

  lemma SawFullNow(h: Heap, run: seq<Move>)
    requires !HasFree(h, 0)
    ensures SawFull(h, run)
  {
    assert Reaches(h, run[..0], h);
  }

  // ---- Where failing means full ---------------------------------------------------------

  /** The words that two searches have passed hold no free block. */
  ghost predicate Passed(h: Heap, w: nat, v: nat) {
    forall b: nat :: b < h.maxBlocks && b / WORD_BITS < w && b / WORD_BITS < v ==> !IsFree(h, b)
  }

  /** A block is free where thread `t` still has to look, and none is free where another search has passed too. */
  ghost predicate Calm(h: Heap, t: nat) {
    && t < |h.threads| && Searching(h.threads[t]) && HasFree(h, WORD_BITS * h.threads[t].w)
    && forall o :: 0 <= o < |h.threads| && o != t && Searching(h.threads[o]) ==>
         Passed(h, h.threads[t].w, h.threads[o].w)
  }

  ghost predicate Few(h: Heap) { |h.threads| <= 2 || h.maxBlocks <= WORD_BITS }

  lemma NonePassed(h: Heap, t: nat)
    requires PcsOk(h) && t < |h.threads| && Searching(h.threads[t]) && HasFree(h, WORD_BITS * h.threads[t].w)
    ensures h.threads[t].w < |h.words| && (h.maxBlocks <= WORD_BITS ==> h.threads[t].w == 0)
  {
    WordDecides(h, h.threads[t].w);
  }

  /** Fewer free blocks leave nothing free where nothing was. */
  lemma PassedKept(h: Heap, g: Heap, w: nat, v: nat)
    requires Passed(h, w, v) && g.maxBlocks == h.maxBlocks && forall b: nat :: IsFree(g, b) ==> IsFree(h, b)
    ensures Passed(g, w, v)
  {
  }

  lemma PassedOneMore(h: Heap, w: nat, v: nat)
    requires PcsOk(h) && Passed(h, w, v) && w < |h.words| && !Usable(h.maxBlocks, w, h.words[w])
    ensures Passed(h, w + 1, v)
  {
    hide IsFree;
    forall b: nat | b < h.maxBlocks && b / WORD_BITS < w + 1 && b / WORD_BITS < v ensures !IsFree(h, b) {
      if b / WORD_BITS == w { NoUsableBit(h, w, b); }
    }
  }

  lemma PassedSwaps(h: Heap, w: nat, v: nat)
    ensures Passed(h, w, v) <==> Passed(h, v, w)
  {
  }

  lemma OwnStep(h: Heap, t: nat, spurious: bool)
    requires PcsOk(h) && Calm(h, t) && Searching(Operate(h, t, spurious).threads[t])
    ensures Calm(Operate(h, t, spurious), t)
  {
    hide IsFree, PcsOk, Usable, Passed;
    var g := Operate(h, t, spurious);
    var w := h.threads[t].w;
    assert g == h.(threads := h.threads[t := g.threads[t]]) && g.threads[t].w in {w, w + 1};
    WordDecides(h, w);
    SameWordsFree(h, g, WORD_BITS * w);
    if g.threads[t].w == w + 1 { SameWordsFree(h, g, WORD_BITS * (w + 1)); }
    FreeAgain(h, g);
    forall o | 0 <= o < |g.threads| && o != t && Searching(g.threads[o])
      ensures Passed(g, g.threads[t].w, g.threads[o].w)
    {
      if g.threads[t].w == w + 1 { PassedOneMore(h, w, h.threads[o].w); }
      PassedKept(h, g, g.threads[t].w, g.threads[o].w);
    }
  }

  /** A step of another thread that takes nothing and frees nothing. */
  lemma SearchersStep(h: Heap, m: Move, t: nat)
    requires PcsOk(h) && Enabled(h, m) && Calm(h, t) && Next(h, m).threads[t] == h.threads[t]
    requires Next(h, m).words == h.words
    ensures Calm(Next(h, m), t)
  {
    hide IsFree, PcsOk, Usable, Passed;
    var g := Next(h, m);
    var w := h.threads[t].w;
    SameWordsFree(h, g, WORD_BITS * w);
    FreeAgain(h, g);
    forall o | 0 <= o < |g.threads| && o != t && Searching(g.threads[o])
      ensures Passed(g, w, g.threads[o].w)
    {
      SearcherMoves(h, m, w, o);
      PassedKept(h, g, w, g.threads[o].w);
    }
  }

  lemma SearcherMoves(h: Heap, m: Move, w: nat, o: nat)
    requires PcsOk(h) && Enabled(h, m) && o < |h.threads|
    requires Searching(h.threads[o]) ==> Passed(h, w, h.threads[o].w)
    ensures o < |Next(h, m).threads|
    ensures Searching(Next(h, m).threads[o]) ==> Passed(h, w, Next(h, m).threads[o].w)
  {
    hide IsFree, PcsOk, Usable;
    var pc, pc' := h.threads[o], Next(h, m).threads[o];
    if pc.Scan? && pc'.Scan? && pc'.w == pc.w + 1 {
      PassedSwaps(h, w, pc.w);
      PassedOneMore(h, pc.w, w);
      PassedSwaps(h, w, pc.w + 1);
    }
  }

  /** Another thread wins a block. If it was the last one ahead of thread `t`, the arena is full. */
  lemma WinStep(h: Heap, t: nat, o: nat)
    requires Exclusive(h) && Calm(h, t) && o < |h.threads| && o != t
    requires h.threads[o].Loaded? && h.words[h.threads[o].w] == h.threads[o].seen
    ensures var g := Operate(h, o, false); Calm(g, t) || !HasFree(g, 0)
  {
    ClaimTakesFree(h, o);
    hide IsFree, PcsOk, PcOk, Exclusive;
    var g := Operate(h, o, false);
    var w, v := h.threads[t].w, h.threads[o].w;
    var x := g.threads[o].block;
    BlockParts(v, TrailingZeros(h.threads[o].seen));
    if HasFree(g, WORD_BITS * w) {
      forall q | 0 <= q < |g.threads| && q != t && Searching(g.threads[q]) ensures Passed(g, w, g.threads[q].w) {
        PassedKept(h, g, w, h.threads[q].w);
      }
    } else {
      var y: nat :| WORD_BITS * w <= y < h.maxBlocks && IsFree(h, y);
      assert y == x && v >= w;
      forall b: nat | b < g.maxBlocks ensures !IsFree(g, b) { assert b / WORD_BITS < w || WORD_BITS * w <= b; }
    }
  }

  /** Another thread gives a block back: with few threads or blocks no other search is affected. */
  lemma ReleaseStep(h: Heap, t: nat, o: nat)
    requires Exclusive(h) && Few(h) && Calm(h, t) && o < |h.threads| && o != t && h.threads[o].Freeing?
    ensures Calm(Operate(h, o, false), t)
  {
    ReleaseFrees(h, o);
    OnlyPcs(h);
    NonePassed(h, t);
    hide IsFree, PcsOk, PcOk, Exclusive;
    var g := Operate(h, o, false);
    var w := h.threads[t].w;
    var y: nat :| WORD_BITS * w <= y < h.maxBlocks && IsFree(h, y);
    assert IsFree(g, y);
    forall q | 0 <= q < |g.threads| && q != t && Searching(g.threads[q]) ensures Passed(g, w, g.threads[q].w) {
      assert q != o;
    }
  }

  lemma OtherStep(h: Heap, m: Move, t: nat)
    requires Exclusive(h) && Few(h) && Enabled(h, m) && Calm(h, t) && m != Run(t, false) && m != Run(t, true)
    requires PcsOk(h)
    ensures Calm(Next(h, m), t) || !HasFree(Next(h, m), 0)
  {
    OtherThread(h, m, t);
    if m.Run? && h.threads[m.t].Freeing? {
      ReleaseStep(h, t, m.t);
    } else if m.Run? && h.threads[m.t].Loaded? && h.words[h.threads[m.t].w] == h.threads[m.t].seen {
      WinStep(h, t, m.t);
    } else {
      SameWordsAfter(h, m);
      SearchersStep(h, m, t);
    }
  }

  lemma SameWordsAfter(h: Heap, m: Move)
    requires PcsOk(h) && Enabled(h, m)
    requires m.Run? ==> !h.threads[m.t].Freeing?
    requires m.Run? && h.threads[m.t].Loaded? ==> h.words[h.threads[m.t].w] != h.threads[m.t].seen
    ensures Next(h, m).words == h.words
  {
    hide PcsOk, Usable;
  }

  /** With few threads or blocks, a search that ends past the last word saw the arena full. */
  lemma {:induction false} SearchSawFull(h: Heap, t: nat, run: seq<Move>, u: Heap)
    requires Exclusive(h) && Few(h) && Busy(h, run, t) && Reaches(h, run, u) && Calm(h, t)
    requires t < |u.threads| && u.threads[t].Scan? && u.threads[t].w >= |u.words|
    ensures SawFull(h, run)
    decreases |run|
  {
    hide PcsOk, Next, Exclusive, HasFree, Passed, SawFull;
    OnlyPcs(h);
    NonePassed(h, t);
    var m, g := run[0], Next(h, run[0]);
    ExclusiveKept(h, m);
    SameThreads(h, m);
    AllocStep(h, m, t);
    if Winning(g.threads[t]) {
      WinningStays(g, t, run[1..], u);
      assert false;
    } else {
      if m == Run(t, false) || m == Run(t, true) { OwnMove(h, m, t); } else { OtherStep(h, m, t); }
      if HasFree(g, 0) { SearchSawFull(g, t, run[1..], u); } else { SawFullNow(g, run[1..]); }
      SawFullLater(h, run);
    }
  }

  lemma OwnMove(h: Heap, m: Move, t: nat)
    requires PcsOk(h) && Enabled(h, m) && (m == Run(t, false) || m == Run(t, true))
    requires Calm(h, t) && Searching(Next(h, m).threads[t])
    ensures Calm(Next(h, m), t)
  {
    OwnStep(h, t, m.spurious);
  }

  /** With at most two threads, or a single bitmap word, an allocation fails only if the arena was full at some
      point between the call and its return. */
  lemma FailsOnlyWhenFull(h: Heap, t: nat, run: seq<Move>, u: Heap, spurious: bool)
    requires Exclusive(h) && Few(h) && FailedCall(h, t, run, u, spurious)
    ensures SawFull(Next(h, CallAlloc(t)), run)
  {
    hide PcsOk, Exclusive, Busy, Reaches, SawFull, Passed;
    var h1 := Next(h, CallAlloc(t));
    ExclusiveKept(h, CallAlloc(t));
    ExclusiveReached(h1, run, u);
    InAlloc(h1, t, run, u);
    ExclusiveKept(u, Run(t, spurious));
    if Winning(u.threads[t]) {
      WonIsNew(u, t);
      assert false;
    } else if HasFree(h1, 0) {
      assert h1.threads[t] == Scan(0);
      forall o | 0 <= o < |h1.threads| && Searching(h1.threads[o]) ensures Passed(h1, 0, h1.threads[o].w) {
        NothingPassed(h1, h1.threads[o].w);
      }
      SearchSawFull(h1, t, run, u);
    } else {
      SawFullNow(h1, run);
    }
  }

  lemma NothingPassed(h: Heap, v: nat)
    ensures Passed(h, 0, v)
  {
  }

  // ---- Where it does not ------------------------------------------------------------------

  ghost predicate NeverFull(h: Heap, run: seq<Move>)
    decreases |run|
  {
    && HasFree(h, 0)
    && (run != [] ==> PcsOk(h) && Enabled(h, run[0]) && NeverFull(Next(h, run[0]), run[1..]))
  }

  /** The run leads to `u`, thread `t` does not come back, and some block is always free. */
  ghost predicate Path(h: Heap, run: seq<Move>, t: nat, u: Heap) {
    Busy(h, run, t) && Reaches(h, run, u) && NeverFull(h, run)
  }

  lemma {:induction false} NeverSawFull(h: Heap, run: seq<Move>, n: nat, f: Heap)
    requires NeverFull(h, run) && n <= |run| && Reaches(h, run[..n], f)
    ensures HasFree(f, 0)
    decreases n
  {
    hide PcsOk, HasFree, Next;
    if n > 0 {
      assert run[..n][1..] == run[1..][..n - 1];
      NeverSawFull(Next(h, run[0]), run[1..], n - 1, f);
    }
  }

  lemma Extend(h: Heap, m: Move, run: seq<Move>, t: nat, u: Heap)
    requires Exclusive(h) && Enabled(h, m) && t < |h.threads| && !h.threads[t].Idle? && HasFree(h, 0)
    requires PcsOk(h) && Path(Next(h, m), run, t, u)
    ensures Path(h, [m] + run, t, u)
  {
    hide Exclusive, PcsOk, HasFree, Next;
    assert ([m] + run)[1..] == run;
  }

  lemma SomeFree(h: Heap, b: nat)
    requires b < h.maxBlocks && IsFree(h, b)
    ensures HasFree(h, 0)
  {
  }

  /** A search passes a word without a free block. */
  lemma PassesWord(h: Heap, t: nat, w: nat)
    requires PcsOk(h) && t < |h.threads| && h.threads[t] == Scan(w) && w < |h.words|
    requires forall b: nat :: b < h.maxBlocks && b / WORD_BITS == w ==> !IsFree(h, b)
    ensures Operate(h, t, false) == h.(threads := h.threads[t := Scan(w + 1)])
  {
    if Usable(h.maxBlocks, w, h.words[w]) {
      var bit := TrailingZeros(h.words[w]);
      BlockParts(w, bit);
      assert IsFree(h, WORD_BITS * w + bit);
    }
  }

  /** A search stops at a word with a free block. */
  lemma StopsAtWord(h: Heap, t: nat, b: nat)
    requires PcsOk(h) && t < |h.threads| && b < h.maxBlocks && IsFree(h, b) && h.threads[t] == Scan(b / WORD_BITS)
    ensures Operate(h, t, false) == h.(threads := h.threads[t := Loaded(b / WORD_BITS, h.words[b / WORD_BITS])])
  {
    assert b % WORD_BITS in h.words[b / WORD_BITS];
    assert TrailingZeros(h.words[b / WORD_BITS]) <= b % WORD_BITS;
  }

  lemma {:induction false} PassesRest(h: Heap, t: nat, w: nat) returns (run: seq<Move>, u: Heap)
    requires Exclusive(h) && t < |h.threads| && h.threads[t] == Scan(w) && w <= |h.words| && HasFree(h, 0)
    requires forall b: nat :: b < h.maxBlocks && b / WORD_BITS >= w ==> !IsFree(h, b)
    ensures Path(h, run, t, u) && Exclusive(u) && u == h.(threads := h.threads[t := Scan(|h.words|)])
    decreases |h.words| - w
  {
    if w == |h.words| {
      run, u := [], h;
      assert h.threads == h.threads[t := Scan(w)];
    } else {
      OnlyPcs(h);
      PassesWord(h, t, w);
      var m := Run(t, false);
      ExclusiveKept(h, m);
      var g := Next(h, m);
      assert g == h.(threads := h.threads[t := Scan(w + 1)]);
      FreeAgain(h, g);
      SameWordsFree(h, g, 0);
      hide Exclusive, PcsOk, HasFree, Path, IsFree;
      var rest;
      rest, u := PassesRest(g, t, w + 1);
      run := [m] + rest;
      Extend(h, m, rest, t, u);
    }
  }

  /** The only free block is `x`. */
  ghost predicate Only(h: Heap, x: nat) {
    x < h.maxBlocks && forall b: nat :: b < h.maxBlocks ==> (IsFree(h, b) <==> b == x)
  }

  /** Thread 0 is about to win block 64, the only free one; thread 1 is idle and thread 2 can give block 0 back. */
  ghost predicate Poised(h: Heap) {
    && Exclusive(h) && |h.threads| >= 3 && h.maxBlocks > WORD_BITS && !h.locked && Only(h, WORD_BITS) && 0 in h.live
    && |h.words| >= 2 && h.threads[0] == Loaded(1, h.words[1]) && h.threads[1] == Idle && h.threads[2] == Idle
  }

  /** Thread `t` frees block `b` from first step to last. */
  lemma FreesWhole(h: Heap, t: nat, b: nat) returns (run: seq<Move>, g: Heap)
    requires Exclusive(h) && t < |h.threads| && h.threads[t].Idle? && b in h.live
    ensures Exclusive(g) && Reaches(h, run, g)
    ensures g.threads == h.threads && g.live == h.live - {b} && g.maxBlocks == h.maxBlocks && g.locked == h.locked
    ensures forall c: nat :: c < h.maxBlocks ==> (IsFree(g, c) <==> IsFree(h, c) || c == b)
  {
    hide IsFree, HasFree;
    var step := Run(t, false);
    var run1, h1 := GivesBack(h, t, b);
    ExclusiveKept(h1, step);
    var h2 := Next(h1, step);
    ExclusiveKept(h2, step);
    g := Next(h2, step);
    FreeAgain(h1, g);
    assert g.threads == h.threads;
    hide Next, Exclusive, Reaches;
    NoMoves(g);
    Prepend(h2, step, [], g);
    Prepend(h1, step, [step] + [], g);
    run := run1 + ([step] + ([step] + []));
    Concat(h, run1, h1, [step] + ([step] + []), g);
  }

  lemma OneFree(h: Heap, g: Heap, b: nat)
    requires Exclusive(h) && Full(h) && g.maxBlocks == h.maxBlocks && b < h.maxBlocks
    requires forall c: nat :: c < h.maxBlocks ==> (IsFree(g, c) <==> IsFree(h, c) || c == b)
    ensures Only(g, b)
  {
    NothingFree(h);
  }

  /** Thread 0 calls `alloc` and searches up to the word of the only free block, the second one. */
  lemma GetsPoised(h: Heap) returns (run: seq<Move>, g: Heap)
    requires Exclusive(h) && AtRest(h) && |h.threads| >= 3 && h.maxBlocks > WORD_BITS && !h.locked
    requires Only(h, WORD_BITS) && 0 in h.live
    ensures Reaches(h, run, g) && Poised(g)
  {
    var call, step := CallAlloc(0), Run(0, false);
    InRange(WORD_BITS, h.maxBlocks);
    OnlyPcs(h);
    ExclusiveKept(h, call);
    var h1 := Next(h, call);
    FreeAgain(h, h1);
    OnlyPcs(h1);
    PassesWord(h1, 0, 0);
    ExclusiveKept(h1, step);
    var h2 := Next(h1, step);
    FreeAgain(h, h2);
    OnlyPcs(h2);
    StopsAtWord(h2, 0, WORD_BITS);
    ExclusiveKept(h2, step);
    g := Next(h2, step);
    FreeAgain(h, g);
    hide Next, Exclusive, Reaches, IsFree;
    NoMoves(g);
    Prepend(h2, step, [], g);
    Prepend(h1, step, [step] + [], g);
    Prepend(h, call, [step] + ([step] + []), g);
    run := [call] + ([step] + ([step] + []));
  }

  /** Thread 2 gives block 0 back. */
  lemma SecondFree(h: Heap)
    requires Exclusive(h) && |h.threads| >= 3 && h.threads[2] == Idle && 0 in h.live
    requires h.maxBlocks > WORD_BITS && Only(h, WORD_BITS) && |h.words| >= 2
    ensures PcsOk(h) && Enabled(h, CallDealloc(2, 0))
    ensures var h1 := Next(h, CallDealloc(2, 0));
            && Exclusive(h1) && PcsOk(h1) && Only(h1, WORD_BITS) && Enabled(h1, Run(2, false))
            && var g := Next(h1, Run(2, false));
               && Exclusive(g) && g.words[1..] == h.words[1..] && |g.words| == |h.words| && g.maxBlocks == h.maxBlocks
               && h1.threads == h.threads[2 := Freeing(0)] && g.threads == h.threads[2 := Freed]
               && forall b: nat :: b < h.maxBlocks ==> (IsFree(g, b) <==> b == 0 || b == WORD_BITS)
  {
    OnlyPcs(h);
    ExclusiveKept(h, CallDealloc(2, 0));
    var h1 := Next(h, CallDealloc(2, 0));
    FreeAgain(h, h1);
    OnlyPcs(h1);
    ReleaseFrees(h1, 2);
    ExclusiveKept(h1, Run(2, false));
  }

  /** Thread 0 wins block 64 while block 0 is free. */
  lemma WinsSecond(h: Heap)
    requires Exclusive(h) && |h.threads| >= 3 && h.maxBlocks > WORD_BITS && |h.words| >= 2
    requires h.threads[0] == Loaded(1, h.words[1])
    requires forall b: nat :: b < h.maxBlocks ==> (IsFree(h, b) <==> b == 0 || b == WORD_BITS)
    ensures PcsOk(h) && Enabled(h, Run(0, false))
    ensures var g := Next(h, Run(0, false));
            && Exclusive(g) && Only(g, 0) && g.threads == h.threads[0 := Claimed(WORD_BITS)]
            && |g.words| == |h.words| && g.maxBlocks == h.maxBlocks
  {
    OnlyPcs(h);
    ClaimTakesFree(h, 0);
    ExclusiveKept(h, Run(0, false));
  }

  /** Thread 1 reads the first word before block 0 is free and the second after block 64 is taken. */
  lemma MissesBoth(h: Heap) returns (run: seq<Move>, u: Heap)
    requires Poised(h)
    ensures FailedCall(h, 1, run, u, false) && !SawFull(Next(h, CallAlloc(1)), run)
  {
    OnlyPcs(h);
    ExclusiveKept(h, CallAlloc(1));
    var h1 := Next(h, CallAlloc(1));
    FreeAgain(h, h1);
    OnlyPcs(h1);
    PassesWord(h1, 1, 0);
    var m1 := Run(1, false);
    ExclusiveKept(h1, m1);
    var h2 := Next(h1, m1);
    FreeAgain(h1, h2);
    SecondFree(h2);
    var m2, m3, m4 := CallDealloc(2, 0), Run(2, false), Run(0, false);
    var h3 := Next(h2, m2);
    var h4 := Next(h3, m3);
    assert h4.words[1] == h2.words[1] by { assert h4.words[1..][0] == h2.words[1..][0]; }
    WinsSecond(h4);
    var h5 := Next(h4, m4);
    SomeFree(h1, WORD_BITS);
    SomeFree(h2, WORD_BITS);
    SomeFree(h3, WORD_BITS);
    SomeFree(h4, 0);
    SomeFree(h5, 0);
    hide Exclusive, PcsOk, IsFree, HasFree, Path, Next;
    var rest;
    rest, u := PassesRest(h5, 1, 1);
    OnlyPcs(u);
    Extend(h4, m4, rest, 1, u);
    Extend(h3, m3, [m4] + rest, 1, u);
    Extend(h2, m2, [m3] + ([m4] + rest), 1, u);
    Extend(h1, m1, [m2] + ([m3] + ([m4] + rest)), 1, u);
    run := [m1] + ([m2] + ([m3] + ([m4] + rest)));
    PathFails(h, 1, run, u);
  }

  /** A search that some block was always free for, and that is past the last word, fails without having seen the
      arena full. */
  lemma PathFails(h: Heap, t: nat, run: seq<Move>, u: Heap)
    requires PcsOk(h) && Enabled(h, CallAlloc(t)) && !h.locked && PcsOk(u) && t < |u.threads|
    requires Path(Next(h, CallAlloc(t)), run, t, u) && u.threads[t] == Scan(|u.words|)
    ensures FailedCall(h, t, run, u, false) && !SawFull(Next(h, CallAlloc(t)), run)
  {
    var h1 := Next(h, CallAlloc(t));
    forall n: nat, f | n <= |run| && Reaches(h1, run[..n], f) ensures HasFree(f, 0) { NeverSawFull(h1, run, n, f); }
    hide PcsOk, HasFree, Busy, NeverFull, Reaches;
  }

  lemma FailsThoughNotFull(h: Heap) returns (before: seq<Move>, s: Heap, run: seq<Move>, u: Heap)
    requires Initial(h) && |h.threads| >= 3 && h.maxBlocks > WORD_BITS
    ensures Reaches(h, before, s) && FailedCall(s, 1, run, u, false) && !SawFull(Next(s, CallAlloc(1)), run)
  {
    InitialOk(h);
    var run1, h1 := FillsUp(h, 0);
    var run2, h2 := FreesWhole(h1, 0, WORD_BITS);
    OneFree(h1, h2, WORD_BITS);
    hide Exclusive, UseOk, PeakOk, Reaches, FailedCall, SawFull, Only, Next;
    var run3;
    run3, s := GetsPoised(h2);
    before := run1 + run2 + run3;
    Concat(h, run1, h1, run2, h2);
    Concat(h, run1 + run2, h2, run3, s);
    run, u := MissesBoth(s);
  }

  /** A run to `s`, and from there a failed call during which some block was always free. */
  ghost predicate FailsWithRoom(h: Heap, before: seq<Move>, s: Heap, t: nat, run: seq<Move>, u: Heap, spurious: bool) {
    && Reaches(h, before, s) && FailedCall(s, t, run, u, spurious)
    && !SawFull(Next(s, CallAlloc(t)), run)
  }

  /** An allocation is documented to fail only if the arena is fully allocated. Over all runs, and at whatever point
      of the call, that holds exactly with at most two threads or at most one word of blocks. */
  lemma FailsWhenFullExactly(h: Heap)
    requires Initial(h)
    ensures (forall before, s, t, run, u, spurious :: !FailsWithRoom(h, before, s, t, run, u, spurious))
            <==> |h.threads| <= 2 || h.maxBlocks <= WORD_BITS
  {
    hide Initial, Reaches, FailedCall, SawFull;
    if |h.threads| <= 2 || h.maxBlocks <= WORD_BITS {
      forall before, s, t, run, u, spurious ensures !FailsWithRoom(h, before, s, t, run, u, spurious) {
        if Reaches(h, before, s) && FailedCall(s, t, run, u, spurious) {
          InEveryInterleaving(h, before, s);
          FailsOnlyWhenFull(s, t, run, u, spurious);
        }
      }
    } else {
      var before, s, run, u := FailsThoughNotFull(h);
      assert FailsWithRoom(h, before, s, 1, run, u, false);
    }
  }
}
