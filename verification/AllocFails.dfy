/** When a concurrent allocation may come back empty-handed: only if every block was taken at some point of the
    call, so never while some block stays free. */
module AllocFails {
  import opened Bits
  import opened AllocConcurrent
  import opened AllocCounters
  import opened AllocPeak

  /** Looking for a block. */
  predicate Searching(pc: Pc) { pc.Scan? || pc.Loaded? }

  /** Thread `t` does not come back during the run. */
  ghost predicate Busy(h: Heap, run: seq<Move>, t: nat)
    decreases |run|
  {
    && t < |h.threads| && !h.threads[t].Idle?
    && (run != [] ==> PcsOk(h) && Enabled(h, run[0]) && Busy(Next(h, run[0]), run[1..], t))
  }

  /** A call of `alloc` by thread `t`: during `run` any thread may do anything, and after it, at `u`, the next
      operation of `t` brings it back without a block. */
  ghost predicate FailedCall(h: Heap, t: nat, run: seq<Move>, u: Heap, spurious: bool) {
    && PcsOk(h) && Enabled(h, CallAlloc(t)) && !h.locked
    && Busy(Next(h, CallAlloc(t)), run, t) && Reaches(Next(h, CallAlloc(t)), run, u)
    && PcsOk(u) && Enabled(u, Run(t, spurious))
    && var g := Next(u, Run(t, spurious)); g.threads[t].Idle? && g.live == u.live
  }

  // ---- The search -------------------------------------------------------------------

  lemma OtherThread(h: Heap, m: Move, t: nat)
    requires PcsOk(h) && Enabled(h, m) && t < |h.threads| && !h.threads[t].Idle?
    requires m != Run(t, false) && m != Run(t, true)
    ensures Next(h, m).threads[t] == h.threads[t]
  {
    hide PcsOk, Usable;
  }

  /** A word without a usable bit holds no free block. */
  lemma NoUsableBit(h: Heap, w: nat, b: nat)
    requires PcsOk(h) && w < |h.words| && !Usable(h.maxBlocks, w, h.words[w]) && b < h.maxBlocks && b / WORD_BITS == w
    ensures !IsFree(h, b)
  {
  }

  /** Every step of the search: the thread wins a block, or still has the word of `b` ahead of it, or `b` was not
      free when that word was read. */
  lemma SearchStep(h: Heap, m: Move, t: nat, b: nat)
    requires PcsOk(h) && Enabled(h, m) && t < |h.threads| && b < h.maxBlocks
    requires Searching(h.threads[t]) && h.threads[t].w <= b / WORD_BITS
    ensures var pc := Next(h, m).threads[t];
            Winning(pc) || (Searching(pc) && pc.w <= b / WORD_BITS) || (!IsFree(h, b) && !pc.Idle?)
  {
    hide IsFree, Usable;
    if m == Run(t, false) || m == Run(t, true) {
      InRange(b, h.maxBlocks);
      var w := h.threads[t].w;
      if h.threads[t].Scan? && !Usable(h.maxBlocks, w, h.words[w]) && w == b / WORD_BITS { NoUsableBit(h, w, b); }
    } else {
      OtherThread(h, m, t);
    }
  }

  lemma WinningStep(h: Heap, m: Move, t: nat)
    requires PcsOk(h) && Enabled(h, m) && t < |h.threads| && Winning(h.threads[t])
    ensures var pc := Next(h, m).threads[t]; Winning(pc) || pc.Idle?
  {
    hide PcsOk, Usable;
    if m != Run(t, false) && m != Run(t, true) { OtherThread(h, m, t); }
  }

  /** A thread that has won a block keeps it until it comes back. */
  lemma {:induction false} WinningStays(h: Heap, t: nat, run: seq<Move>, u: Heap)
    requires Busy(h, run, t) && Reaches(h, run, u) && Winning(h.threads[t])
    ensures t < |u.threads| && Winning(u.threads[t])
    decreases |run|
  {
    hide PcsOk, Next;
    if run != [] {
      WinningStep(h, run[0], t);
      WinningStays(Next(h, run[0]), t, run[1..], u);
    }
  }

  /** A search that has passed the word of `b` saw a point at which `b` was not free. */
  lemma {:induction false} SearchMisses(h: Heap, t: nat, run: seq<Move>, u: Heap, b: nat) returns (n: nat, f: Heap)
    requires Exclusive(h) && Busy(h, run, t) && Reaches(h, run, u) && b < h.maxBlocks
    requires Searching(h.threads[t]) && h.threads[t].w <= b / WORD_BITS
    requires t < |u.threads| && u.threads[t].Scan? && b / WORD_BITS < u.threads[t].w
    ensures n <= |run| && Reaches(h, run[..n], f) && !IsFree(f, b)
    decreases |run|
  {
    hide PcsOk, Next, Exclusive, IsFree;
    if !IsFree(h, b) {
      n, f := 0, h;
    } else {
      OnlyPcs(h);
      var next := Next(h, run[0]);
      SearchStep(h, run[0], t, b);
      ExclusiveKept(h, run[0]);
      if Winning(next.threads[t]) {
        WinningStays(next, t, run[1..], u);
        assert false;
      } else {
        var k;
        k, f := SearchMisses(next, t, run[1..], u, b);
        n := k + 1;
        assert run[..n][1..] == run[1..][..k];
      }
    }
  }

  lemma WonIsNew(h: Heap, t: nat)
    requires Exclusive(h) && t < |h.threads| && Winning(h.threads[t])
    ensures h.threads[t].block !in h.live
  {
    assert Holds(h.threads[t], h.threads[t].block);
  }

  lemma {:induction false} ExclusiveReached(h: Heap, run: seq<Move>, g: Heap)
    requires Exclusive(h) && Reaches(h, run, g)
    ensures Exclusive(g) && g.maxBlocks == h.maxBlocks && |g.threads| == |h.threads|
    decreases |run|
  {
    hide Exclusive, PcsOk, Next;
    if run != [] {
      ExclusiveKept(h, run[0]);
      SameThreads(h, run[0]);
      ExclusiveReached(Next(h, run[0]), run[1..], g);
    }
  }

  /** A thread that called `alloc` is searching or has won until it comes back. */
  lemma {:induction false} InAlloc(h: Heap, t: nat, run: seq<Move>, u: Heap)
    requires Busy(h, run, t) && Reaches(h, run, u) && (Searching(h.threads[t]) || Winning(h.threads[t]))
    ensures t < |u.threads| && (Searching(u.threads[t]) || Winning(u.threads[t]))
    decreases |run|
  {
    hide PcsOk, Next;
    if run != [] {
      AllocStep(h, run[0], t);
      InAlloc(Next(h, run[0]), t, run[1..], u);
    }
  }

  lemma AllocStep(h: Heap, m: Move, t: nat)
    requires PcsOk(h) && Enabled(h, m) && t < |h.threads| && (Searching(h.threads[t]) || Winning(h.threads[t]))
    ensures var pc := Next(h, m).threads[t]; Searching(pc) || Winning(pc) || pc.Idle?
  {
    hide PcsOk, Usable;
    if m != Run(t, false) && m != Run(t, true) { OtherThread(h, m, t); }
  }

  // ---- The theorem --------------------------------------------------------------------

  /** In every interleaving: a call of `alloc` that comes back without a block saw, for every block, a point
      between the call and its return at which that block was not free. */
  lemma FailsOnlyIfTaken(h: Heap, t: nat, run: seq<Move>, u: Heap, spurious: bool, b: nat)
    returns (n: nat, f: Heap)
    requires Exclusive(h) && FailedCall(h, t, run, u, spurious) && b < h.maxBlocks
    ensures n <= |run| && Reaches(Next(h, CallAlloc(t)), run[..n], f) && !IsFree(f, b)
  {
    hide PcsOk, Exclusive, IsFree, Busy, Reaches;
    var h1 := Next(h, CallAlloc(t));
    ExclusiveKept(h, CallAlloc(t));
    ExclusiveReached(h1, run, u);
    InAlloc(h1, t, run, u);
    ExclusiveKept(u, Run(t, spurious));
    if Winning(u.threads[t]) {
      WonIsNew(u, t);
      assert false;
    } else {
      PastTheEnd(u, b);
      n, f := SearchMisses(h1, t, run, u, b);
    }
  }

  lemma PastTheEnd(u: Heap, b: nat)
    requires Exclusive(u) && b < u.maxBlocks
    ensures b / WORD_BITS < |u.words|
  {
    InRange(b, u.maxBlocks);
  }

  /** So an allocation never fails while some block stays free from the call to the return. */
  lemma FreeBlockSuffices(h: Heap, t: nat, run: seq<Move>, u: Heap, spurious: bool, b: nat)
    requires Exclusive(h) && b < h.maxBlocks && PcsOk(h) && Enabled(h, CallAlloc(t))
    requires forall n: nat, f :: n <= |run| && Reaches(Next(h, CallAlloc(t)), run[..n], f) ==> IsFree(f, b)
    ensures !FailedCall(h, t, run, u, spurious)
  {
    hide Exclusive, PcsOk, IsFree, Reaches, Next;
    if FailedCall(h, t, run, u, spurious) {
      var n, f := FailsOnlyIfTaken(h, t, run, u, spurious, b);
    }
  }
}
