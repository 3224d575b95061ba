/** The allocator's counters and its peak, over every interleaving. */
module AllocCounters {
  import opened Bits
  import opened AllocConcurrent

  // ---- Counting threads -----------------------------------------------------------

  datatype Kind =
    | Won         // has a block that is not yet in in_use
    | Gone        // has given its block back and not yet left in_use
    | Extra       // is in in_use for a block the program does not hold
    | Between     // has counted an allocation whose block the program does not hold, and no deallocation

  predicate Is(k: Kind, pc: Pc) {
    match k
    case Won => pc.Claimed? || pc.Counted?
    case Gone => pc.Freed? || pc.FreeCounted?
    case Extra => pc.PeakLoad? || pc.PeakCas? || pc.Freeing? || pc.Freed? || pc.FreeCounted?
    case Between => pc.Counted? || pc.PeakLoad? || pc.PeakCas? || pc.Freeing? || pc.Freed?
  }

  function One(b: bool): nat { if b then 1 else 0 }

  function Count(k: Kind, threads: seq<Pc>): (n: nat)
    ensures n <= |threads|
  {
    if threads == [] then 0 else One(Is(k, threads[0])) + Count(k, threads[1..])
  }

  lemma {:induction false} CountAfter(k: Kind, threads: seq<Pc>, t: nat, pc: Pc)
    requires t < |threads|
    ensures Count(k, threads[t := pc]) == Count(k, threads) - One(Is(k, threads[t])) + One(Is(k, pc))
    ensures Count(k, threads) >= One(Is(k, threads[t]))
    ensures Count(k, threads) <= |threads| - 1 + One(Is(k, threads[t]))
  {
    if t > 0 {
      CountAfter(k, threads[1..], t - 1, pc);
      assert threads[t := pc][1..] == threads[1..][t - 1 := pc];
    }
  }

  lemma {:induction false} CountIdle(k: Kind, threads: seq<Pc>)
    requires forall t :: 0 <= t < |threads| ==> threads[t].Idle?
    ensures Count(k, threads) == 0
  {
    if threads != [] { CountIdle(k, threads[1..]); }
  }

  // ---- The invariant ----------------------------------------------------------------

  ghost function Taken(h: Heap): set<nat> { TakenOf(h.words, h.maxBlocks) }

  /** `in_use` is what is taken, less claims not yet added, plus releases not yet subtracted. */
  ghost predicate UseOk(h: Heap) {
    && h.inUse == |Taken(h)| - Count(Won, h.threads) + Count(Gone, h.threads)
    && h.inUse == |h.live| + Count(Extra, h.threads)
    && h.allocCount - h.deallocCount == |h.live| + Count(Between, h.threads)
  }

  /** The thread has yet to compare the value it produced with the peak. */
  predicate Raising(pc: Pc, v: int) { (pc.PeakLoad? || pc.PeakCas?) && pc.after == v }

  ghost predicate PeakOk(h: Heap) {
    && 0 <= h.peak <= h.top && h.inUse <= h.top
    && (h.peak == h.top || exists t :: 0 <= t < |h.threads| && Raising(h.threads[t], h.top))
    && (forall t, v :: 0 <= t < |h.threads| && Raising(h.threads[t], v) ==> v <= h.top)
    && (forall t :: 0 <= t < |h.threads| && h.threads[t].PeakCas? ==> h.threads[t].peak < h.threads[t].after)
    && (h.top > 0 ==> h.maxBlocks > 0 && h.top <= h.maxBlocks + |h.threads| - 1)
  }

  ghost predicate CountersOk(h: Heap) { Exclusive(h) && UseOk(h) && PeakOk(h) }

  // ---- in_use -------------------------------------------------------------------------

  /** The count of a kind of thread after thread `t` went on to `pc`. */
  ghost predicate CountMoved(k: Kind, threads: seq<Pc>, t: nat, pc: Pc)
    requires t < |threads|
  {
    && Count(k, threads[t := pc]) == Count(k, threads) - One(Is(k, threads[t])) + One(Is(k, pc))
    && One(Is(k, threads[t])) <= Count(k, threads) <= |threads| - 1 + One(Is(k, threads[t]))
  }

  lemma AllCounts(h: Heap, t: nat, pc: Pc)
    requires t < |h.threads|
    ensures CountMoved(Won, h.threads, t, pc) && CountMoved(Gone, h.threads, t, pc)
    ensures CountMoved(Extra, h.threads, t, pc) && CountMoved(Between, h.threads, t, pc)
  {
    CountAfter(Won, h.threads, t, pc);
    CountAfter(Gone, h.threads, t, pc);
    CountAfter(Extra, h.threads, t, pc);
    CountAfter(Between, h.threads, t, pc);
  }

  lemma SameTaken(h: Heap, g: Heap)
    requires g.words == h.words && g.maxBlocks == h.maxBlocks
    ensures Taken(g) == Taken(h)
  {
    assert forall b: nat :: IsFree(g, b) == IsFree(h, b);
  }

  lemma TakenAfter(h: Heap, t: nat)
    requires Exclusive(h) && t < |h.threads|
    requires h.threads[t].Freeing? || (h.threads[t].Loaded? && h.words[h.threads[t].w] == h.threads[t].seen)
    ensures var g := Operate(h, t, false);
            |Taken(g)| == |Taken(h)| + (if h.threads[t].Loaded? then 1 else -1)
  {
    hide FreeBit, PcOk, PcsOk;
    var g := Operate(h, t, false);
    if h.threads[t].Loaded? {
      ClaimTakesFree(h, t);
      forall c: nat ensures FreeBit(g.words, c) <==> FreeBit(h.words, c) && c != g.threads[t].block {
        assert IsFree(g, c) <==> IsFree(h, c) && c != g.threads[t].block;
      }
      assert IsFree(h, g.threads[t].block);
      assert Taken(g) == Taken(h) + {g.threads[t].block};
    } else {
      ReleaseFrees(h, t);
      var b := h.threads[t].block;
      assert Holds(h.threads[t], b);
      Bounded(h, t, b);
      forall c: nat | c < h.maxBlocks ensures FreeBit(g.words, c) <==> FreeBit(h.words, c) || c == b {
        assert IsFree(g, c) <==> IsFree(h, c) || c == b;
      }
      assert !IsFree(h, b);
      assert Taken(g) == Taken(h) - {b} && b in Taken(h);
    }
  }

  lemma UseKept(h: Heap, m: Move)
    requires Exclusive(h) && UseOk(h) && Enabled(h, m)
    ensures UseOk(Next(h, m))
  {
    hide Exclusive, UseOk;
    if m.Run? { UseOperated(h, m.t, m.spurious); } else { UseCalled(h, m); }
  }

  lemma UseCalled(h: Heap, m: Move)
    requires Exclusive(h) && UseOk(h) && Enabled(h, m) && !m.Run?
    ensures UseOk(Next(h, m))
  {
    assert PcsOk(h);
    hide Count, IsFree, Taken, Exclusive, PcsOk;
    var g := Next(h, m);
    SameTaken(h, g);
    if !m.Lock? { AllCounts(h, m.t, g.threads[m.t]); }
  }

  lemma UseOperated(h: Heap, t: nat, spurious: bool)
    requires Exclusive(h) && UseOk(h) && t < |h.threads| && !h.threads[t].Idle?
    ensures UseOk(Operate(h, t, spurious))
  {
    hide Count, IsFree, Taken, Usable;
    var g := Operate(h, t, spurious);
    var pc := h.threads[t];
    assert PcOk(h.maxBlocks, pc);
    if pc.Freeing? || (pc.Loaded? && h.words[pc.w] == pc.seen) {
      AllCounts(h, t, g.threads[t]);
      TakenAfter(h, t);
    } else {
      if pc.PeakLoad? || pc.PeakCas? { assert Holds(pc, pc.block) && pc.block !in h.live; }
      UseUntaken(h, t, spurious);
    }
  }

  lemma UseUntaken(h: Heap, t: nat, spurious: bool)
    requires PcsOk(h) && UseOk(h) && t < |h.threads| && !h.threads[t].Idle? && !h.threads[t].Freeing?
    requires h.threads[t].Loaded? ==> h.words[h.threads[t].w] != h.threads[t].seen
    requires h.threads[t].PeakLoad? || h.threads[t].PeakCas? ==> h.threads[t].block !in h.live
    ensures UseOk(Operate(h, t, spurious))
  {
    hide UseOk, PcsOk;
    if h.threads[t].PeakLoad? || h.threads[t].PeakCas? {
      UseCompared(h, t, spurious);
    } else {
      UseStepped(h, t, spurious);
    }
  }

  /** The thread goes on to raise the peak, or hands its block to the program. */
  lemma ComparedShape(h: Heap, t: nat, spurious: bool)
    requires PcsOk(h) && t < |h.threads| && (h.threads[t].PeakLoad? || h.threads[t].PeakCas?)
    ensures var g := Operate(h, t, spurious);
            && t < |g.threads| && g == h.(threads := h.threads[t := g.threads[t]], peak := g.peak, live := g.live)
            && (|| (g.threads[t].PeakCas? && g.live == h.live)
                || (g.threads[t].Idle? && g.live == h.live + {h.threads[t].block}))
  {
    hide PcsOk, Usable;
  }

  lemma UseCompared(h: Heap, t: nat, spurious: bool)
    requires PcsOk(h) && UseOk(h) && t < |h.threads| && (h.threads[t].PeakLoad? || h.threads[t].PeakCas?)
    requires h.threads[t].block !in h.live
    ensures UseOk(Operate(h, t, spurious))
  {
    ComparedShape(h, t, spurious);
    hide Count, IsFree, Taken, PcsOk, PcOk, Operate;
    var g := Operate(h, t, spurious);
    AllCounts(h, t, g.threads[t]);
    SameTaken(h, g);
  }

  lemma UseStepped(h: Heap, t: nat, spurious: bool)
    requires PcsOk(h) && UseOk(h) && t < |h.threads| && !h.threads[t].Idle? && !h.threads[t].Freeing?
    requires !h.threads[t].PeakLoad? && !h.threads[t].PeakCas?
    requires h.threads[t].Loaded? ==> h.words[h.threads[t].w] != h.threads[t].seen
    ensures UseOk(Operate(h, t, spurious))
  {
    hide Count, IsFree, Taken, Usable, PcsOk, PcOk;
    var g := Operate(h, t, spurious);
    AllCounts(h, t, g.threads[t]);
    SameTaken(h, g);
  }

  // ---- The peak -----------------------------------------------------------------------

  lemma PeakKept(h: Heap, m: Move)
    requires CountersOk(h) && Enabled(h, m)
    ensures PeakOk(Next(h, m))
  {
    hide Exclusive, UseOk;
    if m.Run? {
      PeakOperated(h, m.t, m.spurious);
    } else {
      PeakCalled(h, m);
    }
  }

  lemma PeakCalled(h: Heap, m: Move)
    requires CountersOk(h) && Enabled(h, m) && !m.Run?
    ensures PeakOk(Next(h, m))
  {
    assert PcsOk(h);
    hide Exclusive, UseOk, PcsOk;
    var g := Next(h, m);
    if h.peak != h.top {
      var u :| 0 <= u < |h.threads| && Raising(h.threads[u], h.top);
      assert Raising(g.threads[u], g.top);
    }
  }

  /** What an addition to `in_use` produces is bounded by the blocks and the other threads. */
  lemma ProducedBound(h: Heap, t: nat)
    requires CountersOk(h) && t < |h.threads| && h.threads[t].Counted?
    ensures 0 < h.inUse + 1 <= h.maxBlocks + |h.threads| - 1 && h.maxBlocks > 0
  {
    assert Holds(h.threads[t], h.threads[t].block);
    Bounded(h, t, h.threads[t].block);
    hide IsFree, Count, Exclusive;
    AllCounts(h, t, Idle);
    AtMost(Taken(h), h.maxBlocks);
    assert Is(Won, h.threads[t]) && !Is(Gone, h.threads[t]);
  }

  lemma PeakOperated(h: Heap, t: nat, spurious: bool)
    requires CountersOk(h) && t < |h.threads| && !h.threads[t].Idle?
    ensures PeakOk(Operate(h, t, spurious))
  {
    assert PcsOk(h);
    hide Exclusive, UseOk, PcsOk, PeakOk;
    if h.threads[t].Counted? {
      PeakAdded(h, t, spurious);
    } else if h.threads[t].PeakLoad? || h.threads[t].PeakCas? {
      PeakCompared(h, t, spurious);
    } else {
      PeakUntouched(h, t, spurious);
    }
  }

  lemma PeakAdded(h: Heap, t: nat, spurious: bool)
    requires CountersOk(h) && t < |h.threads| && h.threads[t].Counted?
    ensures PeakOk(Operate(h, t, spurious))
  {
    assert PcsOk(h);
    hide Exclusive, UseOk, PcsOk;
    var g := Operate(h, t, spurious);
    ProducedBound(h, t);
    assert Raising(g.threads[t], h.inUse + 1);
    if g.top == h.top && h.peak != h.top {
      var u :| 0 <= u < |h.threads| && Raising(h.threads[u], h.top);
      assert Raising(g.threads[u], g.top);
    }
    forall u, v | 0 <= u < |g.threads| && Raising(g.threads[u], v) ensures v <= g.top {
      if u != t { assert Raising(h.threads[u], v); }
    }
  }

  lemma PeakCompared(h: Heap, t: nat, spurious: bool)
    requires PcsOk(h) && PeakOk(h) && t < |h.threads| && (h.threads[t].PeakLoad? || h.threads[t].PeakCas?)
    ensures PeakOk(Operate(h, t, spurious))
  {
    hide PcsOk;
    var g := Operate(h, t, spurious);
    var pc := h.threads[t];
    assert Raising(pc, pc.after);
    if g.peak != g.top {
      var u :| 0 <= u < |h.threads| && Raising(h.threads[u], h.top);
      assert Raising(g.threads[u], g.top);
    }
    forall u, v | 0 <= u < |g.threads| && Raising(g.threads[u], v) ensures v <= g.top {
      assert Raising(h.threads[u], v);
    }
  }

  lemma PeakUntouched(h: Heap, t: nat, spurious: bool)
    requires PcsOk(h) && PeakOk(h) && t < |h.threads| && !h.threads[t].Idle?
    requires !h.threads[t].Counted? && !h.threads[t].PeakLoad? && !h.threads[t].PeakCas?
    ensures PeakOk(Operate(h, t, spurious))
  {
    hide PcsOk, Usable;
    var g := Operate(h, t, spurious);
    assert !g.threads[t].PeakLoad? && !g.threads[t].PeakCas? && g.peak == h.peak && g.top == h.top;
    assert g.inUse <= h.inUse && |g.threads| == |h.threads| && g.maxBlocks == h.maxBlocks;
    if g.peak != g.top {
      var u :| 0 <= u < |h.threads| && Raising(h.threads[u], h.top);
      assert Raising(g.threads[u], g.top);
    }
    forall u, v | 0 <= u < |g.threads| && Raising(g.threads[u], v) ensures v <= g.top {
      assert Raising(h.threads[u], v);
    }
  }

  // ---- Whole runs -----------------------------------------------------------------------

  predicate Initial(h: Heap) {
    && |h.words| == Words(h.maxBlocks) && (forall w :: 0 <= w < |h.words| ==> h.words[w] == Ones(WORD_BITS))
    && h.allocCount == h.deallocCount == 0 && h.inUse == h.peak == h.top == 0 && h.live == {} && !h.locked
    && forall t :: 0 <= t < |h.threads| ==> h.threads[t].Idle?
  }

  ghost predicate Reaches(h: Heap, run: seq<Move>, g: Heap)
    decreases |run|
  {
    if run == [] then g == h
    else PcsOk(h) && Enabled(h, run[0]) && Reaches(Next(h, run[0]), run[1..], g)
  }

  lemma InitialOk(h: Heap)
    requires Initial(h)
    ensures CountersOk(h)
  {
    forall b: nat | b < h.maxBlocks ensures IsFree(h, b) { InRange(b, h.maxBlocks); }
    assert Taken(h) == {};
    forall k ensures Count(k, h.threads) == 0 { CountIdle(k, h.threads); }
  }

  lemma {:induction false} CountersReached(h: Heap, run: seq<Move>, g: Heap)
    requires CountersOk(h) && Reaches(h, run, g)
    ensures CountersOk(g) && g.maxBlocks == h.maxBlocks && |g.threads| == |h.threads|
    decreases |run|
  {
    hide Exclusive, UseOk, PeakOk, PcsOk, Next;
    if run != [] {
      ExclusiveKept(h, run[0]);
      UseKept(h, run[0]);
      PeakKept(h, run[0]);
      SameThreads(h, run[0]);
      CountersReached(Next(h, run[0]), run[1..], g);
    }
  }

  lemma SameThreads(h: Heap, m: Move)
    requires PcsOk(h) && Enabled(h, m)
    ensures |Next(h, m).threads| == |h.threads|
  {
    hide PcsOk, Usable;
  }

  /** In every interleaving: blocks stay exclusive, `in_use` is what is taken adjusted by the threads between
      their two operations and never underflows, and the peak never exceeds the blocks and the other threads. */
  lemma InEveryInterleaving(h: Heap, run: seq<Move>, g: Heap)
    requires Initial(h) && Reaches(h, run, g)
    ensures Exclusive(g)
    ensures 0 <= g.inUse == |Taken(g)| - Count(Won, g.threads) + Count(Gone, g.threads)
    ensures g.maxBlocks == h.maxBlocks && |g.threads| == |h.threads|
    ensures g.peak > 0 ==> h.maxBlocks > 0 && g.peak <= h.maxBlocks + |h.threads| - 1
  {
    hide Exclusive;
    InitialOk(h);
    CountersReached(h, run, g);
  }

  predicate AtRest(h: Heap) { forall t :: 0 <= t < |h.threads| ==> h.threads[t].Idle? }

  /** At rest the counters agree with each other and with the blocks the program holds, which are the taken
      ones, and the peak is the largest value an addition to `in_use` produced. */
  lemma RestAgrees(h: Heap, run: seq<Move>, g: Heap)
    requires Initial(h) && Reaches(h, run, g) && AtRest(g)
    ensures g.inUse == g.allocCount - g.deallocCount == |g.live|
    ensures g.peak == g.top && g.inUse <= g.peak
    ensures forall b: nat :: b < g.maxBlocks ==> (b in g.live <==> !IsFree(g, b))
  {
    InitialOk(h);
    CountersReached(h, run, g);
    forall k ensures Count(k, g.threads) == 0 { CountIdle(k, g.threads); }
    hide IsFree, Count;
    forall b: nat | b < g.maxBlocks ensures b in g.live <==> !IsFree(g, b) {
      assert !IsFree(g, b) ==> Held(g, b);
    }
  }

  /** The value this move adds to `in_use` up to, if it is such an addition. */
  function Produced(h: Heap, m: Move): int {
    if m.Run? && m.t < |h.threads| && h.threads[m.t].Counted? then h.inUse + 1 else 0
  }

  ghost function MaxProduced(h: Heap, run: seq<Move>): int
    decreases |run|
  {
    if run == [] || !PcsOk(h) || !Enabled(h, run[0]) then 0
    else
      var rest := MaxProduced(Next(h, run[0]), run[1..]);
      var v := Produced(h, run[0]);
      if v > rest then v else rest
  }

  /** `top` is what its name says. */
  lemma {:induction false} TopIsMaxProduced(h: Heap, run: seq<Move>, g: Heap)
    requires Reaches(h, run, g) && h.top >= 0
    ensures g.top == (if MaxProduced(h, run) > h.top then MaxProduced(h, run) else h.top)
    decreases |run|
  {
    hide PcsOk;
    if run != [] {
      TopAfter(h, run[0]);
      TopIsMaxProduced(Next(h, run[0]), run[1..], g);
    }
  }

  lemma TopAfter(h: Heap, m: Move)
    requires PcsOk(h) && Enabled(h, m) && h.top >= 0
    ensures Next(h, m).top == (if Produced(h, m) > h.top then Produced(h, m) else h.top)
  {
    hide PcsOk, Usable;
  }

  /** Locking is one-way, and afterwards no thread starts an allocation. */
  lemma LockedForGood(h: Heap, m: Move)
    requires PcsOk(h) && Enabled(h, m) && h.locked
    ensures Next(h, m).locked
    ensures forall t :: 0 <= t < |h.threads| && h.threads[t].Idle? ==>
              var pc := Next(h, m).threads[t]; pc.Idle? || pc.Freeing?
  {
    hide PcsOk, Usable;
  }
}
