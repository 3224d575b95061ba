/** The allocator under concurrency: any number of threads, each atomic operation of `alloc` and `dealloc`
    one step, interleaved in any order under sequential consistency. */
module AllocConcurrent {
  import opened Bits

  /** Where a thread stands: the atomic operation it performs next. */
  datatype Pc =
    | Idle
    | Scan(w: nat)                                    // load word w
    | Loaded(w: nat, seen: set<nat>)                  // compare-exchange word w against `seen`
    | Claimed(block: nat)                             // add to alloc_count
    | Counted(block: nat)                             // add to in_use
    | PeakLoad(block: nat, after: int)                // load the peak
    | PeakCas(block: nat, after: int, peak: int)      // compare-exchange the peak against `peak`
    | Freeing(block: nat)                             // set the block's bit
    | Freed                                           // add to dealloc_count
    | FreeCounted                                     // subtract from in_use

  /** The shared words and counters, the blocks the program holds, the threads, and, for the specification
      only, the largest value an addition to `in_use` has produced. */
  datatype Heap = Heap(maxBlocks: nat, words: seq<set<nat>>, allocCount: nat, deallocCount: nat, inUse: int,
                       peak: int, locked: bool, live: set<nat>, threads: seq<Pc>, top: int)

  datatype Move =
    | CallAlloc(t: nat)
    | CallDealloc(t: nat, block: nat)
    | Run(t: nat, spurious: bool)                     // the next atomic operation of thread t
    | Lock

  predicate Enabled(h: Heap, m: Move) {
    match m
    case CallAlloc(t) => t < |h.threads| && h.threads[t].Idle?
    case CallDealloc(t, b) => t < |h.threads| && h.threads[t].Idle? && b in h.live
    case Run(t, _) => t < |h.threads| && !h.threads[t].Idle?
    case Lock => true
  }

  function Goto(h: Heap, t: nat, pc: Pc): Heap
    requires t < |h.threads|
  {
    h.(threads := h.threads[t := pc])
  }

  /** `alloc` returns the block to the program. */
  function Return(h: Heap, t: nat, block: nat): Heap
    requires t < |h.threads|
  {
    Goto(h.(live := h.live + {block}), t, Idle)
  }

  /** A bit of word `w` that stands for a block. */
  predicate Usable(maxBlocks: nat, w: nat, word: set<nat>) {
    word != {} && WORD_BITS * w + TrailingZeros(word) < maxBlocks
  }

  function LoadWord(h: Heap, t: nat, w: nat): Heap
    requires t < |h.threads|
  {
    if w >= |h.words| then Goto(h, t, Idle)
    else if Usable(h.maxBlocks, w, h.words[w]) then Goto(h, t, Loaded(w, h.words[w]))
    else Goto(h, t, Scan(w + 1))
  }

  function CasWord(h: Heap, t: nat, w: nat, seen: set<nat>): Heap
    requires t < |h.threads| && w < |h.words| && seen != {}
  {
    if h.words[w] == seen then
      var bit := TrailingZeros(seen);
      Goto(h.(words := h.words[w := seen - {bit}]), t, Claimed(WORD_BITS * w + bit))
    else Goto(h, t, Scan(w))
  }

  function AddInUse(h: Heap, t: nat, block: nat): Heap
    requires t < |h.threads|
  {
    var after := h.inUse + 1;
    Goto(h.(inUse := after, top := if after > h.top then after else h.top), t, PeakLoad(block, after))
  }

  /** The test of the peak loop against the value just read. */
  function ComparePeak(h: Heap, t: nat, block: nat, after: int): Heap
    requires t < |h.threads|
  {
    if after > h.peak then Goto(h, t, PeakCas(block, after, h.peak)) else Return(h, t, block)
  }

  /** The weak compare-exchange, which may fail although the value matches. */
  function CasPeak(h: Heap, t: nat, block: nat, after: int, peak: int, spurious: bool): Heap
    requires t < |h.threads|
  {
    if h.peak == peak && !spurious then Return(h.(peak := after), t, block)
    else ComparePeak(h, t, block, after)
  }

  function FetchOr(h: Heap, t: nat, block: nat): Heap
    requires t < |h.threads| && block / WORD_BITS < |h.words|
  {
    var w := block / WORD_BITS;
    Goto(h.(words := h.words[w := h.words[w] + {block % WORD_BITS}]), t, Freed)
  }

  ghost function Operate(h: Heap, t: nat, spurious: bool): Heap
    requires PcsOk(h) && t < |h.threads| && !h.threads[t].Idle?
  {
    match h.threads[t]
    case Scan(w) => LoadWord(h, t, w)
    case Loaded(w, seen) => CasWord(h, t, w, seen)
    case Claimed(b) => Goto(h.(allocCount := h.allocCount + 1), t, Counted(b))
    case Counted(b) => AddInUse(h, t, b)
    case PeakLoad(b, after) => ComparePeak(h, t, b, after)
    case PeakCas(b, after, peak) => CasPeak(h, t, b, after, peak, spurious)
    case Freeing(b) =>
      assert Holds(h.threads[t], b);
      InRange(b, h.maxBlocks);
      FetchOr(h, t, b)
    case Freed => Goto(h.(deallocCount := h.deallocCount + 1), t, FreeCounted)
    case FreeCounted => Goto(h.(inUse := h.inUse - 1), t, Idle)
  }

  ghost function Next(h: Heap, m: Move): Heap
    requires PcsOk(h) && Enabled(h, m)
  {
    match m
    case CallAlloc(t) => if h.locked then h else Goto(h, t, Scan(0))
    case CallDealloc(t, b) => Goto(h.(live := h.live - {b}), t, Freeing(b))
    case Run(t, spurious) => Operate(h, t, spurious)
    case Lock => h.(locked := true)
  }

  // ---- Ownership --------------------------------------------------------------------

  /** The thread holds `b`: it has won the bit and not yet given it back. */
  predicate Holds(pc: Pc, b: nat) {
    match pc
    case Claimed(x) => x == b
    case Counted(x) => x == b
    case PeakLoad(x, _) => x == b
    case PeakCas(x, _, _) => x == b
    case Freeing(x) => x == b
    case _ => false
  }

  predicate IsFree(h: Heap, b: nat) { FreeBit(h.words, b) }

  /** A thread's own data is in range. */
  ghost predicate PcOk(maxBlocks: nat, pc: Pc) {
    && (pc.Loaded? ==> pc.w < Words(maxBlocks) && Usable(maxBlocks, pc.w, pc.seen)
                       && TrailingZeros(pc.seen) < WORD_BITS)
    && (forall b: nat :: Holds(pc, b) ==> b < maxBlocks)
  }

  ghost predicate PcsOk(h: Heap) {
    && |h.words| == Words(h.maxBlocks)
    && InWords(h.words)
    && forall t :: 0 <= t < |h.threads| ==> PcOk(h.maxBlocks, h.threads[t])
  }

  /** The exclusivity of blocks: every block has at most one holder, a thread or the program, and it has one
      exactly when its bit is zero. */
  ghost predicate Exclusive(h: Heap) {
    && PcsOk(h)
    && (forall b :: b in h.live ==> b < h.maxBlocks && !IsFree(h, b))
    && (forall t, b: nat :: 0 <= t < |h.threads| && Holds(h.threads[t], b) ==> !IsFree(h, b) && b !in h.live)
    && (forall t, u, b: nat :: 0 <= t < u < |h.threads| ==> !(Holds(h.threads[t], b) && Holds(h.threads[u], b)))
    && (forall b: nat :: b < h.maxBlocks && !IsFree(h, b) ==> Held(h, b))
  }

  ghost predicate Held(h: Heap, b: nat) {
    b in h.live || exists t :: 0 <= t < |h.threads| && Holds(h.threads[t], b)
  }

  /** A thread that goes on with the same block, or none, keeps ownership as it was. */
  lemma SameHolder(h: Heap, g: Heap, t: nat)
    requires Exclusive(h) && t < |h.threads| && |g.threads| == |h.threads|
    requires g.maxBlocks == h.maxBlocks && g.words == h.words && g.live == h.live
    requires g.threads == h.threads[t := g.threads[t]] && PcOk(g.maxBlocks, g.threads[t])
    requires forall b: nat :: Holds(g.threads[t], b) <==> Holds(h.threads[t], b)
    ensures Exclusive(g)
  {
    hide IsFree, PcOk;
    forall b: nat | b < g.maxBlocks && !IsFree(g, b) ensures Held(g, b) {
      assert IsFree(g, b) == IsFree(h, b) by { SameWords(h, g, b); }
      assert Held(h, b);
      if b !in h.live {
        var u :| 0 <= u < |h.threads| && Holds(h.threads[u], b);
        assert Holds(g.threads[u], b);
      }
    }
    forall b: nat ensures IsFree(g, b) == IsFree(h, b) { SameWords(h, g, b); }
  }

  lemma SameWords(h: Heap, g: Heap, b: nat)
    requires g.words == h.words
    ensures IsFree(g, b) == IsFree(h, b)
  {
  }

  /** Winning the compare-exchange makes the thread the one holder of a block that had none. */
  lemma ClaimTakesFree(h: Heap, t: nat)
    requires Exclusive(h) && t < |h.threads| && h.threads[t].Loaded? && h.words[h.threads[t].w] == h.threads[t].seen
    ensures var g := Operate(h, t, false);
            var b := WORD_BITS * h.threads[t].w + TrailingZeros(h.threads[t].seen);
            && g.threads[t] == Claimed(b) && b < h.maxBlocks && IsFree(h, b) && !Held(h, b)
            && (forall c: nat :: IsFree(g, c) <==> IsFree(h, c) && c != b)
            && PcsOk(g)
  {
    var w, seen := h.threads[t].w, h.threads[t].seen;
    var bit := TrailingZeros(seen);
    var b := WORD_BITS * w + bit;
    BlockParts(w, bit);
    ClearedBit(h.words, w, bit);
  }

  lemma ReleaseFrees(h: Heap, t: nat)
    requires Exclusive(h) && t < |h.threads| && h.threads[t].Freeing?
    ensures var g := Operate(h, t, false);
            var b := h.threads[t].block;
            && g.threads[t] == Freed
            && (forall c: nat :: c < h.maxBlocks ==> (IsFree(g, c) <==> IsFree(h, c) || c == b))
            && PcsOk(g)
  {
    var b := h.threads[t].block;
    assert Holds(h.threads[t], b);
    InRange(b, h.maxBlocks);
    SetBit(h.words, b);
  }

  /** One block changes its standing: at most one of a thread and the program holds it afterwards. */
  lemma OneBlockMoves(h: Heap, g: Heap, t: nat, b: nat)
    requires Exclusive(h) && PcsOk(g) && t < |h.threads| && |g.threads| == |h.threads|
    requires g.maxBlocks == h.maxBlocks && b < h.maxBlocks && g.threads == h.threads[t := g.threads[t]]
    requires forall c: nat :: c < h.maxBlocks && c != b
                 ==> (IsFree(g, c) <==> IsFree(h, c)) && (c in g.live <==> c in h.live)
    requires forall c :: c in g.live ==> c < h.maxBlocks
    requires forall c: nat :: c != b ==> !Holds(h.threads[t], c) && !Holds(g.threads[t], c)
    requires forall u :: 0 <= u < |h.threads| && u != t ==> !Holds(h.threads[u], b)
    requires IsFree(g, b) <==> b !in g.live && !Holds(g.threads[t], b)
    requires !(b in g.live && Holds(g.threads[t], b))
    ensures Exclusive(g)
  {
    hide IsFree, PcsOk, PcOk;
    assert PcsOk(h);
    forall u, c: nat | 0 <= u < |g.threads| && Holds(g.threads[u], c) ensures !IsFree(g, c) && c !in g.live {
      if u != t { Bounded(h, u, c); } else { assert c == b; }
    }
    forall c: nat | c < g.maxBlocks && !IsFree(g, c) ensures Held(g, c) {
      if c != b {
        assert Held(h, c);
        if c !in h.live {
          var u :| 0 <= u < |h.threads| && Holds(h.threads[u], c);
          assert Holds(g.threads[u], c);
        }
      } else if b !in g.live {
        assert Holds(g.threads[t], b);
      }
    }
  }

  lemma Bounded(h: Heap, t: nat, b: nat)
    requires PcsOk(h) && t < |h.threads| && Holds(h.threads[t], b)
    ensures b < h.maxBlocks
  {
    assert PcOk(h.maxBlocks, h.threads[t]);
  }

  /** Having won a block in a call of `alloc`. */
  predicate Winning(pc: Pc) { pc.Claimed? || pc.Counted? || pc.PeakLoad? || pc.PeakCas? }

  /** How thread `t` may come back: from `alloc` without a block, only when its search has passed the last word;
      from `alloc` with the block it won; or from `dealloc`. */
  predicate ComesBack(h: Heap, t: nat, g: Heap)
    requires t < |h.threads|
  {
    var pc := h.threads[t];
    || (pc.Scan? && pc.w >= |h.words| && g == h.(threads := g.threads))
    || (Winning(pc) && g.live == h.live + {pc.block})
    || (pc.FreeCounted? && g.live == h.live)
  }

  lemma OperateComesBack(h: Heap, t: nat, spurious: bool)
    requires PcsOk(h) && t < |h.threads| && !h.threads[t].Idle? && Operate(h, t, spurious).threads[t].Idle?
    ensures ComesBack(h, t, Operate(h, t, spurious))
  {
    hide PcsOk, Usable;
  }

  /** Every step of every thread keeps blocks exclusive, and a thread comes back from its call only as it may. */
  lemma ExclusiveKept(h: Heap, m: Move)
    requires Exclusive(h) && Enabled(h, m)
    ensures Exclusive(Next(h, m)) && Next(h, m).maxBlocks == h.maxBlocks
    ensures m.Run? && Next(h, m).threads[m.t].Idle? ==> ComesBack(h, m.t, Next(h, m))
  {
    assert PcsOk(h);
    hide Exclusive, PcsOk, ComesBack;
    if m.Run? && Next(h, m).threads[m.t].Idle? { OperateComesBack(h, m.t, m.spurious); }
    match m
    case CallAlloc(t) => CallKeeps(h, m);
    case CallDealloc(t, b) => CallKeeps(h, m);
    case Lock => CallKeeps(h, m);
    case Run(t, spurious) => OperateKeeps(h, t, spurious);
  }

  lemma CallKeeps(h: Heap, m: Move)
    requires Exclusive(h) && Enabled(h, m) && !m.Run?
    ensures Exclusive(Next(h, m)) && Next(h, m).maxBlocks == h.maxBlocks
  {
    var g := Next(h, m);
    match m
    case CallAlloc(t) => if !h.locked { SameHolder(h, g, t); }
    case CallDealloc(t, b) => OneBlockMoves(h, g, t, b);
    case Lock =>
      hide PcOk;
      forall b: nat ensures IsFree(g, b) == IsFree(h, b) { SameWords(h, g, b); }
      forall b: nat ensures Held(g, b) == Held(h, b) { }
  }

  lemma OperateKeeps(h: Heap, t: nat, spurious: bool)
    requires Exclusive(h) && t < |h.threads| && !h.threads[t].Idle?
    ensures Exclusive(Operate(h, t, spurious)) && Operate(h, t, spurious).maxBlocks == h.maxBlocks
  {
    var g := Operate(h, t, spurious);
    var pc := h.threads[t];
    if pc.Loaded? && h.words[pc.w] == pc.seen {
      ClaimKeeps(h, t);
    } else if pc.Freeing? {
      assert Holds(pc, pc.block);
      ReleaseFrees(h, t);
      OneBlockMoves(h, g, t, pc.block);
    } else if (pc.PeakLoad? || pc.PeakCas?) && g.threads[t].Idle? {
      hide Usable;
      assert Holds(pc, pc.block);
      forall b: nat ensures IsFree(g, b) == IsFree(h, b) { SameWords(h, g, b); }
      OneBlockMoves(h, g, t, pc.block);
    } else {
      PcKept(h, t, spurious);
      SameHolder(h, g, t);
    }
  }

  lemma ClaimKeeps(h: Heap, t: nat)
    requires Exclusive(h) && t < |h.threads| && h.threads[t].Loaded? && h.words[h.threads[t].w] == h.threads[t].seen
    ensures Exclusive(Operate(h, t, false))
  {
    ClaimTakesFree(h, t);
    hide IsFree, PcsOk, PcOk, Usable;
    var g := Operate(h, t, false);
    var b := g.threads[t].block;
    assert forall u :: 0 <= u < |h.threads| && Holds(h.threads[u], b) ==> Held(h, b);
    OneBlockMoves(h, g, t, b);
  }

  /** The steps that leave the bits alone and return no block. */
  lemma PcKept(h: Heap, t: nat, spurious: bool)
    requires PcsOk(h) && t < |h.threads| && !h.threads[t].Idle? && !h.threads[t].Freeing?
    requires h.threads[t].Loaded? ==> h.words[h.threads[t].w] != h.threads[t].seen
    ensures var g := Operate(h, t, spurious);
            && g.words == h.words && PcOk(g.maxBlocks, g.threads[t]) && g.threads == h.threads[t := g.threads[t]]
            && (!g.threads[t].Idle? || h.threads[t].Scan? || h.threads[t].FreeCounted? ==>
                  g.live == h.live && forall b: nat :: Holds(g.threads[t], b) <==> Holds(h.threads[t], b))
  {
    var pc := h.threads[t];
    assert PcOk(h.maxBlocks, pc);
    forall b: nat | Holds(Operate(h, t, spurious).threads[t], b) ensures b < h.maxBlocks { assert Holds(pc, b); }
    assert pc.Scan? && pc.w < |h.words| && h.words[pc.w] != {} ==> TrailingZeros(h.words[pc.w]) in h.words[pc.w];
  }
}
