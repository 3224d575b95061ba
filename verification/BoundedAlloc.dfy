/** The bounded allocator called by one thread at a time: an object whose bitmap words and counters change in
    place. Every compare-exchange then succeeds at once, so each word is examined once. */
module BoundedAlloc {
  import opened Bits
  import opened Bytes

  /** `alloc` panics when locked and returns null for what it cannot serve. */
  datatype Allocation = Panic | Null | Block(ptr: nat)

  const BLOCK_ALIGN := 64

  /** The size of a block in the arena: the size in bytes rounded up to the alignment. */
  function Stride(blockSize: nat): (n: nat)
    ensures blockSize <= n < blockSize + BLOCK_ALIGN && n % BLOCK_ALIGN == 0
    ensures blockSize % BLOCK_ALIGN == 0 ==> n == blockSize
  {
    DivCeil(blockSize, BLOCK_ALIGN) * BLOCK_ALIGN
  }

  /** The address of block `b` of an arena at `base`. */
  function Address(base: nat, stride: nat, b: nat): nat { base + b * stride }

  const WORD := 0x1_0000_0000_0000_0000

  /** `fetch_sub(1)` on a machine word. */
  function Decremented(n: int): int { if n == 0 then WORD - 1 else n - 1 }

  /** The block index computed for any address: the offset wraps around below the arena. */
  function IndexOf(base: u64, stride: nat, ptr: u64): nat
    requires stride > 0
  {
    (ptr - base) % WORD / stride
  }

  // ---- Addresses ------------------------------------------------------------------

  lemma IndexInverts(stride: nat, b: nat)
    requires stride > 0
    ensures b * stride / stride == b
  {
    var q: nat := b * stride / stride;
    Separated(stride, q, b);
    Separated(stride, b, q);
  }

  lemma SmallOffset(n: nat)
    requires n < WORD
    ensures n % WORD == n
  {
  }

  lemma IndexOfBlock(base: u64, stride: nat, ptr: u64, b: nat)
    requires stride > 0 && ptr == Address(base, stride, b)
    ensures IndexOf(base, stride, ptr) == b
  {
    assert ptr - base == b * stride;
    SmallOffset(ptr - base);
    IndexInverts(stride, b);
  }

  lemma Separated(stride: nat, b: nat, c: nat)
    ensures b < c ==> b * stride + stride <= c * stride
  {
    assert c * stride == (b + 1) * stride + (c - b - 1) * stride;
    assert b < c ==> 0 <= (c - b - 1) * stride;
  }

  /** Two blocks never share a byte that an allocation may use, each starts on the block alignment, and each
      lies inside the arena. */
  lemma BlocksDisjoint(base: nat, blockSize: nat, maxBlocks: nat, b: nat, c: nat)
    requires base % BLOCK_ALIGN == 0 && b < c < maxBlocks
    ensures var s := Stride(blockSize);
            && Address(base, s, b) + blockSize <= Address(base, s, c)
            && Address(base, s, c) + blockSize <= base + maxBlocks * s
            && Address(base, s, c) % BLOCK_ALIGN == 0
  {
    var s := Stride(blockSize);
    Separated(s, b, c);
    Separated(s, c, maxBlocks);
    Aligned(base, s, c);
  }

  lemma Aligned(base: nat, stride: nat, b: nat)
    requires base % BLOCK_ALIGN == 0 && stride % BLOCK_ALIGN == 0
    ensures Address(base, stride, b) % BLOCK_ALIGN == 0
  {
    var q, p := stride / BLOCK_ALIGN, base / BLOCK_ALIGN;
    assert b * stride == b * (BLOCK_ALIGN * q) == BLOCK_ALIGN * (b * q);
    assert base + b * stride == BLOCK_ALIGN * (p + b * q);
  }

  // ---- The object -----------------------------------------------------------------

  class BoundedAllocator {
    const maxBlocks: nat
    const blockSize: nat
    const base: u64
    const bitmap: array<set<nat>>
    var allocCount: nat
    var deallocCount: nat
    var peakInUse: int
    var inUse: int
    var locked: bool

    /** The blocks in use. */
    ghost function Taken(): set<nat>
      reads this, bitmap
    {
      TakenOf(bitmap[..], maxBlocks)
    }

    /** The counters count the taken blocks, of which there were never more at a time than the peak says. */
    ghost predicate Valid()
      reads this, bitmap
    {
      && bitmap.Length == Words(maxBlocks) && InWords(bitmap[..])
      && inUse == |Taken()| == allocCount - deallocCount
      && inUse <= peakInUse <= maxBlocks
      && base + maxBlocks * Stride(blockSize) <= WORD
    }

    constructor (maxBlocks: nat, blockSize: nat, base: u64)
      requires base + maxBlocks * Stride(blockSize) <= WORD
      ensures Valid() && Taken() == {} && fresh(bitmap)
      ensures this.maxBlocks == maxBlocks && this.blockSize == blockSize && this.base == base
      ensures allocCount == deallocCount == 0 && peakInUse == 0 && !locked
    {
      this.maxBlocks, this.blockSize, this.base := maxBlocks, blockSize, base;
      bitmap := new set<nat>[Words(maxBlocks)](_ => Ones(WORD_BITS));
      allocCount, deallocCount, peakInUse, inUse, locked := 0, 0, 0, 0, false;
      new;
      forall b: nat | b < maxBlocks ensures FreeBit(bitmap[..], b) { InRange(b, maxBlocks); }
      assert Taken() == {};
    }

    method Lock()
      requires Valid()
      modifies this`locked
      ensures Valid() && locked
    {
      locked := true;
    }

    /** Claim the lowest free block; `None` exactly when every block is taken. */
    method TryClaimBlock() returns (r: Option<nat>)
      requires bitmap.Length == Words(maxBlocks) && InWords(bitmap[..])
      modifies bitmap
      ensures InWords(bitmap[..])
      ensures r.None? <==> forall b: nat :: b < maxBlocks ==> b in old(Taken())
      ensures r.None? ==> bitmap[..] == old(bitmap[..])
      ensures r.Some? ==> r.value < maxBlocks && r.value !in old(Taken()) && Taken() == old(Taken()) + {r.value}
      ensures r.Some? ==> forall b: nat :: b < r.value ==> b in old(Taken())
    {
      for w := 0 to bitmap.Length
        invariant bitmap[..] == old(bitmap[..])
        invariant forall b: nat :: b < WORD_BITS * w && b < maxBlocks ==> !FreeBit(bitmap[..], b)
      {
        var word := bitmap[w];
        if word != {} {
          var bit := TrailingZeros(word);
          var block := WORD_BITS * w + bit;
          assert bit < WORD_BITS && FreeBit(bitmap[..], block) by { BlockParts(w, bit); }
          NothingBelow(bitmap[..], w);
          if block < maxBlocks {
            ghost var words := bitmap[..];
            bitmap[w] := word - {bit};
            assert bitmap[..] == words[w := words[w] - {bit}];
            ClearedBit(words, w, bit);
            assert block !in old(Taken());
            return Some(block);
          }
        } else {
          NothingIn(bitmap[..], w);
        }
      }
      forall b: nat | b < maxBlocks ensures b in Taken() { InRange(b, maxBlocks); }
      return None;
    }

    /** Set the bit of block `b`, if it has one. */
    method ReleaseBlock(b: nat) returns (panicked: bool)
      requires InWords(bitmap[..])
      modifies bitmap
      ensures InWords(bitmap[..])
      ensures panicked <==> b / WORD_BITS >= bitmap.Length
      ensures panicked ==> bitmap[..] == old(bitmap[..])
      ensures !panicked ==> forall c: nat :: FreeBit(bitmap[..], c) <==> FreeBit(old(bitmap[..]), c) || c == b
    {
      if b / WORD_BITS >= bitmap.Length { return true; }
      ghost var words := bitmap[..];
      bitmap[b / WORD_BITS] := bitmap[b / WORD_BITS] + {b % WORD_BITS};
      assert bitmap[..] == words[b / WORD_BITS := words[b / WORD_BITS] + {b % WORD_BITS}];
      SetBit(words, b);
      return false;
    }

    /** The block a pointer belongs to: for the address of a block, that block. */
    method BlockIndexOf(ptr: u64) returns (b: nat)
      requires Stride(blockSize) > 0
      ensures b == IndexOf(base, Stride(blockSize), ptr)
      ensures forall c: nat :: ptr == Address(base, Stride(blockSize), c) ==> b == c
    {
      hide Address, Stride;
      var offset := (ptr - base) % WORD;
      b := offset / Stride(blockSize);
      forall c: nat | ptr == Address(base, Stride(blockSize), c) ensures b == c {
        IndexOfBlock(base, Stride(blockSize), ptr, c);
      }
    }

    /** A block for `size` bytes at `align`: the lowest free one. It fails exactly when the request is too
        large, too strictly aligned, or every block is taken, and then nothing changes. */
    method Alloc(size: nat, align: nat) returns (r: Allocation)
      requires Valid()
      modifies this, bitmap
      ensures Valid() && locked == old(locked)
      ensures r.Panic? <==> old(locked)
      ensures r.Block? <==> !old(locked) && size <= blockSize && align <= BLOCK_ALIGN
                            && exists b: nat :: b < maxBlocks && b !in old(Taken())
      ensures r.Block? ==> exists b: nat ::
                && b < maxBlocks && b !in old(Taken()) && Taken() == old(Taken()) + {b}
                && (forall c: nat :: c < b ==> c in old(Taken()))
                && r.ptr == Address(base, Stride(blockSize), b)
      ensures r.Block? ==> allocCount == old(allocCount) + 1 && deallocCount == old(deallocCount)
                           && peakInUse == Max(old(peakInUse), |Taken()|)
      ensures !r.Block? ==> unchanged(this) && bitmap[..] == old(bitmap[..])
    {
      if locked { return Panic; }
      if size > blockSize { return Null; }
      if align > BLOCK_ALIGN { return Null; }
      var claim := TryClaimBlock();
      if claim.None? { return Null; }
      var block := claim.value;
      allocCount := allocCount + 1;
      inUse := inUse + 1;
      var inUseAfter := inUse;
      AtMost(Taken(), maxBlocks);
      assert |Taken()| == old(|Taken()|) + 1;
      var peak := peakInUse;
      if inUseAfter > peak { peakInUse := inUseAfter; }
      return Block(Address(base, Stride(blockSize), block));
    }

    /** Give a block back by its pointer. For the pointer of a block `b` in use that block is freed and nothing else.
        For any other address the index computed from it decides: the bit it names is set, or the program panics
        before anything has changed. */
    method Dealloc(ptr: u64, ghost b: nat) returns (panicked: bool)
      requires InWords(bitmap[..])
      modifies this, bitmap
      ensures panicked <==> Stride(blockSize) == 0
                            || IndexOf(base, Stride(blockSize), ptr) / WORD_BITS >= bitmap.Length
      ensures panicked ==> unchanged(this) && bitmap[..] == old(bitmap[..])
      ensures !panicked ==> deallocCount == old(deallocCount) + 1 && inUse == Decremented(old(inUse))
                            && forall c: nat :: FreeBit(bitmap[..], c) <==>
                                 FreeBit(old(bitmap[..]), c) || c == IndexOf(base, Stride(blockSize), ptr)
      ensures allocCount == old(allocCount) && peakInUse == old(peakInUse) && locked == old(locked)
      ensures InWords(bitmap[..])
      ensures old(Valid()) && blockSize > 0 && b in old(Taken()) && ptr == Address(base, Stride(blockSize), b) ==>
                !panicked && Valid() && Taken() == old(Taken()) - {b}
    {
      if Stride(blockSize) == 0 { return true; }
      var block := BlockIndexOf(ptr);
      panicked := ReleaseBlock(block);
      if !panicked {
        deallocCount := deallocCount + 1;
        inUse := Decremented(inUse);
      }
      if old(Valid()) && blockSize > 0 && b in old(Taken()) && ptr == Address(base, Stride(blockSize), b) {
        InRange(b, maxBlocks);
        assert Taken() == old(Taken()) - {b};
        assert |old(Taken())| > 0;
      }
    }
  }

  lemma NothingBelow(words: seq<set<nat>>, w: nat)
    requires InWords(words) && w < |words| && words[w] != {}
    ensures forall b: nat :: WORD_BITS * w <= b < WORD_BITS * w + TrailingZeros(words[w]) ==> !FreeBit(words, b)
  {
    var bit := TrailingZeros(words[w]);
    assert bit in words[w] && bit < WORD_BITS;
    forall b: nat | WORD_BITS * w <= b < WORD_BITS * w + bit ensures !FreeBit(words, b) {
      BlockParts(w, b - WORD_BITS * w);
    }
  }

  lemma NothingIn(words: seq<set<nat>>, w: nat)
    requires w < |words| && words[w] == {}
    ensures forall b: nat :: WORD_BITS * w <= b < WORD_BITS * (w + 1) ==> !FreeBit(words, b)
  {
    forall b: nat | WORD_BITS * w <= b < WORD_BITS * (w + 1) ensures !FreeBit(words, b) {
      BlockParts(w, b - WORD_BITS * w);
    }
  }
}
