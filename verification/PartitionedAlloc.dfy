/** Two bounded allocators side by side, one per integrity level, and the address test by which a pointer of
    unknown origin finds its pool. */
module PartitionedAlloc {
  import opened Bits
  import opened Bytes
  import opened BoundedAlloc

  datatype IntegrityLevel = SafetyCritical | QualityManaged

  // ---- The address test -------------------------------------------------------------

  /** The test of `dealloc`. The range it allows counts bytes per allocation, not bytes per block. */
  predicate InCriticalRange(scBase: nat, scBlocks: nat, blockSize: nat, ptr: nat) {
    scBase <= ptr < scBase + scBlocks * blockSize
  }

  /** What a user can check beforehand: the last critical block starts inside that range. */
  predicate LastBlockInRange(scBlocks: nat, blockSize: nat) {
    scBlocks == 0 || (scBlocks - 1) * Stride(blockSize) < scBlocks * blockSize
  }

  /** The test recognises every critical block exactly when it recognises the last one. */
  lemma TestIsExact(scBase: nat, scBlocks: nat, blockSize: nat)
    ensures LastBlockInRange(scBlocks, blockSize) <==>
            forall b: nat :: b < scBlocks
              ==> InCriticalRange(scBase, scBlocks, blockSize, Address(scBase, Stride(blockSize), b))
  {
    var s := Stride(blockSize);
    forall b: nat | b < scBlocks && LastBlockInRange(scBlocks, blockSize)
      ensures InCriticalRange(scBase, scBlocks, blockSize, Address(scBase, s, b))
    {
      Separated(s, b, scBlocks - 1);
    }
    if scBlocks > 0 && !LastBlockInRange(scBlocks, blockSize) {
      assert !InCriticalRange(scBase, scBlocks, blockSize, Address(scBase, s, scBlocks - 1));
    }
  }

  /** A block size that is a positive multiple of the block alignment always passes. */
  lemma MultiplesPass(scBlocks: nat, blockSize: nat)
    requires blockSize > 0 && blockSize % BLOCK_ALIGN == 0
    ensures LastBlockInRange(scBlocks, blockSize)
  {
    if scBlocks > 0 { Separated(blockSize, scBlocks - 1, scBlocks); }
  }

  /** Two critical blocks of 32 bytes: the second starts where the allowed range ends. */
  lemma SmallBlocksMisrouted()
    ensures !LastBlockInRange(2, 32)
    ensures forall scBase: nat :: !InCriticalRange(scBase, 2, 32, Address(scBase, Stride(32), 1))
  {
    assert Stride(32) == 64;
  }

  lemma EmptyRange(scBase: nat, scBlocks: nat, ptr: nat)
    ensures !InCriticalRange(scBase, scBlocks, 0, ptr)
  {
  }

  predicate ArenasApart(scBase: nat, scBlocks: nat, qmBase: nat, qmBlocks: nat, stride: nat) {
    scBase + scBlocks * stride <= qmBase || qmBase + qmBlocks * stride <= scBase
  }

  /** The test never takes a block of the other pool for a critical one. */
  lemma OthersNeverMatch(scBase: nat, scBlocks: nat, qmBase: nat, qmBlocks: nat, blockSize: nat, b: nat)
    requires ArenasApart(scBase, scBlocks, qmBase, qmBlocks, Stride(blockSize)) && b < qmBlocks && blockSize > 0
    ensures !InCriticalRange(scBase, scBlocks, blockSize, Address(qmBase, Stride(blockSize), b))
  {
    hide Stride;
    var s := Stride(blockSize);
    Separated(s, b, qmBlocks);
    NoLonger(scBlocks, blockSize, s);
  }

  lemma NoLonger(blocks: nat, blockSize: nat, stride: nat)
    requires blockSize <= stride
    ensures blocks * blockSize <= blocks * stride
  {
  }

  // ---- The object ---------------------------------------------------------------------

  class PartitionedBoundedAllocator {
    const scPool: BoundedAllocator
    const qmPool: BoundedAllocator

    ghost predicate Valid()
      reads this, scPool, qmPool, scPool.bitmap, qmPool.bitmap
    {
      && scPool != qmPool && scPool.bitmap != qmPool.bitmap
      && scPool.Valid() && qmPool.Valid() && scPool.blockSize == qmPool.blockSize
      && ArenasApart(scPool.base, scPool.maxBlocks, qmPool.base, qmPool.maxBlocks, Stride(scPool.blockSize))
    }

    constructor (scBlocks: nat, qmBlocks: nat, blockSize: nat, scBase: u64, qmBase: u64)
      requires ArenasApart(scBase, scBlocks, qmBase, qmBlocks, Stride(blockSize))
      requires scBase + scBlocks * Stride(blockSize) <= WORD && qmBase + qmBlocks * Stride(blockSize) <= WORD
      ensures Valid() && scPool.Taken() == {} && qmPool.Taken() == {}
      ensures scPool.maxBlocks == scBlocks && qmPool.maxBlocks == qmBlocks && scPool.blockSize == blockSize
    {
      scPool := new BoundedAllocator(scBlocks, blockSize, scBase);
      qmPool := new BoundedAllocator(qmBlocks, blockSize, qmBase);
    }

    /** The pool of an integrity level. */
    function Pool(level: IntegrityLevel): BoundedAllocator {
      match level case SafetyCritical => scPool case QualityManaged => qmPool
    }

    /** The other one. */
    ghost function Other(level: IntegrityLevel): BoundedAllocator {
      match level case SafetyCritical => qmPool case QualityManaged => scPool
    }

    /** Whether a level gets a block depends on its own pool alone, and the other pool is left alone. */
    method AllocIn(level: IntegrityLevel, size: nat, align: nat) returns (r: Allocation)
      requires Valid()
      modifies Pool(level), Pool(level).bitmap
      ensures Valid()
      ensures r.Panic? <==> old(Pool(level).locked)
      ensures r.Block? <==> !old(Pool(level).locked) && size <= scPool.blockSize && align <= BLOCK_ALIGN
                            && exists b: nat :: b < Pool(level).maxBlocks && b !in old(Pool(level).Taken())
      ensures r.Block? ==> exists b: nat ::
                && b < Pool(level).maxBlocks && b !in old(Pool(level).Taken())
                && Pool(level).Taken() == old(Pool(level).Taken()) + {b}
                && r.ptr == Address(Pool(level).base, Stride(scPool.blockSize), b)
      ensures !r.Block? ==> Pool(level).Taken() == old(Pool(level).Taken())
      ensures unchanged(Other(level)) && unchanged(Other(level).bitmap)
    {
      match level {
        case SafetyCritical => r := scPool.Alloc(size, align);
        case QualityManaged => r := qmPool.Alloc(size, align);
      }
    }

    /** Frees in the named pool. */
    method DeallocIn(level: IntegrityLevel, ptr: u64, ghost b: nat) returns (panicked: bool)
      requires Valid() && b in Pool(level).Taken() && ptr == Address(Pool(level).base, Stride(scPool.blockSize), b)
      modifies Pool(level), Pool(level).bitmap
      ensures Valid() && (panicked <==> scPool.blockSize == 0)
      ensures Pool(level).Taken() == old(Pool(level).Taken()) - (if panicked then {} else {b})
      ensures unchanged(Other(level)) && unchanged(Other(level).bitmap)
    {
      assert Stride(scPool.blockSize) == 0 <==> scPool.blockSize == 0;
      match level {
        case SafetyCritical => panicked := scPool.Dealloc(ptr, b);
        case QualityManaged => panicked := qmPool.Dealloc(ptr, b);
      }
    }

    /** Without the level, the address test picks the pool. If it recognises the pointer, the owning pool frees the
        block and the other is left alone. A critical block it does not recognise stays taken for good, and the
        other pool sets whatever bit the address names there, or the program panics. */
    method Dealloc(ptr: u64, ghost level: IntegrityLevel, ghost b: nat) returns (panicked: bool)
      requires Valid() && b in Pool(level).Taken() && ptr == Address(Pool(level).base, Stride(scPool.blockSize), b)
      modifies scPool, qmPool, scPool.bitmap, qmPool.bitmap
      ensures scPool.blockSize == 0 ==> panicked && Valid() && Pool(level).Taken() == old(Pool(level).Taken())
      ensures scPool.blockSize > 0 && Found(level, ptr) ==>
                && !panicked && Valid() && Pool(level).Taken() == old(Pool(level).Taken()) - {b}
                && unchanged(Other(level)) && unchanged(Other(level).bitmap)
      ensures scPool.blockSize > 0 && !Found(level, ptr) ==>
                && unchanged(scPool) && unchanged(scPool.bitmap) && b in scPool.Taken()
                && (panicked <==>
                      IndexOf(qmPool.base, Stride(scPool.blockSize), ptr) / WORD_BITS >= qmPool.bitmap.Length)
                && (!panicked ==>
                      && qmPool.deallocCount == old(qmPool.deallocCount) + 1
                      && qmPool.inUse == Decremented(old(qmPool.inUse))
                      && forall c: nat :: FreeBit(qmPool.bitmap[..], c) <==>
                           || FreeBit(old(qmPool.bitmap[..]), c)
                           || c == IndexOf(qmPool.base, Stride(scPool.blockSize), ptr))
      ensures scPool.blockSize > 0 && LastBlockInRange(scPool.maxBlocks, scPool.blockSize) ==>
                !panicked && Valid() && Pool(level).Taken() == old(Pool(level).Taken()) - {b}
    {
      Routed(level, ptr, b);
      hide Address, Stride, IndexOf, InCriticalRange, LastBlockInRange, ArenasApart;
      if InCriticalRange(scPool.base, scPool.maxBlocks, scPool.blockSize, ptr) {
        panicked := scPool.Dealloc(ptr, b);
      } else {
        panicked := qmPool.Dealloc(ptr, b);
      }
    }

    /** What the address test says of the pointer of a block in use. */
    lemma Routed(level: IntegrityLevel, ptr: nat, b: nat)
      requires Valid() && b in Pool(level).Taken() && ptr == Address(Pool(level).base, Stride(scPool.blockSize), b)
      ensures Stride(scPool.blockSize) == 0 <==> scPool.blockSize == 0
      ensures InCriticalRange(scPool.base, scPool.maxBlocks, scPool.blockSize, ptr) ==>
                level.SafetyCritical? && scPool.blockSize > 0
      ensures level.SafetyCritical? && LastBlockInRange(scPool.maxBlocks, scPool.blockSize) ==>
                InCriticalRange(scPool.base, scPool.maxBlocks, scPool.blockSize, ptr)
    {
      assert Stride(scPool.blockSize) == 0 <==> scPool.blockSize == 0;
      hide Address, Stride, InCriticalRange, LastBlockInRange, ArenasApart;
      TestIsExact(scPool.base, scPool.maxBlocks, scPool.blockSize);
      if scPool.blockSize == 0 {
        EmptyRange(scPool.base, scPool.maxBlocks, ptr);
      } else if level.QualityManaged? {
        OthersNeverMatch(scPool.base, scPool.maxBlocks, qmPool.base, qmPool.maxBlocks, scPool.blockSize, b);
      }
    }

    /** The address test finds the owner of the pointer. */
    ghost predicate Found(level: IntegrityLevel, ptr: nat) {
      level.QualityManaged? || InCriticalRange(scPool.base, scPool.maxBlocks, scPool.blockSize, ptr)
    }

    method Lock()
      requires Valid()
      modifies scPool, qmPool
      ensures Valid() && scPool.locked && qmPool.locked
      ensures scPool.Taken() == old(scPool.Taken()) && qmPool.Taken() == old(qmPool.Taken())
    {
      scPool.Lock();
      qmPool.Lock();
    }
  }
}
