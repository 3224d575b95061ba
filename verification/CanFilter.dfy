/** The kernel filters compiled from the inbound channels of a CAN interface, against the predicate by which
    received frames are handed to those channels. */
module CanFilter {
  const CAN_EFF_FLAG: bv32 := 0x8000_0000

  datatype RawId = RawId(value: bv32, extended: bool)

  /** An identifier as its constructors make it: 11 bits, or 29 when extended. */
  type CanId = id: RawId | id.value <= (if id.extended then 0x1FFF_FFFF else 0x7FF) witness RawId(0, false)

  datatype CanRouting = CanRouting(canId: CanId, mask: bv32)

  datatype Filter = Filter(canId: bv32, canMask: bv32)

  /** The identifier as the kernel sees it, with the extended flag folded in. */
  function Fold(id: CanId): bv32 { id.value | (if id.extended then CAN_EFF_FLAG else 0) }

  function FilterFor(r: CanRouting): Filter { Filter(Fold(r.canId), r.mask | CAN_EFF_FLAG) }

  /** The bits under the mask in which two identifiers differ. */
  function Differing(a: bv32, b: bv32, mask: bv32): bv32 { (a ^ b) & mask }

  /** The kernel's test. */
  predicate Accepts(f: Filter, id: bv32) { Differing(id, f.canId, f.canMask) == 0 }

  predicate Matches(r: CanRouting, id: CanId) {
    r.canId.extended == id.extended && Differing(r.canId.value, id.value, r.mask) == 0
  }

  // ---- Bit by bit ---------------------------------------------------------------------

  /** Bit `i` of `x`, counting from the least significant one. */
  predicate Bit(x: bv32, i: nat) { if i == 0 then x & 1 == 1 else Bit(x >> 1, i - 1) }

  lemma Halves(a: bv32, b: bv32, mask: bv32)
    ensures Differing(a, b, mask) >> 1 == Differing(a >> 1, b >> 1, mask >> 1)
    ensures Differing(a, b, mask) & 1 == 1 <==> mask & 1 == 1 && (a & 1 == 1) != (b & 1 == 1)
  {
  }

  lemma {:induction false} DifferingBit(a: bv32, b: bv32, mask: bv32, i: nat)
    ensures Bit(Differing(a, b, mask), i) <==> Bit(mask, i) && Bit(a, i) != Bit(b, i)
    decreases i
  {
    hide Differing;
    Halves(a, b, mask);
    if i > 0 { DifferingBit(a >> 1, b >> 1, mask >> 1, i - 1); }
  }

  lemma Halved(x: bv32)
    ensures x >> 1 <= x && (x != 0 ==> x >> 1 < x) && (x >> 1 == 0 && x != 0 ==> x & 1 == 1)
  {
  }

  lemma {:induction false} SomeBit(x: bv32) returns (i: nat)
    requires x != 0
    ensures Bit(x, i)
    decreases x
  {
    Halved(x);
    if x >> 1 == 0 {
      i := 0;
    } else {
      var j := SomeBit(x >> 1);
      i := j + 1;
    }
  }

  lemma {:induction false} NoBit(i: nat)
    ensures !Bit(0, i)
  {
    var zero: bv32 := 0;
    assert zero >> 1 == 0;
    if i > 0 { NoBit(i - 1); }
  }

  /** A channel matches an identifier of its kind exactly when the two agree in every bit the mask selects. */
  lemma MatchesBitwise(r: CanRouting, id: CanId)
    ensures Matches(r, id) <==>
            && r.canId.extended == id.extended
            && forall i: nat :: Bit(r.mask, i) ==> Bit(r.canId.value, i) == Bit(id.value, i)
  {
    hide Differing, Bit;
    var x := Differing(r.canId.value, id.value, r.mask);
    forall i: nat ensures Bit(x, i) <==> Bit(r.mask, i) && Bit(r.canId.value, i) != Bit(id.value, i) {
      DifferingBit(r.canId.value, id.value, r.mask, i);
    }
    if x == 0 {
      forall i: nat ensures !Bit(x, i) { NoBit(i); }
    } else {
      var i := SomeBit(x);
      DifferingBit(r.canId.value, id.value, r.mask, i);
      assert Bit(r.mask, i) && Bit(r.canId.value, i) != Bit(id.value, i);
    }
  }

  /** The bits an identifier of this kind has. */
  function IdBits(extended: bool): bv32 { if extended then 0x1FFF_FFFF else 0x7FF }

  lemma NoOtherBits(id: CanId)
    ensures id.value & !IdBits(id.extended) == 0
  {
  }

  lemma XorZero(a: bv32, b: bv32)
    ensures a ^ b == 0 <==> a == b
  {
  }

  lemma XorWithin(a: bv32, b: bv32, all: bv32)
    requires a & !all == 0 && b & !all == 0
    ensures (a ^ b) & !all == 0
  {
  }

  lemma MaskedZero(x: bv32, mask: bv32, all: bv32)
    requires mask & all == all && x & !all == 0
    ensures x & mask == 0 <==> x == 0
  {
  }

  /** Under a mask over all bits of its identifier a channel matches its own identifier alone. */
  lemma FullMaskIsExact(r: CanRouting, id: CanId)
    requires r.mask & IdBits(r.canId.extended) == IdBits(r.canId.extended)
    ensures Matches(r, id) <==> id == r.canId
  {
    var all := IdBits(r.canId.extended);
    if r.canId.extended == id.extended {
      var a, b := r.canId.value, id.value;
      NoOtherBits(r.canId);
      NoOtherBits(id);
      XorZero(a, b);
      XorWithin(a, b, all);
      MaskedZero(a ^ b, r.mask, all);
    }
  }

  // ---- The flag folded in ---------------------------------------------------------------

  lemma FoldedBits(a: bv32, b: bv32, ea: bv32, eb: bv32, mask: bv32)
    requires a & 0x8000_0000 == 0 && b & 0x8000_0000 == 0
    requires ea & 0x7FFF_FFFF == 0 && eb & 0x7FFF_FFFF == 0
    ensures Differing(b | eb, a | ea, mask | 0x8000_0000) == Differing(a, b, mask) | (ea ^ eb)
  {
  }

  lemma BothZero(x: bv32, ea: bv32, eb: bv32)
    ensures x | (ea ^ eb) == 0 <==> ea == eb && x == 0
  {
  }

  lemma FoldedTest(a: bv32, b: bv32, ea: bv32, eb: bv32, mask: bv32)
    requires a & 0x8000_0000 == 0 && b & 0x8000_0000 == 0
    requires ea & 0x7FFF_FFFF == 0 && eb & 0x7FFF_FFFF == 0
    ensures Accepts(Filter(a | ea, mask | 0x8000_0000), b | eb) <==> ea == eb && Differing(a, b, mask) == 0
  {
    hide Differing;
    FoldedBits(a, b, ea, eb, mask);
    BothZero(Differing(a, b, mask), ea, eb);
  }

  lemma NoFlag(id: CanId)
    ensures id.value & 0x8000_0000 == 0
  {
  }

  /** One filter accepts exactly the identifiers its channel matches. */
  lemma FilterAgrees(r: CanRouting, id: CanId)
    ensures Accepts(FilterFor(r), Fold(id)) <==> Matches(r, id)
  {
    hide Accepts, Differing;
    NoFlag(r.canId);
    NoFlag(id);
    var ea: bv32 := if r.canId.extended then CAN_EFF_FLAG else 0;
    var eb: bv32 := if id.extended then CAN_EFF_FLAG else 0;
    FoldedTest(r.canId.value, id.value, ea, eb, r.mask);
  }

  // ---- Compilation --------------------------------------------------------------------

  predicate NoRepeats(fs: seq<Filter>) { forall i, j :: 0 <= i < j < |fs| ==> fs[i] != fs[j] }

  /** Every entry once, in the order of first appearance. */
  function Dedup(fs: seq<Filter>): (r: seq<Filter>)
    ensures NoRepeats(r) && forall f :: f in r <==> f in fs
  {
    if fs == [] then []
    else
      var init, last := fs[..|fs| - 1], fs[|fs| - 1];
      assert fs == init + [last];
      var d := Dedup(init);
      if last in d then d else d + [last]
  }

  function FiltersOf(rs: seq<CanRouting>): (fs: seq<Filter>)
    ensures |fs| == |rs| && forall i :: 0 <= i < |rs| ==> fs[i] == FilterFor(rs[i])
  {
    seq(|rs|, i requires 0 <= i < |rs| => FilterFor(rs[i]))
  }

  /** A list without repeats is left as it is. */
  lemma {:induction false} DedupKeeps(fs: seq<Filter>)
    requires NoRepeats(fs)
    ensures Dedup(fs) == fs
  {
    if fs != [] {
      var init, last := fs[..|fs| - 1], fs[|fs| - 1];
      DedupKeeps(init);
      assert fs == init + [last];
    }
  }

  /** Some filter of the list accepts the identifier. */
  predicate AnyAccepts(fs: seq<Filter>, id: CanId) { exists k :: 0 <= k < |fs| && Accepts(fs[k], Fold(id)) }

  /** Some channel is handed a frame with the identifier. */
  predicate AnyMatches(rs: seq<CanRouting>, id: CanId) { exists j :: 0 <= j < |rs| && Matches(rs[j], id) }

  /** The compiled list accepts a frame exactly when some channel is handed it. */
  lemma AgreesWithDemux(routings: seq<CanRouting>, id: CanId)
    ensures AnyAccepts(Dedup(FiltersOf(routings)), id) <==> AnyMatches(routings, id)
  {
    hide Accepts, Matches, FilterFor, Fold, Dedup, FiltersOf;
    var all := FiltersOf(routings);
    var filters := Dedup(all);
    if AnyAccepts(filters, id) {
      var k :| 0 <= k < |filters| && Accepts(filters[k], Fold(id));
      assert filters[k] in all;
      var j :| 0 <= j < |all| && all[j] == filters[k];
      FilterAgrees(routings[j], id);
    }
    if AnyMatches(routings, id) {
      var j :| 0 <= j < |routings| && Matches(routings[j], id);
      FilterAgrees(routings[j], id);
      assert all[j] in filters;
      var k :| 0 <= k < |filters| && filters[k] == all[j];
      assert Accepts(filters[k], Fold(id));
    }
  }

  lemma DedupSnoc(fs: seq<Filter>, f: Filter)
    ensures Dedup(fs + [f]) == if f in Dedup(fs) then Dedup(fs) else Dedup(fs) + [f]
  {
    assert (fs + [f])[..|fs|] == fs;
  }

  method Compile(routings: seq<CanRouting>) returns (filters: seq<Filter>)
    ensures filters == Dedup(FiltersOf(routings)) && NoRepeats(filters)
    ensures forall id: CanId :: AnyAccepts(filters, id) <==> AnyMatches(routings, id)
  {
    hide AnyAccepts, AnyMatches, FilterFor, Dedup;
    filters := [];
    ghost var all := FiltersOf(routings);
    assert Dedup([]) == [] by { DedupKeeps([]); }
    for i := 0 to |routings|
      invariant filters == Dedup(all[..i])
    {
      var f := FilterFor(routings[i]);
      DedupSnoc(all[..i], f);
      assert all[..i + 1] == all[..i] + [f];
      if f !in filters { filters := filters + [f]; }
    }
    assert all[..|routings|] == all;
    forall id: CanId ensures AnyAccepts(filters, id) <==> AnyMatches(routings, id) {
      AgreesWithDemux(routings, id);
    }
  }
}
