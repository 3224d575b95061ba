/** Copying bit slices into and out of a process image, bit by bit. Bit 0 of byte 0 comes first. */
module Pdi {
  import opened Bytes

  datatype PdoDirection = Rx | Tx

  datatype Routing = Routing(subdevice: nat, direction: PdoDirection, bitOffset: nat, bitLength: nat)

  datatype Error = PayloadOverflow(actual: nat, max: nat) | MissingSubdevice(address: nat) | Stack(code: int)

  // ---- Bits of a byte -----------------------------------------------------------

  /** `(b >> k) & 1`. */
  predicate ByteBit(b: bv8, k: nat)
    requires k < 8
  {
    (b >> (k as bv8)) & 1 == 1
  }

  /** `(b & !(1 << k)) | (bit << k)`. */
  function PutBit(b: bv8, k: nat, bit: bv8): bv8
    requires k < 8
  {
    (b & !((1 as bv8) << (k as bv8))) | (bit << (k as bv8))
  }

  lemma ShiftedBits(b: bv8, k: bv8, j: bv8, bit: bv8)
    requires k < 8 && j < 8 && bit <= 1
    ensures ((((b & !((1 as bv8) << k)) | (bit << k)) >> j) & 1 == 1)
            <==> (if j == k then bit == 1 else (b >> j) & 1 == 1)
  {
  }

  lemma SmallShift(k: nat)
    requires k < 8
    ensures (k as bv8) < 8 && ((k as bv8) as int) == k
  {
  }

  lemma PutBits(b: bv8, k: nat, j: nat, x: bv8, y: bv8, bit: bv8)
    requires k < 8 && j < 8 && x == k as bv8 && y == j as bv8 && bit <= 1 && x < 8 && y < 8
    ensures ByteBit(PutBit(b, k, bit), j) <==> (if x == y then bit == 1 else ByteBit(b, j))
  {
    ShiftedBits(b, x, y, bit);
  }

  /** Putting a bit changes that bit only. */
  lemma PutGet(b: bv8, k: nat, j: nat, bit: bv8)
    requires k < 8 && j < 8 && bit <= 1
    ensures ByteBit(PutBit(b, k, bit), j) <==> (if j == k then bit == 1 else ByteBit(b, j))
  {
    SmallShift(k);
    SmallShift(j);
    hide ByteBit, PutBit;
    PutBits(b, k, j, k as bv8, j as bv8, bit);
  }

  /** On a zero bit, `b | (bit << k)` puts the bit. */
  lemma OrPuts(b: bv8, k: nat, bit: bv8)
    requires k < 8 && !ByteBit(b, k) && bit <= 1
    ensures b | (bit << (k as bv8)) == PutBit(b, k, bit)
  {
    SmallShift(k);
    OrShifted(b, k as bv8, bit);
  }

  lemma OrShifted(b: bv8, k: bv8, bit: bv8)
    requires k < 8 && (b >> k) & 1 != 1
    ensures b & !((1 as bv8) << k) == b
  {
  }

  lemma ZeroByte(k: nat)
    requires k < 8
    ensures !ByteBit(0, k)
  {
  }

  // ---- Bits of a buffer -----------------------------------------------------------

  predicate Bit(s: seq<bv8>, i: nat)
    requires i < 8 * |s|
  {
    ByteBit(s[i / 8], i % 8)
  }

  /** Bit `i` as a number, as the loops shift it around. */
  function BitValue(s: seq<bv8>, i: nat): (v: bv8)
    requires i < 8 * |s|
    ensures v <= 1 && (v == 1 <==> Bit(s, i))
  {
    (s[i / 8] >> ((i % 8) as bv8)) & 1
  }

  lemma BitPlace(i: nat, j: nat)
    ensures i / 8 == j / 8 && i % 8 == j % 8 ==> i == j
  {
  }

  /** One bit of a buffer replaced. */
  lemma PutInBuffer(s: seq<bv8>, i: nat, bit: bv8, j: nat)
    requires i < 8 * |s| && j < 8 * |s| && bit <= 1
    ensures Bit(s[i / 8 := PutBit(s[i / 8], i % 8, bit)], j) <==> (if j == i then bit == 1 else Bit(s, j))
  {
    hide ByteBit, PutBit;
    BitPlace(i, j);
    if j / 8 == i / 8 { PutGet(s[i / 8], i % 8, j % 8, bit); }
  }

  // ---- Writing --------------------------------------------------------------------

  /** Why a transfer of `r` between a payload of `payloadLen` bytes and an image of `pdiLen` bytes is refused. */
  function TransferError(pdiLen: nat, r: Routing, payloadLen: nat): Option<Error> {
    if r.bitLength == 0 then None
    else if 8 * payloadLen < r.bitLength then Some(PayloadOverflow(r.bitLength, 8 * payloadLen))
    else if r.bitOffset + r.bitLength > 8 * pdiLen then Some(PayloadOverflow(r.bitOffset + r.bitLength, 8 * pdiLen))
    else None
  }

  predicate InSlice(r: Routing, i: nat) { r.bitOffset <= i < r.bitOffset + r.bitLength }

  /** `after` is `before` with the slice of `r` replaced by the first bits of `value`. */
  ghost predicate Written(before: seq<bv8>, after: seq<bv8>, r: Routing, value: seq<bv8>) {
    && |after| == |before| && r.bitLength <= 8 * |value|
    && forall i: nat :: i < 8 * |before| ==>
         (Bit(after, i) <==> if InSlice(r, i) then Bit(value, i - r.bitOffset) else Bit(before, i))
  }

  method WriteRouting(pdi: array<bv8>, r: Routing, value: seq<bv8>) returns (e: Option<Error>)
    modifies pdi
    ensures e == TransferError(pdi.Length, r, |value|)
    ensures e.None? ==> Written(old(pdi[..]), pdi[..], r, value)
    ensures e.Some? || r.bitLength == 0 ==> pdi[..] == old(pdi[..])
  {
    hide PutBit, ByteBit;
    if r.bitLength == 0 { return None; }
    if 8 * |value| < r.bitLength { return Some(PayloadOverflow(r.bitLength, 8 * |value|)); }
    if r.bitOffset + r.bitLength > 8 * pdi.Length {
      return Some(PayloadOverflow(r.bitOffset + r.bitLength, 8 * pdi.Length));
    }
    ghost var before := pdi[..];
    for i := 0 to r.bitLength
      invariant forall j: nat :: j < 8 * pdi.Length ==>
                  (Bit(pdi[..], j) <==> if r.bitOffset <= j < r.bitOffset + i then Bit(value, j - r.bitOffset)
                                        else Bit(before, j))
    {
      var bit := BitValue(value, i);
      var dst := r.bitOffset + i;
      ghost var s := pdi[..];
      pdi[dst / 8] := PutBit(pdi[dst / 8], dst % 8, bit);
      assert pdi[..] == s[dst / 8 := PutBit(s[dst / 8], dst % 8, bit)];
      forall j: nat | j < 8 * pdi.Length
        ensures Bit(pdi[..], j) <==> if j == dst then bit == 1 else Bit(s, j)
      {
        PutInBuffer(s, dst, bit, j);
      }
    }
    return None;
  }

  // ---- Reading --------------------------------------------------------------------

  /** `after` holds the slice of `r` in its first bytes, with the rest of the last of them cleared; the other
      bytes are as `before`. */
  ghost predicate ReadOut(pdi: seq<bv8>, r: Routing, before: seq<bv8>, after: seq<bv8>) {
    && |after| == |before| && r.bitOffset + r.bitLength <= 8 * |pdi| && DivCeil(r.bitLength, 8) <= |after|
    && (forall i: nat :: i < 8 * DivCeil(r.bitLength, 8) ==>
          (Bit(after, i) <==> i < r.bitLength && Bit(pdi, r.bitOffset + i)))
    && after[DivCeil(r.bitLength, 8)..] == before[DivCeil(r.bitLength, 8)..]
  }

  method ReadRouting(pdi: array<bv8>, r: Routing, into: array<bv8>) returns (e: Option<Error>)
    requires pdi != into
    modifies into
    ensures e == TransferError(pdi.Length, r, into.Length)
    ensures e.None? && r.bitLength > 0 ==> ReadOut(pdi[..], r, old(into[..]), into[..])
    ensures e.Some? || r.bitLength == 0 ==> into[..] == old(into[..])
  {
    hide PutBit, ByteBit;
    if r.bitLength == 0 { return None; }
    if 8 * into.Length < r.bitLength { return Some(PayloadOverflow(r.bitLength, 8 * into.Length)); }
    if r.bitOffset + r.bitLength > 8 * pdi.Length {
      return Some(PayloadOverflow(r.bitOffset + r.bitLength, 8 * pdi.Length));
    }
    var touched := DivCeil(r.bitLength, 8);
    ClearBytes(into, touched);
    for i := 0 to r.bitLength
      invariant into[touched..] == old(into[touched..])
      invariant forall j: nat :: j < 8 * touched ==> (Bit(into[..], j) <==> j < i && Bit(pdi[..], r.bitOffset + j))
    {
      var bit := BitValue(pdi[..], r.bitOffset + i);
      ghost var s := into[..];
      into[i / 8] := into[i / 8] | (bit << ((i % 8) as bv8));
      assert into[..] == s[i / 8 := s[i / 8] | (bit << ((i % 8) as bv8))];
      forall j: nat | j < 8 * touched ensures Bit(into[..], j) <==> if j == i then bit == 1 else Bit(s, j) {
        OrInBuffer(s, i, bit, j);
      }
    }
    return None;
  }

  /** Clear the first `n` bytes. */
  method ClearBytes(into: array<bv8>, n: nat)
    requires n <= into.Length
    modifies into
    ensures forall j: nat :: j < 8 * n ==> !Bit(into[..], j)
    ensures into[n..] == old(into[n..])
  {
    hide ByteBit;
    for k := 0 to n
      invariant forall m :: 0 <= m < k ==> into[m] == 0
      invariant into[n..] == old(into[n..])
    {
      into[k] := 0;
    }
    forall j: nat | j < 8 * n ensures !Bit(into[..], j) { ZeroByte(j % 8); }
  }

  /** One zero bit of a buffer set or left. */
  lemma OrInBuffer(s: seq<bv8>, i: nat, bit: bv8, j: nat)
    requires i < 8 * |s| && j < 8 * |s| && bit <= 1 && !Bit(s, i)
    ensures Bit(s[i / 8 := s[i / 8] | (bit << ((i % 8) as bv8))], j) <==> (if j == i then bit == 1 else Bit(s, j))
  {
    hide ByteBit, PutBit;
    OrPuts(s[i / 8], i % 8, bit);
    PutInBuffer(s, i, bit, j);
  }

  // ---- Both together ----------------------------------------------------------------

  predicate Disjoint(r: Routing, q: Routing) {
    r.bitLength == 0 || q.bitLength == 0
    || r.bitOffset + r.bitLength <= q.bitOffset || q.bitOffset + q.bitLength <= r.bitOffset
  }

  /** Reading after writing gives back the bits written, with the tail cleared; and any slice that does not
      overlap reads as it did before. */
  lemma ReadAfterWrite(p: seq<bv8>, q: seq<bv8>, r: Routing, value: seq<bv8>, other: Routing, a: seq<bv8>, b: seq<bv8>)
    requires Written(p, q, r, value)
    ensures ReadOut(q, r, a, b) ==> forall i: nat :: i < 8 * DivCeil(r.bitLength, 8) ==>
              (Bit(b, i) <==> i < r.bitLength && Bit(value, i))
    ensures Disjoint(r, other) ==> (ReadOut(q, other, a, b) <==> ReadOut(p, other, a, b))
  {
    hide Bit;
    if ReadOut(q, r, a, b) {
      forall i: nat | i < 8 * DivCeil(r.bitLength, 8) ensures Bit(b, i) <==> i < r.bitLength && Bit(value, i) {
        assert i < r.bitLength ==> (Bit(q, r.bitOffset + i) <==> Bit(value, r.bitOffset + i - r.bitOffset));
      }
    }
    if Disjoint(r, other) && other.bitOffset + other.bitLength <= 8 * |p| {
      forall j: nat | InSlice(other, j) ensures Bit(q, j) <==> Bit(p, j) { assert !InSlice(r, j); }
    }
  }

  /** Bits determine the buffer, so what the contracts say of bits they say of bytes. */
  lemma BitsDetermine(s: seq<bv8>, t: seq<bv8>)
    requires |s| == |t| && forall i: nat :: i < 8 * |s| ==> (Bit(s, i) <==> Bit(t, i))
    ensures s == t
  {
    forall k: nat | k < |s| ensures s[k] == t[k] {
      forall j: nat | j < 8 ensures ByteBit(s[k], j) <==> ByteBit(t[k], j) {
        assert (8 * k + j) / 8 == k && (8 * k + j) % 8 == j;
        assert Bit(s, 8 * k + j) <==> Bit(t, 8 * k + j);
      }
      ByteDetermined(s[k], t[k]);
    }
  }

  lemma ByteDetermined(b: bv8, c: bv8)
    requires forall j: nat :: j < 8 ==> (ByteBit(b, j) <==> ByteBit(c, j))
    ensures b == c
  {
    assert (b >> 0) & 1 == (c >> 0) & 1 by { assert ByteBit(b, 0) <==> ByteBit(c, 0); }
    assert (b >> 1) & 1 == (c >> 1) & 1 by { assert ByteBit(b, 1) <==> ByteBit(c, 1); }
    assert (b >> 2) & 1 == (c >> 2) & 1 by { assert ByteBit(b, 2) <==> ByteBit(c, 2); }
    assert (b >> 3) & 1 == (c >> 3) & 1 by { assert ByteBit(b, 3) <==> ByteBit(c, 3); }
    assert (b >> 4) & 1 == (c >> 4) & 1 by { assert ByteBit(b, 4) <==> ByteBit(c, 4); }
    assert (b >> 5) & 1 == (c >> 5) & 1 by { assert ByteBit(b, 5) <==> ByteBit(c, 5); }
    assert (b >> 6) & 1 == (c >> 6) & 1 by { assert ByteBit(b, 6) <==> ByteBit(c, 6); }
    assert (b >> 7) & 1 == (c >> 7) & 1 by { assert ByteBit(b, 7) <==> ByteBit(c, 7); }
  }
}
