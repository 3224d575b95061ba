/** Machine integers and little-endian byte strings shared by the J1939 modules.
    Fixed-width unsigned integers are subset types of `int`; every place where the
    program truncates, wraps or saturates says so with one of the functions below. */
module Bytes {
  type u8 = x: int | 0 <= x < 0x100
  type u32 = x: int | 0 <= x < 0x1_0000_0000
  type u64 = x: int | 0 <= x < 0x1_0000_0000_0000_0000

  datatype Option<+T> = None | Some(value: T)

  function Min(a: int, b: int): int { if a <= b then a else b }

  function Max(a: int, b: int): int { if a <= b then b else a }

  /** `a.div_ceil(b)`. */
  function DivCeil(a: nat, b: nat): nat
    requires b > 0
  {
    (a + b - 1) / b
  }

  /** `u8::wrapping_add`. */
  function WrapAdd(a: u8, b: u8): u8 { (a + b) % 0x100 }

  /** `saturating_sub` on an unsigned type. */
  function SatSub(a: nat, b: nat): nat { if a >= b then a - b else 0 }

  /** `u32::saturating_add`. */
  function SatAdd32(a: u32, b: u32): u32 { Min(a + b, 0xFFFF_FFFF) }

  /** Byte `i` of `n`, counting from the least significant one, for i = 0..3. */
  function Byte0(n: nat): u8 { n % 0x100 }
  function Byte1(n: nat): u8 { n / 0x100 % 0x100 }
  function Byte2(n: nat): u8 { n / 0x1_0000 % 0x100 }
  function Byte3(n: nat): u8 { n / 0x100_0000 % 0x100 }

  function U16(b0: u8, b1: u8): nat { b0 + 0x100 * b1 }
  function U24(b0: u8, b1: u8, b2: u8): nat { b0 + 0x100 * b1 + 0x1_0000 * b2 }
  function U32(b0: u8, b1: u8, b2: u8, b3: u8): nat { b0 + 0x100 * b1 + 0x1_0000 * b2 + 0x100_0000 * b3 }

  /** The `k` low-order bytes of `n`, least significant first (`to_le_bytes`). */
  function LeBytes(n: nat, k: nat): (s: seq<u8>)
    ensures |s| == k
  {
    if k == 0 then [] else [n % 0x100] + LeBytes(n / 0x100, k - 1)
  }

  /** The number a little-endian byte string denotes (`from_le_bytes`). */
  function LeValue(s: seq<u8>): nat {
    if s == [] then 0 else s[0] + 0x100 * LeValue(s[1..])
  }

  function Pow256(k: nat): nat { if k == 0 then 1 else 0x100 * Pow256(k - 1) }

  lemma {:induction false} LeRoundTrip(n: nat, k: nat)
    requires n < Pow256(k)
    ensures LeValue(LeBytes(n, k)) == n
  {
    if k > 0 {
      assert n / 0x100 < Pow256(k - 1);
      LeRoundTrip(n / 0x100, k - 1);
      assert LeBytes(n, k)[1..] == LeBytes(n / 0x100, k - 1);
    }
  }

  /** The 64-bit instance, in the form the NAME field needs. */
  lemma LeRoundTrip64(n: u64)
    ensures LeValue(LeBytes(n, 8)) == n
  {
    assert Pow256(8) == 0x1_0000_0000_0000_0000 by {
      assert Pow256(2) == 0x1_0000;
      assert Pow256(4) == 0x1_0000_0000;
      assert Pow256(6) == 0x1_0000_0000_0000;
    }
    LeRoundTrip(n, 8);
  }
}
