/** A bitmap word as the set of its one bits, and the two numbers the allocator reads from it. */
module Bits {
  const WORD_BITS := 64

  /** The word whose `n` low bits are one; with 64 of them, `u64::MAX`. */
  function Ones(n: nat): (s: set<nat>)
    ensures forall b: nat :: b in s <==> b < n
  {
    if n == 0 then {} else Ones(n - 1) + {n - 1}
  }

  predicate IsLowest(m: nat, s: set<nat>) { m in s && forall x :: x in s ==> m <= x }

  lemma {:induction false} HasLowest(s: set<nat>)
    requires s != {}
    ensures exists m :: IsLowest(m, s)
    decreases |s|
  {
    var y :| y in s;
    var rest := s - {y};
    if rest == {} {
      assert s == {y} && IsLowest(y, s);
    } else {
      assert s == rest + {y};
      HasLowest(rest);
      var m :| IsLowest(m, rest);
      assert IsLowest(if m <= y then m else y, s);
    }
  }

  /** `trailing_zeros` of a word that is not zero. */
  function TrailingZeros(word: set<nat>): (m: nat)
    requires word != {}
    ensures m in word && forall x :: x in word ==> m <= x
  {
    HasLowest(word);
    var m :| IsLowest(m, word);
    m
  }

  // ---- Bitmaps --------------------------------------------------------------------

  /** `max.div_ceil(64)`. */
  function Words(max: nat): nat { (max + 63) / 64 }

  /** Block `b` is free: its bit is one. */
  predicate FreeBit(words: seq<set<nat>>, b: nat) {
    b / WORD_BITS < |words| && b % WORD_BITS in words[b / WORD_BITS]
  }

  lemma BlockParts(w: nat, bit: nat)
    requires bit < WORD_BITS
    ensures (WORD_BITS * w + bit) / WORD_BITS == w && (WORD_BITS * w + bit) % WORD_BITS == bit
  {
  }

  lemma SameParts(b: nat, c: nat)
    requires b / WORD_BITS == c / WORD_BITS && b % WORD_BITS == c % WORD_BITS
    ensures b == c
  {
  }

  lemma InRange(b: nat, max: nat)
    requires b < max
    ensures b / WORD_BITS < Words(max)
  {
  }

  lemma ClearedAt(words: seq<set<nat>>, w: nat, bit: nat, c: nat)
    requires w < |words| && bit < WORD_BITS
    ensures FreeBit(words[w := words[w] - {bit}], c) <==> FreeBit(words, c) && c != WORD_BITS * w + bit
  {
    BlockParts(w, bit);
    if c / WORD_BITS == w && c % WORD_BITS == bit { SameParts(c, WORD_BITS * w + bit); }
  }

  /** Clearing a bit takes that block and no other. */
  lemma ClearedBit(words: seq<set<nat>>, w: nat, bit: nat)
    requires w < |words| && bit < WORD_BITS
    ensures forall c: nat :: FreeBit(words[w := words[w] - {bit}], c) <==> FreeBit(words, c) && c != WORD_BITS * w + bit
  {
    hide FreeBit;
    var after := words[w := words[w] - {bit}];
    forall c: nat ensures FreeBit(after, c) <==> FreeBit(words, c) && c != WORD_BITS * w + bit {
      ClearedAt(words, w, bit, c);
    }
  }

  lemma SetAt(words: seq<set<nat>>, b: nat, c: nat)
    requires b / WORD_BITS < |words|
    ensures var w := b / WORD_BITS;
            FreeBit(words[w := words[w] + {b % WORD_BITS}], c) <==> FreeBit(words, c) || c == b
  {
    if c / WORD_BITS == b / WORD_BITS && c % WORD_BITS == b % WORD_BITS { SameParts(c, b); }
  }

  /** Setting the bit of `b` frees that block and no other. */
  lemma SetBit(words: seq<set<nat>>, b: nat)
    requires b / WORD_BITS < |words|
    ensures var w := b / WORD_BITS;
            forall c: nat :: FreeBit(words[w := words[w] + {b % WORD_BITS}], c) <==> FreeBit(words, c) || c == b
  {
    hide FreeBit;
    var after := words[b / WORD_BITS := words[b / WORD_BITS] + {b % WORD_BITS}];
    forall c: nat ensures FreeBit(after, c) <==> FreeBit(words, c) || c == b { SetAt(words, b, c); }
  }

  ghost predicate InWords(words: seq<set<nat>>) { forall w, b :: 0 <= w < |words| && b in words[w] ==> b < WORD_BITS }

  /** The blocks below `max` whose bit is zero. */
  ghost function TakenOf(words: seq<set<nat>>, max: nat): set<nat> { set b: nat | b < max && !FreeBit(words, b) }

  lemma {:induction false} AtMost(s: set<nat>, n: nat)
    requires forall b :: b in s ==> b < n
    ensures |s| <= n
  {
    if n == 0 {
      assert s == {};
    } else {
      AtMost(s - {n - 1}, n - 1);
      assert s <= (s - {n - 1}) + {n - 1};
      assert |s| <= |s - {n - 1}| + 1;
    }
  }
}
