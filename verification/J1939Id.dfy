/** The 29-bit extended CAN identifier of J1939: decode, encode and their round trips.
    Shifts and masks of the program are written as division, remainder and sum. */
module J1939Id {
  import opened Bytes

  const PGN_MAX := 0x3_FFFF
  const PDU2_FORMAT_THRESHOLD := 0xF0
  const GLOBAL_ADDRESS: u8 := 0xFF

  type Pgn = x: int | 0 <= x <= PGN_MAX

  datatype DecodedId = DecodedId(priority: u8, pduFormat: u8, pgn: Pgn, source: u8, dest: Option<u8>)

  function Decode(raw: u32): (d: DecodedId)
  {
    var id := raw % 0x2000_0000;
    var priority := id / 0x400_0000 % 8;
    var dp := id / 0x100_0000 % 4;
    var pf := id / 0x1_0000 % 0x100;
    var ps := id / 0x100 % 0x100;
    var sa := id % 0x100;
    if pf < PDU2_FORMAT_THRESHOLD then
      DecodedId(priority, pf, dp * 0x1_0000 + pf * 0x100, sa, Some(ps))
    else
      DecodedId(priority, pf, dp * 0x1_0000 + pf * 0x100 + ps, sa, None)
  }

  function Encode(pgn: Pgn, priority: u8, source: u8, dest: Option<u8>): (raw: u32)
  {
    var pf := pgn / 0x100 % 0x100;
    var dp := pgn / 0x1_0000 % 4;
    var ps := if pf < PDU2_FORMAT_THRESHOLD
              then (if dest.Some? then dest.value else GLOBAL_ADDRESS)
              else pgn % 0x100;
    priority % 8 * 0x400_0000 + dp * 0x100_0000 + pf * 0x1_0000 + ps * 0x100 + source
  }

  predicate IsPdu1(pgn: Pgn) { pgn / 0x100 % 0x100 < PDU2_FORMAT_THRESHOLD }

  /** The identifier with the given fields. */
  function Pack(priority: nat, dp: nat, pf: u8, ps: u8, source: u8): nat {
    priority * 0x400_0000 + dp * 0x100_0000 + pf * 0x1_0000 + ps * 0x100 + source
  }

  lemma PackFields(priority: nat, dp: nat, pf: u8, ps: u8, source: u8)
    requires priority < 8 && dp < 4
    ensures var id := Pack(priority, dp, pf, ps, source);
            && id < 0x2000_0000
            && id / 0x400_0000 % 8 == priority
            && id / 0x100_0000 % 4 == dp
            && id / 0x1_0000 % 0x100 == pf
            && id / 0x100 % 0x100 == ps
            && id % 0x100 == source
  {
    var id := Pack(priority, dp, pf, ps, source);
    assert id / 0x400_0000 == priority;
    assert id / 0x100_0000 == priority * 4 + dp;
    assert id / 0x1_0000 == (priority * 4 + dp) * 0x100 + pf;
    assert id / 0x100 == ((priority * 4 + dp) * 0x100 + pf) * 0x100 + ps;
  }

  lemma PgnFields(dp: nat, pf: u8, low: u8)
    requires dp < 4
    ensures var pgn := dp * 0x1_0000 + pf * 0x100 + low;
            && pgn <= PGN_MAX
            && pgn / 0x1_0000 % 4 == dp
            && pgn / 0x100 % 0x100 == pf
            && pgn / 0x100 == dp * 0x100 + pf
            && pgn % 0x100 == low
  {
    var pgn := dp * 0x1_0000 + pf * 0x100 + low;
    assert pgn / 0x100 == dp * 0x100 + pf;
  }

  lemma UnpackPgn(pgn: Pgn)
    ensures pgn == pgn / 0x1_0000 % 4 * 0x1_0000 + pgn / 0x100 % 0x100 * 0x100 + pgn % 0x100
  {
    assert pgn / 0x1_0000 < 4;
    assert pgn / 0x100 / 0x100 == pgn / 0x1_0000;
  }

  lemma NestedDivision(id: nat)
    ensures id / 0x1_0000 == id / 0x100 / 0x100
    ensures id / 0x100_0000 == id / 0x1_0000 / 0x100
    ensures id / 0x400_0000 == id / 0x100_0000 / 4
  {
  }

  lemma UnpackId(id: nat)
    requires id < 0x2000_0000
    ensures id == Pack(id / 0x400_0000 % 8, id / 0x100_0000 % 4, id / 0x1_0000 % 0x100, id / 0x100 % 0x100, id % 0x100)
  {
    NestedDivision(id);
    UnpackTail(id, id / 0x100, id / 0x1_0000, id / 0x100_0000, id / 0x400_0000);
  }

  lemma UnpackTail(id: nat, a: nat, b: nat, c: nat, d: nat)
    requires id < 0x2000_0000 && a == id / 0x100 && b == a / 0x100 && c == b / 0x100 && d == c / 4
    ensures id == Pack(d % 8, c % 4, b % 0x100, a % 0x100, id % 0x100)
  {
    Quotient(id, 0x100, 0x20_0000);
    Quotient(a, 0x100, 0x2000);
    Quotient(b, 0x100, 0x20);
    Quotient(c, 4, 8);
    Sum(id, a, b, c, d, id % 0x100, a % 0x100, b % 0x100, c % 4);
  }

  lemma Quotient(n: nat, k: nat, m: nat)
    requires k > 0 && n < k * m
    ensures n == n / k * k + n % k && n / k < m
  {
    var q := n / k;
    assert q >= m ==> q * k >= m * k;
  }

  lemma Sum(id: nat, a: nat, b: nat, c: nat, d: nat, r0: u8, r1: u8, r2: u8, r3: nat)
    requires id == a * 0x100 + r0 && a == b * 0x100 + r1 && b == c * 0x100 + r2 && c == d * 4 + r3 && d < 8
    ensures id == Pack(d % 8, r3, r2, r1, r0)
  {
    assert d % 8 == d;
  }

  lemma DecodeFields(id: u32, priority: u8, dp: nat, pf: u8, ps: u8, source: u8)
    requires id < 0x2000_0000 && dp < 4
    requires id / 0x400_0000 % 8 == priority && id / 0x100_0000 % 4 == dp && id / 0x1_0000 % 0x100 == pf
    requires id / 0x100 % 0x100 == ps && id % 0x100 == source
    ensures Decode(id) ==
            if pf < PDU2_FORMAT_THRESHOLD then DecodedId(priority, pf, dp * 0x1_0000 + pf * 0x100, source, Some(ps))
            else DecodedId(priority, pf, dp * 0x1_0000 + pf * 0x100 + ps, source, None)
  {
    assert id % 0x2000_0000 == id;
  }

  /** Decoding an encoded identifier gives back the 3-bit priority, the source and, in the
      destination-specific format, the destination; it gives back the PGN exactly when the PGN
      is broadcast or has a zero low byte, the byte a destination address displaces. */
  lemma DecodeEncode(pgn: Pgn, priority: u8, source: u8, dest: Option<u8>)
    ensures var d := Decode(Encode(pgn, priority, source, dest));
            && d.priority == priority % 8
            && d.source == source
            && d.dest == (if !IsPdu1(pgn) then None else if dest.Some? then dest else Some(GLOBAL_ADDRESS))
            && (d.pgn == pgn <==> !IsPdu1(pgn) || pgn % 0x100 == 0)
            && d.pgn / 0x100 == pgn / 0x100
  {
    var pf := pgn / 0x100 % 0x100;
    var dp := pgn / 0x1_0000 % 4;
    var ps := if pf < PDU2_FORMAT_THRESHOLD
              then (if dest.Some? then dest.value else GLOBAL_ADDRESS)
              else pgn % 0x100;
    var id := Encode(pgn, priority, source, dest);
    assert && id < 0x2000_0000 && id / 0x400_0000 % 8 == priority % 8 && id / 0x100_0000 % 4 == dp
           && id / 0x1_0000 % 0x100 == pf && id / 0x100 % 0x100 == ps && id % 0x100 == source by {
      PackFields(priority % 8, dp, pf, ps, source);
    }
    DecodeFields(id, priority % 8, dp, pf, ps, source);
    UnpackPgn(pgn);
    PgnFields(dp, pf, 0);
    PgnFields(dp, pf, pgn % 0x100);
  }

  lemma EncodeFields(priority: u8, dp: nat, pf: u8, ps: u8, source: u8)
    requires priority < 8 && dp < 4
    ensures dp * 0x1_0000 + pf * 0x100 + ps <= PGN_MAX
    ensures pf < PDU2_FORMAT_THRESHOLD ==>
              Encode(dp * 0x1_0000 + pf * 0x100, priority, source, Some(ps)) == Pack(priority, dp, pf, ps, source)
    ensures pf >= PDU2_FORMAT_THRESHOLD ==>
              Encode(dp * 0x1_0000 + pf * 0x100 + ps, priority, source, None) == Pack(priority, dp, pf, ps, source)
  {
    PgnFields(dp, pf, 0);
    PgnFields(dp, pf, ps);
  }

  /** Encoding the fields of a decoded identifier restores its 29 identifier bits. */
  lemma EncodeDecode(raw: u32)
    ensures var d := Decode(raw);
            Encode(d.pgn, d.priority, d.source, d.dest) == raw % 0x2000_0000
  {
    hide Encode, Pack, Decode;
    var id: u32 := raw % 0x2000_0000;
    DecodeIgnoresFlags(raw, id);
    UnpackId(id);
    EncodeParts(id, id / 0x400_0000 % 8, id / 0x100_0000 % 4, id / 0x1_0000 % 0x100, id / 0x100 % 0x100, id % 0x100);
  }

  lemma EncodeParts(id: u32, priority: u8, dp: nat, pf: u8, ps: u8, source: u8)
    requires id < 0x2000_0000 && priority < 8 && dp < 4
    requires id / 0x400_0000 % 8 == priority && id / 0x100_0000 % 4 == dp && id / 0x1_0000 % 0x100 == pf
    requires id / 0x100 % 0x100 == ps && id % 0x100 == source
    ensures var d := Decode(id);
            Encode(d.pgn, d.priority, d.source, d.dest) == Pack(priority, dp, pf, ps, source)
  {
    hide Encode, Pack, Decode;
    DecodeFields(id, priority, dp, pf, ps, source);
    EncodeFields(priority, dp, pf, ps, source);
  }

  /** The flag bits above the 29 identifier bits do not matter. */
  lemma DecodeIgnoresFlags(raw: u32, id: u32)
    requires id == raw % 0x2000_0000
    ensures Decode(raw) == Decode(id)
  {
    assert id % 0x2000_0000 == id;
  }
}
