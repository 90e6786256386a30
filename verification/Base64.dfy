/** Base64 encoding with an accumulator that wraps around, against the decoder of section 4 of RFC 4648. */
module Base64 {
  import opened Options
  import opened Text

  type Byte = x: int | 0 <= x < 256
  type Bytes = seq<Byte>

  /** The 64 characters, `A` to `Z`, `a` to `z`, `0` to `9`, `+` and `/`. */
  function Lookup(d: nat): (c: char)
    requires d < 64
    ensures c != '='
  {
    if d < 26 then (65 + d) as char
    else if d < 52 then (71 + d) as char
    else if d < 62 then (d - 4) as char
    else if d == 62 then '+' else '/'
  }

  function Value(c: char): Option<nat> {
    if 'A' <= c <= 'Z' then Some(c as int - 65)
    else if 'a' <= c <= 'z' then Some(c as int - 71)
    else if '0' <= c <= '9' then Some(c as int + 4)
    else if c == '+' then Some(62)
    else if c == '/' then Some(63)
    else None
  }

  // ----- the text of section 4

  function ByteAt(input: Bytes, j: nat): Byte {
    if j < |input| then input[j] else 0
  }

  /** The `k`-th group of six bits, the input padded with zero bits. */
  function Sextet(input: Bytes, k: nat): (d: nat)
    ensures d < 64
  {
    var j := k / 4 * 3;
    match k % 4
    case 0 => ByteAt(input, j) / 4
    case 1 => ByteAt(input, j) % 4 * 16 + ByteAt(input, j + 1) / 16
    case 2 => ByteAt(input, j + 1) % 16 * 4 + ByteAt(input, j + 2) / 64
    case _ => ByteAt(input, j + 2) % 64
  }

  function Sextets(input: Bytes, n: nat): (s: string)
    ensures |s| == n
  {
    seq(n, k requires 0 <= k < n => Lookup(Sextet(input, k)))
  }

  function Padding(n: nat): string
    decreases (4 - n % 4) % 4
  {
    if n % 4 == 0 then "" else "=" + Padding(n + 1)
  }

  /** As many groups of six bits as the input needs, padded to a multiple of four characters. */
  function Encoded(input: Bytes): string {
    var n := (8 * |input| + 5) / 6;
    Sextets(input, n) + Padding(n)
  }

  /** The decoder: groups of four characters, the last of which may end in one or two pads. */
  function Decode(s: string): Option<Bytes> {
    if s == "" then Some([])
    else if |s| < 4 then None
    else
      match (Value(s[0]), Value(s[1]))
      case (Some(a), Some(b)) =>
        if s[2] == '=' then
          if s[3] == '=' && |s| == 4 then Some([(a * 4 + b / 16) % 256]) else None
        else (
          match Value(s[2])
          case None => None
          case Some(c) =>
            if s[3] == '=' then
              if |s| == 4 then Some([(a * 4 + b / 16) % 256, (b % 16 * 16 + c / 4) % 256]) else None
            else (
              match (Value(s[3]), Decode(s[4..]))
              case (Some(d), Some(rest)) =>
                Some([(a * 4 + b / 16) % 256, (b % 16 * 16 + c / 4) % 256, (c % 4 * 64 + d) % 256] + rest)
              case _ => None))
      case _ => None
  }

  // ----- the program

  /** The value of a 32-bit two's complement word. */
  function Wrap(v: int): (w: int)
    ensures -0x8000_0000 <= w < 0x8000_0000
  {
    var u := v % 0x1_0000_0000;
    if u < 0x8000_0000 then u else u - 0x1_0000_0000
  }

  function Pow2(n: nat): (p: int)
    ensures p > 0
  {
    if n == 0 then 1 else 2 * Pow2(n - 1)
  }

  /** `(val >> shift) & 0x3F`, the shift being arithmetic. */
  function SixBits(val: int, shift: nat): (d: nat)
    ensures d < 64
  {
    val / Pow2(shift) % 64
  }

  lemma SmallPowers()
    ensures Pow2(0) == 1 && Pow2(2) == 4 && Pow2(4) == 16 && Pow2(6) == 64
  {
    assert Pow2(1) == 2 && Pow2(3) == 8 && Pow2(5) == 32;
  }

  lemma Mod4(x: int, q: int, r: int)
    requires x == 4 * q + r && 0 <= r < 4
    ensures x % 4 == r && x / 4 == q
  {
  }

  lemma Mod16(x: int, q: int, r: int)
    requires x == 16 * q + r && 0 <= r < 16
    ensures x % 16 == r && x / 16 == q
  {
  }

  lemma Mod64(x: int, q: int, r: int)
    requires x == 64 * q + r && 0 <= r < 64
    ensures x % 64 == r && x / 64 == q
  {
  }

  lemma Mod256(x: int, q: int, r: int)
    requires x == 256 * q + r && 0 <= r < 256
    ensures x % 256 == r && x / 256 == q
  {
  }

  lemma BitsOf(x: int, b: Byte)
    ensures var v := 256 * x + b;
            && v % 256 == b && v % 64 == b % 64
            && v / 4 == 64 * x + b / 4 && v / 16 == 16 * x + b / 16 && v / 64 == 4 * x + b / 64
  {
    var v := 256 * x + b;
    Mod256(v, x, b);
    Mod4(v, 64 * x + b / 4, b % 4);
    Mod16(v, 16 * x + b / 16, b % 16);
    Mod64(v, 4 * x + b / 64, b % 64);
  }

  lemma LowBits(x: int, c: nat)
    ensures c < 64 ==> (64 * x + c) % 64 == c
    ensures c < 16 ==> (16 * x + c) % 64 == x % 4 * 16 + c
    ensures c < 4 ==> (4 * x + c) % 64 == x % 16 * 4 + c
  {
    if c < 64 {
      Mod64(64 * x + c, x, c);
    }
    if c < 16 {
      Mod64(16 * x + c, x / 4, x % 4 * 16 + c);
    }
    if c < 4 {
      Mod64(4 * x + c, x / 16, x % 16 * 4 + c);
    }
  }

  lemma SameLowBits(x: int, y: int)
    requires x % 256 == y % 256
    ensures x % 4 == y % 4 && x % 16 == y % 16
  {
    var r := x % 256;
    LowOfByte(x, x / 256, r);
    LowOfByte(y, y / 256, r);
  }

  lemma LowOfByte(x: int, q: int, r: int)
    requires x == 256 * q + r && 0 <= r < 256
    ensures x % 4 == r % 4 && x % 16 == r % 16
  {
    var a, b, c, d := r / 4, r % 4, r / 16, r % 16;
    assert r == 4 * a + b && r == 16 * c + d;
    Mod4(x, 64 * q + a, b);
    Mod16(x, 16 * q + c, d);
  }

  /** Shifting eight bits in, with wraparound, amounts to multiplying some word with the same low byte. */
  lemma WrapLosesHighBits(val: int) returns (x: int)
    ensures Wrap(val * 256) == 256 * x && x % 256 == val % 256
  {
    var u := val * 256 % 0x1_0000_0000;
    var q := val * 256 / 0x1_0000_0000;
    var k := if u < 0x8000_0000 then q else q + 1;
    x := val - k * 0x100_0000;
    Mod256(x, val / 256 - k * 0x1_0000, val % 256);
  }

  /** The bits pushed after a byte has been shifted in, from the byte before it and the new one. */
  lemma PushedBits(val: int, b: Byte)
    ensures var v := Wrap(val * 256) + b;
            && v % 256 == b && -0x8000_0000 <= v < 0x8000_0000
            && SixBits(v, 2) == b / 4
            && SixBits(v, 4) == val % 4 * 16 + b / 16
            && SixBits(v, 6) == val % 16 * 4 + b / 64
            && SixBits(v, 0) == b % 64
  {
    SmallPowers();
    var x := WrapLosesHighBits(val);
    var v := 256 * x + b;
    BitsOf(x, b);
    assert -0x8000_0000 <= 256 * x < 0x8000_0000;
    assert -0x80_0000 <= x < 0x80_0000;
    hide Wrap;
    assert v / 4 % 64 == b / 4 by { LowBits(x, b / 4); }
    assert v / 16 % 64 == x % 4 * 16 + b / 16 by { LowBits(x, b / 16); }
    assert v / 64 % 64 == x % 16 * 4 + b / 64 by { LowBits(x, b / 64); }
    SameLowBits(x, val);
    hide Wrap, Pow2;
    assert v / 1 == v;
  }

  /** The bits pushed at the end, when the last byte has left two or four of them over. */
  lemma LeftoverBits(val: int)
    ensures SixBits(Wrap(val * 256), 4) == val % 4 * 16
    ensures SixBits(Wrap(val * 256), 6) == val % 16 * 4
  {
    PushedBits(val, 0);
  }

  // ----- the loop

  /** Where the loop stands after `i` bytes: `valb` is -6, -4 or -2, one group has been pushed for each
      six bits taken in, and exactly the low byte of the accumulator is still needed. */
  ghost predicate Stands(input: Bytes, i: nat, pushed: nat, val: int, valb: int) {
    && i <= |input| && valb == 2 * (i % 3) - 6 && pushed == i / 3 * 4 + i % 3
    && (i > 0 ==> val % 256 == input[i - 1])
  }

  lemma SextetIndex(q: nat, r: nat)
    requires r < 4
    ensures (q * 4 + r) / 4 == q && (q * 4 + r) % 4 == r
  {
  }

  lemma SextetAt(input: Bytes, q: nat, r: nat)
    requires r < 4
    ensures Sextet(input, q * 4 + r) ==
            if r == 0 then ByteAt(input, 3 * q) / 4
            else if r == 1 then ByteAt(input, 3 * q) % 4 * 16 + ByteAt(input, 3 * q + 1) / 16
            else if r == 2 then ByteAt(input, 3 * q + 1) % 16 * 4 + ByteAt(input, 3 * q + 2) / 64
            else ByteAt(input, 3 * q + 2) % 64
  {
    SextetIndex(q, r);
  }

  /** The group pushed first after a byte has been shifted in is the right one. */
  lemma NextGroup(input: Bytes, i: nat, q: nat, r: nat, before: int)
    requires i < |input| && i == 3 * q + r && r < 3 && (i > 0 ==> before % 256 == input[i - 1])
    ensures SixBits(Wrap(before * 256) + input[i], 2 * r + 2) == Sextet(input, q * 4 + r)
  {
    PushedBits(before, input[i]);
    SextetAt(input, q, r);
    if r > 0 {
      LowOfByte(before, before / 256, input[i - 1]);
    }
    hide Wrap, SixBits, Sextet;
    assert r == 0 ==> 2 * r + 2 == 2 && i == 3 * q;
    assert r == 1 ==> 2 * r + 2 == 4 && i == 3 * q + 1;
    assert r == 2 ==> 2 * r + 2 == 6 && i == 3 * q + 2;
  }

  /** So is the one pushed second, after every third byte. */
  lemma SecondGroup(input: Bytes, i: nat, q: nat, before: int)
    requires i < |input| && i == 3 * q + 2
    ensures SixBits(Wrap(before * 256) + input[i], 0) == Sextet(input, q * 4 + 3)
  {
    PushedBits(before, input[i]);
    SextetAt(input, q, 3);
    hide Wrap, SixBits, Sextet;
  }

  lemma PushSextet(input: Bytes, n: nat, d: nat)
    requires d < 64 && d == Sextet(input, n)
    ensures Sextets(input, n) + [Lookup(d)] == Sextets(input, n + 1)
  {
  }

  lemma Successor(i: nat)
    ensures i % 3 == 2 ==> (i + 1) / 3 == i / 3 + 1 && (i + 1) % 3 == 0
    ensures i % 3 < 2 ==> (i + 1) / 3 == i / 3 && (i + 1) % 3 == i % 3 + 1
  {
  }

  /** The inner loop: pushes every group of six bits that is complete. */
  method PushGroups(out: string, val: int, valb: int, ghost input: Bytes, ghost q: nat, ghost r: nat)
      returns (out': string, valb': int)
    requires r < 3 && valb == 2 * r + 2 && out == Sextets(input, q * 4 + r)
    requires SixBits(val, 2 * r + 2) == Sextet(input, q * 4 + r)
    requires r == 2 ==> SixBits(val, 0) == Sextet(input, q * 4 + 3)
    ensures out' == Sextets(input, |out'|)
    ensures r < 2 ==> valb' == 2 * r - 4 && |out'| == q * 4 + r + 1
    ensures r == 2 ==> valb' == -6 && |out'| == q * 4 + 4
  {
    hide SixBits, Sextet, Sextets, Lookup;
    out', valb' := out, valb;
    while valb' >= 0
      invariant out' == Sextets(input, |out'|)
      invariant || (valb' == 2 * r + 2 && |out'| == q * 4 + r)
                || (valb' == 2 * r - 4 && |out'| == q * 4 + r + 1)
                || (r == 2 && valb' == -6 && |out'| == q * 4 + 4)
      decreases valb'
    {
      PushSextet(input, |out'|, SixBits(val, valb'));
      out' := out' + [Lookup(SixBits(val, valb'))];
      valb' := valb' - 6;
    }
  }

  method Encode(input: Bytes) returns (out: string)
    ensures out == Encoded(input)
  {
    out := "";
    var val, valb := 0, -6;
    for i := 0 to |input|
      invariant Stands(input, i, |out|, val, valb) && out == Sextets(input, |out|)
      invariant -0x8000_0000 <= val < 0x8000_0000
    {
      ghost var before, q, r := val, i / 3, i % 3;
      val := Wrap(val * 256) + input[i];
      PushedBits(before, input[i]);
      NextGroup(input, i, q, r, before);
      if r == 2 {
        SecondGroup(input, i, q, before);
      }
      Successor(i);
      hide Wrap, SixBits, Sextet, Sextets, Lookup;
      valb := valb + 8;
      out, valb := PushGroups(out, val, valb, input, q, r);
    }
    if valb > -6 {
      LastGroup(input, val, valb);
      PushSextet(input, |out|, SixBits(Wrap(val * 256), valb + 8));
      out := out + [Lookup(SixBits(Wrap(val * 256), valb + 8))];
    }
    GroupCount(|input|);
    hide Sextets, Padding, SixBits, Lookup;
    out := Pad(out);
  }

  /** Pads to a multiple of four characters. */
  method Pad(groups: string) returns (out: string)
    ensures out == groups + Padding(|groups|)
  {
    out := groups;
    while |out| % 4 != 0
      invariant groups + Padding(|groups|) == out + Padding(|out|)
      decreases (4 - |out| % 4) % 4
    {
      Assoc(out, "=", Padding(|out| + 1));
      PadShrinks(|out|);
      hide Padding;
      out := out + "=";
    }
    assert out + "" == out;
  }

  lemma PadShrinks(n: nat)
    requires n % 4 != 0
    ensures (4 - (n + 1) % 4) % 4 < (4 - n % 4) % 4
    ensures Padding(n) == "=" + Padding(n + 1)
  {
  }

  lemma GroupCount(n: nat)
    ensures (8 * n + 5) / 6 == n / 3 * 4 + (if n % 3 == 0 then 0 else n % 3 + 1)
  {
  }

  /** The group made of the bits left over at the end. */
  lemma LastGroup(input: Bytes, val: int, valb: int)
    requires var n := |input|; n % 3 != 0 && val % 256 == input[n - 1] && valb == 2 * (n % 3) - 6
    ensures SixBits(Wrap(val * 256), valb + 8) == Sextet(input, |input| / 3 * 4 + |input| % 3)
  {
    LeftoverBits(val);
    SextetAt(input, |input| / 3, |input| % 3);
    assert |input| == 3 * (|input| / 3) + |input| % 3;
    hide Wrap, SixBits, Sextet;
    SameLowBits(val, input[|input| - 1]);
  }

  // ----- decoding

  lemma ValueOfLookup(d: nat)
    requires d < 64
    ensures Value(Lookup(d)) == Some(d)
  {
  }

  /** The text of a longer input is the four characters of its first three bytes, then the rest. */
  lemma EncodedHead(input: Bytes)
    requires |input| >= 3
    ensures Encoded(input) == Sextets(input, 4) + Encoded(input[3..])
  {
    var rest := input[3..];
    var n, m := (8 * |input| + 5) / 6, (8 * |rest| + 5) / 6;
    assert n == m + 4;
    forall k | 0 <= k < m ensures Sextet(input, k + 4) == Sextet(rest, k) {
      assert (k + 4) / 4 * 3 == k / 4 * 3 + 3;
      assert forall j: nat :: ByteAt(rest, j) == ByteAt(input, j + 3);
    }
    assert Sextets(input, n) == Sextets(input, 4) + Sextets(rest, m);
    PaddingPeriod(m);
    Assoc(Sextets(input, 4), Sextets(rest, m), Padding(m));
  }

  lemma {:induction false} PaddingPeriod(n: nat)
    ensures Padding(n + 4) == Padding(n)
    decreases (4 - n % 4) % 4
  {
    if n % 4 != 0 {
      PaddingPeriod(n + 1);
    }
  }

  /** The decoder of the standard returns every input. */
  lemma {:induction false} DecodeInvertsEncode(input: Bytes)
    ensures Decode(Encoded(input)) == Some(input)
    decreases |input|
  {
    if |input| >= 3 {
      FullGroup(input);
      DecodeInvertsEncode(input[3..]);
      assert input == input[..3] + input[3..];
    } else if |input| > 0 {
      ShortGroup(input);
    }
  }

  lemma ThreeBytes(a: Byte, b: Byte, c: Byte)
    ensures (a / 4 * 4 + (a % 4 * 16 + b / 16) / 16) % 256 == a
    ensures ((a % 4 * 16 + b / 16) % 16 * 16 + (b % 16 * 4 + c / 64) / 4) % 256 == b
    ensures ((b % 16 * 4 + c / 64) % 4 * 64 + c % 64) % 256 == c
  {
    Mod16(a % 4 * 16 + b / 16, a % 4, b / 16);
    Mod4(b % 16 * 4 + c / 64, b % 16, c / 64);
  }

  function Triple(w: nat, x: nat, y: nat, z: nat): Bytes {
    [(w * 4 + x / 16) % 256, (x % 16 * 16 + y / 4) % 256, (y % 4 * 64 + z) % 256]
  }

  lemma DecodeGroup(w: nat, x: nat, y: nat, z: nat, rest: string)
    requires w < 64 && x < 64 && y < 64 && z < 64
    ensures Decode([Lookup(w), Lookup(x), Lookup(y), Lookup(z)] + rest) ==
            match Decode(rest) { case Some(more) => Some(Triple(w, x, y, z) + more) case None => None }
  {
    ValueOfLookup(w);
    ValueOfLookup(x);
    ValueOfLookup(y);
    ValueOfLookup(z);
    var s := [Lookup(w), Lookup(x), Lookup(y), Lookup(z)] + rest;
    assert s[0] == Lookup(w) && s[1] == Lookup(x) && s[2] == Lookup(y) && s[3] == Lookup(z) && s[4..] == rest;
    hide Lookup, Value;
  }

  lemma TripleOf(input: Bytes)
    requires |input| >= 3
    ensures Triple(Sextet(input, 0), Sextet(input, 1), Sextet(input, 2), Sextet(input, 3)) == input[..3]
  {
    var a, b, c := input[0], input[1], input[2];
    assert Sextet(input, 0) == a / 4 && Sextet(input, 1) == a % 4 * 16 + b / 16;
    assert Sextet(input, 2) == b % 16 * 4 + c / 64 && Sextet(input, 3) == c % 64;
    hide Sextet;
    ThreeBytes(a, b, c);
    assert input[..3] == [a, b, c];
  }

  lemma FourSextets(input: Bytes)
    ensures Sextets(input, 4) ==
            [Lookup(Sextet(input, 0)), Lookup(Sextet(input, 1)), Lookup(Sextet(input, 2)), Lookup(Sextet(input, 3))]
  {
    hide Sextet, Lookup;
  }

  lemma FullGroup(input: Bytes)
    requires |input| >= 3
    ensures Decode(Encoded(input)) ==
            match Decode(Encoded(input[3..])) { case Some(rest) => Some(input[..3] + rest) case None => None }
  {
    EncodedHead(input);
    FourSextets(input);
    TripleOf(input);
    hide Decode, Encoded, Lookup, Sextets, Sextet, Triple;
    DecodeGroup(Sextet(input, 0), Sextet(input, 1), Sextet(input, 2), Sextet(input, 3), Encoded(input[3..]));
  }

  lemma DecodeOnePad(w: nat, x: nat)
    requires w < 64 && x < 64
    ensures Decode([Lookup(w), Lookup(x), '=', '=']) == Some([(w * 4 + x / 16) % 256])
  {
    ValueOfLookup(w);
    ValueOfLookup(x);
    hide Lookup, Value;
  }

  lemma DecodeTwoPad(w: nat, x: nat, y: nat)
    requires w < 64 && x < 64 && y < 64
    ensures Decode([Lookup(w), Lookup(x), Lookup(y), '=']) == Some([(w * 4 + x / 16) % 256, (x % 16 * 16 + y / 4) % 256])
  {
    ValueOfLookup(w);
    ValueOfLookup(x);
    ValueOfLookup(y);
    hide Lookup, Value;
  }

  lemma Pads()
    ensures Padding(2) == ['=', '='] && Padding(3) == ['=']
  {
    assert Padding(4) == "" && Padding(3) == "=" + Padding(4) && Padding(2) == "=" + Padding(3);
  }

  lemma ShortText(input: Bytes)
    requires 0 < |input| < 3
    ensures |input| == 1 ==> Encoded(input) == [Lookup(Sextet(input, 0)), Lookup(Sextet(input, 1)), '=', '=']
    ensures |input| == 2 ==>
              Encoded(input) == [Lookup(Sextet(input, 0)), Lookup(Sextet(input, 1)), Lookup(Sextet(input, 2)), '=']
  {
    Pads();
    hide Lookup, Sextet, Padding;
    var d0, d1, d2 := Sextet(input, 0), Sextet(input, 1), Sextet(input, 2);
    assert Sextets(input, 2) == [Lookup(d0)] + [Lookup(d1)] by {
      assert Sextets(input, 1) == Sextets(input, 0) + [Lookup(d0)] == [Lookup(d0)];
    }
    if |input| == 2 {
      assert Sextets(input, 3) == Sextets(input, 2) + [Lookup(d2)];
    }
  }

  lemma ShortSextets(input: Bytes)
    requires 0 < |input| < 3
    ensures Sextet(input, 0) == input[0] / 4
    ensures Sextet(input, 1) == input[0] % 4 * 16 + ByteAt(input, 1) / 16
    ensures Sextet(input, 2) == ByteAt(input, 1) % 16 * 4
  {
  }

  lemma OneByteBack(a: Byte, b: Byte)
    ensures Decode([Lookup(a / 4), Lookup(a % 4 * 16 + b / 16), '=', '=']) == Some([a])
  {
    ThreeBytes(a, b, 0);
    DecodeOnePad(a / 4, a % 4 * 16 + b / 16);
    hide *;
  }

  lemma TwoBytesBack(a: Byte, b: Byte)
    ensures Decode([Lookup(a / 4), Lookup(a % 4 * 16 + b / 16), Lookup(b % 16 * 4), '=']) == Some([a, b])
  {
    ThreeBytes(a, b, 0);
    assert b % 16 * 4 + 0 / 64 == b % 16 * 4;
    DecodeTwoPad(a / 4, a % 4 * 16 + b / 16, b % 16 * 4);
    hide *;
  }

  lemma ShortGroup(input: Bytes)
    requires 0 < |input| < 3
    ensures Decode(Encoded(input)) == Some(input)
  {
    hide *;
    ShortText(input);
    ShortSextets(input);
    if |input| == 1 {
      OneByteBack(input[0], ByteAt(input, 1));
      assert input == [input[0]];
    } else {
      TwoBytesBack(input[0], ByteAt(input, 1));
      SecondByte(input);
      assert input == [input[0], input[1]];
    }
  }

  lemma SecondByte(input: Bytes)
    requires |input| == 2
    ensures ByteAt(input, 1) == input[1]
  {
  }

  /** The text takes four characters for every three bytes begun. */
  lemma EncodedLength(input: Bytes)
    ensures |Encoded(input)| == 4 * ((|input| + 2) / 3)
  {
    var q, r := |input| / 3, |input| % 3;
    var n := (8 * |input| + 5) / 6;
    GroupCount(|input|);
    PaddingLength(n);
    hide Padding;
    Mod4(n, q, if r == 0 then 0 else r + 1);
  }

  lemma PaddingLength(n: nat)
    ensures |Padding(n)| == (4 - n % 4) % 4
    decreases (4 - n % 4) % 4
  {
    if n % 4 != 0 {
      PaddingLength(n + 1);
    }
  }
}
