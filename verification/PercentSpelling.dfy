/** Encoded text in any spelling: what either decoder makes of it, and where the two differ. */
module PercentSpelling {
  import opened Options
  import opened PercentCoding
  import opened Text

  /** Ways to write one character: itself, a blank as a plus, two hexadecimal digits, or four of them for a
      code point. */
  datatype Sign = Itself(c: char) | Plus | Pair(high: char, low: char) | Wide(digits: string)

  predicate Legible(s: Sign) {
    match s
    case Itself(c) => c != '%' && c != '+'
    case Plus => true
    case Pair(high, low) => HexDigit(high) && HexDigit(low)
    case Wide(digits) => |digits| == 4 && HexAhead(digits, 4)
  }

  function Spelled(s: Sign): string {
    match s
    case Itself(c) => [c]
    case Plus => "+"
    case Pair(high, low) => ['%', high, low]
    case Wide(digits) => "%u" + digits
  }

  /** What it stands for; a plus is a blank only in a query. */
  function Meant(s: Sign, query: bool): string
    requires Legible(s)
  {
    match s
    case Itself(c) => [c]
    case Plus => if query then " " else "+"
    case Pair(high, low) => [(16 * HexValue(high) + HexValue(low)) as char]
    case Wide(digits) => FourDigits(digits); Utf8(HexNumber(digits, 4))
  }

  function SpelledAll(signs: seq<Sign>): string {
    if signs == [] then "" else Spelled(signs[0]) + SpelledAll(signs[1..])
  }

  predicate AllLegible(signs: seq<Sign>) {
    forall i :: 0 <= i < |signs| ==> Legible(signs[i])
  }

  function MeantAll(signs: seq<Sign>, query: bool): string
    requires AllLegible(signs)
  {
    if signs == [] then "" else Meant(signs[0], query) + MeantAll(signs[1..], query)
  }

  lemma PairIs(high: char, low: char, rest: string)
    requires HexDigit(high) && HexDigit(low)
    ensures var t := [high, low] + rest; HexAhead(t, 2) && HexNumber(t, 2) == 16 * HexValue(high) + HexValue(low)
  {
    TwoDigits([high, low] + rest);
  }

  lemma WideIs(digits: string, rest: string)
    requires |digits| == 4 && HexAhead(digits, 4)
    ensures HexAhead(digits + rest, 4) && HexNumber(digits + rest, 4) == HexNumber(digits, 4)
  {
    var t := digits + rest;
    assert HexNumber(t, 3) == 16 * HexNumber(t, 2) + HexValue(t[2]);
    assert HexNumber(digits, 3) == 16 * HexNumber(digits, 2) + HexValue(digits[2]);
    TwoDigits(t);
    TwoDigits(digits);
  }

  lemma SignReads(s: Sign, rest: string, query: bool)
    requires Legible(s)
    ensures DecodeStep(Spelled(s) + rest, query) == (Meant(s, query), |Spelled(s)|)
  {
    var t := Spelled(s) + rest;
    match s
    case Pair(high, low) =>
      PairIs(high, low, rest);
      assert t[1..] == [high, low] + rest && high != 'u';
    case Wide(digits) =>
      WideIs(digits, rest);
      assert t[2..] == digits + rest;
      hide HexNumber, Utf8;
    case _ =>
  }

  /** The library reads every spelling as what it stands for. */
  lemma {:induction false} AnySpellingIsRead(signs: seq<Sign>, query: bool)
    requires AllLegible(signs)
    ensures DecodeUrl(SpelledAll(signs), query) == MeantAll(signs, query)
  {
    if signs != [] {
      var s, rest := signs[0], SpelledAll(signs[1..]);
      AnySpellingIsRead(signs[1..], query);
      SignReads(s, rest, query);
      DropHead(Spelled(s), rest);
      hide DecodeStep, Meant, Spelled, Legible;
    }
  }

  lemma FacadePair(high: char, low: char)
    requires HexDigit(high) && HexDigit(low)
    ensures ReadHex([high, low]) == Some(16 * HexValue(high) + HexValue(low))
  {
    var t := [high, low];
    assert t[1..] == [low] && t[2..] == [];
    assert DigitsAhead(t) == DigitsAhead(t[1..]) + 1;
    TwoDigits(t);
  }

  lemma FacadeSignReads(s: Sign, rest: string)
    requires Legible(s) && !s.Wide?
    ensures UrlStep(Spelled(s) + rest) == (Meant(s, true), |Spelled(s)|)
  {
    if s.Pair? {
      FacadePair(s.high, s.low);
      assert (Spelled(s) + rest)[1..3] == [s.high, s.low];
      hide ReadHex;
    }
  }

  predicate NoneWide(signs: seq<Sign>) {
    forall i :: 0 <= i < |signs| ==> !signs[i].Wide?
  }

  /** The facade reads the same, as long as no code points are written out. */
  lemma {:induction false} FacadeReadsAnySpelling(signs: seq<Sign>)
    requires AllLegible(signs) && NoneWide(signs)
    ensures UrlDecode(SpelledAll(signs)) == MeantAll(signs, true)
  {
    if signs != [] {
      var s, rest := signs[0], SpelledAll(signs[1..]);
      FacadeReadsAnySpelling(signs[1..]);
      FacadeSignReads(s, rest);
      DropHead(Spelled(s), rest);
      hide UrlStep, Meant, Spelled, Legible;
    }
  }

  /** A percent sign that introduces nothing stands for itself in the library. */
  lemma StrayPercentIsKept(rest: string, query: bool)
    requires !HexAhead(rest, 2) && !(rest != "" && rest[0] == 'u' && HexAhead(rest[1..], 4))
    ensures DecodeUrl("%" + rest, query) == "%" + DecodeUrl(rest, query)
  {
    var s := "%" + rest;
    assert s[1..] == rest && (rest != "" ==> s[2..] == rest[1..]);
    assert DecodeStep(s, query) == ("%", 1);
  }

  /** The facade is satisfied with one digit and takes the character behind it along: here the two differ. */
  lemma FacadeTakesOneDigit(digit: char, other: char, rest: string)
    requires HexDigit(digit) && !HexDigit(other) && (digit == '0' ==> other != 'x' && other != 'X')
    ensures UrlDecode(['%', digit, other] + rest) == [HexValue(digit) as char] + UrlDecode(rest)
    ensures DecodeUrl(['%', digit, other] + rest, true)[0] == '%'
  {
    var s := ['%', digit, other] + rest;
    DigitThenOther(digit, other);
    assert s[1..][1] == other && s[1..][0] == digit;
    assert DecodeStep(s, true) == ("%", 1);
    hide UrlDecode, ReadHex, DecodeStep;
    FacadeReadsNumber(digit, other, rest, HexValue(digit));
  }

  lemma DigitThenOther(digit: char, other: char)
    requires HexDigit(digit) && !HexDigit(other) && (digit == '0' ==> other != 'x' && other != 'X')
    ensures var v: int := HexValue(digit); ReadHex([digit, other]) == Some(v)
  {
    var t := [digit, other];
    assert t[1..] == [other] && t[2..] == [];
    assert DigitsAhead(t) == DigitsAhead(t[1..]) + 1 == 1;
    assert HexNumber(t, 1) == 16 * HexNumber(t, 0) + HexValue(t[0]);
  }

  lemma OneDigit(digit: char)
    requires HexDigit(digit)
    ensures ReadDigits([digit]) == Some(HexValue(digit)) && !Space(digit) && digit != '-' && digit != '+'
  {
    var t := [digit];
    assert t[1..] == [] && DigitsAhead(t) == DigitsAhead(t[1..]) + 1 == 1;
    assert HexNumber(t, 1) == 16 * HexNumber(t, 0) + HexValue(t[0]);
  }

  lemma FacadeReadsTwo(a: char, b: char, rest: string)
    ensures UrlDecode(['%', a, b] + rest) ==
            if ReadHex([a, b]).Some? then [(ReadHex([a, b]).value % 256) as char] + UrlDecode(rest)
            else "%" + UrlDecode([a, b] + rest)
  {
    var s := ['%', a, b] + rest;
    assert s[1..3] == [a, b] && s[3..] == rest && s[1..] == [a, b] + rest;
    hide ReadHex;
  }

  lemma FacadeReadsNumber(a: char, b: char, rest: string, n: int)
    requires ReadHex([a, b]) == Some(n) && -256 <= n < 256
    ensures UrlDecode(['%', a, b] + rest) == [(if n < 0 then n + 256 else n) as char] + UrlDecode(rest)
  {
    hide UrlDecode, ReadHex;
    FacadeReadsTwo(a, b, rest);
    assert n % 256 == if n < 0 then n + 256 else n;
  }

  /** In front of a single digit the facade skips white space and takes a sign, a minus counting down from
      the end of the byte; a prefix for hexadecimal numbers without digits is none, and the percent sign
      stays. */
  lemma FacadeReadsOddly(space: nat, digit: char, rest: string)
    requires HexDigit(digit) && (space == 32 || 9 <= space <= 13)
    ensures UrlDecode(['%', space as char, digit] + rest) == [HexValue(digit) as char] + UrlDecode(rest)
    ensures UrlDecode(['%', '+', digit] + rest) == [HexValue(digit) as char] + UrlDecode(rest)
    ensures HexValue(digit) > 0 ==> UrlDecode(['%', '-', digit] + rest) == [(256 - HexValue(digit)) as char] + UrlDecode(rest)
    ensures UrlDecode(['%', '0', 'x'] + rest) == "%" + UrlDecode(['0', 'x'] + rest)
    ensures UrlDecode(['%', '0', 'X'] + rest) == "%" + UrlDecode(['0', 'X'] + rest)
  {
    assert Space(space as char);
    var v: int := HexValue(digit);
    hide *;
    ReadsOddly(space as char, digit);
    FacadeReadsNumber(space as char, digit, rest, v);
    FacadeReadsNumber('+', digit, rest, v);
    FacadeReadsNumber('-', digit, rest, -v);
    FacadeReadsTwo('0', 'x', rest);
    FacadeReadsTwo('0', 'X', rest);
  }

  lemma ReadsOddly(space: char, digit: char)
    requires HexDigit(digit) && Space(space)
    ensures ReadHex([space, digit]) == ReadHex(['+', digit]) == Some(HexValue(digit))
    ensures ReadHex(['-', digit]).Some? && ReadHex(['-', digit]).value + HexValue(digit) == 0
    ensures ReadHex(['0', 'x']).None? && ReadHex(['0', 'X']).None?
  {
    OneDigit(digit);
    assert [space, digit][1..] == ['+', digit][1..] == ['-', digit][1..] == [digit];
    assert ['0', 'x'][2..] == [] && ['0', 'X'][2..] == [];
    assert !Space('+') && !Space('-') && !Space('0');
    hide ReadDigits, HexValue, HexNumber;
    assert ReadDigits(['0', 'x']).None? && ReadDigits(['0', 'X']).None? by {
      BarePrefix();
    }
  }

  lemma BarePrefix()
    ensures ReadDigits(['0', 'x']).None? && ReadDigits(['0', 'X']).None?
  {
    assert ['0', 'x'][2..] == [] && ['0', 'X'][2..] == [];
  }

  /** What the encoder leaves as it is: letters, digits and nine marks; all else takes three characters. */
  lemma UnescapedAre(c: char)
    requires c as int < 256
    ensures var n := c as int;
            if 48 <= n <= 57 || 65 <= n <= 90 || 97 <= n <= 122 || c in ['-', '_', '.', '!', '~', '*', '\'', '(', ')']
            then EncodeParam([c]) == [c] else |EncodeParam([c])| == 3
  {
    assert [c][1..] == [] && EncodeParam([c]) == EncodeChar(c) + "";
  }

  // ----- code points

  predicate Continues(c: char) {
    128 <= c as int < 192
  }

  /** The code point that a byte sequence stands for, as section 3 of RFC 3629 reads it. */
  function Utf8Value(s: string): Option<nat> {
    if |s| == 1 && s[0] as int < 128 then Some(s[0] as int)
    else if |s| == 2 && 192 <= s[0] as int < 224 && Continues(s[1]) then Some((s[0] as int - 192) * 64 + (s[1] as int - 128))
    else if |s| == 3 && 224 <= s[0] as int < 240 && Continues(s[1]) && Continues(s[2])
    then Some((s[0] as int - 224) * 4096 + (s[1] as int - 128) * 64 + (s[2] as int - 128))
    else if |s| == 4 && 240 <= s[0] as int < 248 && Continues(s[1]) && Continues(s[2]) && Continues(s[3])
    then Some((s[0] as int - 240) * 262144 + (s[1] as int - 128) * 4096 + (s[2] as int - 128) * 64 + (s[3] as int - 128))
    else None
  }

  lemma TwoBytes(code: nat)
    requires 0x80 <= code < 0x800
    ensures |Utf8(code)| == 2 && Utf8Value(Utf8(code)) == Some(code)
  {
    var a, b := code / 64, code % 64;
    assert code == 64 * a + b && 2 <= a < 32 && b < 64;
  }

  lemma ThreeBytes(code: nat)
    requires 0x800 <= code < 0x10000 && !(0xD800 <= code <= 0xDFFF)
    ensures |Utf8(code)| == 3 && Utf8Value(Utf8(code)) == Some(code)
  {
    var a, b, c := code / 4096, code / 64 % 64, code % 64;
    Digits64(code);
    assert a < 16;
    assert Utf8(code) == [(224 + a) as char, (128 + b) as char, (128 + c) as char];
    hide Utf8;
  }

  lemma FourBytes(code: nat)
    requires 0x10000 <= code < 0x110000
    ensures |Utf8(code)| == 4 && Utf8Value(Utf8(code)) == Some(code)
  {
    var a, b, c, d := code / 262144, code / 4096 % 64, code / 64 % 64, code % 64;
    Digits64(code);
    Digits64(code / 64);
    assert code / 64 / 64 == code / 4096 && code / 64 / 4096 == code / 262144;
    assert a < 8;
    assert Utf8(code) == [(240 + a) as char, (128 + b) as char, (128 + c) as char, (128 + d) as char];
    hide Utf8;
  }

  lemma Digits64(n: nat)
    ensures n == n / 4096 * 4096 + n / 64 % 64 * 64 + n % 64
    ensures n / 64 / 64 == n / 4096
  {
  }

  /** A code point is written so, in as few bytes as can be, and a surrogate not at all. */
  lemma CodePointsAreRead(code: nat)
    requires code < 0x110000
    ensures if 0xD800 <= code <= 0xDFFF then Utf8(code) == "" else Utf8Value(Utf8(code)) == Some(code)
    ensures !(0xD800 <= code <= 0xDFFF) ==>
              |Utf8(code)| == if code < 0x80 then 1 else if code < 0x800 then 2 else if code < 0x10000 then 3 else 4
  {
    if code < 0x80 || 0xD800 <= code <= 0xDFFF {
    } else {
      hide Utf8, Utf8Value;
      if code < 0x800 {
        TwoBytes(code);
      } else if code < 0x10000 {
        ThreeBytes(code);
      } else {
        FourBytes(code);
      }
    }
  }
}
