/** Percent coding: the encoder of query parameters and the two independent decoders that read it
    back, the HTTP library's and the facade's own. */
module PercentCoding {
  import opened Options
  import opened Text

  // ----- hexadecimal digits

  predicate Digit(c: char) {
    '0' <= c <= '9'
  }

  predicate Alpha(c: char) {
    'a' <= c <= 'z' || 'A' <= c <= 'Z'
  }

  predicate HexDigit(c: char) {
    Digit(c) || 'A' <= c <= 'F' || 'a' <= c <= 'f'
  }

  function HexValue(c: char): (v: nat)
    requires HexDigit(c)
    ensures v < 16
  {
    if Digit(c) then c as int - 48
    else if 'A' <= c <= 'F' then c as int - 55
    else c as int - 87
  }

  /** The value of `n` hexadecimal digits at the head of `s`, when there are that many. */
  predicate HexAhead(s: string, n: nat) {
    n <= |s| && forall i :: 0 <= i < n ==> HexDigit(s[i])
  }

  function HexNumber(s: string, n: nat): (v: nat)
    requires HexAhead(s, n)
  {
    if n == 0 then 0 else 16 * HexNumber(s, n - 1) + HexValue(s[n - 1])
  }

  lemma TwoDigits(s: string)
    requires HexAhead(s, 2)
    ensures HexNumber(s, 2) == 16 * HexValue(s[0]) + HexValue(s[1]) < 256
  {
    assert HexNumber(s, 1) == 16 * HexNumber(s, 0) + HexValue(s[0]);
  }

  function Utf8(code: nat): string
    requires code < 0x110000
  {
    if code < 0x80 then [code as char]
    else if code < 0x800 then [(0xC0 + code / 64) as char, (0x80 + code % 64) as char]
    else if 0xD800 <= code < 0xE000 then []
    else if code < 0x10000 then
      [(0xE0 + code / 4096) as char, (0x80 + code / 64 % 64) as char, (0x80 + code % 64) as char]
    else
      [(0xF0 + code / 262144) as char, (0x80 + code / 4096 % 64) as char,
       (0x80 + code / 64 % 64) as char, (0x80 + code % 64) as char]
  }

  lemma FourDigits(s: string)
    requires HexAhead(s, 4)
    ensures HexNumber(s, 4) < 0x10000
  {
    assert HexNumber(s, 3) == 16 * HexNumber(s, 2) + HexValue(s[2]);
    TwoDigits(s);
  }

  // ----- the decoder of the HTTP library

  /** What one turn of the decoding loop appends, and how many characters it consumes. */
  function DecodeStep(s: string, plus: bool): (r: (string, nat))
    requires s != ""
    ensures 1 <= r.1 <= |s|
  {
    if s[0] == '%' && |s| > 1 then
      if s[1] == 'u' then
        if HexAhead(s[2..], 4) then FourDigits(s[2..]); (Utf8(HexNumber(s[2..], 4)), 6) else ("%", 1)
      else if HexAhead(s[1..], 2) then TwoDigits(s[1..]); ([HexNumber(s[1..], 2) as char], 3)
      else ("%", 1)
    else if plus && s[0] == '+' then (" ", 1)
    else ([s[0]], 1)
  }

  function DecodeUrl(s: string, plus: bool): string {
    if s == "" then "" else
      var (text, n) := DecodeStep(s, plus);
      text + DecodeUrl(s[n..], plus)
  }

  lemma DecodeTurn(s: string, plus: bool, i: nat)
    requires i < |s|
    ensures var (text, n) := DecodeStep(s[i..], plus);
            DecodeUrl(s[i..], plus) == text + DecodeUrl(s[i + n..], plus)
  {
    var (text, n) := DecodeStep(s[i..], plus);
    assert s[i..][n..] == s[i + n..];
  }

  /** The loop of `decode_url`, with its jumps over consumed digits. */
  method DecodeUrlLoop(s: string, plus: bool) returns (result: string)
    ensures result == DecodeUrl(s, plus)
  {
    result := "";
    var i := 0;
    while i < |s|
      invariant i <= |s|
      invariant result + DecodeUrl(s[i..], plus) == DecodeUrl(s, plus)
    {
      ghost var (text, n) := DecodeStep(s[i..], plus);
      ghost var done, start := result, i;
      DecodeTurn(s, plus, i);
      if s[i] == '%' && i + 1 < |s| {
        if s[i + 1] == 'u' {
          assert s[i..][2..] == s[i + 2..];
          if HexAhead(s[i + 2..], 4) {
            FourDigits(s[i + 2..]);
            result := result + Utf8(HexNumber(s[i + 2..], 4));
            i := i + 5;
          } else {
            result := result + [s[i]];
          }
        } else {
          assert s[i..][1..] == s[i + 1..];
          if HexAhead(s[i + 1..], 2) {
            TwoDigits(s[i + 1..]);
            result := result + [HexNumber(s[i + 1..], 2) as char];
            i := i + 2;
          } else {
            result := result + [s[i]];
          }
        }
      } else if plus && s[i] == '+' {
        result := result + " ";
      } else {
        result := result + [s[i]];
      }
      i := i + 1;
      assert result == done + text && i == start + n;
      Assoc(done, text, DecodeUrl(s[i..], plus));
    }
  }

  // ----- the encoder

  /** The characters `encode_query_param` writes as they are. */
  predicate Plain(c: char) {
    Alpha(c) || Digit(c) || c in "-_.!~*'()"
  }

  predicate IsBytes(s: string) {
    forall i :: 0 <= i < |s| ==> s[i] as int < 256
  }

  function UpperHex(v: nat): (c: char)
    requires v < 16
    ensures HexDigit(c) && HexValue(c) == v
    ensures Plain(c) && c != 'u'
  {
    if v < 10 then (v + 48) as char else (v + 55) as char
  }

  function EncodeChar(c: char): string
    requires c as int < 256
  {
    if Plain(c) then [c] else ['%', UpperHex(c as int / 16), UpperHex(c as int % 16)]
  }

  function EncodeParam(s: string): string
    requires IsBytes(s)
  {
    if s == "" then "" else EncodeChar(s[0]) + EncodeParam(s[1..])
  }

  method EncodeQueryParam(value: string) returns (escaped: string)
    requires IsBytes(value)
    ensures escaped == EncodeParam(value)
  {
    escaped := "";
    for i := 0 to |value|
      invariant escaped + EncodeParam(value[i..]) == EncodeParam(value)
    {
      var c := value[i];
      assert value[i..][1..] == value[i + 1..];
      Assoc(escaped, EncodeChar(c), EncodeParam(value[i + 1..]));
      if Plain(c) {
        escaped := escaped + [c];
      } else {
        escaped := escaped + ['%', UpperHex(c as int / 16), UpperHex(c as int % 16)];
      }
    }
  }

  /** Encoded text holds only unreserved characters and percent signs, so neither separators nor pluses. */
  lemma {:induction false} EncodedIsPlain(s: string)
    requires IsBytes(s)
    ensures forall i :: 0 <= i < |EncodeParam(s)| ==> Plain(EncodeParam(s)[i]) || EncodeParam(s)[i] == '%'
  {
    if s != "" {
      EncodedIsPlain(s[1..]);
    }
  }

  lemma DecodeEncodedChar(c: char, rest: string)
    requires c as int < 256
    ensures DecodeStep(EncodeChar(c) + rest, true) == ([c], |EncodeChar(c)|)
  {
    var s := EncodeChar(c) + rest;
    if !Plain(c) {
      assert s[0] == '%' && s[1..][0] == s[1] && s[1..][1] == s[2];
      TwoDigits(s[1..]);
    }
  }

  /** The library's decoder inverts the encoder on every byte string. */
  lemma {:induction false} DecodeInvertsEncode(s: string)
    requires IsBytes(s)
    ensures DecodeUrl(EncodeParam(s), true) == s
  {
    if s != "" {
      DecodeInvertsEncode(s[1..]);
      DecodeEncodedChar(s[0], EncodeParam(s[1..]));
      DropHead(EncodeChar(s[0]), EncodeParam(s[1..]));
      hide DecodeStep, EncodeChar;
      assert DecodeUrl(EncodeParam(s), true) == [s[0]] + s[1..];
    }
  }

  // ----- the decoder of the facade

  predicate Space(c: char) {
    c == ' ' || 9 <= c as int <= 13
  }

  /** Reading a hexadecimal `int` from a stream over `t`: white space is skipped, a sign is accepted,
      reading stops at the first character that is no digit, and a bare `0x` is no number. */
  function ReadHex(t: string): Option<int> {
    if t == "" then None
    else if Space(t[0]) then ReadHex(t[1..])
    else if t[0] == '-' then
      match ReadDigits(t[1..]) { case None => None case Some(v) => Some(-v) }
    else if t[0] == '+' then ReadDigits(t[1..])
    else ReadDigits(t)
  }

  function ReadDigits(t: string): Option<int> {
    if |t| >= 2 && t[0] == '0' && (t[1] == 'x' || t[1] == 'X') then
      var n := DigitsAhead(t[2..]);
      if n == 0 then None else Some(HexNumber(t[2..], n))
    else
      var n := DigitsAhead(t);
      if n == 0 then None else Some(HexNumber(t, n))
  }

  function DigitsAhead(t: string): (n: nat)
    ensures HexAhead(t, n)
    ensures n < |t| ==> !HexDigit(t[n])
  {
    if t == "" || !HexDigit(t[0]) then 0 else DigitsAhead(t[1..]) + 1
  }

  function UrlStep(s: string): (r: (string, nat))
    requires s != ""
    ensures 1 <= r.1 <= |s|
  {
    if s[0] == '%' && |s| > 2 then
      match ReadHex(s[1..3])
      case Some(v) => ([(v % 256) as char], 3)
      case None => ("%", 1)
    else if s[0] == '+' then (" ", 1)
    else ([s[0]], 1)
  }

  function UrlDecode(s: string): string {
    if s == "" then "" else
      var (text, n) := UrlStep(s);
      text + UrlDecode(s[n..])
  }

  /** The loop of `Utils::urlDecode`. */
  method UrlDecodeLoop(str: string) returns (decoded: string)
    ensures decoded == UrlDecode(str)
  {
    decoded := "";
    var i := 0;
    while i < |str|
      invariant i <= |str|
      invariant decoded + UrlDecode(str[i..]) == UrlDecode(str)
    {
      ghost var (text, n) := UrlStep(str[i..]);
      ghost var done, start := decoded, i;
      assert str[i..][n..] == str[i + n..];
      if str[i] == '%' && i + 2 < |str| {
        assert str[i..][1..3] == str[i + 1..i + 3];
        match ReadHex(str[i + 1..i + 3]) {
          case Some(value) =>
            decoded := decoded + [(value % 256) as char];
            i := i + 2;
          case None =>
            decoded := decoded + "%";
        }
      } else if str[i] == '+' {
        decoded := decoded + " ";
      } else {
        decoded := decoded + [str[i]];
      }
      i := i + 1;
      assert decoded == done + text && i == start + n;
      Assoc(done, text, UrlDecode(str[i..]));
    }
  }

  lemma ReadUpperPair(a: nat, b: nat)
    requires a < 16 && b < 16
    ensures ReadHex([UpperHex(a), UpperHex(b)]) == Some(16 * a + b)
  {
    var t := [UpperHex(a), UpperHex(b)];
    assert t[1..] == [UpperHex(b)];
    assert DigitsAhead(t) == DigitsAhead(t[1..]) + 1;
    TwoDigits(t);
  }

  lemma UrlDecodeEncodedChar(c: char, rest: string)
    requires c as int < 256
    ensures UrlStep(EncodeChar(c) + rest) == ([c], |EncodeChar(c)|)
  {
    if !Plain(c) {
      assert (EncodeChar(c) + rest)[1..3] == [UpperHex(c as int / 16), UpperHex(c as int % 16)];
      ReadUpperPair(c as int / 16, c as int % 16);
    }
  }

  /** The facade's decoder inverts the same encoder on every byte string. */
  lemma {:induction false} UrlDecodeInvertsEncode(s: string)
    requires IsBytes(s)
    ensures UrlDecode(EncodeParam(s)) == s
  {
    if s != "" {
      UrlDecodeInvertsEncode(s[1..]);
      UrlDecodeEncodedChar(s[0], EncodeParam(s[1..]));
      DropHead(EncodeChar(s[0]), EncodeParam(s[1..]));
      hide UrlStep, EncodeChar;
      assert UrlDecode(EncodeParam(s)) == [s[0]] + s[1..];
    }
  }
}
