/** Chunked transfer coding: what the writer emits for a series of writes, what the reader makes of any
    byte string, and that the one undoes the other. */
module ChunkedSpec {
  import opened HeaderSyntax
  import opened LineReaders
  import opened Options
  import opened PercentCoding
  import opened Text

  type Trailers = seq<(string, string)>

  const ULONG_MAX := 0xFFFF_FFFF_FFFF_FFFF

  // ----- the writer

  function LowerHex(v: nat): (c: char)
    requires v < 16
    ensures HexDigit(c) && HexValue(c) == v
  {
    if v < 10 then (v + 48) as char else (v + 87) as char
  }

  function HexText(n: nat): string {
    if n < 16 then [LowerHex(n)] else HexText(n / 16) + [LowerHex(n % 16)]
  }

  function Chunk(payload: string): string {
    HexText(|payload|) + CRLF + payload + CRLF
  }

  function Chunks(writes: seq<string>): string {
    if writes == [] then "" else Chunk(writes[0]) + Chunks(writes[1..])
  }

  function TrailerLine(kv: (string, string)): string {
    kv.0 + ": " + kv.1 + CRLF
  }

  function TrailerLines(trailers: Trailers): string {
    if trailers == [] then "" else TrailerLine(trailers[0]) + TrailerLines(trailers[1..])
  }

  function LastChunk(trailers: Trailers): string {
    "0" + CRLF + TrailerLines(trailers) + CRLF
  }

  function Encode(writes: seq<string>, trailers: Trailers): string {
    Chunks(writes) + LastChunk(trailers)
  }

  // ----- the reader

  /** `strtoul` in base 16 on the bytes of a line: leading white space, a sign and a `0x` prefix are
      accepted, the number ends at the first other character, and too large a number saturates. */
  function StrToUl(s: string): Option<nat> {
    if s != "" && Space(s[0]) then StrToUl(s[1..])
    else
      var signed := s != "" && (s[0] == '+' || s[0] == '-');
      var t := if signed then s[1..] else s;
      var digits := if |t| > 2 && t[0] == '0' && (t[1] == 'x' || t[1] == 'X') && HexDigit(t[2]) then t[2..] else t;
      var n := DigitsAhead(digits);
      if n == 0 then None
      else
        var v := HexNumber(digits, n);
        if v > ULONG_MAX then Some(ULONG_MAX)
        else if signed && s[0] == '-' && v > 0 then Some(ULONG_MAX + 1 - v)
        else Some(v)
  }

  /** The outcome of reading a chunked body: the content handed over, the trailer fields recorded, and
      what is left of the input. */
  datatype Reading = Reading(ok: bool, body: string, trailers: Trailers, rest: string)

  function ReadTrailers(s: string, first: bool): Reading
    decreases |s|
  {
    if s == "" then Reading(first, "", [], "")
    else
      var (line, rest) := NextLine(s);
      if line == CRLF then Reading(true, "", [], rest)
      else if |line| > HEADER_MAX_LENGTH then Reading(false, "", [], rest)
      else
        var more := ReadTrailers(rest, false);
        more.(trailers := TrailerField(line) + more.trailers)
  }

  /** The field of one trailer line; a line that is no header field is passed over. */
  function TrailerField(line: string): Trailers {
    if |line| < 2 then []
    else match ParseHeader(line[..|line| - 2]) { case Some(kv) => [kv] case None => [] }
  }

  function ReadChunked(s: string): Reading
    decreases |s|
  {
    if s == "" then Reading(false, "", [], "")
    else
      var (line, rest) := NextLine(s);
      match StrToUl(line)
      case None => Reading(false, "", [], rest)
      case Some(n) =>
        if n == ULONG_MAX then Reading(false, "", [], rest)
        else if n == 0 then ReadTrailers(rest, true)
        else if |rest| < n then Reading(false, rest, [], "")
        else
          var (body, after) := (rest[..n], rest[n..]);
          if after == "" then Reading(false, body, [], "")
          else
            var (end, next) := NextLine(after);
            if end != CRLF then Reading(false, body, [], next)
            else
              var more := ReadChunked(next);
              more.(body := body + more.body)
  }

  // ----- the size line

  lemma {:induction false} DigitsAheadOf(a: string, b: string)
    requires HexAhead(a, |a|) && (b == "" || !HexDigit(b[0]))
    ensures DigitsAhead(a + b) == |a|
  {
    if a == "" {
      assert a + b == b;
    } else {
      assert (a + b)[1..] == a[1..] + b;
      assert forall i :: 0 <= i < |a[1..]| ==> a[1..][i] == a[i + 1];
      DigitsAheadOf(a[1..], b);
    }
  }

  lemma {:induction false} HexNumberPrefix(a: string, b: string, n: nat)
    requires n <= |a| && HexAhead(a, n)
    ensures HexAhead(a + b, n) && HexNumber(a + b, n) == HexNumber(a, n)
  {
    if n > 0 {
      HexNumberPrefix(a, b, n - 1);
    }
  }

  /** The size written for `n` reads back as `n`, and begins with a digit that is no zero unless `n` is. */
  lemma {:induction false} HexTextReads(n: nat)
    ensures var t := HexText(n); t != "" && HexAhead(t, |t|) && HexNumber(t, |t|) == n
    ensures n > 0 ==> HexText(n)[0] != '0'
    ensures HexDigit(HexText(n)[0])
  {
    if n < 16 {
      assert HexNumber(HexText(n), 0) == 0;
    } else {
      HexTextReads(n / 16);
      var a, b := HexText(n / 16), [LowerHex(n % 16)];
      HexNumberPrefix(a, b, |a|);
      assert (a + b)[0] == a[0];
      assert HexNumber(a + b, |a| + 1) == 16 * HexNumber(a + b, |a|) + HexValue((a + b)[|a|]);
    }
  }

  lemma SizeLineReads(n: nat)
    requires n <= ULONG_MAX
    ensures StrToUl(HexText(n) + CRLF) == Some(n)
  {
    var t := HexText(n);
    HexTextReads(n);
    DigitsAheadOf(t, CRLF);
    HexNumberPrefix(t, CRLF, |t|);
    assert (t + CRLF)[0] == t[0];
    hide HexText, HexNumber, DigitsAhead;
    assert n == 0 ==> t == HexText(0);
    if n == 0 {
      ZeroText();
    }
  }

  lemma ZeroText()
    ensures HexText(0) == "0"
  {
  }
}
