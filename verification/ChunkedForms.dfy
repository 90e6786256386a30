/** Chunked bodies as other writers send them: sizes in any spelling, chunk extensions, and what is refused. */
module ChunkedForms {
  import opened ChunkedRoundTrip
  import opened ChunkedSpec
  import opened HeaderSyntax
  import opened LineReaders
  import opened Options
  import opened PercentCoding
  import opened Text

  /** A size line begins with a hexadecimal numeral and may go on with an extension. */
  predicate SizeLine(size: string, extension: string) {
    && size != "" && HexAhead(size, |size|) && NoChar(extension, '\r')
    && (extension != "" ==> !HexDigit(extension[0]))
    && (size == "0" && extension != "" ==> extension[0] != 'x' && extension[0] != 'X')
  }

  lemma NumeralReads(size: string, extension: string)
    requires SizeLine(size, extension)
    ensures var line := size + extension + CRLF;
            && !Space(line[0]) && line[0] != '+' && line[0] != '-'
            && DigitsAhead(line) == |size| && HexNumber(line, |size|) == HexNumber(size, |size|)
            && !(|line| > 2 && line[0] == '0' && (line[1] == 'x' || line[1] == 'X') && HexDigit(line[2]))
  {
    var line := size + (extension + CRLF);
    assert line == size + extension + CRLF;
    assert (extension + CRLF)[0] == if extension == "" then '\r' else extension[0];
    DigitsAheadOf(size, extension + CRLF);
    HexNumberPrefix(size, extension + CRLF, |size|);
    hide DigitsAhead, HexNumber;
    assert line[0] == size[0] && HexDigit(size[0]);
    if |size| > 1 {
      assert line[1] == size[1] && HexDigit(size[1]);
    } else {
      assert line[1] == (extension + CRLF)[0];
      assert line[0] == '0' ==> size == "0";
    }
  }

  /** In any letter case, with leading zeros and with an extension the size is what the numeral says; what
      does not fit saturates. */
  lemma SizeReads(size: string, extension: string)
    requires SizeLine(size, extension)
    ensures var n := HexNumber(size, |size|);
            StrToUl(size + extension + CRLF) == Some(if n > ULONG_MAX then ULONG_MAX else n)
  {
    NumeralReads(size, extension);
    hide DigitsAhead, HexNumber;
  }

  /** With a minus sign it is counted down from the end of the range. */
  lemma NegativeSizeReads(size: string, extension: string)
    requires SizeLine(size, extension) && 0 < HexNumber(size, |size|) <= ULONG_MAX
    ensures StrToUl("-" + size + extension + CRLF) == Some(0x1_0000_0000_0000_0000 - HexNumber(size, |size|))
  {
    NumeralReads(size, extension);
    var line := "-" + size + extension + CRLF;
    assert line[1..] == size + extension + CRLF;
    hide DigitsAhead, HexNumber;
  }

  /** White space in front of a size is skipped. */
  lemma LeadingSpaceIsSkipped(space: nat, line: string)
    requires space == 32 || 9 <= space <= 13
    ensures StrToUl([space as char] + line) == StrToUl(line)
  {
    assert ([space as char] + line)[1..] == line;
    hide DigitsAhead, HexNumber;
  }

  lemma SizeLineSplits(size: string, extension: string, rest: string)
    requires SizeLine(size, extension)
    ensures NextLine(size + extension + CRLF + rest) == (size + extension + CRLF, rest)
  {
    HexHasNoCr(size);
    var line := size + extension;
    assert NoChar(line, '\r');
    LineSplits(line, rest);
  }

  datatype Sized = Sized(size: string, extension: string, payload: string)

  predicate Spells(c: Sized) {
    SizeLine(c.size, c.extension) && 0 < |c.payload| == HexNumber(c.size, |c.size|) < ULONG_MAX
  }

  function Sent(c: Sized): string {
    c.size + c.extension + CRLF + c.payload + CRLF
  }

  /** Reading a chunk whose size line, content and end line are known. */
  lemma ChunkUnfolds(s: string, line: string, n: nat, payload: string, after: string, end: string, next: string)
    requires s != "" && NextLine(s) == (line, payload + after) && StrToUl(line) == Some(n) && 0 < n == |payload| < ULONG_MAX
    requires after != "" && NextLine(after) == (end, next)
    ensures ReadChunked(s) ==
            if end != CRLF then Reading(false, payload, [], next)
            else ReadChunked(next).(body := payload + ReadChunked(next).body)
  {
    hide NextLine, StrToUl;
    assert (payload + after)[..n] == payload && (payload + after)[n..] == after;
  }

  lemma SpelledSize(c: Sized)
    requires Spells(c)
    ensures SizeLine(c.size, c.extension) && 0 < |c.payload| < ULONG_MAX && c.size + c.extension + CRLF != ""
    ensures StrToUl(c.size + c.extension + CRLF) == Some(|c.payload|)
  {
    SizeReads(c.size, c.extension);
    hide StrToUl, HexNumber, SizeLine;
  }

  lemma SizedChunkReads(c: Sized, rest: string)
    requires Spells(c)
    ensures var more := ReadChunked(rest);
            ReadChunked(Sent(c) + rest) == more.(body := c.payload + more.body)
  {
    var line, after := c.size + c.extension + CRLF, CRLF + rest;
    assert Sent(c) + rest == line + (c.payload + after);
    assert after != "" && after == "" + CRLF + rest && "" + CRLF == CRLF && NoChar("", '\r');
    hide *;
    SpelledSize(c);
    SizeLineSplits(c.size, c.extension, c.payload + after);
    LineSplits("", rest);
    ChunkUnfolds(line + (c.payload + after), line, |c.payload|, c.payload, after, CRLF, rest);
  }

  function SentAll(chunks: seq<Sized>): string {
    if chunks == [] then "" else Sent(chunks[0]) + SentAll(chunks[1..])
  }

  function Payloads(chunks: seq<Sized>): string {
    if chunks == [] then "" else chunks[0].payload + Payloads(chunks[1..])
  }

  /** The line of size zero, the trailers and the empty line. */
  function Ending(zero: string, extension: string, trailers: Trailers): string {
    zero + extension + CRLF + (TrailerLines(trailers) + CRLF)
  }

  lemma EndingReads(zero: string, extension: string, trailers: Trailers, rest: string)
    requires SizeLine(zero, extension) && HexNumber(zero, |zero|) == 0 && ChunkedRoundTrip.Sendable(trailers)
    ensures ReadChunked(Ending(zero, extension, trailers) + rest) == Reading(true, "", trailers, rest)
  {
    var line, after := zero + extension + CRLF, TrailerLines(trailers) + CRLF + rest;
    assert Ending(zero, extension, trailers) + rest == line + after;
    SizeReads(zero, extension);
    SizeLineSplits(zero, extension, after);
    TrailersRead(trailers, rest, true);
    hide StrToUl, NextLine, ReadTrailers, Ending, Find, ChunkedRoundTrip.Sendable, SizeLine, HexNumber;
  }

  /** Whatever the spelling of the sizes and the extensions, content and trailers are read. */
  lemma {:induction false} AnySpellingReads(chunks: seq<Sized>, zero: string, extension: string, trailers: Trailers, rest: string)
    requires forall i :: 0 <= i < |chunks| ==> Spells(chunks[i])
    requires SizeLine(zero, extension) && HexNumber(zero, |zero|) == 0 && ChunkedRoundTrip.Sendable(trailers)
    ensures ReadChunked(SentAll(chunks) + Ending(zero, extension, trailers) + rest) ==
            Reading(true, Payloads(chunks), trailers, rest)
    decreases |chunks|
  {
    var end := Ending(zero, extension, trailers);
    if chunks == [] {
      EndingReads(zero, extension, trailers, rest);
      assert SentAll(chunks) + end == end;
    } else {
      var c, later := chunks[0], SentAll(chunks[1..]);
      AnySpellingReads(chunks[1..], zero, extension, trailers, rest);
      SizedChunkReads(c, later + end + rest);
      hide ReadChunked, Sent, Ending, Spells, SizeLine, ChunkedRoundTrip.Sendable;
      Assoc(Sent(c), later, end);
      Assoc(Sent(c), later + end, rest);
    }
  }

  // ----- what is refused

  /** A size that does not fit is refused before anything is read. */
  lemma OversizedIsRefused(size: string, extension: string, rest: string)
    requires SizeLine(size, extension) && HexNumber(size, |size|) >= ULONG_MAX
    ensures ReadChunked(size + extension + CRLF + rest) == Reading(false, "", [], rest)
  {
    SizeReads(size, extension);
    SizeLineSplits(size, extension, rest);
    hide StrToUl, NextLine, HexNumber, SizeLine;
  }

  /** So is a line that does not begin with a number. */
  lemma LineWithoutSizeIsRefused(line: string, rest: string)
    requires NoChar(line, '\r') && line != "" && !HexDigit(line[0]) && !Space(line[0]) && line[0] != '+' && line[0] != '-'
    ensures ReadChunked(line + CRLF + rest) == Reading(false, "", [], rest)
  {
    LineSplits(line, rest);
    assert (line + CRLF)[0] == line[0];
    hide NextLine;
  }

  /** A chunk whose content is longer than its size has its first part handed over, and is then refused. */
  lemma UnendedChunkIsRefused(c: Sized, line: string, rest: string)
    requires Spells(c) && line != "" && NoChar(line, '\r')
    ensures ReadChunked(c.size + c.extension + CRLF + (c.payload + (line + CRLF + rest))) == Reading(false, c.payload, [], rest)
  {
    var size, after := c.size + c.extension + CRLF, line + CRLF + rest;
    assert after != "" && |line + CRLF| > 2 == |CRLF|;
    hide *;
    SpelledSize(c);
    SizeLineSplits(c.size, c.extension, c.payload + after);
    LineSplits(line, rest);
    ChunkUnfolds(size + (c.payload + after), size, |c.payload|, c.payload, after, line + CRLF, rest);
  }

  /** A chunk that breaks off, or is not followed by anything, is handed over as far as it goes and refused. */
  lemma BrokenChunkIsRefused(c: Sized, part: string)
    requires Spells(c) && part <= c.payload
    ensures ReadChunked(c.size + c.extension + CRLF + part) == Reading(false, part, [], "")
  {
    SpelledSize(c);
    SizeLineSplits(c.size, c.extension, part);
    assert |part| == |c.payload| ==> part[..|c.payload|] == part && part[|c.payload|..] == "";
    hide StrToUl, NextLine, Find, HexNumber, SizeLine, Spells;
  }

  /** So is a body without its last chunk. */
  lemma {:induction false} MissingEndIsRefused(chunks: seq<Sized>)
    requires forall i :: 0 <= i < |chunks| ==> Spells(chunks[i])
    ensures ReadChunked(SentAll(chunks)) == Reading(false, Payloads(chunks), [], "")
    decreases |chunks|
  {
    if chunks != [] {
      MissingEndIsRefused(chunks[1..]);
      SizedChunkReads(chunks[0], SentAll(chunks[1..]));
      hide ReadChunked, Sent, Spells;
    }
  }

  /** Without trailers the empty line at the very end may be missing; with trailers it may not. */
  lemma {:induction false} EmptyLineMayBeMissing(trailers: Trailers, first: bool)
    requires ChunkedRoundTrip.Sendable(trailers)
    ensures ReadTrailers(TrailerLines(trailers), first) == Reading(first && trailers == [], "", trailers, "")
    decreases |trailers|
  {
    if trailers != [] {
      var kv, more := trailers[0], trailers[1..];
      var later := TrailerLines(more);
      assert TrailerLines(trailers) == TrailerLine(kv) + later && ChunkedRoundTrip.Sendable(more);
      assert IsFieldName(kv.0) && IsFieldValue(kv.1) && NoChar(kv.1, '%') && |TrailerLine(kv)| <= HEADER_MAX_LENGTH;
      assert trailers == [kv] + more;
      hide *;
      TrailerLineRead(kv, later, first);
      EmptyLineMayBeMissing(more, false);
    } else {
      assert TrailerLines(trailers) == "";
    }
  }

  /** A trailer line too long for the reader fails the whole. */
  lemma LongTrailerIsRefused(line: string, rest: string, first: bool)
    requires NoChar(line, '\r') && |line| + 2 > HEADER_MAX_LENGTH
    ensures ReadTrailers(line + CRLF + rest, first) == Reading(false, "", [], rest)
  {
    LineSplits(line, rest);
    assert |line + CRLF| > 2;
    hide NextLine;
  }

  /** A trailer line that is no header field is passed over. */
  lemma OddTrailerIsPassedOver(line: string, rest: string, first: bool)
    requires NoChar(line, '\r') && line != "" && |line| + 2 <= HEADER_MAX_LENGTH && ParseHeader(line).None?
    ensures ReadTrailers(line + CRLF + rest, first) == ReadTrailers(rest, false)
  {
    LineSplits(line, rest);
    assert (line + CRLF)[..|line|] == line && |line + CRLF| > 2;
    hide NextLine, ParseHeader;
    assert TrailerField(line + CRLF) == [];
    assert [] + ReadTrailers(rest, false).trailers == ReadTrailers(rest, false).trailers;
  }
}
