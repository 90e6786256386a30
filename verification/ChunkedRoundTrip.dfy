/** Reading what the chunked writer emitted. */
module ChunkedRoundTrip {
  import opened ChunkedSpec
  import opened HeaderSyntax
  import opened LineReaders
  import opened PercentCoding
  import opened Text

  ghost predicate Writable(writes: seq<string>) {
    forall i :: 0 <= i < |writes| ==> 0 < |writes[i]| < ULONG_MAX
  }

  ghost predicate Sendable(trailers: Trailers) {
    forall i :: 0 <= i < |trailers| ==>
      && IsFieldName(trailers[i].0) && IsFieldValue(trailers[i].1) && NoChar(trailers[i].1, '%')
      && |TrailerLine(trailers[i])| <= HEADER_MAX_LENGTH
  }

  lemma LineSplits(line: string, rest: string)
    requires NoChar(line, '\r')
    ensures NextLine(line + CRLF + rest) == (line + CRLF, rest)
  {
    NoCharNoMarker(line, CRLF);
    FindAfter(line, CRLF, rest);
    var s := line + CRLF + rest;
    assert s[..|line| + 2] == line + CRLF && s[|line| + 2..] == rest;
  }

  lemma HexHasNoCr(t: string)
    requires HexAhead(t, |t|)
    ensures NoChar(t, '\r')
  {
  }

  /** One chunk is read back whole and nothing beyond it. */
  lemma ChunkReads(payload: string, rest: string)
    requires 0 < |payload| < ULONG_MAX
    ensures var more := ReadChunked(rest);
            ReadChunked(Chunk(payload) + rest) == more.(body := payload + more.body)
  {
    var size := HexText(|payload|);
    var after := CRLF + rest;
    assert Chunk(payload) + rest == size + CRLF + (payload + after);
    HexTextReads(|payload|);
    HexHasNoCr(size);
    LineSplits(size, payload + after);
    SizeLineReads(|payload|);
    assert (payload + after)[..|payload|] == payload && (payload + after)[|payload|..] == after;
    assert after == "" + CRLF + rest && "" + CRLF == CRLF;
    LineSplits("", rest);
    hide HexText, StrToUl, NextLine, Chunk, Find;
  }

  lemma FieldHasNoCr(kv: (string, string))
    requires IsFieldName(kv.0) && IsFieldValue(kv.1)
    ensures NoChar(kv.0 + ": " + kv.1, '\r')
  {
    var line := kv.0 + ": " + kv.1;
    forall i | 0 <= i < |line| ensures line[i] != '\r' {
      if i < |kv.0| {
        assert TokenChar(kv.0[i]);
      } else if i >= |kv.0| + 2 {
        assert line[i] == kv.1[i - |kv.0| - 2];
      }
    }
  }

  lemma FieldReads(kv: (string, string))
    requires IsFieldName(kv.0) && IsFieldValue(kv.1) && NoChar(kv.1, '%')
    ensures TrailerField(TrailerLine(kv)) == [kv]
  {
    var text := kv.0 + ": " + kv.1;
    assert (text + CRLF)[..|text|] == text;
    DecodeWithoutPercent(kv.1);
    hide IsFieldName, IsFieldValue, ParseHeader, EqualIgnoreCase, DecodeUrl;
    assert DecodeUrl(kv.1, false) == kv.1;
    ParseWellFormed(kv.0, kv.1);
  }

  /** One trailer line becomes its field. */
  lemma TrailerLineRead(kv: (string, string), more: string, first: bool)
    requires IsFieldName(kv.0) && IsFieldValue(kv.1) && NoChar(kv.1, '%') && |TrailerLine(kv)| <= HEADER_MAX_LENGTH
    ensures var later := ReadTrailers(more, false);
            ReadTrailers(TrailerLine(kv) + more, first) == later.(trailers := [kv] + later.trailers)
  {
    var text := kv.0 + ": " + kv.1;
    FieldHasNoCr(kv);
    FieldReads(kv);
    LineSplits(text, more);
    assert TrailerLine(kv) == text + CRLF;
    assert (text + CRLF)[0] != CRLF[0] by {
      assert TokenChar(kv.0[0]);
    }
    hide TrailerField, NextLine, IsFieldName, IsFieldValue, TrailerLine;
  }

  lemma {:induction false} TrailersRead(trailers: Trailers, rest: string, first: bool)
    requires Sendable(trailers)
    ensures ReadTrailers(TrailerLines(trailers) + CRLF + rest, first) == Reading(true, "", trailers, rest)
    decreases |trailers|
  {
    if trailers == [] {
      assert TrailerLines(trailers) + CRLF + rest == "" + CRLF + rest && "" + CRLF == CRLF;
      LineSplits("", rest);
    } else {
      var kv, more := trailers[0], TrailerLines(trailers[1..]) + CRLF + rest;
      TrailerLineRead(kv, more, first);
      assert Sendable(trailers[1..]);
      TrailersRead(trailers[1..], rest, false);
      var lines := TrailerLines(trailers[1..]);
      assert TrailerLines(trailers) == TrailerLine(kv) + lines;
      hide *;
      Assoc(TrailerLine(kv), lines, CRLF);
      Assoc(TrailerLine(kv), lines + CRLF, rest);
      assert trailers == [kv] + trailers[1..];
    }
  }

  lemma LastChunkReads(trailers: Trailers, rest: string)
    requires Sendable(trailers)
    ensures ReadChunked(LastChunk(trailers) + rest) == Reading(true, "", trailers, rest)
  {
    var after := TrailerLines(trailers) + CRLF + rest;
    assert LastChunk(trailers) + rest == "0" + CRLF + after;
    LineSplits("0", after);
    ZeroText();
    SizeLineReads(0);
    TrailersRead(trailers, rest, true);
    hide StrToUl, NextLine, ReadTrailers, LastChunk, Find, Sendable;
  }

  /** Everything written is read back, the trailers with it, and the reader stops exactly at the end of
      the coding, whatever follows. */
  lemma {:induction false} RoundTrip(writes: seq<string>, trailers: Trailers, rest: string)
    requires Writable(writes) && Sendable(trailers)
    ensures ReadChunked(Encode(writes, trailers) + rest) == Reading(true, Concat(writes), trailers, rest)
    decreases |writes|
  {
    if writes == [] {
      LastChunkReads(trailers, rest);
      assert Encode(writes, trailers) == LastChunk(trailers);
    } else {
      var more := Encode(writes[1..], trailers) + rest;
      RoundTrip(writes[1..], trailers, rest);
      ChunkReads(writes[0], more);
      hide ReadChunked, Chunk, LastChunk, Sendable;
      Assoc(Chunk(writes[0]), Chunks(writes[1..]), LastChunk(trailers));
      Assoc(Chunk(writes[0]), Encode(writes[1..], trailers), rest);
    }
  }
}
