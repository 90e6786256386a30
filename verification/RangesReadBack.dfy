/** The library's own form-data parser reads the answer to several ranges: each range comes back as one
    item, with the content type and the bytes cut out for it. */
module RangesReadBack {
  import opened Decimals
  import opened HeaderSyntax
  import opened MultipartHeaders
  import opened MultipartLines
  import opened MultipartRanges
  import opened MultipartRoundTrip
  import opened MultipartSpec
  import opened OutStreams
  import opened PercentCoding
  import opened Ranges
  import opened Text

  function TypeLines(contentType: string): seq<string> {
    if contentType == "" then [] else ["Content-Type: " + contentType]
  }

  function RangeLine(range: string): string {
    "Content-Range: " + range
  }

  function RangePart(r: Range, contentType: string, body: string): MultipartLines.Part
    requires Inside(r, |body|)
  {
    MultipartLines.Part(TypeLines(contentType) + [RangeLine(ContentRange(r, |body|))], body[r.0..r.1 + 1])
  }

  function RangeParts(rs: seq<Range>, contentType: string, body: string): seq<MultipartLines.Part>
    requires AllInside(rs, |body|)
  {
    if rs == [] then [] else [RangePart(rs[0], contentType, body)] + RangeParts(rs[1..], contentType, body)
  }

  /** One item for each range: no name, no file name, the content type, and the bytes from first to last. */
  function RangeItems(rs: seq<Range>, contentType: string, body: string): seq<Item>
    requires AllInside(rs, |body|)
  {
    if rs == [] then []
    else [Item(FormData("", "", contentType), body[rs[0].0..rs[0].1 + 1])] + RangeItems(rs[1..], contentType, body)
  }

  // ----- the answer is written in parts

  lemma {:induction false} RenderedAppend(a: seq<Token>, b: seq<Token>, body: string)
    ensures Rendered(a + b, body) == Rendered(a, body) + Rendered(b, body)
  {
    if a == [] {
      assert a + b == b;
    } else {
      assert (a + b)[1..] == a[1..] + b && (a + b)[0] == a[0];
      assert Rendered(a + b, body) == TokenText(a[0], body) + Rendered(a[1..] + b, body);
      assert Rendered(a, body) == TokenText(a[0], body) + Rendered(a[1..], body);
      hide *;
      RenderedAppend(a[1..], b, body);
      Assoc(TokenText(a[0], body), Rendered(a[1..], body), Rendered(b, body));
    }
  }

  lemma RenderedHead(t: Token, more: seq<Token>, body: string)
    ensures Rendered([t] + more, body) == TokenText(t, body) + Rendered(more, body)
  {
    assert ([t] + more)[1..] == more;
  }

  /** Three tokens in a row. */
  lemma RenderedThree(a: Token, b: Token, c: Token, body: string)
    ensures Rendered([a, b, c], body) == TokenText(a, body) + TokenText(b, body) + TokenText(c, body)
  {
    assert [a, b, c] == [a] + ([b] + ([c] + []));
    RenderedHead(a, [b] + ([c] + []), body);
    RenderedHead(b, [c] + [], body);
    RenderedHead(c, [], body);
    assert Rendered([], body) == "";
    hide Rendered, TokenText;
    Assoc(TokenText(a, body), TokenText(b, body), TokenText(c, body) + "");
  }

  lemma OneLineBlock(line: string)
    ensures HeaderBlock([line]) == line + CRLF + CRLF
  {
    assert [line][1..] == [];
  }

  lemma ContentWritten(range: string, offset: nat, length: nat, body: string)
    requires offset + length <= |body|
    ensures Rendered([Literal("Content-Range: "), Literal(range), Literal(CRLF), Literal(CRLF),
                      Content(offset, length), Literal(CRLF)], body) ==
            HeaderBlock([RangeLine(range)]) + body[offset..offset + length] + CRLF
  {
    var line, cut := RangeLine(range), body[offset..offset + length];
    var first: seq<Token> := [Literal("Content-Range: "), Literal(range), Literal(CRLF)];
    var second: seq<Token> := [Literal(CRLF), Content(offset, length), Literal(CRLF)];
    assert [Literal("Content-Range: "), Literal(range), Literal(CRLF), Literal(CRLF), Content(offset, length), Literal(CRLF)]
           == first + second;
    assert Rendered(first, body) == line + CRLF by {
      RenderedThree(Literal("Content-Range: "), Literal(range), Literal(CRLF), body);
    }
    assert Rendered(second, body) == CRLF + cut + CRLF by {
      RenderedThree(Literal(CRLF), Content(offset, length), Literal(CRLF), body);
    }
    OneLineBlock(line);
    hide *;
    RenderedAppend(first, second, body);
    Assoc(line + CRLF, CRLF + cut, CRLF);
    Assoc(line + CRLF, CRLF, cut);
  }

  lemma HeaderBlockAppend(a: seq<string>, b: seq<string>)
    requires a == [] || |a| == 1
    ensures a == [] ==> HeaderBlock(a + b) == HeaderBlock(b)
    ensures |a| == 1 ==> HeaderBlock(a + b) == a[0] + CRLF + HeaderBlock(b)
  {
    if a == [] {
      assert a + b == b;
    } else {
      assert (a + b)[1..] == b;
    }
  }

  function OpeningTokens(boundary: string): seq<Token> {
    [Literal("--"), Literal(boundary), Literal(CRLF)]
  }

  function TypeTokens(contentType: string): seq<Token> {
    if contentType == "" then [] else [Literal("Content-Type: "), Literal(contentType), Literal(CRLF)]
  }

  function ContentTokens(range: string, offset: nat, length: nat): seq<Token> {
    [Literal("Content-Range: "), Literal(range), Literal(CRLF), Literal(CRLF), Content(offset, length), Literal(CRLF)]
  }

  lemma PartIsTokens(r: Range, boundary: string, contentType: string, len: nat)
    requires Inside(r, len)
    ensures MultipartRanges.Part(r, boundary, contentType, len) ==
            OpeningTokens(boundary) + TypeTokens(contentType) + ContentTokens(ContentRange(r, len), r.0, Length(r))
  {
    hide ContentRange;
  }

  lemma OpeningWritten(boundary: string, body: string)
    ensures Rendered(OpeningTokens(boundary), body) == Opening(boundary)
  {
    RenderedThree(Literal("--"), Literal(boundary), Literal(CRLF), body);
    hide Rendered;
  }

  lemma TypesWritten(contentType: string, rest: seq<string>, body: string)
    ensures Rendered(TypeTokens(contentType), body) + HeaderBlock(rest) == HeaderBlock(TypeLines(contentType) + rest)
  {
    HeaderBlockAppend(TypeLines(contentType), rest);
    if contentType == "" {
      assert Rendered([], body) == "";
    } else {
      RenderedThree(Literal("Content-Type: "), Literal(contentType), Literal(CRLF), body);
      hide Rendered, HeaderBlock;
    }
  }

  lemma PartIsWritten(r: Range, boundary: string, contentType: string, body: string)
    requires Inside(r, |body|)
    ensures Rendered(MultipartRanges.Part(r, boundary, contentType, |body|), body) ==
            WrittenPart(RangePart(r, contentType, body), boundary)
  {
    var range, offset, length := ContentRange(r, |body|), r.0, Length(r);
    var lines, line, cut := TypeLines(contentType), RangeLine(range), body[r.0..r.1 + 1];
    assert WrittenPart(RangePart(r, contentType, body), boundary) == Opening(boundary) + HeaderBlock(lines + [line]) + cut + CRLF;
    assert offset + length == r.1 + 1 <= |body| && offset >= 0 && length >= 0;
    assert Rendered(ContentTokens(range, offset, length), body) == HeaderBlock([line]) + cut + CRLF by {
      ContentWritten(range, offset, length, body);
    }
    hide *;
    PartIsTokens(r, boundary, contentType, |body|);
    var opening, types, content := OpeningTokens(boundary), TypeTokens(contentType), ContentTokens(range, offset, length);
    OpeningWritten(boundary, body);
    TypesWritten(contentType, [line], body);
    RenderedAppend(opening + types, content, body);
    RenderedAppend(opening, types, body);
    Regrouped(Opening(boundary), Rendered(types, body), HeaderBlock([line]), cut, CRLF);
  }

  lemma Regrouped(a: string, b: string, c: string, d: string, e: string)
    ensures a + b + (c + d + e) == a + (b + c) + d + e
  {
  }

  lemma {:induction false} AnswerIsWritten(rs: seq<Range>, boundary: string, contentType: string, body: string)
    requires AllInside(rs, |body|)
    ensures Rendered(Parts(rs, boundary, contentType, |body|), body) + CRLF ==
            Written(RangeParts(rs, contentType, body), boundary)
  {
    if rs == [] {
      RenderedThree(Literal("--"), Literal(boundary), Literal("--"), body);
    } else {
      var parts := RangeParts(rs, contentType, body);
      assert parts[1..] == RangeParts(rs[1..], contentType, body);
      AnswerIsWritten(rs[1..], boundary, contentType, body);
      PartIsWritten(rs[0], boundary, contentType, body);
      hide Rendered, WrittenPart, RangePart, MultipartRanges.Part;
      var first, later := MultipartRanges.Part(rs[0], boundary, contentType, |body|), Parts(rs[1..], boundary, contentType, |body|);
      RenderedAppend(first, later, body);
      Assoc(Rendered(first, body), Rendered(later, body), CRLF);
      Assoc(WrittenPart(parts[0], boundary), WrittenParts(parts[1..], boundary), "--" + boundary + "--" + CRLF);
    }
  }

  // ----- and its parts are read

  lemma {:induction false} DecimalIsShort(n: nat, k: nat, bound: nat)
    requires n < bound && k > 0 && bound == Power(k)
    ensures |Decimal(n)| <= k
  {
    if n >= 10 {
      assert k > 1;
      DecimalIsShort(n / 10, k - 1, Power(k - 1));
    }
  }

  function Power(k: nat): (p: nat)
    ensures p > 0
  {
    if k == 0 then 1 else 10 * Power(k - 1)
  }

  lemma SizesAreShort(n: nat)
    requires n < 0x1_0000_0000_0000_0000
    ensures |Decimal(n)| <= 20
  {
    assert Power(10) == 1_00000_00000;
    assert Power(20) == 1_00000_00000_00000_00000;
    DecimalIsShort(n, 20, Power(20));
  }

  lemma ContentRangeIsValue(r: Range, len: nat)
    requires Inside(r, len) && len < 0x1_0000_0000_0000_0000
    ensures var v := ContentRange(r, len);
            IsFieldValue(v) && |v| <= 100 && IsOther("Content-Range", " ", v, "")
  {
    var a, b, c := Decimal(r.0), Decimal(r.1), Decimal(len);
    var v := "bytes " + a + "-" + b + "/" + c;
    DecimalReads(r.0);
    DecimalReads(r.1);
    DecimalReads(len);
    SizesAreShort(r.0);
    SizesAreShort(r.1);
    SizesAreShort(len);
    hide Decimal, DecimalValue;
    assert v == ContentRange(r, len);
    assert v[0] == 'b' && v[|v| - 1] == c[|c| - 1] && Digit(c[|c| - 1]);
    forall i | 0 <= i < |v| ensures Blank(v[i]) || FieldVchar(v[i]) {
      RangeChar(a, b, c, i);
    }
    assert |"Content-Range"| == 13 && |"Content-Type"| == 12 && |"Content-Disposition"| == 19;
  }

  lemma RangeChar(a: string, b: string, c: string, i: nat)
    requires DecimalDigits(a) && DecimalDigits(b) && DecimalDigits(c)
    requires i < |"bytes " + a + "-" + b + "/" + c|
    ensures var v := "bytes " + a + "-" + b + "/" + c; Blank(v[i]) || FieldVchar(v[i])
  {
    var v := "bytes " + a + "-" + b + "/" + c;
    if 6 <= i < 6 + |a| {
      assert v[i] == a[i - 6] && Digit(v[i]);
    } else if 7 + |a| <= i < 7 + |a| + |b| {
      assert v[i] == b[i - 7 - |a|] && Digit(v[i]);
    } else if 8 + |a| + |b| <= i {
      assert v[i] == c[i - 8 - |a| - |b|] && Digit(v[i]);
    }
  }

  /** What the parser has to be able to take: a content type that is a field value and not too long. */
  predicate TypeFits(contentType: string) {
    IsFieldValue(contentType) && |"Content-Type: " + contentType| < HEADER_MAX_LENGTH
  }

  lemma RangeLineIs(range: string)
    ensures RangeLine(range) == LineText("Content-Range", " ", range, "")
  {
  }

  lemma TypeLineTaken(contentType: string)
    requires TypeFits(contentType) && contentType != ""
    ensures var line := "Content-Type: " + contentType;
            line != "" && NoChar(line, '\r') && ReadHeader(line, NO_FILE) == Good(FormData("", "", contentType))
  {
    var d := FormData("", "", contentType);
    LinesAreLines(d);
    ContentTypeLineReads(d, NO_FILE);
    hide DispositionLine, ReadHeader, IsFieldValue, NoChar;
    assert HeaderLines(d)[1] == ContentTypeLine(d) == "Content-Type: " + contentType;
  }

  lemma TypeLinePlain(contentType: string, range: string)
    requires TypeFits(contentType) && IsOther("Content-Range", " ", range, "") && |range| <= 100
    ensures Plainly(TypeLines(contentType) + [RangeLine(range)])
  {
    var line := RangeLine(range);
    assert |line| == 15 + |range|;
    hide RangeLine, IsOther, NoChar, IsFieldValue, ReadHeader;
    RangeLineIs(range);
    OtherLineIsPlain("Content-Range", " ", range, "");
    if contentType == "" {
      assert [] + [line] == [line];
    } else {
      TypeLineTaken(contentType);
    }
  }

  lemma TypeLineReads(contentType: string, range: string)
    requires TypeFits(contentType) && IsOther("Content-Range", " ", range, "")
    ensures ReadAll(TypeLines(contentType) + [RangeLine(range)], NO_FILE) == Good(FormData("", "", contentType))
  {
    var d, line := FormData("", "", contentType), RangeLine(range);
    assert ReadAll([], d) == Good(d) && TypeLines(contentType) == if contentType == "" then [] else ["Content-Type: " + contentType];
    hide *;
    RangeLineIs(range);
    OtherLineIsPassedOver("Content-Range", " ", range, "", d);
    ReadsOn(line, [], d, d);
    assert [line] + [] == [line];
    if contentType == "" {
      assert [] + [line] == [line];
      assert NO_FILE == d by {
        NoFileIs();
      }
    } else {
      TypeLineTaken(contentType);
      ReadsOn("Content-Type: " + contentType, [line], NO_FILE, d);
    }
  }

  lemma NoFileIs()
    ensures NO_FILE == FormData("", "", "")
  {
  }

  lemma {:induction false} RangePartAt(rs: seq<Range>, contentType: string, body: string, i: nat)
    requires AllInside(rs, |body|) && i < |rs|
    ensures |RangeParts(rs, contentType, body)| == |RangeItems(rs, contentType, body)| == |rs|
    ensures RangeParts(rs, contentType, body)[i] == RangePart(rs[i], contentType, body)
    ensures RangeItems(rs, contentType, body)[i] == Item(FormData("", "", contentType), body[rs[i].0..rs[i].1 + 1])
  {
    hide RangePart;
    if |rs| > 1 {
      RangePartAt(rs[1..], contentType, body, if i > 0 then i - 1 else 0);
    }
  }

  ghost predicate Undelimited(text: string, boundary: string) {
    forall j :: !At(text, Delimiter(boundary), j)
  }

  lemma PartReads(r: Range, contentType: string, body: string, boundary: string)
    requires Inside(r, |body|) && |body| < 0x1_0000_0000_0000_0000 && TypeFits(contentType)
    requires Undelimited(body[r.0..r.1 + 1], boundary)
    ensures var part := RangePart(r, contentType, body);
            && Sendable(part, boundary) && part.content == body[r.0..r.1 + 1]
            && ReadAll(part.lines, NO_FILE) == Good(FormData("", "", contentType))
  {
    var range, part := ContentRange(r, |body|), RangePart(r, contentType, body);
    ContentRangeIsValue(r, |body|);
    assert part.lines == TypeLines(contentType) + [RangeLine(range)] && part.content == body[r.0..r.1 + 1];
    assert Plainly(part.lines) ==> Sendable(part, boundary);
    hide *;
    TypeLinePlain(contentType, range);
    TypeLineReads(contentType, range);
  }

  lemma InsideAt(rs: seq<Range>, len: nat, i: nat)
    requires AllInside(rs, len) && i < |rs|
    ensures Inside(rs[i], len)
  {
  }

  lemma RangePartReads(rs: seq<Range>, contentType: string, body: string, boundary: string, i: nat)
    requires AllInside(rs, |body|) && |body| < 0x1_0000_0000_0000_0000 && TypeFits(contentType) && i < |rs|
    requires Undelimited(body[rs[i].0..rs[i].1 + 1], boundary)
    ensures var parts, items := RangeParts(rs, contentType, body), RangeItems(rs, contentType, body);
            && |parts| == |items| == |rs| && Sendable(parts[i], boundary)
            && parts[i].content == items[i].content && ReadAll(parts[i].lines, NO_FILE) == Good(items[i].data)
  {
    hide *;
    InsideAt(rs, |body|, i);
    RangePartAt(rs, contentType, body, i);
    PartReads(rs[i], contentType, body, boundary);
  }

  /** The body that answers several ranges, with the line end that closes a message, fed to the form-data
      parser in any chunks of which the first holds the opening line: every range comes back as an item of
      its own with the bytes asked for, in order, as long as none of them holds the delimiter. */
  lemma RangesComeBack(rs: seq<Range>, boundary: string, contentType: string, body: string,
                       chunks: seq<string>, accepts: Receiver)
    requires rs != [] && AllInside(rs, |body|) && |body| < 0x1_0000_0000_0000_0000 && TypeFits(contentType)
    requires BoundaryChars(boundary) && AcceptsAll(accepts)
    requires forall i :: 0 <= i < |rs| ==> Undelimited(body[rs[i].0..rs[i].1 + 1], boundary)
    requires Concat(chunks) == Rendered(Parts(rs, boundary, contentType, |body|), body) + CRLF
    requires |FirstChunk(chunks)| >= |Opening(boundary)|
    ensures var (q, ok) := Feed(FRESH, chunks, boundary, accepts);
            ok && q.valid && Deliver(q.log) == RangeItems(rs, contentType, body)
  {
    var parts, items := RangeParts(rs, contentType, body), RangeItems(rs, contentType, body);
    AnswerIsWritten(rs, boundary, contentType, body);
    RangePartAt(rs, contentType, body, 0);
    hide Rendered, Parts, RangeParts, RangeItems, Feed, Undelimited, Written, Opening, Sendable, ReadAll, TypeFits, ContentRange;
    forall i | 0 <= i < |parts|
      ensures Sendable(parts[i], boundary) && parts[i].content == items[i].content
      ensures ReadAll(parts[i].lines, NO_FILE) == Good(items[i].data)
    {
      RangePartReads(rs, contentType, body, boundary, i);
    }
    CarriedAreReceived(parts, items);
    RoundTrip(parts, chunks, boundary, accepts);
  }
}
