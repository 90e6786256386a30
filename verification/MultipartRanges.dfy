/** The multipart body that answers several ranges: one generator read three ways, as text to build, as
    a length to announce, and as pieces to send through a content provider. */
module MultipartRanges {
  import opened Decimals
  import opened OutStreams
  import opened Ranges
  import opened Text

  datatype Token = Literal(text: string) | Content(offset: nat, length: nat)

  /** The offset and length of a range; what the program asserts on entry is required here. */
  function OffsetAndLength(r: Range, len: nat): (ol: (nat, nat))
    requires Inside(r, len)
    ensures ol.0 + ol.1 <= len && ol.1 == Length(r) > 0
  {
    (r.0, r.1 - r.0 + 1)
  }

  function ContentRange(r: Range, len: nat): string
    requires Inside(r, len)
  {
    var (offset, length) := OffsetAndLength(r, len);
    "bytes " + Decimal(offset) + "-" + Decimal(offset + length - 1) + "/" + Decimal(len)
  }

  /** It names the first and the last position of the range and the length of the whole. */
  lemma ContentRangeReads(r: Range, len: nat) returns (first: string, last: string, total: string)
    requires Inside(r, len)
    ensures ContentRange(r, len) == "bytes " + first + "-" + last + "/" + total
    ensures DecimalDigits(first) && DecimalDigits(last) && DecimalDigits(total)
    ensures DecimalValue(first) == r.0 && DecimalValue(last) == r.1 && DecimalValue(total) == len
  {
    first, last, total := Decimal(r.0), Decimal(r.1), Decimal(len);
    DecimalReads(r.0);
    DecimalReads(r.1);
    DecimalReads(len);
  }

  function Part(r: Range, boundary: string, contentType: string, len: nat): seq<Token>
    requires Inside(r, len)
  {
    var (offset, length) := OffsetAndLength(r, len);
    [Literal("--"), Literal(boundary), Literal(CRLF)]
    + (if contentType == "" then [] else [Literal("Content-Type: "), Literal(contentType), Literal(CRLF)])
    + [Literal("Content-Range: "), Literal(ContentRange(r, len)), Literal(CRLF), Literal(CRLF),
       Content(offset, length), Literal(CRLF)]
  }

  ghost predicate AllInside(rs: seq<Range>, len: nat) {
    forall i :: 0 <= i < |rs| ==> Inside(rs[i], len)
  }

  function Parts(rs: seq<Range>, boundary: string, contentType: string, len: nat): seq<Token>
    requires AllInside(rs, len)
  {
    if rs == [] then [Literal("--"), Literal(boundary), Literal("--")]
    else Part(rs[0], boundary, contentType, len) + Parts(rs[1..], boundary, contentType, len)
  }

  /** `process_multipart_ranges_data`: the tokens in the order in which they are handed to the callbacks. */
  method Process(rs: seq<Range>, boundary: string, contentType: string, len: nat) returns (tokens: seq<Token>)
    requires AllInside(rs, len)
    ensures tokens == Parts(rs, boundary, contentType, len)
  {
    tokens := [];
    for i := 0 to |rs|
      invariant tokens + Parts(rs[i..], boundary, contentType, len) == Parts(rs, boundary, contentType, len)
    {
      assert rs[i..][0] == rs[i] && rs[i..][1..] == rs[i + 1..];
      Assoc(tokens, Part(rs[i], boundary, contentType, len), Parts(rs[i + 1..], boundary, contentType, len));
      ghost var before := tokens;
      tokens := tokens + [Literal("--"), Literal(boundary), Literal(CRLF)];
      if contentType != "" {
        tokens := tokens + [Literal("Content-Type: "), Literal(contentType), Literal(CRLF)];
      }
      var (offset, length) := OffsetAndLength(rs[i], len);
      tokens := tokens + [Literal("Content-Range: "), Literal(ContentRange(rs[i], len)), Literal(CRLF), Literal(CRLF),
                          Content(offset, length), Literal(CRLF)];
      assert tokens == before + Part(rs[i], boundary, contentType, len);
    }
    tokens := tokens + [Literal("--"), Literal(boundary), Literal("--")];
  }

  // ----- the three readings

  ghost predicate Fits(tokens: seq<Token>, len: nat) {
    forall i :: 0 <= i < |tokens| && tokens[i].Content? ==> tokens[i].offset + tokens[i].length <= len
  }

  function TokenText(t: Token, body: string): string {
    match t
    case Literal(text) => text
    case Content(offset, length) => if offset + length <= |body| then body[offset..offset + length] else ""
  }

  function Rendered(tokens: seq<Token>, body: string): string {
    if tokens == [] then "" else TokenText(tokens[0], body) + Rendered(tokens[1..], body)
  }

  lemma RenderedTurn(tokens: seq<Token>, i: nat, body: string)
    requires i < |tokens|
    ensures Rendered(tokens[i..], body) == TokenText(tokens[i], body) + Rendered(tokens[i + 1..], body)
  {
    assert tokens[i..][0] == tokens[i] && tokens[i..][1..] == tokens[i + 1..];
  }

  lemma {:induction false} PartsFit(rs: seq<Range>, boundary: string, contentType: string, len: nat)
    requires AllInside(rs, len)
    ensures Fits(Parts(rs, boundary, contentType, len), len)
  {
    if rs != [] {
      PartsFit(rs[1..], boundary, contentType, len);
      var part, rest := Part(rs[0], boundary, contentType, len), Parts(rs[1..], boundary, contentType, len);
      assert Fits(part, len);
      var all: seq<Token> := part + rest;
      forall i | 0 <= i < |all| && all[i].Content? ensures all[i].offset + all[i].length <= len {
        assert all[i] == if i < |part| then part[i] else rest[i - |part|];
      }
    }
  }

  lemma FitsAt(tokens: seq<Token>, len: nat, i: nat)
    requires i < |tokens| && Fits(tokens, len)
    ensures tokens[i].Content? ==> tokens[i].offset + tokens[i].length <= len
  {
  }

  method MakeMultipartRangesData(rs: seq<Range>, boundary: string, contentType: string, body: string)
      returns (data: string)
    requires AllInside(rs, |body|)
    ensures data == Rendered(Parts(rs, boundary, contentType, |body|), body)
  {
    var tokens := Process(rs, boundary, contentType, |body|);
    PartsFit(rs, boundary, contentType, |body|);
    data := "";
    assert tokens[0..] == tokens && "" + Rendered(tokens, body) == Rendered(tokens, body);
    assert Rendered([], body) == "";
    hide Rendered, Parts, Fits;
    for i := 0 to |tokens|
      invariant data + Rendered(tokens[i..], body) == Rendered(tokens, body)
    {
      RenderedTurn(tokens, i, body);
      FitsAt(tokens, |body|, i);
      ghost var text := TokenText(tokens[i], body);
      Assoc(data, text, Rendered(tokens[i + 1..], body));
      var piece := match tokens[i] case Literal(t) => t case Content(offset, length) => body[offset..offset + length];
      assert piece == text;
      data := data + piece;
    }
    assert tokens[|tokens|..] == [] && data + "" == data;
  }

  /** The announced length is the length of the body that is built. */
  method GetMultipartRangesDataLength(rs: seq<Range>, boundary: string, contentType: string, len: nat)
      returns (dataLength: nat)
    requires AllInside(rs, len)
    ensures forall body: string :: |body| == len ==> dataLength == |Rendered(Parts(rs, boundary, contentType, len), body)|
  {
    var tokens := Process(rs, boundary, contentType, len);
    PartsFit(rs, boundary, contentType, len);
    dataLength := 0;
    for i := 0 to |tokens|
      invariant forall body: string :: |body| == len ==> dataLength + |Rendered(tokens[i..], body)| == |Rendered(tokens, body)|
    {
      ghost var before := dataLength;
      match tokens[i] {
        case Literal(text) => dataLength := dataLength + |text|;
        case Content(_, length) => dataLength := dataLength + length;
      }
      forall body: string | |body| == len
        ensures dataLength + |Rendered(tokens[i + 1..], body)| == |Rendered(tokens, body)|
      {
        RenderedTurn(tokens, i, body);
        assert before + |Rendered(tokens[i..], body)| == |Rendered(tokens, body)|;
      }
    }
  }

  /** A partial response (status 206): the ranges asked for are checked and normalized, then cut out of the
      content, a single one by itself and several with their delimiters; `announced` is the length that a
      response from a content provider of that size declares. No assertion on the way can fail. */
  method AnswerRanges(ranges: array<Range>, body: string, boundary: string, contentType: string)
      returns (err: bool, announced: nat, data: string)
    requires ranges.Length > 0
    modifies ranges
    ensures var rs := NormalizeAll(old(ranges[..]), |body|);
            && err == !Acceptable(rs, |body|)
            && (!err ==> AllInside(rs, |body|) && announced == |data|)
            && (!err && |rs| == 1 ==> data == body[rs[0].0..rs[0].1 + 1])
            && (!err && |rs| > 1 ==> data == Rendered(Parts(rs, boundary, contentType, |body|), body))
  {
    announced, data := 0, "";
    err := RangeError(ranges, 206, |body|);
    if err {
      return;
    }
    ghost var rs := NormalizeAll(old(ranges[..]), |body|);
    assert ranges[..] == rs && AllInside(rs, |body|);
    hide NormalizeAll, Acceptable;
    if ranges.Length == 1 {
      assert ranges[0] == rs[0];
      var (offset, length) := OffsetAndLength(ranges[0], |body|);
      announced := length;
      data := body[offset..offset + length];
    } else {
      announced := GetMultipartRangesDataLength(ranges[..], boundary, contentType, |body|);
      data := MakeMultipartRangesData(ranges[..], boundary, contentType, body);
    }
  }

  // ----- through a content provider

  /** What the loop of `write_content` meets each time round: a provider that writes at most `n` bytes of
      the rest and goes on, one that gives up after as many, or a server that is shutting down. The end
      of a list of turns is such a shutdown, too. */
  datatype Turn = Give(n: nat) | GiveUp(n: nat) | ShutDown

  /** How a token fares: the most the stream takes of a text, which is written without a second attempt,
      or the turns taken by a content. */
  datatype Choice = Choice(most: nat, turns: seq<Turn>)

  function Min(a: nat, b: nat): nat {
    if a < b then a else b
  }

  /** How many bytes of a content go out, and the verdict. */
  function Provided(turns: seq<Turn>, length: nat): (r: (nat, bool))
    ensures r.0 <= length
  {
    if length == 0 || turns == [] then (0, true)
    else
      match turns[0]
      case Give(n) =>
        var k := Min(n, length);
        var (more, ok) := Provided(turns[1..], length - k);
        (k + more, ok)
      case GiveUp(n) => (Min(n, length), false)
      case ShutDown => (0, true)
  }

  /** The pieces add up to the whole length before anyone gives up or shuts down. */
  predicate Serves(turns: seq<Turn>, length: nat) {
    length == 0 || (turns != [] && turns[0].Give? && Serves(turns[1..], length - Min(turns[0].n, length)))
  }

  lemma {:induction false} ServesIffProvided(turns: seq<Turn>, length: nat)
    ensures Serves(turns, length) <==> Provided(turns, length) == (length, true)
    decreases |turns|
  {
    if length > 0 && turns != [] && turns[0].Give? {
      ServesIffProvided(turns[1..], length - Min(turns[0].n, length));
    }
  }

  /** The bytes of so many turns. */
  function Sum(turns: seq<Turn>): nat {
    if turns == [] then 0 else (if turns[0].Give? then turns[0].n else 0) + Sum(turns[1..])
  }

  /** The provider gives up at turn `k`, with something still to come and no shutdown before. */
  predicate GivesUpAt(turns: seq<Turn>, length: nat, k: nat) {
    && k < |turns| && turns[k].GiveUp? && Sum(turns[..k]) < length
    && forall j :: 0 <= j < k ==> turns[j].Give?
  }

  /** Writing a content fails if and only if the provider gives up; a server that shuts down does not make it
      fail. */
  lemma {:induction false} FailsIffGivenUp(turns: seq<Turn>, length: nat)
    ensures !Provided(turns, length).1 <==> exists k: nat :: GivesUpAt(turns, length, k)
    decreases |turns|
  {
    if length > 0 && turns != [] {
      if turns[0].Give? {
        var rest, left := turns[1..], length - Min(turns[0].n, length);
        FailsIffGivenUp(rest, left);
        forall k: nat | k < |rest| ensures GivesUpAt(rest, left, k) <==> GivesUpAt(turns, length, k + 1) {
          assert turns[..k + 1][1..] == rest[..k];
          assert forall j :: 0 <= j < k ==> rest[j] == turns[j + 1];
        }
        assert forall k: nat :: GivesUpAt(turns, length, k) ==> k > 0 && GivesUpAt(rest, left, k - 1);
      } else if turns[0].GiveUp? {
        assert GivesUpAt(turns, length, 0);
      }
    }
  }

  /** The text is taken at once, or the content served. */
  predicate Unhurt(t: Token, c: Choice) {
    match t
    case Literal(text) => c.most >= |text| || |text| == 1
    case Content(_, length) => Serves(c.turns, length)
  }

  ghost predicate AllUnhurt(tokens: seq<Token>, choices: seq<Choice>)
    requires |choices| == |tokens|
  {
    forall i :: 0 <= i < |tokens| ==> Unhurt(tokens[i], choices[i])
  }

  /** What goes out of the tokens, and the verdict. */
  function Sent(tokens: seq<Token>, choices: seq<Choice>, body: string): (string, bool)
    requires |choices| == |tokens| && Fits(tokens, |body|)
  {
    if tokens == [] then ("", true)
    else
      match tokens[0]
      case Literal(text) =>
        var (rest, ok) := Sent(tokens[1..], choices[1..], body);
        (text[..Taken(text, choices[0].most)] + rest, ok)
      case Content(offset, length) =>
        var (n, go) := Provided(choices[0].turns, length);
        var piece := body[offset..offset + n];
        if !go then (piece, false)
        else
          var (rest, ok) := Sent(tokens[1..], choices[1..], body);
          (piece + rest, ok)
  }

  predicate EndsInText(tokens: seq<Token>) {
    tokens == [] || (tokens[|tokens| - 1].Literal? && tokens[|tokens| - 1].text != "")
  }

  lemma {:induction false} RenderedNonEmpty(tokens: seq<Token>, body: string)
    requires tokens != [] && EndsInText(tokens)
    ensures |Rendered(tokens, body)| > 0
  {
    if |tokens| > 1 {
      RenderedNonEmpty(tokens[1..], body);
    }
  }

  lemma {:induction false} PartsEndInText(rs: seq<Range>, boundary: string, contentType: string, len: nat)
    requires AllInside(rs, len)
    ensures var tokens := Parts(rs, boundary, contentType, len); tokens != [] && EndsInText(tokens)
  {
    if rs != [] {
      PartsEndInText(rs[1..], boundary, contentType, len);
    }
  }

  lemma AllUnhurtHead(tokens: seq<Token>, choices: seq<Choice>)
    requires |choices| == |tokens| > 0
    ensures AllUnhurt(tokens, choices) <==> Unhurt(tokens[0], choices[0]) && AllUnhurt(tokens[1..], choices[1..])
  {
    if Unhurt(tokens[0], choices[0]) && AllUnhurt(tokens[1..], choices[1..]) {
      forall i | 0 <= i < |tokens| ensures Unhurt(tokens[i], choices[i]) {
        assert i > 0 ==> tokens[i] == tokens[1..][i - 1] && choices[i] == choices[1..][i - 1];
      }
    }
    if AllUnhurt(tokens, choices) {
      forall i | 0 <= i < |tokens[1..]| ensures Unhurt(tokens[1..][i], choices[1..][i]) {
        assert tokens[1..][i] == tokens[i + 1] && choices[1..][i] == choices[i + 1];
      }
    }
  }

  lemma SentText(text: string, most: nat)
    ensures Unhurt(Literal(text), Choice(most, [])) <==> Taken(text, most) == |text|
    ensures text[..|text|] == text
  {
  }

  /** What goes out is the body that would have been built if and only if no text is taken in part and no
      content is given up or shut down; otherwise it is shorter than the length announced. */
  lemma {:induction false} SentWholeIff(tokens: seq<Token>, choices: seq<Choice>, body: string)
    requires |choices| == |tokens| && Fits(tokens, |body|) && EndsInText(tokens)
    ensures var (sent, ok) := Sent(tokens, choices, body);
            && (AllUnhurt(tokens, choices) ==> ok && sent == Rendered(tokens, body))
            && (!AllUnhurt(tokens, choices) ==> |sent| < |Rendered(tokens, body)|)
  {
    if tokens != [] {
      FitsTail(tokens, |body|);
      SentWholeIff(tokens[1..], choices[1..], body);
      AllUnhurtHead(tokens, choices);
      PieceWholeIff(tokens[0], choices[0], body);
      SentHead(tokens, choices, body);
      var text := TokenText(tokens[0], body);
      assert Rendered(tokens, body) == text + Rendered(tokens[1..], body);
      if tokens[0].Content? {
        RenderedNonEmpty(tokens[1..], body);
      }
      hide AllUnhurt, Fits, Sent, Rendered, TokenText, PieceOf, Unhurt, Provided, EndsInText;
    }
  }

  /** A token goes out whole, with the verdict to go on, exactly when it is unhurt. */
  lemma PieceWholeIff(t: Token, c: Choice, body: string)
    requires t.Content? ==> t.offset + t.length <= |body|
    ensures var piece, text := PieceOf(t, c, body), TokenText(t, body);
            && |piece| <= |text|
            && (Unhurt(t, c) ==> piece == text)
            && (t.Literal? && !Unhurt(t, c) ==> |piece| < |text|)
            && (t.Content? ==> (Unhurt(t, c) <==> |piece| == |text| && Provided(c.turns, t.length).1))
  {
    match t
    case Literal(text) => SentText(text, c.most);
    case Content(_, length) => ServesIffProvided(c.turns, length);
  }

  lemma FitsTail(tokens: seq<Token>, len: nat)
    requires tokens != [] && Fits(tokens, len)
    ensures Fits(tokens[1..], len) && (tokens[0].Content? ==> tokens[0].offset + tokens[0].length <= len)
  {
  }

  /** `write_content`: exactly the bytes provided go out, unless the stream fails. */
  method WriteContent(strm: OutStream, body: string, offset: nat, length: nat, turns: seq<Turn>) returns (ok: bool)
    requires offset + length <= |body|
    modifies strm
    ensures old(strm.failed) ==> strm.failed
    ensures !strm.failed ==> ok == Provided(turns, length).1
                             && strm.written == old(strm.written) + body[offset..offset + Provided(turns, length).0]
  {
    var at, end, j := offset, offset + length, 0;
    assert old(strm.written) + body[offset..at] == old(strm.written) && turns[0..] == turns;
    while at < end && j < |turns| && !turns[j].ShutDown?
      invariant offset <= at <= end && j <= |turns| && strm.failed == old(strm.failed)
      invariant strm.written == old(strm.written) + body[offset..at]
      invariant var (more, verdict) := Provided(turns[j..], end - at);
                Provided(turns, length) == (at - offset + more, verdict)
      decreases |turns| - j
    {
      var writable := strm.WaitWritable();
      if !writable {
        return false;
      }
      assert turns[j..][1..] == turns[j + 1..];
      var k := Min(turns[j].n, end - at);
      var taken := strm.WriteData(body[at..at + k]);
      if !taken {
        return false;
      }
      Assoc(old(strm.written), body[offset..at], body[at..at + k]);
      assert body[offset..at] + body[at..at + k] == body[offset..at + k];
      at := at + k;
      if turns[j].GiveUp? {
        return false;
      }
      j := j + 1;
    }
    return true;
  }

  /** A token of text is written once, a content as long as it is provided. */
  method SendToken(strm: OutStream, body: string, t: Token, c: Choice) returns (ok: bool)
    requires t.Content? ==> t.offset + t.length <= |body|
    modifies strm
    ensures old(strm.failed) ==> strm.failed
    ensures !strm.failed && t.Literal? ==> ok && strm.written == old(strm.written) + t.text[..Taken(t.text, c.most)]
    ensures !strm.failed && t.Content? ==>
              var (n, go) := Provided(c.turns, t.length);
              ok == go && strm.written == old(strm.written) + body[t.offset..t.offset + n]
  {
    ok := true;
    match t {
      case Literal(text) =>
        if text == "" {
          assert strm.written + text[..0] == strm.written;
        } else {
          var _ := strm.Take(text, c.most);
        }
      case Content(offset, length) => ok := WriteContent(strm, body, offset, length, c.turns);
    }
  }

  /** `write_multipart_ranges_data`: unless the stream fails, the body that would have been built goes out
      if and only if no text is taken in part and no content is given up or shut down. */
  method WriteMultipartRangesData(strm: OutStream, body: string, rs: seq<Range>, boundary: string, contentType: string,
                                  choices: seq<Choice>) returns (ok: bool)
    requires AllInside(rs, |body|) && |choices| == |Parts(rs, boundary, contentType, |body|)|
    modifies strm
    ensures Fits(Parts(rs, boundary, contentType, |body|), |body|)
    ensures !strm.failed ==>
              var (sent, verdict) := Sent(Parts(rs, boundary, contentType, |body|), choices, body);
              ok == verdict && strm.written == old(strm.written) + sent
    ensures !strm.failed ==>
              var tokens := Parts(rs, boundary, contentType, |body|);
              strm.written == old(strm.written) + Rendered(tokens, body) <==> AllUnhurt(tokens, choices)
  {
    var tokens := Process(rs, boundary, contentType, |body|);
    PartsFit(rs, boundary, contentType, |body|);
    PartsEndInText(rs, boundary, contentType, |body|);
    SentWholeIff(tokens, choices, body);
    ok := SendTokens(strm, body, tokens, choices);
  }

  method SendTokens(strm: OutStream, body: string, tokens: seq<Token>, choices: seq<Choice>) returns (ok: bool)
    requires |choices| == |tokens| && Fits(tokens, |body|)
    modifies strm
    ensures old(strm.failed) ==> strm.failed
    ensures !strm.failed ==> ok == Sent(tokens, choices, body).1
                             && strm.written == old(strm.written) + Sent(tokens, choices, body).0
  {
    ghost var done := "";
    assert old(strm.written) + "" == old(strm.written) && tokens[0..] == tokens && choices[0..] == choices;
    assert "" + Sent(tokens, choices, body).0 == Sent(tokens, choices, body).0;
    hide Fits;
    for i := 0 to |tokens|
      invariant old(strm.failed) ==> strm.failed
      invariant !strm.failed ==> strm.written == old(strm.written) + done
      invariant Fits(tokens[i..], |body|)
      invariant !strm.failed ==> Sent(tokens, choices, body) == Prefixed(done, Sent(tokens[i..], choices[i..], body))
    {
      SentTurn(tokens, choices, body, i, done);
      ghost var piece := PieceOf(tokens[i], choices[i], body);
      ok := SendToken(strm, body, tokens[i], choices[i]);
      Assoc(old(strm.written), done, piece);
      done := done + piece;
      if !ok {
        return false;
      }
    }
    assert done + "" == done;
    ok := true;
  }

  function Prefixed(done: string, r: (string, bool)): (string, bool) {
    (done + r.0, r.1)
  }

  function PieceOf(t: Token, c: Choice, body: string): string
    requires t.Content? ==> t.offset + t.length <= |body|
  {
    match t
    case Literal(text) => text[..Taken(text, c.most)]
    case Content(offset, length) => body[offset..offset + Provided(c.turns, length).0]
  }

  lemma SentHead(tokens: seq<Token>, choices: seq<Choice>, body: string)
    requires tokens != [] && |choices| == |tokens| && Fits(tokens, |body|)
    ensures Fits(tokens[1..], |body|) && (tokens[0].Content? ==> tokens[0].offset + tokens[0].length <= |body|)
    ensures var r := Sent(tokens, choices, body);
            var piece := PieceOf(tokens[0], choices[0], body);
            if tokens[0].Content? && !Provided(choices[0].turns, tokens[0].length).1 then r == (piece, false)
            else r == Prefixed(piece, Sent(tokens[1..], choices[1..], body))
  {
  }

  lemma SentTurn(tokens: seq<Token>, choices: seq<Choice>, body: string, i: nat, done: string)
    requires i < |tokens| == |choices| && Fits(tokens[i..], |body|)
    ensures Fits(tokens[i + 1..], |body|) && (tokens[i].Content? ==> tokens[i].offset + tokens[i].length <= |body|)
    ensures var t := tokens[i];
            var r := Prefixed(done, Sent(tokens[i..], choices[i..], body));
            var piece := PieceOf(t, choices[i], body);
            if t.Content? && !Provided(choices[i].turns, t.length).1 then r == (done + piece, false)
            else r == Prefixed(done + piece, Sent(tokens[i + 1..], choices[i + 1..], body))
  {
    assert tokens[i..][1..] == tokens[i + 1..] && choices[i..][1..] == choices[i + 1..];
    SentHead(tokens[i..], choices[i..], body);
    hide Sent, Fits, PieceOf, Provided;
    Assoc(done, PieceOf(tokens[i], choices[i], body), Sent(tokens[i + 1..], choices[i + 1..], body).0);
  }
}
