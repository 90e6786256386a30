/** The chunked reader as it runs over a buffered socket: whatever the pieces in which the bytes arrive,
    it does what `ChunkedSpec.ReadChunked` says of them, unless a read fails or the receiver refuses. */
module ChunkedReaders {
  import opened ChunkedSpec
  import opened HeaderSyntax
  import opened LineReaders
  import opened Options
  import opened SocketStreams
  import opened Text

  const RECV_BUFSIZ := 16384

  /** The content receiver and the trailer fields of the message being read. */
  class Sink {
    var data: string
    var headers: Trailers
    var refused: bool

    constructor ()
      ensures data == "" && headers == [] && !refused
    {
      data, headers, refused := "", [], false;
    }

    /** Hands over a piece of content; the receiver may refuse to go on. */
    method Receive(piece: string) returns (ok: bool)
      modifies this
      ensures data == old(data) + piece && headers == old(headers)
      ensures refused == (old(refused) || !ok)
    {
      data := data + piece;
      ok := *;
      refused := refused || !ok;
    }
  }

  /** What was handed over is what should have been, or a first part of it. */
  predicate CutShort(data: string, before: string, body: string) {
    && |before| <= |data| <= |before| + |body|
    && data == before + body[..|data| - |before|]
  }

  lemma CutAt(before: string, body: string, n: nat)
    requires n <= |body|
    ensures CutShort(before + body[..n], before, body)
  {
  }

  lemma CutLater(data: string, before: string, got: string, body: string)
    requires CutShort(data, before + got, body)
    ensures CutShort(data, before, got + body)
  {
    var n := |data| - |before + got|;
    assert (got + body)[..|got| + n] == got + body[..n];
    Assoc(before, got, body[..n]);
  }

  function AtMost(s: string, n: nat): string {
    if n <= |s| then s[..n] else s
  }

  /** Reads `len` bytes in pieces no larger than the receive buffer. */
  method ReadContentWithLength(strm: SocketStream, len: nat, out: Sink) returns (ok: bool)
    requires strm.Valid()
    modifies strm, strm.sock, strm.readBuff, out
    ensures strm.Valid() && (old(strm.sock.failed) ==> strm.sock.failed) && (old(out.refused) ==> out.refused)
    ensures ok ==> strm.sock.failed == old(strm.sock.failed) && out.refused == old(out.refused)
    ensures out.headers == old(out.headers)
    ensures CutShort(out.data, old(out.data), AtMost(old(strm.Pending()), len))
    ensures var input := old(strm.Pending());
            && (ok ==> |input| >= len && out.data == old(out.data) + input[..len] && strm.Pending() == input[len..])
            && (!ok && !strm.sock.failed && !out.refused ==>
                |input| < len && out.data == old(out.data) + input && strm.Pending() == "")
  {
    ghost var input := strm.Pending();
    var r := 0;
    assert input[..0] == "" && old(out.data) + "" == old(out.data);
    while r < len
      invariant strm.Valid() && r <= len && r <= |input|
      invariant strm.sock.failed == old(strm.sock.failed) && out.refused == old(out.refused)
      invariant out.headers == old(out.headers)
      invariant strm.Pending() == input[r..] && out.data == old(out.data) + input[..r]
    {
      PartOfPart(input, r, len);
      CutAt(old(out.data), AtMost(input, len), r);
      var n, piece := strm.Read(if len - r < RECV_BUFSIZ then len - r else RECV_BUFSIZ);
      if n <= 0 {
        assert n == 0 ==> input[r..] == "" && input[..r] == input;
        return false;
      }
      Advance(input, r, piece, strm.Pending());
      Assoc(old(out.data), input[..r], piece);
      PartOfPart(input, r + n, len);
      CutAt(old(out.data), AtMost(input, len), r + n);
      var accepted := out.Receive(piece);
      if !accepted {
        return false;
      }
      r := r + n;
    }
    PartOfPart(input, len, len);
    CutAt(old(out.data), AtMost(input, len), len);
    ok := true;
  }

  lemma PartOfPart(s: string, n: nat, len: nat)
    requires n <= |s| && n <= len
    ensures n <= |AtMost(s, len)| && AtMost(s, len)[..n] == s[..n]
  {
  }

  lemma Advance(input: string, r: nat, piece: string, pending: string)
    requires r <= |input| && piece + pending == input[r..]
    ensures r + |piece| <= |input| && input[..r] + piece == input[..r + |piece|] && input[r + |piece|..] == pending
  {
    assert input == input[..r] + (piece + pending);
    Assoc(input[..r], piece, pending);
  }

  function AfterFields(fields: Trailers, r: Reading): Reading {
    r.(trailers := fields + r.trailers)
  }

  function AfterBody(body: string, r: Reading): Reading {
    r.(body := body + r.body)
  }

  /** What one trailer line contributes. */
  lemma TrailerTurn(s: string, fields: Trailers)
    requires s != ""
    ensures var (line, rest) := NextLine(s);
            && (line == CRLF ==> AfterFields(fields, ReadTrailers(s, false)) == Reading(true, "", fields, rest))
            && (line != CRLF && |line| > HEADER_MAX_LENGTH ==>
                AfterFields(fields, ReadTrailers(s, false)) == Reading(false, "", fields, rest))
            && (line != CRLF && |line| <= HEADER_MAX_LENGTH ==>
                AfterFields(fields, ReadTrailers(s, false)) == AfterFields(fields + TrailerField(line), ReadTrailers(rest, false)))
  {
    var (line, rest) := NextLine(s);
    hide TrailerField, NextLine;
    assert fields + [] == fields;
    Assoc(fields, TrailerField(line), ReadTrailers(rest, false).trailers);
  }

  /** The trailer section after the last chunk; that it is missing altogether is accepted. */
  method ReadTrailerSection(reader: StreamLineReader, out: Sink) returns (ok: bool)
    requires reader.Valid() && !reader.strm.sock.failed
    modifies reader, reader.fixedBuffer, reader.strm, reader.strm.sock, reader.strm.readBuff, out
    ensures reader.Valid()
    ensures out.data == old(out.data) && out.refused == old(out.refused)
    ensures !reader.strm.sock.failed ==>
      var got := ReadTrailers(old(reader.strm.Pending()), true);
      ok == got.ok && reader.strm.Pending() == got.rest && out.headers == old(out.headers) + got.trailers
  {
    ghost var input := reader.strm.Pending();
    var more := reader.GetLine();
    if !more {
      assert input == "" ==> reader.strm.Pending() == "";
      assert old(out.headers) + [] == old(out.headers);
      return true;
    }
    ghost var s, fields := input, [];
    assert AfterFields([], ReadTrailers(input, true)) == ReadTrailers(input, true);
    assert old(out.headers) + [] == old(out.headers);
    hide ReadTrailers, TrailerField, NextLine;
    while reader.Line() != CRLF
      invariant reader.Valid() && !reader.strm.sock.failed
      invariant out.data == old(out.data) && out.refused == old(out.refused)
      invariant s != "" && (reader.Line(), reader.strm.Pending()) == NextLine(s)
      invariant ReadTrailers(input, true) == AfterFields(fields, ReadTrailers(s, false))
      invariant out.headers == old(out.headers) + fields
      decreases |s|
    {
      var line := reader.Line();
      TrailerTurn(s, fields);
      if |line| > HEADER_MAX_LENGTH {
        return false;
      }
      s := reader.strm.Pending();
      Assoc(old(out.headers), fields, TrailerField(line));
      fields := fields + TrailerField(line);
      out.headers := out.headers + TrailerField(line);
      more := reader.GetLine();
      if !more {
        EndOfTrailers(fields);
        return false;
      }
    }
    TrailerTurn(s, fields);
    ok := true;
  }

  lemma EndOfTrailers(fields: Trailers)
    ensures AfterFields(fields, ReadTrailers("", false)) == Reading(false, "", fields, "")
  {
    assert fields + [] == fields;
  }

  /** What one chunk contributes, once its size line is known. */
  lemma ChunkTurn(s: string)
    requires s != ""
    ensures var (line, rest) := NextLine(s);
            && |rest| < |s|
            && match StrToUl(line)
               case None => ReadChunked(s) == Reading(false, "", [], rest)
               case Some(n) =>
                 && (n == ULONG_MAX ==> ReadChunked(s) == Reading(false, "", [], rest))
                 && (n == 0 ==> ReadChunked(s) == ReadTrailers(rest, true))
                 && (0 < n != ULONG_MAX && |rest| < n ==> ReadChunked(s) == Reading(false, rest, [], ""))
                 && (0 < n != ULONG_MAX && n <= |rest| ==> ReadChunked(s) == AfterBody(rest[..n], AfterChunk(rest[n..])))
  {
    var (line, rest) := NextLine(s);
    hide StrToUl, ReadTrailers, Find;
    match StrToUl(line)
    case None =>
    case Some(n) =>
      if 0 < n && n <= |rest| {
        assert rest[..n] + "" == rest[..n];
      }
  }

  /** Behind the bytes of a chunk: an empty line, then the next chunk. */
  function AfterChunk(after: string): Reading {
    if after == "" then Reading(false, "", [], "")
    else
      var (end, next) := NextLine(after);
      if end != CRLF then Reading(false, "", [], next) else ReadChunked(next)
  }

  lemma {:induction false} TrailersHaveNoBody(s: string, first: bool)
    ensures ReadTrailers(s, first).body == ""
    decreases |s|
  {
    if s != "" {
      TrailersHaveNoBody(NextLine(s).1, false);
    }
  }

  ghost predicate Untroubled(strm: SocketStream, out: Sink)
    reads strm, strm.sock, out
  {
    !strm.sock.failed && !out.refused
  }

  /** The bytes of one chunk and the empty line behind them. */
  method ReadChunkBody(reader: StreamLineReader, len: nat, out: Sink) returns (ok: bool)
    requires reader.Valid() && Untroubled(reader.strm, out) && len > 0
    modifies reader, reader.fixedBuffer, reader.strm, reader.strm.sock, reader.strm.readBuff, out
    ensures reader.Valid() && out.headers == old(out.headers)
    ensures CutShort(out.data, old(out.data), AtMost(old(reader.strm.Pending()), len))
    ensures ok ==> Untroubled(reader.strm, out)
    ensures var input := old(reader.strm.Pending());
            && (ok ==> |input| >= len && input[len..] != "" && out.data == old(out.data) + input[..len]
                       && (CRLF, reader.strm.Pending()) == NextLine(input[len..]))
            && (!ok && Untroubled(reader.strm, out) ==>
                  if |input| < len then out.data == old(out.data) + input && reader.strm.Pending() == ""
                  else && out.data == old(out.data) + input[..len] && reader.strm.Pending() == AfterChunk(input[len..]).rest
                       && !AfterChunk(input[len..]).ok && AfterChunk(input[len..]).body == "" && AfterChunk(input[len..]).trailers == [])
  {
    ghost var input := reader.strm.Pending();
    ok := ReadContentWithLength(reader.strm, len, out);
    if !ok {
      return;
    }
    ok := reader.GetLine();
    if !ok {
      assert input[len..] == "" ==> reader.strm.Pending() == "";
      return;
    }
    ok := reader.Line() == CRLF;
  }

  /** The end of one turn of the reading loop: what this part of the input means is all settled. */
  ghost predicate Settled(ok: bool, r: Reading, strm: SocketStream, out: Sink, before: string, headers: Trailers)
    requires strm.Valid()
    reads strm, strm.sock, strm.readBuff, out
  {
    && (ok ==> !out.refused && out.data == before + r.body)
    && (Untroubled(strm, out) ==>
          && ok == r.ok && out.data == before + r.body
          && out.headers == headers + r.trailers && strm.Pending() == r.rest)
  }

  /** The chunk whose size line has been read, up to the size line of the next one. */
  method ReadOneChunk(reader: StreamLineReader, out: Sink, ghost s: string)
      returns (go: bool, ok: bool, ghost piece: string, ghost next: string)
    requires reader.Valid() && Untroubled(reader.strm, out)
    requires s != "" && (reader.Line(), reader.strm.Pending()) == NextLine(s)
    modifies reader, reader.fixedBuffer, reader.strm, reader.strm.sock, reader.strm.readBuff, out
    ensures reader.Valid()
    ensures go ==> Untroubled(reader.strm, out) && next != "" && |next| < |s|
                   && (reader.Line(), reader.strm.Pending()) == NextLine(next)
                   && ReadChunked(s) == AfterBody(piece, ReadChunked(next))
                   && out.data == old(out.data) + piece && out.headers == old(out.headers)
    ensures !go ==> Settled(ok, ReadChunked(s), reader.strm, out, old(out.data), old(out.headers))
    ensures CutShort(out.data, old(out.data), ReadChunked(s).body)
  {
    ghost var rest := reader.strm.Pending();
    assert old(out.data) + "" == old(out.data) && old(out.headers) + [] == old(out.headers);
    ChunkTurn(s);
    EmptyChunked();
    TrailersHaveNoBody(rest, true);
    CutNothing(out.data, ReadChunked(s).body);
    hide StrToUl, NextLine, ReadTrailers, ReadChunked, CutShort, AtMost;
    go, ok, piece, next := false, false, "", "";
    var size := StrToUl(reader.Line());
    if size.None? || size.value == ULONG_MAX {
      return;
    }
    if size.value == 0 {
      ok := ReadTrailerSection(reader, out);
      return;
    }
    var whole := ReadChunkBody(reader, size.value, out);
    ChunkCut(s, size.value, out.data, old(out.data));
    if !whole {
      assert |rest| >= size.value ==> rest[..size.value] + "" == rest[..size.value];
      return;
    }
    piece := rest[..size.value];
    next := reader.strm.Pending();
    NextShorter(rest[size.value..]);
    go := reader.GetLine();
    if !go {
      assert next == "" ==> reader.strm.Pending() == "";
      assert piece + "" == piece;
    }
  }

  lemma CutNothing(data: string, body: string)
    ensures CutShort(data, data, body)
  {
    assert data + body[..0] == data;
  }

  lemma CutEarlier(data: string, before: string, body: string, more: string)
    requires CutShort(data, before, body)
    ensures CutShort(data, before, body + more)
  {
    var n := |data| - |before|;
    assert (body + more)[..n] == body[..n];
  }

  /** A part of the bytes of a chunk is a part of what is to be read from its size line on. */
  lemma ChunkCut(s: string, n: nat, data: string, before: string)
    requires s != "" && StrToUl(NextLine(s).0) == Some(n) && 0 < n != ULONG_MAX
    requires CutShort(data, before, AtMost(NextLine(s).1, n))
    ensures CutShort(data, before, ReadChunked(s).body)
  {
    var rest := NextLine(s).1;
    ChunkTurn(s);
    hide StrToUl, NextLine, ReadChunked, CutShort;
    if n <= |rest| {
      CutEarlier(data, before, rest[..n], AfterChunk(rest[n..]).body);
    }
  }

  lemma EmptyChunked()
    ensures ReadChunked("") == Reading(false, "", [], "")
  {
  }

  lemma NextShorter(s: string)
    ensures |NextLine(s).1| <= |s|
  {
  }

  lemma AfterBoth(got: string, piece: string, r: Reading)
    ensures AfterBody(got, AfterBody(piece, r)) == AfterBody(got + piece, r)
  {
    Assoc(got, piece, r.body);
  }

  /** Reads a chunked body. The verdict, the content, the trailer fields and the bytes left in the stream
      are those of the specification, whatever the sizes in which the stream delivers; a failed read or a
      refusal can only cut the content short. */
  method ReadContentChunked(strm: SocketStream, out: Sink) returns (ok: bool)
    requires strm.Valid() && Untroubled(strm, out)
    modifies strm, strm.sock, strm.readBuff, out
    ensures strm.Valid()
    ensures Settled(ok, ReadChunked(old(strm.Pending())), strm, out, old(out.data), old(out.headers))
    ensures CutShort(out.data, old(out.data), ReadChunked(old(strm.Pending())).body)
  {
    ghost var input := strm.Pending();
    CutNothing(out.data, ReadChunked(input).body);
    var reader := new StreamLineReader(strm, 16);
    assert old(out.data) + "" == old(out.data) && old(out.headers) + [] == old(out.headers);
    EmptyChunked();
    var go := reader.GetLine();
    if !go {
      assert input == "" ==> strm.Pending() == "";
      return false;
    }
    ghost var s, got := input, "";
    assert AfterBody("", ReadChunked(input)) == ReadChunked(input);
    hide ReadChunked, NextLine, CutShort;
    ok := false;
    while go
      invariant reader.Valid() && reader.strm == strm && fresh(reader) && fresh(reader.fixedBuffer)
      invariant go ==> Untroubled(strm, out) && s != "" && (reader.Line(), strm.Pending()) == NextLine(s)
      invariant go ==> ReadChunked(input) == AfterBody(got, ReadChunked(s))
      invariant go ==> out.data == old(out.data) + got && out.headers == old(out.headers)
      invariant !go ==> Settled(ok, ReadChunked(input), strm, out, old(out.data), old(out.headers))
      invariant CutShort(out.data, old(out.data), ReadChunked(input).body)
      decreases go, |s|
    {
      ghost var r, piece, next := ReadChunked(s), "", "";
      go, ok, piece, next := ReadOneChunk(reader, out, s);
      CutLater(out.data, old(out.data), got, r.body);
      AfterBoth(got, piece, ReadChunked(next));
      Assoc(old(out.data), got, piece);
      Assoc(old(out.data), got, r.body);
      got, s := got + piece, next;
    }
  }
}
