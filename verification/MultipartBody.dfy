/** What is streamed out of the body state on arbitrary bytes: never a byte of the delimiter, and
    exactly the bytes before it once it has been seen. */
module MultipartBody {
  import opened MultipartSpec
  import opened Text

  /** The content handed over before the next part begins. */
  function BodyText(events: seq<Event>): string {
    if events == [] || events[0].HeaderEvent? then "" else events[0].text + BodyText(events[1..])
  }

  predicate HeaderSeen(events: seq<Event>) {
    exists i :: 0 <= i < |events| && events[i].HeaderEvent?
  }

  lemma HeaderSeenLater(events: seq<Event>)
    requires events != [] && events[0].ContentEvent?
    ensures HeaderSeen(events) <==> HeaderSeen(events[1..])
  {
    if HeaderSeen(events) {
      var i :| 0 <= i < |events| && events[i].HeaderEvent?;
      assert events[1..][i - 1] == events[i];
    }
    if HeaderSeen(events[1..]) {
      var i :| 0 <= i < |events[1..]| && events[1..][i].HeaderEvent?;
      assert events[i + 1] == events[1..][i];
    }
  }

  lemma {:induction false} BodyTextPush(events: seq<Event>, e: Event)
    ensures HeaderSeen(events) || e.HeaderEvent? ==> BodyText(events + [e]) == BodyText(events)
    ensures !HeaderSeen(events) && e.ContentEvent? ==> BodyText(events + [e]) == BodyText(events) + e.text
  {
    if events == [] {
      assert [e][1..] == [];
    } else if events[0].ContentEvent? {
      assert (events + [e])[1..] == events[1..] + [e];
      BodyTextPush(events[1..], e);
      HeaderSeenLater(events);
      hide HeaderSeen;
    } else {
      assert (events + [e])[0] == events[0];
      assert HeaderSeen(events);
    }
  }

  /** The body that began at `n` is over: another part has begun, or is about to. */
  ghost predicate Sealed(p: Parser, n: nat) {
    n <= |p.log| && p.stage != Initial && (p.stage == Body ==> HeaderSeen(p.log[n..]))
  }

  /** `q` comes after `p` without having changed the body that began at `n`. */
  ghost predicate SameBody(p: Parser, q: Parser, n: nat) {
    && n <= |p.log| <= |q.log| && q.log[..|p.log|] == p.log
    && BodyText(q.log[n..]) == BodyText(p.log[n..])
  }

  lemma PushKeepsBody(p: Parser, q: Parser, n: nat, e: Event)
    requires Sealed(p, n) && q.log == p.log + [e]
    requires e.HeaderEvent? || HeaderSeen(p.log[n..])
    ensures SameBody(p, q, n) && (HeaderSeen(p.log[n..]) || e.HeaderEvent? ==> HeaderSeen(q.log[n..]))
  {
    BodyTextPush(p.log[n..], e);
    assert q.log[n..] == p.log[n..] + [e];
    if HeaderSeen(p.log[n..]) {
      var i :| 0 <= i < |p.log[n..]| && p.log[n..][i].HeaderEvent?;
      assert q.log[n..][i] == p.log[n..][i];
    } else if e.HeaderEvent? {
      assert q.log[n..][|p.log| - n] == e;
    }
  }

  lemma {:induction false} LinesKeepBody(p: Parser, accepts: Receiver, n: nat)
    requires Sealed(p, n) && p.stage == Headers
    ensures var q := StepLines(p, accepts).parser; SameBody(p, q, n) && Sealed(q, n)
    decreases |p.window|
  {
    var pos := Find(p.window, CRLF);
    if pos == 0 && pos != |p.window| {
      PushKeepsBody(p, StepLines(p, accepts).parser, n, HeaderEvent(p.file));
    } else if pos < |p.window| {
      match ReadHeader(p.window[..pos], p.file)
      case Bad(_) =>
      case Good(file) =>
        LinesKeepBody(p.(file := file, window := p.window[pos + 2..]), accepts, n);
    }
  }

  lemma StepKeepsBody(p: Parser, boundary: string, accepts: Receiver, n: nat)
    requires Sealed(p, n)
    ensures var q := Step(p, boundary, accepts).parser; SameBody(p, q, n) && Sealed(q, n)
  {
    match p.stage
    case Headers => LinesKeepBody(p, accepts, n);
    case Body =>
      var q := StepBody(p, boundary, accepts).parser;
      if q.log != p.log {
        PushKeepsBody(p, q, n, q.log[|p.log|]);
      }
    case _ =>
  }

  lemma {:induction false} RunKeepsBody(p: Parser, boundary: string, accepts: Receiver, n: nat)
    requires Sealed(p, n)
    ensures var q := Run(p, boundary, accepts).0; SameBody(p, q, n) && Sealed(q, n)
    decreases |p.window|, if p.stage == Entry then 1 else 0
  {
    if p.window != "" {
      StepShrinks(p, boundary, accepts);
      StepKeepsBody(p, boundary, accepts, n);
      match Step(p, boundary, accepts)
      case Stop(q, _) =>
      case Next(q) =>
        RunKeepsBody(q, boundary, accepts, n);
        var r := Run(q, boundary, accepts).0;
        assert r.log[..|p.log|] == r.log[..|q.log|][..|p.log|];
    }
  }

  lemma {:induction false} FeedKeepsBody(p: Parser, chunks: seq<string>, boundary: string, accepts: Receiver, n: nat)
    requires Sealed(p, n)
    ensures var q := Feed(p, chunks, boundary, accepts).0; SameBody(p, q, n) && Sealed(q, n)
    decreases |chunks|
  {
    if chunks != [] {
      RunKeepsBody(p.(window := p.window + chunks[0]), boundary, accepts, n);
      var (q, ok) := Parse(p, chunks[0], boundary, accepts);
      if ok {
        FeedKeepsBody(q, chunks[1..], boundary, accepts, n);
        var r := Feed(q, chunks[1..], boundary, accepts).0;
        assert r.log[..|p.log|] == r.log[..|q.log|][..|p.log|];
      }
    }
  }

  // ----- the stream before the delimiter

  lemma FindSkip(s: string, p: string, k: nat)
    requires p != "" && k <= |s| && forall j :: 0 <= j < k ==> !At(s, p, j)
    ensures Find(s, p) == k + Find(s[k..], p)
  {
    var f := Find(s[k..], p);
    forall j: nat ensures At(s, p, k + j) <==> At(s[k..], p, j) {
      if k + j + |p| <= |s| {
        assert s[k + j..k + j + |p|] == s[k..][j..j + |p|];
      }
    }
    forall j | 0 <= j < k + f ensures !At(s, p, j) {
      if j >= k {
        assert !At(s[k..], p, j - k);
      }
    }
    FindIs(s, p, k + f);
  }

  lemma FindExtended(w: string, rest: string, p: string)
    requires p != ""
    ensures Find(w, p) < |w| ==> Find(w + rest, p) == Find(w, p)
    ensures Find(w, p) == |w| ==> forall j :: 0 <= j && j + |p| <= |w| ==> !At(w + rest, p, j)
  {
    var s := w + rest;
    assert s[..|w|] == w;
    forall j: nat ensures At(w, p, j) <==> At(s, p, j) && j + |p| <= |w| {
      AtPrefix(s, p, |w|, j);
    }
    var f := Find(w, p);
    if f < |w| {
      assert At(w, p, f);
      FindIs(s, p, f);
    } else {
      assert forall j :: 0 <= j && j + |p| <= |w| ==> !At(w, p, j);
    }
  }

  /** The body that began at `n` is still going on. */
  ghost predicate Open(p: Parser, n: nat) {
    p.stage == Body && n <= |p.log| && !HeaderSeen(p.log[n..])
  }

  /** The content of the body that began at `n`, as handed over so far. */
  function Sent(p: Parser, n: nat): string {
    if n <= |p.log| then BodyText(p.log[n..]) else ""
  }

  lemma PushContent(p: Parser, q: Parser, n: nat, text: string)
    requires Open(p, n) && q.log == p.log + [ContentEvent(text)]
    ensures BodyText(q.log[n..]) == BodyText(p.log[n..]) + text
    ensures !HeaderSeen(q.log[n..])
  {
    BodyTextPush(p.log[n..], ContentEvent(text));
    assert q.log[n..] == p.log[n..] + [ContentEvent(text)];
    forall i | 0 <= i < |q.log[n..]| ensures !q.log[n..][i].HeaderEvent? {
      if i < |p.log[n..]| {
        assert q.log[n..][i] == p.log[n..][i];
      }
    }
  }

  function HeldBack(w: string, d: string): nat {
    if |w| <= |d| then |w| else |d|
  }

  /** One call on a window without the delimiter: all but the last delimiter-length bytes go out. */
  lemma RunWithoutDelimiter(p: Parser, boundary: string, accepts: Receiver, n: nat)
    requires Open(p, n) && Find(p.window, Delimiter(boundary)) == |p.window|
    ensures var (q, ok) := Run(p, boundary, accepts);
            var k := |p.window| - HeldBack(p.window, Delimiter(boundary));
            && Sent(q, n) == Sent(p, n) + p.window[..k]
            && (ok ==> Open(q, n) && q.window == p.window[k..])
            && (AcceptsAll(accepts) ==> ok)
  {
    var d := Delimiter(boundary);
    assert p.window[..0] == "" && p.window[0..] == p.window;
    if |p.window| > |d| {
      var k := |p.window| - |d|;
      PushContent(p, Run(p, boundary, accepts).0, n, p.window[..k]);
    }
  }

  /** One call on a window holding the delimiter: exactly the bytes before it have gone out, for good. */
  lemma RunWithDelimiter(p: Parser, boundary: string, accepts: Receiver, n: nat)
    requires Open(p, n) && Find(p.window, Delimiter(boundary)) < |p.window|
    ensures var (q, ok) := Run(p, boundary, accepts);
            && Sent(q, n) == Sent(p, n) + p.window[..Find(p.window, Delimiter(boundary))]
            && (ok ==> Sealed(q, n))
  {
    var f := Find(p.window, Delimiter(boundary));
    var o := StepBody(p, boundary, accepts);
    PushContent(p, o.parser, n, p.window[..f]);
    if o.Next? {
      StepShrinks(p, boundary, accepts);
      RunKeepsBody(o.parser, boundary, accepts, n);
    }
  }

  /** What `q`, reached with verdict `ok`, has made of `stream` since `p`. */
  ghost predicate Streamed(p: Parser, q: Parser, ok: bool, stream: string, boundary: string, accepts: Receiver, n: nat) {
    var d := Delimiter(boundary);
    var f := Find(stream, d);
    && Sent(q, n) <= Sent(p, n) + stream[..f]
    && (AcceptsAll(accepts) && f < |stream| ==> Sent(q, n) == Sent(p, n) + stream[..f])
    && (AcceptsAll(accepts) && f == |stream| ==>
        ok && Open(q, n) && Sent(q, n) + q.window == Sent(p, n) + stream && |q.window| <= |d|)
  }

  lemma DelimiterStreams(p: Parser, chunk: string, chunks: seq<string>, boundary: string, accepts: Receiver, n: nat)
    requires Open(p, n) && Find(p.window + chunk, Delimiter(boundary)) < |p.window + chunk|
    ensures var (q, ok) := Feed(p, [chunk] + chunks, boundary, accepts);
            Streamed(p, q, ok, p.window + (chunk + Concat(chunks)), boundary, accepts, n)
  {
    var d, w, rest := Delimiter(boundary), p.window + chunk, Concat(chunks);
    var p' := p.(window := w);
    Assoc(p.window, chunk, rest);
    FindExtended(w, rest, d);
    assert (w + rest)[..Find(w, d)] == w[..Find(w, d)];
    RunWithDelimiter(p', boundary, accepts, n);
    var (q, ok) := Run(p', boundary, accepts);
    assert ([chunk] + chunks)[1..] == chunks;
    hide Find, Delimiter, BodyText, Run;
    if ok {
      FeedKeepsBody(q, chunks, boundary, accepts, n);
    }
  }

  lemma Glue(a: string, b: string, x: string, i: nat)
    requires i <= |x|
    ensures a + b + x[..i] == a + (b + x)[..|b| + i]
    ensures a + b + x == a + (b + x)
  {
    assert (b + x)[..|b| + i] == b + x[..i];
  }

  lemma SkipStreams(p: Parser, q: Parser, r: Parser, ok: bool, head: string, later: string, boundary: string, accepts: Receiver, n: nat)
    requires Find(head + later, Delimiter(boundary)) == |head| + Find(later, Delimiter(boundary))
    requires Sent(q, n) == Sent(p, n) + head
    requires Streamed(q, r, ok, later, boundary, accepts, n)
    ensures Streamed(p, r, ok, head + later, boundary, accepts, n)
  {
    Glue(Sent(p, n), head, later, Find(later, Delimiter(boundary)));
    hide Find, Delimiter, Sent, Open, AcceptsAll;
  }

  lemma CutStream(w: string, rest: string, d: string)
    requires d != "" && Find(w, d) == |w|
    ensures var k := |w| - HeldBack(w, d);
            && Find(w + rest, d) == k + Find(w[k..] + rest, d)
            && w + rest == w[..k] + (w[k..] + rest)
  {
    var k := |w| - HeldBack(w, d);
    FindExtended(w, rest, d);
    FindSkip(w + rest, d, k);
    assert (w + rest)[k..] == w[k..] + rest;
  }

  /** One chunk, and what the later ones make of the result. */
  lemma FeedTurn(p: Parser, chunks: seq<string>, boundary: string, accepts: Receiver)
    requires chunks != []
    ensures var (q, ok) := Run(p.(window := p.window + chunks[0]), boundary, accepts);
            && (!ok ==> Feed(p, chunks, boundary, accepts) == (q, false))
            && (ok ==> Feed(p, chunks, boundary, accepts) == Feed(q, chunks[1..], boundary, accepts))
            && (ok && |chunks| == 1 ==> Feed(p, chunks, boundary, accepts) == (q, true))
    ensures Concat(chunks) == chunks[0] + Concat(chunks[1..])
    ensures |chunks| == 1 ==> Concat(chunks[1..]) == ""
  {
    hide Run;
  }

  /** For any bytes in any chunks, what has been handed over is a prefix of the bytes before the first
      delimiter. If no callback refuses, it is all of them once the delimiter has been seen; until then
      it is everything received but the window kept back, which is no longer than a delimiter. */
  lemma {:induction false} BodyStream(p: Parser, chunks: seq<string>, boundary: string, accepts: Receiver, n: nat)
    requires Open(p, n) && chunks != []
    ensures var (q, ok) := Feed(p, chunks, boundary, accepts);
            Streamed(p, q, ok, p.window + Concat(chunks), boundary, accepts, n)
    decreases |chunks|
  {
    var d, chunk, rest := Delimiter(boundary), chunks[0], Concat(chunks[1..]);
    var w := p.window + chunk;
    var p' := p.(window := w);
    FeedTurn(p, chunks, boundary, accepts);
    assert chunks == [chunk] + chunks[1..] && d != "" && Open(p', n);
    hide Streamed, Run, Feed, Concat, Find, Delimiter, Sent, Open, HeldBack;
    Assoc(p.window, chunk, rest);
    if Find(w, d) < |w| {
      DelimiterStreams(p, chunk, chunks[1..], boundary, accepts, n);
    } else {
      var k := |w| - HeldBack(w, d);
      RunWithoutDelimiter(p', boundary, accepts, n);
      SentOfWindow(p, w, n);
      CutStream(w, rest, d);
      var (q, ok) := Run(p', boundary, accepts);
      if !ok {
        Refused(p, q, w, rest, k, boundary, accepts, n);
      } else if |chunks| == 1 {
        LastChunk(p, q, w, k, boundary, accepts, n);
      } else {
        BodyStream(q, chunks[1..], boundary, accepts, n);
        var (r, ok') := Feed(q, chunks[1..], boundary, accepts);
        SkipStreams(p, q, r, ok', w[..k], w[k..] + rest, boundary, accepts, n);
      }
    }
  }

  lemma SentOfWindow(p: Parser, w: string, n: nat)
    requires n <= |p.log|
    ensures Sent(p.(window := w), n) == Sent(p, n)
  {
  }

  lemma Refused(p: Parser, q: Parser, w: string, rest: string, k: nat, boundary: string, accepts: Receiver, n: nat)
    requires k <= |w| && k <= Find(w + rest, Delimiter(boundary))
    requires Sent(q, n) == Sent(p, n) + w[..k] && !AcceptsAll(accepts)
    ensures Streamed(p, q, false, w + rest, boundary, accepts, n)
  {
    var f := Find(w + rest, Delimiter(boundary));
    assert w[..k] == (w + rest)[..f][..k];
  }

  lemma LastChunk(p: Parser, q: Parser, w: string, k: nat, boundary: string, accepts: Receiver, n: nat)
    requires k == |w| - HeldBack(w, Delimiter(boundary)) && Find(w, Delimiter(boundary)) == |w|
    requires Open(q, n) && q.window == w[k..] && Sent(q, n) == Sent(p, n) + w[..k]
    ensures Streamed(p, q, true, w + "", boundary, accepts, n)
  {
    assert w + "" == w && w[..|w|] == w && w == w[..k] + w[k..];
    Assoc(Sent(p, n), w[..k], w[k..]);
  }
}
