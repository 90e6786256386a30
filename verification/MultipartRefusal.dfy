/** Callbacks that refuse: whatever the input, what the parser hands over does not depend on them, except
    that it stops at the first refusal. */
module MultipartRefusals {
  import opened HeaderSyntax
  import opened MultipartRoundTrip
  import opened MultipartSpec
  import opened Text

  function Willing(): Receiver {
    (log, e) => true
  }

  /** The position, from `i` on, of the first event that is refused, or the end. */
  function FirstRefused(accepts: Receiver, log: seq<Event>, i: nat): (n: nat)
    requires i <= |log|
    ensures i <= n <= |log|
    decreases |log| - i
  {
    if i == |log| || !accepts(log[..i], log[i]) then i else FirstRefused(accepts, log, i + 1)
  }

  lemma {:induction false} RefusedInPrefix(accepts: Receiver, log: seq<Event>, longer: seq<Event>, i: nat)
    requires i <= |log| && log <= longer
    ensures var n := FirstRefused(accepts, log, i);
            if n < |log| then FirstRefused(accepts, longer, i) == n && longer[..n + 1] == log[..n + 1]
            else FirstRefused(accepts, longer, i) == FirstRefused(accepts, longer, |log|)
    decreases |log| - i
  {
    if i < |log| {
      assert longer[..i] == log[..i] && longer[i] == log[i];
      if accepts(log[..i], log[i]) {
        RefusedInPrefix(accepts, log, longer, i + 1);
      }
    }
  }

  /** What `q`, with its verdict, is to what the parser comes to with willing callbacks. */
  ghost predicate CutShort(accepts: Receiver, from: seq<Event>, q: Parser, ok: bool, willing: Parser, fine: bool) {
    && from <= willing.log
    && var n := FirstRefused(accepts, willing.log, |from|);
       if n == |willing.log| then q == willing && ok == fine
       else !ok && !q.valid && q.log == willing.log[..n + 1]
  }

  ghost predicate StepCutShort(accepts: Receiver, from: seq<Event>, a: Outcome, b: Outcome) {
    && from <= b.parser.log && |b.parser.log| <= |from| + 1
    && if |b.parser.log| == |from| || accepts(from, b.parser.log[|from|]) then a == b
       else a.Stop? && !a.ok && !a.parser.valid && a.parser.log == b.parser.log
  }

  lemma {:induction false} LinesCutShort(p: Parser, accepts: Receiver)
    ensures StepCutShort(accepts, p.log, StepLines(p, accepts), StepLines(p, Willing()))
    decreases |p.window|
  {
    var pos := Find(p.window, CRLF);
    if 0 < pos < |p.window| {
      match ReadHeader(p.window[..pos], p.file)
      case Bad(_) =>
      case Good(file) =>
        hide ReadHeader, Find;
        LinesCutShort(p.(file := file, window := p.window[pos + 2..]), accepts);
    }
  }

  lemma OneStepCutShort(p: Parser, boundary: string, accepts: Receiver)
    ensures StepCutShort(accepts, p.log, Step(p, boundary, accepts), Step(p, boundary, Willing()))
  {
    LinesCutShort(p, accepts);
    hide StepLines, Find;
  }

  lemma RefusedByOne(accepts: Receiver, from: seq<Event>, log: seq<Event>)
    requires from <= log && |log| <= |from| + 1
    ensures FirstRefused(accepts, log, |from|) == if |log| == |from| || accepts(from, log[|from|]) then |log| else |from|
  {
    assert log[..|from|] == from;
  }

  lemma {:induction false} RunCutShort(p: Parser, boundary: string, accepts: Receiver)
    ensures var (q, ok) := Run(p, boundary, accepts);
            var (willing, fine) := Run(p, boundary, Willing());
            CutShort(accepts, p.log, q, ok, willing, fine)
    decreases |p.window|, if p.stage == Entry then 1 else 0
  {
    if p.window != "" {
      StepShrinks(p, boundary, accepts);
      StepShrinks(p, boundary, Willing());
      OneStepCutShort(p, boundary, accepts);
      var a, b := Step(p, boundary, accepts), Step(p, boundary, Willing());
      RefusedByOne(accepts, p.log, b.parser.log);
      hide Step;
      match b
      case Stop(_, _) =>
        assert b.parser.log[..|b.parser.log|] == b.parser.log;
      case Next(r) =>
        RunCutShort(r, boundary, accepts);
        RefusedInPrefix(accepts, r.log, Run(r, boundary, Willing()).0.log, |p.log|);
        assert r.log[..|r.log|] == r.log;
    }
  }

  /** On every stream the parser hands over what it would hand over to callbacks that take everything, up to
      and with the first event that is refused, at which it fails; and if none is refused nothing differs. */
  lemma {:induction false} FeedCutShort(p: Parser, chunks: seq<string>, boundary: string, accepts: Receiver)
    ensures var (q, ok) := Feed(p, chunks, boundary, accepts);
            var (willing, fine) := Feed(p, chunks, boundary, Willing());
            CutShort(accepts, p.log, q, ok, willing, fine)
    decreases |chunks|
  {
    if chunks != [] {
      RunCutShort(p.(window := p.window + chunks[0]), boundary, accepts);
      var (r, fine) := Parse(p, chunks[0], boundary, Willing());
      hide Run;
      if fine {
        FeedCutShort(r, chunks[1..], boundary, accepts);
        RefusedInPrefix(accepts, r.log, Feed(r, chunks[1..], boundary, Willing()).0.log, |p.log|);
      }
    }
  }

  // ----- input that leads nowhere

  /** Behind a delimiter, anything but a line end or two hyphens is kept and never looked at again: the
      parser takes all that follows without complaint, delivers nothing and stays invalid. */
  lemma {:induction false} OddDelimiterStalls(p: Parser, chunks: seq<string>, boundary: string, accepts: Receiver)
    requires p.stage == Boundary
    requires !Begins(p.window + Concat(chunks), CRLF) && !Begins(p.window + Concat(chunks), "--")
    ensures Feed(p, chunks, boundary, accepts) == (p.(window := p.window + Concat(chunks)), true)
    decreases |chunks|
  {
    if chunks == [] {
      assert p.window + "" == p.window;
    } else {
      var q, rest := p.(window := p.window + chunks[0]), Concat(chunks[1..]);
      Assoc(p.window, chunks[0], rest);
      NotBegun(q.window, rest, CRLF);
      NotBegun(q.window, rest, "--");
      assert Run(q, boundary, accepts) == (q, true);
      OddDelimiterStalls(q, chunks[1..], boundary, accepts);
    }
  }

  /** A header line that is refused makes the parser fail and invalid, whatever it was before, and nothing
      more is delivered. */
  lemma RefusedLineInvalidates(p: Parser, line: string, after: string, accepts: Receiver)
    requires p.window == line + CRLF + after && line != "" && NoChar(line, '\r') && ReadHeader(line, p.file).Bad?
    ensures var o := StepLines(p, accepts); o.Stop? && !o.ok && !o.parser.valid && o.parser.log == p.log
  {
    assert p.window + "" == p.window;
    LineAhead(p.window, "", line, after);
    hide Find, ReadHeader, NoChar;
  }

  lemma NotBegun(s: string, rest: string, p: string)
    requires !Begins(s + rest, p) && |p| == 2
    ensures !At(s, p, 0)
  {
    if |s| >= 2 {
      assert (s + rest)[..2] == s[..2] && s[0..0 + 2] == s[..2];
    }
  }

  /** A first header line longer than the limit is refused in whatever chunks it comes, nothing delivered. */
  lemma {:induction false} LongLineIsRefused(p: Parser, chunks: seq<string>, line: string, after: string,
                                             boundary: string, accepts: Receiver)
    requires p.stage == Headers && |p.window| <= HEADER_MAX_LENGTH < |line| && NoChar(line, '\r')
    requires p.window + Concat(chunks) == line + CRLF + after
    ensures var (q, ok) := Feed(p, chunks, boundary, accepts); !ok && q.log == p.log && q.valid == p.valid
    decreases |chunks|
  {
    assert chunks != [];
    var q, rest := p.(window := p.window + chunks[0]), Concat(chunks[1..]);
    Assoc(p.window, chunks[0], rest);
    LineAhead(q.window, rest, line, after);
    hide Find, NoChar;
    if |q.window| > HEADER_MAX_LENGTH {
      assert Step(q, boundary, accepts) == Stop(q, false);
    } else {
      assert q.window != "" ==> Step(q, boundary, accepts) == Stop(q, true);
      LongLineIsRefused(q, chunks[1..], line, after, boundary, accepts);
    }
  }
}
