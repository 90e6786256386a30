/** Feeding form data to the parser, in whatever chunks, delivers its items, up to the first part whose
    header lines cannot be read. The proof follows the stream: at every point the window together with the
    bytes not yet fed is the part of the text that is still to be understood. */
module MultipartRoundTrip {
  import opened HeaderSyntax
  import opened MultipartHeaders
  import opened MultipartLines
  import opened MultipartSpec
  import opened PercentCoding
  import opened Text

  predicate BoundaryChars(boundary: string) {
    forall i :: 0 <= i < |boundary| ==> Alpha(boundary[i]) || Digit(boundary[i]) || boundary[i] == '-' || boundary[i] == '_'
  }

  ghost predicate Sendable(part: Part, boundary: string) {
    Plainly(part.lines) && forall j :: !At(part.content, Delimiter(boundary), j)
  }

  ghost predicate AllSendable(parts: seq<Part>, boundary: string) {
    forall i :: 0 <= i < |parts| ==> Sendable(parts[i], boundary)
  }

  // ----- the serialized text seen from inside

  /** What follows a delimiter when the items `todo` are still to come. */
  function Tail(todo: seq<Part>, boundary: string): string
    decreases |todo|, 0
  {
    if todo == [] then "--" + CRLF else CRLF + Section(todo, boundary)
  }

  /** What follows the delimiter line of the first of `todo`. */
  function Section(todo: seq<Part>, boundary: string): string
    requires todo != []
    decreases |todo| - 1, 2
  {
    HeaderBlock(todo[0].lines) + Contents(todo, boundary, todo[0].content)
  }

  /** What follows when `left` of the content of the first of `todo` is still to come. */
  function Contents(todo: seq<Part>, boundary: string, left: string): string
    requires todo != []
    decreases |todo| - 1, 1
  {
    left + (Delimiter(boundary) + Tail(todo[1..], boundary))
  }

  lemma Regroup(a: string, b: string, c: string, d: string, e: string)
    ensures a + b + c + d + e == a + (b + (c + (d + e)))
  {
  }

  lemma DelimiterGroups(boundary: string, text: string)
    ensures CRLF + ("--" + boundary + "--" + CRLF) == Delimiter(boundary) + ("--" + CRLF)
    ensures CRLF + (Opening(boundary) + text) == Delimiter(boundary) + (CRLF + text)
  {
  }

  lemma WrittenHead(parts: seq<Part>, boundary: string)
    requires parts != []
    ensures Written(parts, boundary) ==
            Opening(boundary) + (HeaderBlock(parts[0].lines) + (parts[0].content + (CRLF + Written(parts[1..], boundary))))
  {
    var finish := "--" + boundary + "--" + CRLF;
    Assoc(WrittenPart(parts[0], boundary), WrittenParts(parts[1..], boundary), finish);
    Regroup(Opening(boundary), HeaderBlock(parts[0].lines), parts[0].content, CRLF, Written(parts[1..], boundary));
  }

  /** Seen from inside, the text is one delimiter after another, the first without its CRLF. */
  lemma {:induction false} WrittenSections(parts: seq<Part>, boundary: string)
    ensures CRLF + Written(parts, boundary) == Delimiter(boundary) + Tail(parts, boundary)
  {
    DelimiterGroups(boundary, "");
    if parts == [] {
      assert Written(parts, boundary) == "--" + boundary + "--" + CRLF;
    } else {
      WrittenSections(parts[1..], boundary);
      WrittenHead(parts, boundary);
      hide Written, Delimiter, Opening, HeaderBlock;
      DelimiterGroups(boundary, Section(parts, boundary));
      assert Section(parts, boundary) ==
             HeaderBlock(parts[0].lines) + (parts[0].content + (Delimiter(boundary) + Tail(parts[1..], boundary)));
      assert Tail(parts, boundary) == CRLF + Section(parts, boundary);
    }
  }

  lemma OpeningThenSection(parts: seq<Part>, boundary: string)
    requires parts != []
    ensures Written(parts, boundary) == Opening(boundary) + Section(parts, boundary)
  {
    WrittenSections(parts, boundary);
    DelimiterGroups(boundary, Section(parts, boundary));
    DropHead(CRLF, Written(parts, boundary));
    DropHead(CRLF, Opening(boundary) + Section(parts, boundary));
    hide Written, Delimiter, Opening, Section;
  }

  // ----- where the parser stands

  datatype Place =
    | AtEntry(todo: seq<Part>)
    | InHeaders(todo: seq<Part>, lines: seq<string>)
    | InBody(done: seq<Item>, todo: seq<Part>, seen: string, left: string)
    | AtDelimiter(todo: seq<Part>)
    | Finished
    | Refused

  /** What is to have been delivered in the end, and whether without a complaint. */
  datatype Goal = Goal(items: seq<Item>, whole: bool)

  function GoalOf(parts: seq<Part>): Goal {
    Goal(Received(parts), AllReadable(parts))
  }

  /** With these items delivered, these parts lead to the goal. */
  ghost predicate Owed(done: seq<Item>, todo: seq<Part>, goal: Goal, boundary: string) {
    done + Received(todo) == goal.items && (AllReadable(todo) <==> goal.whole) && AllSendable(todo, boundary)
  }

  ghost predicate Stands(at: Place, p: Parser, rest: string, goal: Goal, boundary: string) {
    var ahead := p.window + rest;
    match at
    case AtEntry(todo) =>
      p.stage == Entry && !p.valid && todo != [] && Owed(Deliver(p.log), todo, goal, boundary) && ahead == Section(todo, boundary)
    case InHeaders(todo, lines) =>
      p.stage == Headers && !p.valid && todo != [] && Owed(Deliver(p.log), todo, goal, boundary)
      && Plainly(lines) && ReadAll(lines, p.file) == ReadAll(todo[0].lines, NO_FILE)
      && ahead == HeaderBlock(lines) + Contents(todo, boundary, todo[0].content)
    case InBody(done, todo, seen, left) =>
      p.stage == Body && !p.valid && todo != [] && Owed(done, todo, goal, boundary) && Readable(todo[0])
      && Deliver(p.log) == done + [Item(ItemOf(todo[0]).data, seen)] && seen + left == todo[0].content
      && ahead == Contents(todo, boundary, left)
    case AtDelimiter(todo) =>
      p.stage == Boundary && !p.valid && Owed(Deliver(p.log), todo, goal, boundary) && ahead == Tail(todo, boundary)
    case Finished =>
      p.valid && goal.whole && Deliver(p.log) == goal.items
      && ((p.stage == Boundary && (ahead == CRLF || ahead == "\n" || ahead == "")) || (p.stage == Entry && ahead == ""))
    case Refused =>
      !p.valid && !goal.whole && Deliver(p.log) == goal.items
  }

  ghost predicate Ready(parts: seq<Part>, boundary: string, accepts: Receiver) {
    BoundaryChars(boundary) && AcceptsAll(accepts) && AllSendable(parts, boundary)
  }

  lemma DeliverPush(log: seq<Event>, e: Event)
    ensures e.HeaderEvent? ==> Deliver(log + [e]) == Deliver(log) + [Item(e.data, "")]
    ensures e.ContentEvent? ==> forall done: seq<Item>, item ::
              Deliver(log) == done + [item] ==> Deliver(log + [e]) == done + [item.(content := item.content + e.text)]
  {
    assert (log + [e])[..|log|] == log;
  }

  /** A search for a marker in the window, when it is known where the stream ahead holds it first. */
  lemma WindowSearch(window: string, rest: string, marker: string)
    requires marker != ""
    ensures var f := Find(window + rest, marker);
            Find(window, marker) == if f + |marker| <= |window| then f else |window|
  {
    assert (window + rest)[..|window|] == window;
    FindInPrefix(window + rest, marker, |window|);
  }

  lemma CutAhead(window: string, rest: string, head: string, tail: string)
    requires window + rest == head + tail && |head| <= |window|
    ensures window[..|head|] == head && window[|head|..] + rest == tail
  {
    assert (window + rest)[..|head|] == head;
    assert (window + rest)[|head|..] == tail;
    assert window[..|head|] == (window + rest)[..|head|];
    assert window[|head|..] + rest == (window + rest)[|head|..];
  }

  // ----- header lines

  lemma LineAhead(window: string, rest: string, line: string, after: string)
    requires NoChar(line, '\r') && window + rest == line + CRLF + after
    ensures Find(window, CRLF) == if |line| + 2 <= |window| then |line| else |window|
    ensures |line| + 2 <= |window| ==> window[..|line|] == line && window[|line| + 2..] + rest == after
    ensures |window| < |line| + 2 ==> rest != ""
  {
    NoCharNoMarker(line, CRLF);
    FindAfter(line, CRLF, after);
    WindowSearch(window, rest, CRLF);
    hide Find, NoChar;
    assert |window + rest| == |line| + 2 + |after|;
    if |line| + 2 <= |window| {
      CutAhead(window, rest, line + CRLF, after);
      Assoc(line, CRLF, after);
      CutAhead(window, rest, line, CRLF + after);
    }
  }

  /** What a step may come to: the parser goes on, stops for want of input, or has refused a part. */
  ghost predicate Comes(at: Place, o: Outcome, rest: string, goal: Goal, boundary: string) {
    && Stands(at, o.parser, rest, goal, boundary)
    && (o.Next? ==> !at.Refused?)
    && (o.Stop? ==> (o.ok <==> !at.Refused?) && (o.ok && rest == "" ==> at.Finished?))
  }

  lemma LinesEnd(p: Parser, rest: string, todo: seq<Part>, goal: Goal, boundary: string, accepts: Receiver)
      returns (at: Place)
    requires Stands(InHeaders(todo, []), p, rest, goal, boundary) && AcceptsAll(accepts)
    ensures Comes(at, StepLines(p, accepts), rest, goal, boundary)
  {
    var contents := Contents(todo, boundary, todo[0].content);
    assert HeaderBlock([]) + contents == "" + CRLF + contents;
    LineAhead(p.window, rest, "", contents);
    assert ReadAll([], p.file) == Good(p.file);
    hide Contents, Find, HeaderBlock, ReadAll, Owed, Plainly;
    if 2 <= |p.window| {
      DeliverPush(p.log, HeaderEvent(p.file));
      at := InBody(Deliver(p.log), todo, "", todo[0].content);
      assert "" + todo[0].content == todo[0].content;
      hide Deliver;
    } else {
      at := InHeaders(todo, []);
    }
  }

  /** One header line wholly in the window is consumed and its fields recorded. */
  lemma LineConsumed(p: Parser, rest: string, todo: seq<Part>, lines: seq<string>,
                     goal: Goal, boundary: string, accepts: Receiver) returns (q: Parser)
    requires Stands(InHeaders(todo, lines), p, rest, goal, boundary) && lines != [] && |lines[0]| + 2 <= |p.window|
    requires ReadHeader(lines[0], p.file).Good?
    ensures Stands(InHeaders(todo, lines[1..]), q, rest, goal, boundary)
    ensures |q.window| < |p.window| && StepLines(p, accepts) == StepLines(q, accepts)
  {
    var contents := Contents(todo, boundary, todo[0].content);
    Assoc(lines[0] + CRLF, HeaderBlock(lines[1..]), contents);
    LineAhead(p.window, rest, lines[0], HeaderBlock(lines[1..]) + contents);
    q := p.(file := ReadHeader(lines[0], p.file).file, window := p.window[|lines[0]| + 2..]);
    hide Contents, Owed, Find, HeaderBlock, Deliver, ReadHeader;
  }

  /** A line that is refused ends everything, with the part not begun. */
  lemma LineRefused(p: Parser, rest: string, todo: seq<Part>, lines: seq<string>,
                    goal: Goal, boundary: string, accepts: Receiver)
    requires Stands(InHeaders(todo, lines), p, rest, goal, boundary) && lines != [] && |lines[0]| + 2 <= |p.window|
    requires ReadHeader(lines[0], p.file).Bad?
    ensures Comes(Refused, StepLines(p, accepts), rest, goal, boundary)
  {
    var contents := Contents(todo, boundary, todo[0].content);
    Assoc(lines[0] + CRLF, HeaderBlock(lines[1..]), contents);
    LineAhead(p.window, rest, lines[0], HeaderBlock(lines[1..]) + contents);
    assert !Readable(todo[0]);
    assert Deliver(p.log) + [] == Deliver(p.log);
    hide Contents, AllSendable, Find, HeaderBlock, Deliver, ReadHeader, ReadAll;
  }

  lemma LineWaits(p: Parser, rest: string, todo: seq<Part>, lines: seq<string>,
                  goal: Goal, boundary: string, accepts: Receiver)
    requires Stands(InHeaders(todo, lines), p, rest, goal, boundary) && lines != [] && |p.window| < |lines[0]| + 2
    ensures Comes(InHeaders(todo, lines), StepLines(p, accepts), rest, goal, boundary)
  {
    var contents := Contents(todo, boundary, todo[0].content);
    Assoc(lines[0] + CRLF, HeaderBlock(lines[1..]), contents);
    LineAhead(p.window, rest, lines[0], HeaderBlock(lines[1..]) + contents);
    hide Contents, Owed, Find, HeaderBlock, Deliver, ReadHeader, ReadAll;
  }

  /** Reading header lines stops inside a line, asking for more, or at a line that is refused, or reaches
      the body. */
  lemma {:induction false} LinesStand(p: Parser, rest: string, todo: seq<Part>, lines: seq<string>,
                                      goal: Goal, boundary: string, accepts: Receiver) returns (at: Place)
    requires Stands(InHeaders(todo, lines), p, rest, goal, boundary) && AcceptsAll(accepts)
    ensures Comes(at, StepLines(p, accepts), rest, goal, boundary)
    decreases |p.window|
  {
    if lines == [] {
      at := LinesEnd(p, rest, todo, goal, boundary, accepts);
    } else if |lines[0]| + 2 > |p.window| {
      LineWaits(p, rest, todo, lines, goal, boundary, accepts);
      at := InHeaders(todo, lines);
    } else if ReadHeader(lines[0], p.file).Bad? {
      LineRefused(p, rest, todo, lines, goal, boundary, accepts);
      at := Refused;
    } else {
      var q := LineConsumed(p, rest, todo, lines, goal, boundary, accepts);
      hide Stands, Comes, StepLines, ReadHeader;
      at := LinesStand(q, rest, todo, lines[1..], goal, boundary, accepts);
    }
  }

  /** The length limit of 8192 never trips: an unfinished line with its pending carriage return still fits. */
  lemma HeadersFit(p: Parser, rest: string, todo: seq<Part>, lines: seq<string>, goal: Goal, boundary: string)
    requires Stands(InHeaders(todo, lines), p, rest, goal, boundary)
    ensures Find(p.window, CRLF) <= HEADER_MAX_LENGTH
  {
    var contents := Contents(todo, boundary, todo[0].content);
    if lines == [] {
      assert HeaderBlock([]) + contents == "" + CRLF + contents;
      LineAhead(p.window, rest, "", contents);
    } else {
      Assoc(lines[0] + CRLF, HeaderBlock(lines[1..]), contents);
      LineAhead(p.window, rest, lines[0], HeaderBlock(lines[1..]) + contents);
    }
    hide Contents, Owed, Find, HeaderBlock, Deliver, ReadHeader, ReadAll;
  }

  lemma HeadersStand(p: Parser, rest: string, todo: seq<Part>, lines: seq<string>,
                     goal: Goal, boundary: string, accepts: Receiver) returns (at: Place)
    requires Stands(InHeaders(todo, lines), p, rest, goal, boundary) && AcceptsAll(accepts)
    ensures Comes(at, StepHeaders(p, accepts), rest, goal, boundary)
  {
    HeadersFit(p, rest, todo, lines, goal, boundary);
    hide Stands, Comes, StepLines;
    at := LinesStand(p, rest, todo, lines, goal, boundary, accepts);
  }

  // ----- the body

  lemma DelimiterIsMarker(boundary: string)
    requires BoundaryChars(boundary)
    ensures var d := Delimiter(boundary); |d| >= 4 && NoChar(d[1..], d[0])
  {
    var d := Delimiter(boundary);
    forall i | 1 <= i < |d| ensures d[i] != '\r' {
      if i >= 4 {
        assert d[i] == boundary[i - 4];
      }
    }
  }

  lemma CutInside(window: string, rest: string, left: string, tail: string, n: nat)
    requires window + rest == left + tail && n <= |left| && n <= |window|
    ensures window[..n] == left[..n] && window[n..] + rest == left[n..] + tail
  {
    assert left == left[..n] + left[n..];
    Assoc(left[..n], left[n..], tail);
    CutAhead(window, rest, left[..n], left[n..] + tail);
  }

  lemma DelimiterFound(window: string, rest: string, left: string, boundary: string, tail: string)
    requires BoundaryChars(boundary) && forall j :: !At(left, Delimiter(boundary), j)
    requires window + rest == left + Delimiter(boundary) + tail
    ensures var d := Delimiter(boundary);
            Find(window, d) == if |left| + |d| <= |window| then |left| else |window|
  {
    DelimiterIsMarker(boundary);
    FindAfter(left, Delimiter(boundary), tail);
    hide Delimiter, At, NoChar, BoundaryChars;
    WindowSearch(window, rest, Delimiter(boundary));
  }

  lemma DelimiterAhead(window: string, rest: string, left: string, boundary: string, tail: string)
    requires BoundaryChars(boundary) && forall j :: !At(left, Delimiter(boundary), j)
    requires window + rest == left + (Delimiter(boundary) + tail)
    ensures var d := Delimiter(boundary);
            && Find(window, d) == (if |left| + |d| <= |window| then |left| else |window|)
            && (|left| + |d| <= |window| ==> window[..|left|] == left && window[|left| + |d|..] + rest == tail)
            && (|window| < |left| + |d| ==> rest != "")
  {
    var d := Delimiter(boundary);
    Assoc(left, d, tail);
    DelimiterFound(window, rest, left, boundary, tail);
    hide Find, At, Delimiter, BoundaryChars;
    assert |window + rest| == |left| + |d| + |tail|;
    if |left| + |d| <= |window| {
      CutAhead(window, rest, left + d, tail);
      CutAhead(window, rest, left, d + tail);
    }
  }

  lemma LeftIsClean(seen: string, left: string, content: string, d: string)
    requires seen + left == content && forall j :: !At(content, d, j)
    ensures forall j :: !At(left, d, j)
  {
    forall j: nat ensures !At(left, d, j) {
      assert !At(content, d, |seen| + j);
      if j + |d| <= |left| {
        assert content[|seen| + j..|seen| + j + |d|] == left[j..j + |d|];
      }
    }
  }

  lemma BodyEnds(p: Parser, rest: string, done: seq<Item>, todo: seq<Part>, seen: string, left: string,
                 goal: Goal, boundary: string, accepts: Receiver)
    requires Stands(InBody(done, todo, seen, left), p, rest, goal, boundary) && AcceptsAll(accepts)
    requires var d := Delimiter(boundary);
             && |left| + |d| <= |p.window| && Find(p.window, d) == |left| < |p.window|
             && p.window[..|left|] == left && p.window[|left| + |d|..] + rest == Tail(todo[1..], boundary)
    ensures var o := StepBody(p, boundary, accepts);
            o.Next? && Stands(AtDelimiter(todo[1..]), o.parser, rest, goal, boundary)
  {
    DeliverPush(p.log, ContentEvent(left));
    hide Delimiter, Tail, Contents, Find, Deliver, ReadAll, Sendable;
    assert Received(todo) == [ItemOf(todo[0])] + Received(todo[1..]);
    Assoc(done, [ItemOf(todo[0])], Received(todo[1..]));
  }

  lemma BodyGoesOn(p: Parser, rest: string, done: seq<Item>, todo: seq<Part>, seen: string, left: string,
                   goal: Goal, boundary: string, accepts: Receiver) returns (at: Place)
    requires Stands(InBody(done, todo, seen, left), p, rest, goal, boundary) && AcceptsAll(accepts)
    requires var d := Delimiter(boundary); |p.window| < |left| + |d| && Find(p.window, d) == |p.window|
    ensures var o := StepBody(p, boundary, accepts);
            o.Stop? && o.ok && at.InBody? && Stands(at, o.parser, rest, goal, boundary)
  {
    var d := Delimiter(boundary);
    at := InBody(done, todo, seen, left);
    hide Owed, ReadAll;
    if |d| < |p.window| {
      var n := |p.window| - |d|;
      CutInside(p.window, rest, left, d + Tail(todo[1..], boundary), n);
      DeliverPush(p.log, ContentEvent(left[..n]));
      assert left == left[..n] + left[n..];
      Assoc(seen, left[..n], left[n..]);
      at := InBody(done, todo, seen + left[..n], left[n..]);
    }
    hide Delimiter, Tail, Find, Deliver;
  }

  lemma BodyStand(p: Parser, rest: string, done: seq<Item>, todo: seq<Part>, seen: string, left: string,
                  goal: Goal, boundary: string, accepts: Receiver) returns (at: Place)
    requires Stands(InBody(done, todo, seen, left), p, rest, goal, boundary)
    requires AcceptsAll(accepts) && BoundaryChars(boundary)
    ensures Comes(at, StepBody(p, boundary, accepts), rest, goal, boundary)
  {
    assert Sendable(todo[0], boundary);
    LeftIsClean(seen, left, todo[0].content, Delimiter(boundary));
    DelimiterIsMarker(boundary);
    DelimiterAhead(p.window, rest, left, boundary, Tail(todo[1..], boundary));
    hide Find, Sendable, BoundaryChars, StepBody, Stands, Delimiter;
    if |left| + |Delimiter(boundary)| <= |p.window| {
      BodyEnds(p, rest, done, todo, seen, left, goal, boundary, accepts);
      at := AtDelimiter(todo[1..]);
    } else {
      at := BodyGoesOn(p, rest, done, todo, seen, left, goal, boundary, accepts);
    }
  }

  // ----- delimiters and the end

  lemma BoundaryStand(p: Parser, rest: string, todo: seq<Part>, goal: Goal, boundary: string) returns (at: Place)
    requires Stands(AtDelimiter(todo), p, rest, goal, boundary)
    ensures Comes(at, StepBoundary(p), rest, goal, boundary)
  {
    var ahead := p.window + rest;
    if |p.window| < 2 {
      at := AtDelimiter(todo);
      assert |ahead| >= 2;
      hide Owed, Deliver, Tail;
    } else if todo == [] {
      assert p.window[0] == ahead[0] == '-' && p.window[1] == ahead[1] == '-';
      assert p.window[..2] == "--";
      assert rest == ahead[|p.window|..];
      assert ahead == "--\r\n";
      assert rest == CRLF || rest == "\n" || rest == "";
      assert "" + rest == rest;
      assert Deliver(p.log) + [] == Deliver(p.log);
      hide Deliver;
      at := Finished;
    } else {
      CutAhead(p.window, rest, CRLF, Section(todo, boundary));
      hide Owed, Deliver;
      at := AtEntry(todo);
    }
  }

  lemma FinishedStand(p: Parser, rest: string, goal: Goal, boundary: string)
    requires Stands(Finished, p, rest, goal, boundary) && p.window != ""
    ensures p.stage == Boundary
    ensures Comes(Finished, StepBoundary(p), rest, goal, boundary)
  {
    var ahead := p.window + rest;
    assert |ahead| > 0;
    if |p.window| >= 2 {
      assert p.window == ahead[..|p.window|] == CRLF;
      assert rest == "";
    }
  }

  // ----- one turn, one call, the whole stream

  lemma EntryStand(p: Parser, rest: string, todo: seq<Part>, goal: Goal, boundary: string)
    requires Stands(AtEntry(todo), p, rest, goal, boundary)
    ensures Stands(InHeaders(todo, todo[0].lines), p.(file := NO_FILE, stage := Headers), rest, goal, boundary)
  {
    assert Sendable(todo[0], boundary);
    hide Deliver, ReadAll, Received, AllReadable, HeaderBlock, Contents, Plainly;
  }

  lemma StepStands(at: Place, p: Parser, rest: string, goal: Goal, boundary: string, accepts: Receiver)
      returns (at': Place)
    requires Stands(at, p, rest, goal, boundary) && !at.Refused?
    requires BoundaryChars(boundary) && AcceptsAll(accepts) && p.window != ""
    ensures Comes(at', Step(p, boundary, accepts), rest, goal, boundary)
  {
    match at {
      case AtEntry(todo) =>
        EntryStand(p, rest, todo, goal, boundary);
        at' := InHeaders(todo, todo[0].lines);
        hide Owed, Section, HeaderBlock;
      case InHeaders(todo, lines) =>
        hide StepHeaders, Comes, Owed, Plainly;
        at' := HeadersStand(p, rest, todo, lines, goal, boundary, accepts);
      case InBody(done, todo, seen, left) =>
        hide StepBody, Comes, Owed;
        at' := BodyStand(p, rest, done, todo, seen, left, goal, boundary, accepts);
      case AtDelimiter(todo) =>
        hide StepBoundary, Comes, Owed;
        at' := BoundaryStand(p, rest, todo, goal, boundary);
      case Finished =>
        hide Comes;
        FinishedStand(p, rest, goal, boundary);
        at' := Finished;
    }
  }

  lemma PartsNonEmpty(todo: seq<Part>, boundary: string, lines: seq<string>, left: string)
    ensures Tail(todo, boundary) != "" && HeaderBlock(lines) != ""
    ensures todo != [] ==> Section(todo, boundary) != "" && Contents(todo, boundary, left) != ""
  {
    assert |HeaderBlock(lines)| >= 2;
    if todo != [] {
      assert |HeaderBlock(todo[0].lines)| >= 2;
    }
  }

  lemma NothingAhead(at: Place, p: Parser, goal: Goal, boundary: string)
    requires Stands(at, p, "", goal, boundary) && p.window == "" && !at.Refused?
    ensures at.Finished?
  {
    hide Owed;
    match at
    case AtEntry(todo) => PartsNonEmpty(todo, boundary, [], "");
    case InHeaders(todo, lines) => PartsNonEmpty(todo, boundary, lines, "");
    case InBody(_, todo, _, left) => PartsNonEmpty(todo, boundary, [], left);
    case AtDelimiter(todo) => PartsNonEmpty(todo, boundary, [], "");
    case Finished =>
  }

  lemma {:induction false} RunStands(at: Place, p: Parser, rest: string, goal: Goal, boundary: string, accepts: Receiver)
      returns (at': Place)
    requires Stands(at, p, rest, goal, boundary) && !at.Refused? && BoundaryChars(boundary) && AcceptsAll(accepts)
    ensures var (q, ok) := Run(p, boundary, accepts);
            && Stands(at', q, rest, goal, boundary)
            && (ok <==> !at'.Refused?) && (ok && rest == "" ==> at'.Finished?)
    decreases |p.window|, if p.stage == Entry then 1 else 0
  {
    if p.window == "" {
      at' := at;
      hide BoundaryChars, AcceptsAll;
      if rest == "" {
        NothingAhead(at, p, goal, boundary);
      }
    } else {
      StepShrinks(p, boundary, accepts);
      var next := StepStands(at, p, rest, goal, boundary, accepts);
      hide Stands, Step, AcceptsAll, BoundaryChars;
      match Step(p, boundary, accepts)
      case Stop(q, ok) => at' := next;
      case Next(q) => at' := RunStands(next, q, rest, goal, boundary, accepts);
    }
  }

  lemma {:induction false} FeedStands(at: Place, p: Parser, chunks: seq<string>, goal: Goal, boundary: string, accepts: Receiver)
    requires Stands(at, p, Concat(chunks), goal, boundary) && !at.Refused? && BoundaryChars(boundary) && AcceptsAll(accepts)
    requires Concat(chunks) == "" ==> at.Finished?
    ensures var (q, ok) := Feed(p, chunks, boundary, accepts);
            Deliver(q.log) == goal.items && ok == q.valid == goal.whole
    decreases |chunks|
  {
    if chunks != [] {
      var rest := Concat(chunks[1..]);
      Assoc(p.window, chunks[0], rest);
      FedStands(at, p, chunks[0], rest, goal, boundary);
      hide AcceptsAll, BoundaryChars, Owed;
      var at' := RunStands(at, p.(window := p.window + chunks[0]), rest, goal, boundary, accepts);
      if !at'.Refused? {
        hide Stands;
        FeedStands(at', Parse(p, chunks[0], boundary, accepts).0, chunks[1..], goal, boundary, accepts);
      }
    }
  }

  /** Appending input to the window takes it from what is still to come. */
  lemma FedStands(at: Place, p: Parser, chunk: string, rest: string, goal: Goal, boundary: string)
    requires Stands(at, p, chunk + rest, goal, boundary)
    ensures Stands(at, p.(window := p.window + chunk), rest, goal, boundary)
  {
    Assoc(p.window, chunk, rest);
    hide Owed, Deliver, ReadAll, Plainly, Section, Contents, HeaderBlock, Tail;
  }

  // ----- the round trip

  function FirstChunk(chunks: seq<string>): string {
    if chunks == [] then "" else if chunks[0] != "" then chunks[0] else FirstChunk(chunks[1..])
  }

  lemma EntryStands(parts: seq<Part>, window: string, rest: string, boundary: string)
    requires parts != [] && AllSendable(parts, boundary)
    requires Opening(boundary) + (window + rest) == Written(parts, boundary)
    ensures Stands(AtEntry(parts), Parser(Entry, false, NO_FILE, window, []), rest, GoalOf(parts), boundary)
  {
    OpeningThenSection(parts, boundary);
    DropHead(Opening(boundary), window + rest);
    DropHead(Opening(boundary), Section(parts, boundary));
    assert Deliver([]) + Received(parts) == Received(parts);
    hide AllSendable, Received, AllReadable, Written, Opening, Section;
  }

  /** The opening delimiter line, when it arrives whole, is found at the very start and consumed. */
  lemma OpeningConsumed(chunk: string, rest: string, parts: seq<Part>, boundary: string, accepts: Receiver)
    requires parts != [] && chunk + rest == Written(parts, boundary) && |chunk| >= |Opening(boundary)|
    ensures var o := Opening(boundary);
            var q := Parser(Entry, false, NO_FILE, chunk[|o|..], []);
            Parse(FRESH, chunk, boundary, accepts) == Run(q, boundary, accepts)
            && o + (chunk[|o|..] + rest) == Written(parts, boundary)
  {
    var o := Opening(boundary);
    OpeningThenSection(parts, boundary);
    CutAhead(chunk, rest, o, Section(parts, boundary));
    assert At(chunk, o, 0);
    assert |o| >= 4;
    FindIs(chunk, o, 0);
    hide Opening, Section, Find, At, Written;
    assert "" + chunk == chunk && chunk[0..] == chunk;
    assert FRESH.(window := "" + chunk) == FRESH.(window := chunk);
    var p := FRESH.(window := chunk);
    assert Step(p, boundary, accepts) == Next(Parser(Entry, false, NO_FILE, chunk[|o|..], []));
  }

  /** Parts fed in any chunks of which the first holds the opening delimiter line have their items delivered
      in order: all of them, leaving the parser valid, when every header block can be read, and otherwise
      those in front of the first that cannot, which is where the parser refuses. */
  lemma {:induction false} RoundTrip(parts: seq<Part>, chunks: seq<string>, boundary: string, accepts: Receiver)
    requires parts != [] && Ready(parts, boundary, accepts)
    requires Concat(chunks) == Written(parts, boundary)
    requires |FirstChunk(chunks)| >= |Opening(boundary)|
    ensures var (q, ok) := Feed(FRESH, chunks, boundary, accepts);
            Deliver(q.log) == Received(parts) && ok == q.valid == AllReadable(parts)
    decreases |chunks|
  {
    var chunk, rest := chunks[0], Concat(chunks[1..]);
    if chunk == "" {
      assert FRESH.(window := FRESH.window + chunk) == FRESH;
      assert "" + rest == rest;
      RoundTrip(parts, chunks[1..], boundary, accepts);
    } else {
      OpeningConsumed(chunk, rest, parts, boundary, accepts);
      var window := chunk[|Opening(boundary)|..];
      EntryStands(parts, window, rest, boundary);
      hide Stands, Run, Opening, Written, AllSendable, BoundaryChars, AcceptsAll, Received, AllReadable;
      var q, goal := Parser(Entry, false, NO_FILE, window, []), GoalOf(parts);
      var at := RunStands(AtEntry(parts), q, rest, goal, boundary, accepts);
      if at.Refused? {
        RefusedIs(Run(q, boundary, accepts).0, rest, goal, boundary);
      } else {
        FeedStands(at, Parse(FRESH, chunk, boundary, accepts).0, chunks[1..], goal, boundary, accepts);
      }
    }
  }

  lemma RefusedIs(p: Parser, rest: string, goal: Goal, boundary: string)
    requires Stands(Refused, p, rest, goal, boundary)
    ensures !p.valid && !goal.whole && Deliver(p.log) == goal.items
  {
  }

  ghost predicate AllAmid(parts: seq<Part>, items: seq<Item>) {
    && |parts| == |items|
    && forall i :: 0 <= i < |parts| ==> parts[i].content == items[i].content && Amid(parts[i].lines, items[i].data)
  }

  /** Items come back although their header blocks hold any number of other fields anywhere among their own. */
  lemma RoundTripAmid(parts: seq<Part>, items: seq<Item>, chunks: seq<string>, boundary: string, accepts: Receiver)
    requires parts != [] && AllAmid(parts, items) && BoundaryChars(boundary) && AcceptsAll(accepts)
    requires forall i, j :: 0 <= i < |items| ==> !At(items[i].content, Delimiter(boundary), j)
    requires Concat(chunks) == Written(parts, boundary)
    requires |FirstChunk(chunks)| >= |Opening(boundary)|
    ensures var (q, ok) := Feed(FRESH, chunks, boundary, accepts);
            ok && q.valid && Deliver(q.log) == items
  {
    forall i | 0 <= i < |parts|
      ensures Plainly(parts[i].lines) && ReadAll(parts[i].lines, NO_FILE) == Good(items[i].data)
    {
      AmidReads(parts[i].lines, items[i].data);
    }
    hide Plainly, ReadAll, Amid, Feed, At, Delimiter, Opening;
    assert Carry(parts, items);
    CarriedAreReceived(parts, items);
    RoundTrip(parts, chunks, boundary, accepts);
  }

  ghost predicate SendableItem(item: Item, boundary: string) {
    && NameChars(item.data.name) && NameChars(item.data.filename) && IsFieldValue(item.data.contentType)
    && (forall i :: 0 <= i < |HeaderLines(item.data)| ==> |HeaderLines(item.data)[i]| < HEADER_MAX_LENGTH)
    && forall j :: !At(item.content, Delimiter(boundary), j)
  }

  lemma ItemIsReady(items: seq<Item>, i: nat, boundary: string)
    requires i < |items| && SendableItem(items[i], boundary)
    ensures |PartsOf(items)| == |items| && Sendable(PartsOf(items)[i], boundary)
    ensures PartsOf(items)[i].content == items[i].content
    ensures ReadAll(PartsOf(items)[i].lines, NO_FILE) == Good(items[i].data)
  {
    PartsOfAt(items, i);
    OwnLinesRead(items[i].data);
    LinesAreLines(items[i].data);
    hide HeaderLines, PartsOf, ReadAll, NameChars, IsFieldValue, At, NoChar;
  }

  lemma SerializedIsReady(items: seq<Item>, boundary: string)
    requires forall i :: 0 <= i < |items| ==> SendableItem(items[i], boundary)
    ensures AllSendable(PartsOf(items), boundary) && Carry(PartsOf(items), items)
  {
    assert items == [] ==> PartsOf(items) == [];
    hide PartsOf, ReadAll, Sendable, SendableItem;
    forall i | 0 <= i < |items|
      ensures |PartsOf(items)| == |items| && Sendable(PartsOf(items)[i], boundary)
      ensures PartsOf(items)[i].content == items[i].content
      ensures ReadAll(PartsOf(items)[i].lines, NO_FILE) == Good(items[i].data)
    {
      ItemIsReady(items, i, boundary);
    }
    assert items != [] ==> |PartsOf(items)| == |items| by {
      if items != [] {
        assert SendableItem(items[0], boundary);
        ItemIsReady(items, 0, boundary);
      }
    }
  }

  /** What the serializer writes comes back. */
  lemma SerializedRoundTrip(items: seq<Item>, chunks: seq<string>, boundary: string, accepts: Receiver)
    requires items != [] && BoundaryChars(boundary) && AcceptsAll(accepts)
    requires forall i :: 0 <= i < |items| ==> SendableItem(items[i], boundary)
    requires Concat(chunks) == Serialize(items, boundary)
    requires |FirstChunk(chunks)| >= |Opening(boundary)|
    ensures var (q, ok) := Feed(FRESH, chunks, boundary, accepts);
            ok && q.valid && Deliver(q.log) == items
  {
    SerializedIsReady(items, boundary);
    SerializedIsWritten(items, boundary);
    hide SendableItem, PartsOf, AllSendable, Serialize, Written, Feed, Opening, BoundaryChars, AcceptsAll;
    CarriedAreReceived(PartsOf(items), items);
    RoundTrip(PartsOf(items), chunks, boundary, accepts);
  }

  /** A first chunk too short for the opening line is lost: the parser is left as it was before, so the
      stream is understood as if that chunk had never been sent. */
  lemma ShortOpeningIsLost(chunk: string, chunks: seq<string>, boundary: string, accepts: Receiver)
    requires |chunk| < |Opening(boundary)|
    ensures Parse(FRESH, chunk, boundary, accepts) == (FRESH, true)
    ensures Feed(FRESH, [chunk] + chunks, boundary, accepts) == Feed(FRESH, chunks, boundary, accepts)
  {
    var o := Opening(boundary);
    assert "" + chunk == chunk;
    if chunk != "" {
      assert Find(chunk, o) == |chunk|;
      assert chunk[|chunk|..] == "";
    }
    assert Parse(FRESH, chunk, boundary, accepts) == (FRESH, true);
    assert ([chunk] + chunks)[1..] == chunks;
  }

  /** So fed in chunks that are all too short for the opening line, byte by byte for instance, the parser
      takes everything without complaint and delivers nothing. */
  lemma {:induction false} ShortChunksDeliverNothing(chunks: seq<string>, boundary: string, accepts: Receiver)
    requires forall i :: 0 <= i < |chunks| ==> |chunks[i]| < |Opening(boundary)|
    ensures Feed(FRESH, chunks, boundary, accepts) == (FRESH, true)
    ensures !FRESH.valid && Deliver(FRESH.log) == []
    decreases |chunks|
  {
    if chunks != [] {
      assert [chunks[0]] + chunks[1..] == chunks;
      ShortOpeningIsLost(chunks[0], chunks[1..], boundary, accepts);
      ShortChunksDeliverNothing(chunks[1..], boundary, accepts);
    }
  }
}
