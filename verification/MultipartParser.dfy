/** The streaming parser as the program keeps it: an input buffer with a sliding window, updated in
    place, and a stage; each call of `Parse` is proved to do what `MultipartSpec.Parse` says. */
module MultipartParsers {
  import opened HeaderSyntax
  import opened MultipartSpec
  import opened Text

  /** The two callbacks of a request, with a record of what they were handed. */
  class Callbacks {
    const accepts: Receiver
    var log: seq<Event>

    constructor (accepts: Receiver)
      ensures this.accepts == accepts && log == []
    {
      this.accepts := accepts;
      log := [];
    }

    method Call(e: Event) returns (ok: bool)
      modifies this
      ensures log == old(log) + [e] && ok == accepts(old(log), e)
    {
      ok := accepts(log, e);
      log := log + [e];
    }
  }

  /** The first `n` bytes are handed to a callback and `cut` bytes consumed; `found` says that these end in a
      delimiter. */
  ghost function HandedOver(p: Parser, n: nat, cut: nat, found: bool, accepts: Receiver): (Parser, bool)
    requires n <= cut <= |p.window|
  {
    var e := ContentEvent(p.window[..n]);
    var told := p.(log := p.log + [e]);
    if accepts(p.log, e)
    then (told.(window := p.window[cut..], stage := if found then Boundary else p.stage), true)
    else (told.(valid := false), false)
  }

  /** `StepBody` once the size of the window and the position of the delimiter are known. */
  lemma BodyOutcome(p: Parser, boundary: string, accepts: Receiver, pos: nat)
    requires var d := Delimiter(boundary); |d| <= |p.window| && pos == Find(p.window, d)
    ensures var d := Delimiter(boundary);
            var found := pos < |p.window|;
            var n := if found then pos else |p.window| - |d|;
            var cut := if found then pos + |d| else n;
            && n <= cut <= |p.window|
            && StepBody(p, boundary, accepts) ==
               if !found && n == 0 then Stop(p, true)
               else var (q, ok) := HandedOver(p, n, cut, found, accepts); if ok && found then Next(q) else Stop(q, ok)
  {
    FoundInside(p.window, Delimiter(boundary));
    hide Find, Delimiter;
  }

  lemma BodyWaits(p: Parser, boundary: string, accepts: Receiver)
    requires |Delimiter(boundary)| > |p.window|
    ensures StepBody(p, boundary, accepts) == Stop(p, true)
  {
  }

  lemma FoundInside(s: string, p: string)
    requires p != ""
    ensures Find(s, p) <= |s| && (Find(s, p) < |s| ==> Find(s, p) + |p| <= |s|)
  {
  }

  /** `StepLines` when no line ends in the window, when the first is empty, and when it is not. */
  lemma LineWaits(p: Parser, accepts: Receiver)
    requires Find(p.window, CRLF) == |p.window|
    ensures StepLines(p, accepts) == Stop(p, true)
  {
  }

  lemma LineEmpty(p: Parser, accepts: Receiver)
    requires Find(p.window, CRLF) == 0 < |p.window|
    ensures 2 <= |p.window|
    ensures var told := p.(log := p.log + [HeaderEvent(p.file)]);
            StepLines(p, accepts) ==
            if accepts(p.log, HeaderEvent(p.file)) then Next(told.(window := p.window[2..], stage := Body))
            else Stop(told.(valid := false), false)
  {
    assert At(p.window, CRLF, 0);
    hide ReadHeader, At;
  }

  lemma LineTaken(p: Parser, accepts: Receiver, pos: nat)
    requires 0 < pos == Find(p.window, CRLF) < |p.window|
    ensures pos + 2 <= |p.window|
    ensures var fields := ReadHeader(p.window[..pos], p.file);
            StepLines(p, accepts) ==
            if fields.Good? then StepLines(p.(file := fields.file, window := p.window[pos + 2..]), accepts)
            else Stop(p.(file := fields.file, valid := false), false)
  {
    assert At(p.window, CRLF, pos);
    hide ReadHeader, At;
  }

  class MultipartFormDataParser {
    const boundary: string
    const dashBoundaryCrlf: string
    const crlfDashBoundary: string

    var stage: Stage
    var isValid: bool
    var file: FormData

    var buf: array<char>
    var spos: nat
    var epos: nat

    ghost predicate Valid()
      reads this
    {
      && spos <= epos <= buf.Length
      && dashBoundaryCrlf == Opening(boundary) && crlfDashBoundary == Delimiter(boundary)
    }

    ghost function Window(): string
      requires Valid()
      reads this, buf
    {
      buf[spos..epos]
    }

    ghost function State(cb: Callbacks): Parser
      requires Valid()
      reads this, buf, cb
    {
      Parser(stage, isValid, file, Window(), cb.log)
    }

    constructor (boundary: string)
      ensures Valid() && fresh(buf) && this.boundary == boundary
      ensures Window() == "" && stage == Initial && !isValid && file == NO_FILE
    {
      this.boundary := boundary;
      dashBoundaryCrlf := "--" + boundary + CRLF;
      crlfDashBoundary := CRLF + "--" + boundary;
      stage, isValid, file := Initial, false, NO_FILE;
      buf := new char[0];
      spos, epos := 0, 0;
    }

    // ----- the buffer

    function BufSize(): (n: nat)
      requires Valid()
      reads this, buf
      ensures n == |Window()|
    {
      epos - spos
    }

    method StartWith(from: nat, s: string) returns (b: bool)
      requires Valid() && spos <= from <= epos
      ensures b <==> At(Window(), s, from - spos)
    {
      ghost var w := Window();
      if epos - from < |s| {
        return false;
      }
      for i := 0 to |s|
        invariant forall j :: 0 <= j < i ==> w[from - spos..][j] == s[j]
      {
        assert buf[from + i] == w[from - spos..][i];
        if buf[from + i] != s[i] {
          assert w[from - spos..from - spos + |s|][i] == w[from - spos..][i];
          return false;
        }
      }
      assert w[from - spos..from - spos + |s|] == w[from - spos..][..|s|] == s;
      return true;
    }

    /** The distance from the window's start to the first occurrence, or the window's size. */
    method BufFind(s: string) returns (pos: nat)
      requires Valid() && s != ""
      ensures pos == Find(Window(), s)
    {
      ghost var w := Window();
      var off := spos;
      while off < epos
        invariant spos <= off <= epos
        invariant forall j :: 0 <= j < off - spos ==> !At(w, s, j)
      {
        var at := off;
        while at < epos && buf[at] != s[0]
          invariant off <= at <= epos
          invariant forall j :: 0 <= j < at - spos ==> !At(w, s, j)
        {
          assert w[at - spos] != s[0];
          at := at + 1;
        }
        if at == epos || |s| > epos - at {
          FindIs(w, s, |w|);
          return epos - spos;
        }
        var here := StartWith(at, s);
        if here {
          FindIs(w, s, at - spos);
          return at - spos;
        }
        off := at + 1;
      }
      FindIs(w, s, |w|);
      return epos - spos;
    }

    /** Moves what is left of the window to the start of the buffer. */
    method Shift()
      requires Valid()
      modifies this, buf
      ensures Valid() && buf == old(buf) && spos == 0
      ensures Window() == old(Window())
      ensures stage == old(stage) && isValid == old(isValid) && file == old(file)
    {
      ghost var w := Window();
      var b, from, remaining := buf, spos, epos - spos;
      if remaining > 0 && spos > 0 {
        for i := 0 to remaining
          modifies b
          invariant forall j :: 0 <= j < i ==> b[j] == w[j]
          invariant forall j :: i <= j < b.Length ==> b[j] == old(b[j])
        {
          b[i] := b[from + i];
        }
      }
      spos := 0;
      epos := remaining;
      assert Window() == w;
    }

    method Grow(size: nat)
      requires Valid() && spos == 0
      modifies this
      ensures Valid() && (buf == old(buf) || fresh(buf)) && spos == 0 && epos == old(epos)
      ensures Window() == old(Window()) && size <= buf.Length
      ensures stage == old(stage) && isValid == old(isValid) && file == old(file)
    {
      if size > buf.Length {
        var b, grown := buf, new char[size];
        for i := 0 to b.Length
          modifies grown
          invariant forall j :: 0 <= j < i ==> grown[j] == b[j]
        {
          grown[i] := b[i];
        }
        buf := grown;
        assert Window() == old(Window());
      }
    }

    method BufAppend(data: string)
      requires Valid()
      modifies this, buf
      ensures Valid() && (buf == old(buf) || fresh(buf))
      ensures Window() == old(Window()) + data
      ensures stage == old(stage) && isValid == old(isValid) && file == old(file)
    {
      ghost var w := Window();
      Shift();
      Grow(epos + |data|);
      var b, end := buf, epos;
      assert b[..end] == w;
      for i := 0 to |data|
        modifies b
        invariant b[..end] == w
        invariant forall j :: 0 <= j < i ==> b[end + j] == data[j]
      {
        b[end + i] := data[i];
      }
      epos := end + |data|;
      assert b[end..epos] == data;
      assert Window() == b[..end] + b[end..epos];
    }

    method BufErase(n: nat)
      requires Valid() && n <= |Window()|
      modifies this`spos
      ensures Valid() && Window() == old(Window())[n..]
    {
      spos := spos + n;
    }

    // ----- the stages of `parse`; `go` says that the loop continues

    method InitialStage(cb: Callbacks) returns (go: bool, ret: bool)
      requires Valid() && stage == Initial
      modifies this`spos, this`stage
      ensures Valid()
      ensures StepInitial(old(State(cb)), boundary) == if go then Next(State(cb)) else Stop(State(cb), ret)
    {
      var pos := BufFind(dashBoundaryCrlf);
      BufErase(pos);
      if |dashBoundaryCrlf| > BufSize() {
        return false, true;
      }
      var found := StartWith(spos, dashBoundaryCrlf);
      if !found {
        return false, false;
      }
      BufErase(|dashBoundaryCrlf|);
      stage := Entry;
      return true, false;
    }

    method EntryStage(cb: Callbacks)
      requires Valid() && stage == Entry
      modifies this`stage, this`file
      ensures Valid() && State(cb) == old(State(cb)).(file := NO_FILE, stage := Headers)
    {
      file := FormData("", "", "");
      stage := Headers;
    }

    /** Reads one header line into `file`; false when the line is not acceptable. */
    method ReadLine(header: string) returns (ok: bool)
      modifies this`file
      ensures ReadHeader(header, old(file)) == if ok then Good(file) else Bad(file)
    {
      if ParseHeader(header).None? {
        return false;
      }
      if StartsWithIgnoreCase(header, "Content-Type:") {
        file := file.(contentType := Trim(header[13..]));
      } else if Disposition(header).Some? {
        var params := DispositionParams(Split(Disposition(header).value, ';'), {});
        if Param(params, "name").None? {
          return false;
        }
        file := file.(name := Param(params, "name").value);
        if Param(params, "filename").Some? {
          file := file.(filename := Param(params, "filename").value);
        }
        if Param(params, "filename*").Some? {
          var extended := ExtendedValue(Param(params, "filename*").value);
          if extended.None? {
            return false;
          }
          file := file.(filename := extended.value);
        }
      }
      return true;
    }

    /** The empty line: the fields are handed over and the body begins. */
    method EndHeaders(cb: Callbacks) returns (ok: bool)
      requires Valid() && stage == Headers && Find(Window(), CRLF) == 0 < BufSize()
      modifies this`spos, this`stage, this`isValid, cb
      ensures Valid()
      ensures StepLines(old(State(cb)), cb.accepts) == if ok then Next(State(cb)) else Stop(State(cb), false)
    {
      LineEmpty(State(cb), cb.accepts);
      hide StepLines, Find;
      ok := cb.Call(HeaderEvent(file));
      if !ok {
        isValid := false;
        return;
      }
      BufErase(2);
      stage := Body;
    }

    /** A header line of length `pos`: its fields are recorded and it leaves the window. */
    method TakeLine(pos: nat, cb: Callbacks) returns (ok: bool)
      requires Valid() && pos + 2 <= BufSize()
      modifies this`spos, this`isValid, this`file
      ensures Valid()
      ensures var p := old(State(cb));
              var fields := ReadHeader(p.window[..pos], p.file);
              && ok == fields.Good?
              && State(cb) == if ok then p.(file := fields.file, window := p.window[pos + 2..])
                              else p.(file := fields.file, valid := false)
    {
      hide ReadHeader;
      var header := buf[spos..spos + pos];
      assert header == Window()[..pos];
      ok := ReadLine(header);
      if !ok {
        isValid := false;
        return;
      }
      BufErase(pos + 2);
    }

    method HeadersStage(cb: Callbacks) returns (go: bool, ret: bool)
      requires Valid() && stage == Headers
      modifies this`spos, this`stage, this`isValid, this`file, cb
      ensures Valid()
      ensures StepHeaders(old(State(cb)), cb.accepts) == if go then Next(State(cb)) else Stop(State(cb), ret)
    {
      ghost var start := State(cb);
      var pos := BufFind(CRLF);
      if pos > HEADER_MAX_LENGTH {
        return false, false;
      }
      assert StepHeaders(start, cb.accepts) == StepLines(start, cb.accepts);
      hide ReadHeader, StepHeaders, StepLines, Find, At;
      while pos < BufSize()
        invariant Valid() && stage == Headers && pos == Find(Window(), CRLF)
        invariant StepLines(start, cb.accepts) == StepLines(State(cb), cb.accepts)
        decreases |Window()|
      {
        if pos == 0 {
          go := EndHeaders(cb);
          return go, false;
        }
        LineTaken(State(cb), cb.accepts, pos);
        var ok := TakeLine(pos, cb);
        if !ok {
          return false, false;
        }
        pos := BufFind(CRLF);
      }
      FoundInside(Window(), CRLF);
      LineWaits(State(cb), cb.accepts);
      return false, true;
    }

    /** Hands over the first `n` bytes of the window and, if they are accepted, erases `cut` bytes. */
    method HandOver(n: nat, cut: nat, found: bool, cb: Callbacks) returns (ok: bool)
      requires Valid() && n <= cut <= BufSize()
      modifies this`spos, this`stage, this`isValid, cb
      ensures Valid()
      ensures (State(cb), ok) == HandedOver(old(State(cb)), n, cut, found, cb.accepts)
    {
      assert buf[spos..spos + n] == Window()[..n];
      ok := cb.Call(ContentEvent(buf[spos..spos + n]));
      if !ok {
        isValid := false;
        return;
      }
      BufErase(cut);
      if found {
        stage := Boundary;
      }
    }

    /** The content up to the delimiter, or all but a delimiter's length, goes out. */
    method HandOverContent(pos: nat, cb: Callbacks) returns (ok: bool)
      requires Valid() && stage == Body && |crlfDashBoundary| <= BufSize() && pos == Find(Window(), crlfDashBoundary)
      requires crlfDashBoundary != "" && !(pos == BufSize() && BufSize() == |crlfDashBoundary|)
      modifies this`spos, this`stage, this`isValid, cb
      ensures Valid()
      ensures StepBody(old(State(cb)), boundary, cb.accepts) ==
              if ok && pos < old(BufSize()) then Next(State(cb)) else Stop(State(cb), ok)
    {
      BodyOutcome(State(cb), boundary, cb.accepts, pos);
      hide HandedOver, StepBody, Find, Delimiter;
      if pos < BufSize() {
        ok := HandOver(pos, pos + |crlfDashBoundary|, true, cb);
      } else {
        var n := BufSize() - |crlfDashBoundary|;
        ok := HandOver(n, n, false, cb);
      }
    }

    method BodyStage(cb: Callbacks) returns (go: bool, ret: bool)
      requires Valid() && stage == Body
      modifies this`spos, this`stage, this`isValid, cb
      ensures Valid()
      ensures StepBody(old(State(cb)), boundary, cb.accepts) == if go then Next(State(cb)) else Stop(State(cb), ret)
    {
      assert crlfDashBoundary == Delimiter(boundary) && crlfDashBoundary != "";
      hide StepBody, Delimiter, Find, HandedOver;
      if |crlfDashBoundary| > BufSize() {
        BodyWaits(State(cb), boundary, cb.accepts);
        return false, true;
      }
      var pos := BufFind(crlfDashBoundary);
      var found := pos < BufSize();
      if !found && BufSize() == |crlfDashBoundary| {
        FoundInside(Window(), crlfDashBoundary);
        BodyOutcome(State(cb), boundary, cb.accepts, pos);
        return false, true;
      }
      ret := HandOverContent(pos, cb);
      go := ret && found;
    }

    method BoundaryStage(cb: Callbacks) returns (go: bool, ret: bool)
      requires Valid() && stage == Boundary
      modifies this`spos, this`stage, this`isValid
      ensures Valid()
      ensures StepBoundary(old(State(cb))) == if go then Next(State(cb)) else Stop(State(cb), ret)
    {
      if 2 > BufSize() {
        return false, true;
      }
      var crlf := StartWith(spos, CRLF);
      if crlf {
        BufErase(2);
        stage := Entry;
        return true, false;
      }
      var dashes := StartWith(spos, "--");
      if !dashes {
        return false, true;
      }
      BufErase(2);
      isValid := true;
      BufErase(BufSize());
      return true, false;
    }

    /** Consumes `data`: the state, the events handed over and the verdict are those of the specification. */
    method Parse(data: string, cb: Callbacks) returns (ret: bool)
      requires Valid()
      modifies this, buf, cb
      ensures Valid() && (buf == old(buf) || fresh(buf))
      ensures (State(cb), ret) == MultipartSpec.Parse(old(State(cb)), data, boundary, cb.accepts)
    {
      BufAppend(data);
      ghost var start := State(cb);
      ghost var b := buf;
      while BufSize() > 0
        invariant Valid() && buf == b
        invariant Run(State(cb), boundary, cb.accepts) == Run(start, boundary, cb.accepts)
        decreases |Window()|, if stage == Entry then 1 else 0
      {
        ghost var here := State(cb);
        StepShrinks(here, boundary, cb.accepts);
        var go := true;
        match stage {
          case Initial => go, ret := InitialStage(cb);
          case Entry => EntryStage(cb);
          case Headers => go, ret := HeadersStage(cb);
          case Body => go, ret := BodyStage(cb);
          case Boundary => go, ret := BoundaryStage(cb);
        }
        if !go {
          return;
        }
        assert Step(here, boundary, cb.accepts) == Next(State(cb));
      }
      ret := true;
    }
  }
}
