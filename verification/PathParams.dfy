/** Path patterns such as `/users/:id/posts`: compiled into fragments and parameter names, matched
    against request paths. */
module PathParams {
  import opened Options
  import opened Text

  datatype Matcher = Matcher(fragments: seq<string>, names: seq<string>)

  /** Fragments and texts in turn, a slash between a text and the fragment after it. Filled with the
      parameter tags this is the pattern; filled with captures, the path. */
  function Fill(fragments: seq<string>, texts: seq<string>): string {
    if fragments == [] then ""
    else if texts == [] then fragments[0] + Fill(fragments[1..], [])
    else fragments[0] + texts[0] + (if |fragments| == 1 then "" else "/" + Fill(fragments[1..], texts[1..]))
  }

  function Tags(names: seq<string>): (tags: seq<string>)
    ensures |tags| == |names|
  {
    seq(|names|, i requires 0 <= i < |names| => ":" + names[i])
  }

  predicate WellShaped(m: Matcher) {
    |m.fragments| == |m.names| || |m.fragments| == |m.names| + 1
  }

  /** The position of `p` at or after `from`, or `|s|`. */
  function FindFrom(s: string, p: string, from: nat): (i: nat)
    requires p != "" && from <= |s|
    ensures from <= i <= |s|
  {
    from + Find(s[from..], p)
  }

  lemma FoundFrom(s: string, p: string, from: nat)
    requires p != "" && from <= |s|
    ensures var i := FindFrom(s, p, from);
            && (i < |s| ==> At(s, p, i))
            && (forall j :: from <= j < i ==> !At(s, p, j))
  {
    var i := FindFrom(s, p, from);
    AtSuffix(s, p, from, i - from);
    forall j | from <= j < i ensures !At(s, p, j) {
      AtSuffix(s, p, from, j - from);
      assert !At(s[from..], p, j - from);
    }
  }

  // ----- matching

  /** The captures of what is left of a path, when the rest of the fragments match it: a parameter takes
      everything up to the next slash, and behind the last one a single slash may be left. */
  function MatchRest(fragments: seq<string>, params: nat, rest: string): Option<seq<string>> {
    if fragments == [] then (if rest == "" then Some([]) else None)
    else if !Begins(rest, fragments[0]) then None
    else
      var after := rest[|fragments[0]|..];
      if params == 0 then MatchRest(fragments[1..], 0, after)
      else
        var sep := Find(after, "/");
        if |fragments| == 1 then (if sep + 1 >= |after| then Some([after[..sep]]) else None)
        else if sep == |after| then None
        else
          match MatchRest(fragments[1..], params - 1, after[sep + 1..])
          case None => None
          case Some(more) => Some([after[..sep]] + more)
  }

  predicate NoSlashes(texts: seq<string>) {
    forall i :: 0 <= i < |texts| ==> NoChar(texts[i], '/')
  }

  /** The path is the pattern filled with these texts, up to one slash behind a parameter at the end. */
  ghost predicate Fits(fragments: seq<string>, params: nat, texts: seq<string>, rest: string) {
    && |texts| == params && NoSlashes(texts)
    && (rest == Fill(fragments, texts) || (|fragments| == params && params > 0 && rest == Fill(fragments, texts) + "/"))
  }

  lemma SlashFound(text: string, tail: string)
    requires NoChar(text, '/') && (tail == "" || tail[0] == '/')
    ensures Find(text + tail, "/") == |text|
    ensures (text + tail)[..|text|] == text && (text + tail)[|text|..] == tail
  {
    NoCharNoMarker(text, "/");
    if tail == "" {
      FindIs(text + tail, "/", |text|);
    } else {
      assert tail == "/" + tail[1..];
      Assoc(text, "/", tail[1..]);
      FindAfter(text, "/", tail[1..]);
    }
  }

  lemma CaptureHasNoSlash(after: string)
    ensures var sep := Find(after, "/");
            NoChar(after[..sep], '/') && (sep < |after| ==> after[sep] == '/')
  {
    var sep := Find(after, "/");
    forall i | 0 <= i < sep ensures after[i] != '/' {
      assert !At(after, "/", i);
      assert after[i..i + 1] == [after[i]];
    }
  }

  lemma FitsParam(fragments: seq<string>, params: nat, text: string, more: seq<string>, rest: string)
    requires |fragments| > 1 && params > 0 && NoChar(text, '/')
    requires Fits(fragments[1..], params - 1, more, rest)
    ensures Fits(fragments, params, [text] + more, fragments[0] + text + ("/" + rest))
  {
    var texts := [text] + more;
    assert texts[1..] == more;
    var fill := Fill(fragments[1..], more);
    assert Fill(fragments, texts) == fragments[0] + text + ("/" + fill);
    hide Fill;
    assert fragments[0] + text + ("/" + (fill + "/")) == fragments[0] + text + ("/" + fill) + "/";
  }

  lemma FitsLast(f: string, text: string, tail: string)
    requires NoChar(text, '/') && (tail == "" || tail == "/")
    ensures Fits([f], 1, [text], f + text + tail)
  {
    assert Fill([f], [text]) == f + text + "";
    assert f + text + "" == f + text;
  }

  lemma FillStatic(f: string)
    ensures Fill([f], []) == f
  {
    assert [f][1..] == [] && f + "" == f;
  }

  // The two ways in which a parameter is matched.

  lemma MatchLast(f: string, text: string, tail: string)
    requires NoChar(text, '/') && (tail == "" || tail == "/")
    ensures MatchRest([f], 1, f + text + tail) == Some([text])
  {
    Assoc(f, text, tail);
    DropHead(f, text + tail);
    SlashFound(text, tail);
    hide Find, NoChar;
  }

  lemma MatchMore(fragments: seq<string>, params: nat, text: string, next: string)
    requires |fragments| > 1 && params > 0 && NoChar(text, '/')
    ensures MatchRest(fragments, params, fragments[0] + text + ("/" + next)) ==
            match MatchRest(fragments[1..], params - 1, next) { case None => None case Some(more) => Some([text] + more) }
  {
    Assoc(fragments[0], text, "/" + next);
    DropHead(fragments[0], text + ("/" + next));
    SlashFound(text, "/" + next);
    Assoc(text, "/", next);
    DropHead(text + "/", next);
    hide Find, NoChar;
  }

  /** A matched rest begins with the fragment and a text without slashes. */
  lemma MatchedHead(fragments: seq<string>, params: nat, rest: string) returns (text: string, tail: string)
    requires fragments != [] && params > 0 && MatchRest(fragments, params, rest).Some?
    ensures rest == fragments[0] + text + tail && NoChar(text, '/')
    ensures |fragments| == 1 ==> tail == "" || tail == "/"
    ensures |fragments| > 1 ==> tail != "" && tail[0] == '/'
  {
    var f, after := fragments[0], rest[|fragments[0]|..];
    var sep := Find(after, "/");
    CaptureHasNoSlash(after);
    text, tail := after[..sep], after[sep..];
    hide Find, NoChar;
    Assoc(f, text, tail);
    assert rest == f + after && after == text + tail;
    assert tail == "" || tail[0] == '/';
  }

  /** A match is an exact reading of the path. */
  lemma {:induction false} MatchedFits(fragments: seq<string>, params: nat, rest: string, texts: seq<string>)
    requires params <= |fragments| <= params + 1
    requires MatchRest(fragments, params, rest) == Some(texts)
    ensures Fits(fragments, params, texts, rest)
    decreases |fragments|
  {
    if fragments != [] {
      if params == 0 {
        FillStatic(fragments[0]);
        assert fragments == [fragments[0]] && rest == fragments[0] + rest[|fragments[0]|..];
      } else {
        var text, tail := MatchedHead(fragments, params, rest);
        if |fragments| == 1 {
          MatchedLast(fragments[0], fragments, rest, texts, text, tail);
        } else {
          var more := MatchedMore(fragments, params, rest, texts, text, tail);
          MatchedFits(fragments[1..], params - 1, tail[1..], more);
          hide Fits, MatchRest, NoChar;
          FitsParam(fragments, params, text, more, tail[1..]);
        }
      }
    }
  }

  lemma MatchedLast(f: string, fragments: seq<string>, rest: string, texts: seq<string>, text: string, tail: string)
    requires fragments == [f] && MatchRest(fragments, 1, rest) == Some(texts)
    requires rest == f + text + tail && NoChar(text, '/') && (tail == "" || tail == "/")
    ensures Fits(fragments, 1, texts, rest)
  {
    MatchLast(f, text, tail);
    FitsLast(f, text, tail);
    hide *;
  }

  lemma MatchedMore(fragments: seq<string>, params: nat, rest: string, texts: seq<string>, text: string, tail: string)
      returns (more: seq<string>)
    requires |fragments| > 1 && params > 0 && MatchRest(fragments, params, rest) == Some(texts)
    requires rest == fragments[0] + text + tail && NoChar(text, '/') && tail != "" && tail[0] == '/'
    ensures MatchRest(fragments[1..], params - 1, tail[1..]) == Some(more) && texts == [text] + more
    ensures rest == fragments[0] + text + ("/" + tail[1..])
  {
    assert tail == "/" + tail[1..];
    MatchMore(fragments, params, text, tail[1..]);
    hide *;
    more := MatchRest(fragments[1..], params - 1, tail[1..]).value;
  }

  /** Every exact reading is found; in particular there is at most one. */
  lemma {:induction false} FittingMatches(fragments: seq<string>, params: nat, rest: string, texts: seq<string>)
    requires params <= |fragments| <= params + 1 && Fits(fragments, params, texts, rest)
    ensures MatchRest(fragments, params, rest) == Some(texts)
    decreases |fragments|
  {
    if fragments != [] {
      if params == 0 {
        FillStatic(fragments[0]);
        assert fragments == [fragments[0]] && rest[|fragments[0]|..] == "";
      } else {
        var tail := FitsHead(fragments, params, texts, rest);
        if |fragments| == 1 {
          FittingLast(fragments[0], fragments, params, rest, texts, tail);
        } else {
          FittingMatches(fragments[1..], params - 1, tail[1..], texts[1..]);
          FittingMore(fragments, params, rest, texts, tail);
        }
      }
    }
  }

  lemma FittingLast(f: string, fragments: seq<string>, params: nat, rest: string, texts: seq<string>, tail: string)
    requires fragments == [f] && |texts| == params == 1 && NoChar(texts[0], '/') && (tail == "" || tail == "/")
    requires rest == f + texts[0] + tail
    ensures MatchRest(fragments, params, rest) == Some(texts)
  {
    MatchLast(f, texts[0], tail);
    hide *;
    assert texts == [texts[0]];
  }

  lemma FittingMore(fragments: seq<string>, params: nat, rest: string, texts: seq<string>, tail: string)
    requires |fragments| > 1 && |texts| == params > 0 && NoChar(texts[0], '/')
    requires rest == fragments[0] + texts[0] + tail && tail != "" && tail[0] == '/'
    requires MatchRest(fragments[1..], params - 1, tail[1..]) == Some(texts[1..])
    ensures MatchRest(fragments, params, rest) == Some(texts)
  {
    MatchMore(fragments, params, texts[0], tail[1..]);
    hide *;
    assert tail == "/" + tail[1..] && [texts[0]] + texts[1..] == texts;
  }

  /** What stands behind the first text of a reading. */
  lemma FitsHead(fragments: seq<string>, params: nat, texts: seq<string>, s: string) returns (tail: string)
    requires fragments != [] && 0 < params <= |fragments| <= params + 1 && Fits(fragments, params, texts, s)
    ensures s == fragments[0] + texts[0] + tail && NoChar(texts[0], '/')
    ensures s[..|fragments[0]|] == fragments[0] && s[|fragments[0]|..] == texts[0] + tail
    ensures |fragments| == 1 ==> texts[1..] == [] && (tail == "" || tail == "/")
    ensures |fragments| > 1 ==> tail != "" && tail[0] == '/' && Fits(fragments[1..], params - 1, texts[1..], tail[1..])
  {
    var f, text, more := fragments[0], texts[0], texts[1..];
    if |fragments| == 1 {
      tail := if s == Fill(fragments, texts) then "" else "/";
      assert f + text + "" == f + text;
    } else {
      var fill := Fill(fragments[1..], more);
      tail := if s == Fill(fragments, texts) then "/" + fill else "/" + fill + "/";
      assert f + text + ("/" + fill) + "/" == f + text + ("/" + fill + "/");
      assert ("/" + fill)[1..] == fill && ("/" + fill + "/")[1..] == fill + "/";
    }
    Assoc(f, text, tail);
  }

  // ----- the matching loop

  function Prepend(texts: seq<string>, o: Option<seq<string>>): Option<seq<string>> {
    match o { case None => None case Some(more) => Some(texts + more) }
  }

  lemma PrependBoth(a: seq<string>, b: seq<string>, o: Option<seq<string>>)
    ensures Prepend(a, Prepend(b, o)) == Prepend(a + b, o)
  {
    if o.Some? {
      Assoc(a, b, o.value);
    }
  }

  /** One fragment, with the parameter behind it if there is one left. */
  lemma MatchTurn(fragments: seq<string>, params: nat, rest: string)
    requires fragments != [] && Begins(rest, fragments[0]) && params <= |fragments| <= params + 1
    ensures var after := rest[|fragments[0]|..];
            var sep := Find(after, "/");
            && (params == 0 ==> MatchRest(fragments, params, rest) == MatchRest(fragments[1..], 0, after))
            && (params > 0 && sep == |after| ==>
                MatchRest(fragments, params, rest) == if |fragments| == 1 then Some([after]) else None)
            && (params > 0 && sep < |after| ==>
                MatchRest(fragments, params, rest) ==
                Prepend([after[..sep]], MatchRest(fragments[1..], params - 1, after[sep + 1..])))
  {
    var after := rest[|fragments[0]|..];
    var sep := Find(after, "/");
    assert after[..|after|] == after;
    hide Find;
    if |fragments| == 1 && sep < |after| {
      assert fragments[1..] == [] && [after[..sep]] + [] == [after[..sep]];
    }
  }

  /** The captures as the request keeps them: the first one under a name stays. */
  function Assign(names: seq<string>, texts: seq<string>): map<string, string>
    requires |texts| <= |names|
  {
    if texts == [] then map[]
    else
      var before := Assign(names, texts[..|texts| - 1]);
      var name := names[|texts| - 1];
      if name in before then before else before[name := texts[|texts| - 1]]
  }

  predicate NoNul(m: Matcher) {
    forall i :: 0 <= i < |m.fragments| ==> NoChar(m.fragments[i], '\0')
  }

  /** `strncmp` on the fragment's length: it stops early where both have a NUL. */
  method SameText(path: string, start: nat, f: string) returns (same: bool)
    requires start + |f| <= |path|
    ensures Begins(path[start..], f) ==> same
    ensures same && NoChar(f, '\0') ==> Begins(path[start..], f)
  {
    var i := 0;
    while i < |f|
      invariant i <= |f| && f[..i] == path[start..][..i]
    {
      assert path[start + i] == path[start..][i];
      if path[start + i] != f[i] {
        return false;
      }
      if f[i] == '\0' {
        return true;
      }
      i := i + 1;
    }
    assert path[start..][..|f|] == f;
    return true;
  }

  function Outcome(m: Matcher, path: string): Option<seq<string>> {
    MatchRest(m.fragments, |m.names|, path)
  }

  function Min(a: nat, b: nat): nat {
    if a < b then a else b
  }

  /** Where the loop stands before fragment `i`: with a rest still to match, or behind the path's end. */
  ghost predicate Reached(m: Matcher, path: string, i: nat, rest: Option<string>, caps: seq<string>) {
    && i <= |m.fragments| && |caps| == Min(i, |m.names|)
    && match rest
       case Some(r) => Outcome(m, path) == Prepend(caps, MatchRest(m.fragments[i..], |m.names| - |caps|, r))
       case None => Outcome(m, path) == if i == |m.fragments| then Some(caps) else None
  }

  lemma ReachedStart(m: Matcher, path: string)
    requires WellShaped(m)
    ensures Reached(m, path, 0, Some(path), [])
  {
    assert m.fragments[0..] == m.fragments;
    if Outcome(m, path).Some? {
      assert [] + Outcome(m, path).value == Outcome(m, path).value;
    }
  }

  lemma ReachedEnd(m: Matcher, path: string, rest: Option<string>, caps: seq<string>)
    requires WellShaped(m) && Reached(m, path, |m.fragments|, rest, caps)
    ensures Outcome(m, path) == if rest.None? || rest.value == "" then Some(caps) else None
  {
    assert m.fragments[|m.fragments|..] == [] && caps + [] == caps;
  }

  lemma ReachedMismatch(m: Matcher, path: string, i: nat, rest: Option<string>, caps: seq<string>)
    requires WellShaped(m) && Reached(m, path, i, rest, caps) && i < |m.fragments|
    requires rest.Some? ==> !Begins(rest.value, m.fragments[i])
    ensures Outcome(m, path) == None
  {
    assert m.fragments[i..][0] == m.fragments[i];
  }

  lemma ReachedStatic(m: Matcher, path: string, i: nat, rest: string, caps: seq<string>)
    requires WellShaped(m) && Reached(m, path, i, Some(rest), caps) && |m.names| <= i < |m.fragments|
    requires Begins(rest, m.fragments[i])
    ensures Reached(m, path, i + 1, Some(rest[|m.fragments[i]|..]), caps)
  {
    var left := m.fragments[i..];
    assert left[0] == m.fragments[i] && left[1..] == m.fragments[i + 1..];
    MatchTurn(left, 0, rest);
    hide MatchRest, Outcome;
  }

  lemma FindInside(s: string, p: string)
    requires p != ""
    ensures Find(s, p) <= |s|
  {
  }

  lemma ReachedParam(m: Matcher, path: string, i: nat, rest: string, caps: seq<string>)
    requires WellShaped(m) && Reached(m, path, i, Some(rest), caps) && i < |m.fragments| && i < |m.names|
    requires Begins(rest, m.fragments[i])
    ensures var after := rest[|m.fragments[i]|..];
            var k := Find(after, "/");
            Reached(m, path, i + 1, if k < |after| then Some(after[k + 1..]) else None, caps + [after[..k]])
  {
    hide First, At;
    var left, params := m.fragments[i..], |m.names| - i;
    assert left[0] == m.fragments[i] && left[1..] == m.fragments[i + 1..];
    var after := rest[|m.fragments[i]|..];
    var k := Find(after, "/");
    FindInside(after, "/");
    var text := after[..k];
    assert k == |after| ==> text == after;
    MatchTurn(left, params, rest);
    hide MatchRest, Outcome, First, At, WellShaped, Begins;
    if k < |after| {
      ReachedMore(m, path, i, rest, caps, text, after[k + 1..]);
    } else {
      ReachedPast(m, path, i, rest, caps, text);
    }
  }

  lemma ReachedMore(m: Matcher, path: string, i: nat, rest: string, caps: seq<string>, text: string, next: string)
    requires i < |m.fragments| && i < |m.names| && Reached(m, path, i, Some(rest), caps)
    requires MatchRest(m.fragments[i..], |m.names| - i, rest) ==
             Prepend([text], MatchRest(m.fragments[i + 1..], |m.names| - i - 1, next))
    ensures Reached(m, path, i + 1, Some(next), caps + [text])
  {
    hide Outcome, MatchRest;
    PrependBoth(caps, [text], MatchRest(m.fragments[i + 1..], |m.names| - i - 1, next));
  }

  lemma ReachedPast(m: Matcher, path: string, i: nat, rest: string, caps: seq<string>, text: string)
    requires i < |m.fragments| && i < |m.names| && Reached(m, path, i, Some(rest), caps)
    requires MatchRest(m.fragments[i..], |m.names| - i, rest) == if i + 1 == |m.fragments| then Some([text]) else None
    ensures Reached(m, path, i + 1, None, caps + [text])
  {
    hide Outcome, MatchRest;
  }

  lemma AssignNothing(names: seq<string>)
    ensures Assign(names, []) == map[]
  {
  }

  lemma AssignPush(names: seq<string>, texts: seq<string>, text: string)
    requires |texts| < |names|
    ensures Assign(names, texts + [text]) ==
            var before := Assign(names, texts);
            if names[|texts|] in before then before else before[names[|texts|] := text]
  {
    assert (texts + [text])[..|texts|] == texts;
  }

  /** What the loop has established at position `start`, when the fragments hold no NUL. */
  ghost predicate Sofar(m: Matcher, path: string, i: nat, start: nat, caps: seq<string>) {
    && |caps| == Min(i, |m.names|) && start <= |path| + 1
    && (NoNul(m) ==> Reached(m, path, i, if start <= |path| then Some(path[start..]) else None, caps))
  }

  lemma SofarMismatch(m: Matcher, path: string, i: nat, start: nat, caps: seq<string>)
    requires WellShaped(m) && Sofar(m, path, i, start, caps) && i < |m.fragments|
    requires start <= |path| ==> !Begins(path[start..], m.fragments[i])
    ensures NoNul(m) ==> Outcome(m, path) == None
  {
    if NoNul(m) {
      ReachedMismatch(m, path, i, if start <= |path| then Some(path[start..]) else None, caps);
    }
  }

  lemma BeginsFits(s: string, p: string)
    requires Begins(s, p)
    ensures |p| <= |s|
  {
  }

  lemma SliceFacts(path: string, start: nat, n: nat, k: nat)
    requires start + n + k <= |path|
    ensures path[start..][n..] == path[start + n..]
    ensures path[start + n..][..k] == path[start + n..start + n + k]
    ensures start + n + k < |path| ==> path[start + n..][k + 1..] == path[start + n + k + 1..]
  {
  }

  lemma ReachedParamAt(m: Matcher, path: string, i: nat, start: nat, caps: seq<string>)
    requires WellShaped(m) && start <= |path| && i < |m.fragments| && i < |m.names|
    requires Reached(m, path, i, Some(path[start..]), caps) && Begins(path[start..], m.fragments[i])
    ensures var next := start + |m.fragments[i]|;
            var sep := FindFrom(path, "/", next);
            Reached(m, path, i + 1, if sep + 1 <= |path| then Some(path[sep + 1..]) else None, caps + [path[next..sep]])
  {
    hide Reached, First, At, Begins, Find, WellShaped;
    var n := |m.fragments[i]|;
    var next := start + n;
    assert n <= |path[start..]| by {
      BeginsFits(path[start..], m.fragments[i]);
    }
    SliceFacts(path, start, n, FindFrom(path, "/", next) - next);
    ReachedParam(m, path, i, path[start..], caps);
  }

  lemma SofarMatched(m: Matcher, path: string, i: nat, start: nat, caps: seq<string>)
    requires WellShaped(m) && Sofar(m, path, i, start, caps) && i < |m.fragments|
    requires start + |m.fragments[i]| <= |path| && (NoNul(m) ==> Begins(path[start..], m.fragments[i]))
    ensures var next := start + |m.fragments[i]|;
            var sep := FindFrom(path, "/", next);
            if i < |m.names| then Sofar(m, path, i + 1, sep + 1, caps + [path[next..sep]]) else Sofar(m, path, i + 1, next, caps)
  {
    hide Reached, First, At, Outcome, MatchRest, NoNul, FindFrom, Begins;
    if NoNul(m) {
      if i < |m.names| {
        ReachedParamAt(m, path, i, start, caps);
      } else {
        ReachedStatic(m, path, i, path[start..], caps);
        SliceFacts(path, start, |m.fragments[i]|, 0);
      }
    }
  }

  /** Records a capture unless its name has one already. */
  method Emplace(names: seq<string>, params: map<string, string>, i: nat, text: string, ghost caps: seq<string>)
      returns (params': map<string, string>)
    requires i < |names| && |caps| == i && params == Assign(names, caps)
    ensures params' == Assign(names, caps + [text])
  {
    AssignPush(names, caps, text);
    params' := if names[i] in params then params else params[names[i] := text];
  }

  /** One fragment of the loop: what it consumes, and the capture behind it. */
  method MatchFragment(m: Matcher, path: string, i: nat, start: nat, params: map<string, string>, ghost caps: seq<string>)
      returns (ok: bool, start': nat, params': map<string, string>, ghost caps': seq<string>)
    requires WellShaped(m) && i < |m.fragments| && |caps| == Min(i, |m.names|)
    requires Sofar(m, path, i, start, caps) && params == Assign(m.names, caps)
    ensures !ok && NoNul(m) ==> Outcome(m, path) == None
    ensures ok ==> |caps'| == Min(i + 1, |m.names|) && Sofar(m, path, i + 1, start', caps') && params' == Assign(m.names, caps')
  {
    hide Reached, Outcome, MatchRest, Assign, First, At, NoNul, Sofar;
    ok, start', params', caps' := false, start, params, caps;
    var fragment := m.fragments[i];
    if start + |fragment| > |path| {
      SofarMismatch(m, path, i, start, caps);
      return;
    }
    ok := SameText(path, start, fragment);
    if !ok {
      SofarMismatch(m, path, i, start, caps);
      return;
    }
    FragmentIsText(m, i);
    SofarMatched(m, path, i, start, caps);
    start' := start + |fragment|;
    if i < |m.names| {
      var sep := FindFrom(path, "/", start');
      var text := path[start'..sep];
      params' := Emplace(m.names, params, i, text, caps);
      caps' := caps + [text];
      start' := sep + 1;
    }
  }

  /** Matches a path, keeping position and captures as the program does. */
  method Match(m: Matcher, path: string) returns (ok: bool, pathParams: map<string, string>)
    requires WellShaped(m)
    ensures NoNul(m) ==> ok == Outcome(m, path).Some?
    ensures NoNul(m) && ok ==>
              |Outcome(m, path).value| <= |m.names| && pathParams == Assign(m.names, Outcome(m, path).value)
  {
    pathParams := map[];
    var start: nat := 0;
    ghost var caps := [];
    ReachedStart(m, path);
    AssignNothing(m.names);
    assert path[0..] == path && Sofar(m, path, 0, 0, []);
    hide Reached, Outcome, MatchRest, Assign, NoNul, Sofar;
    for i := 0 to |m.fragments|
      invariant |caps| == Min(i, |m.names|)
      invariant Sofar(m, path, i, start, caps)
      invariant pathParams == Assign(m.names, caps)
    {
      ok, start, pathParams, caps := MatchFragment(m, path, i, start, pathParams, caps);
      if !ok {
        return;
      }
    }
    SofarEnd(m, path, start, caps);
    ok := start >= |path|;
  }

  lemma SofarEnd(m: Matcher, path: string, start: nat, caps: seq<string>)
    requires WellShaped(m) && Sofar(m, path, |m.fragments|, start, caps)
    ensures NoNul(m) ==> Outcome(m, path) == if start >= |path| then Some(caps) else None
  {
    if NoNul(m) {
      ReachedEnd(m, path, if start <= |path| then Some(path[start..]) else None, caps);
    }
  }

  lemma FragmentIsText(m: Matcher, i: nat)
    requires i < |m.fragments|
    ensures NoNul(m) ==> NoChar(m.fragments[i], '\0')
  {
  }

  // ----- compiling a pattern

  const MARKER := "/:"

  predicate NoMarker(s: string) {
    forall j :: 0 <= j < |s| ==> !At(s, MARKER, j)
  }

  /** A fragment with the slash that closed the parameter before it. */
  function Lead(m: Matcher, i: nat): string
    requires i < |m.fragments|
  {
    (if i == 0 then "" else "/") + m.fragments[i]
  }

  /** The pattern, read without leftovers: no name holds a slash, no fragment hides a further parameter, and
      a parameter starts right behind a slash. */
  ghost predicate Compiled(m: Matcher, pattern: string) {
    && WellShaped(m) && NoSlashes(m.names)
    && Fits(m.fragments, |m.names|, Tags(m.names), pattern)
    && (|m.fragments| > |m.names| ==> m.fragments[|m.names|] != "")
    && forall i :: 0 <= i < |m.fragments| ==> Delimited(m, i)
  }

  ghost predicate Delimited(m: Matcher, i: nat)
    requires i < |m.fragments|
  {
    var lead := Lead(m, i);
    NoMarker(lead) && (i < |m.names| ==> lead != "" && lead[|lead| - 1] == '/')
  }

  lemma {:induction false} FillAppend(fs: seq<string>, ts: seq<string>, f: string, more: seq<string>)
    requires |fs| == |ts| > 0
    ensures Fill(fs + [f], ts + more) == Fill(fs, ts) + ("/" + Fill([f], more))
  {
    var tail := "/" + Fill([f], more);
    assert (fs + [f])[1..] == fs[1..] + [f] && (ts + more)[1..] == ts[1..] + more;
    if |fs| == 1 {
      assert fs[1..] + [f] == [f] && ts[1..] + more == more;
      assert fs[0] + ts[0] + "" == fs[0] + ts[0];
    } else {
      FillAppend(fs[1..], ts[1..], f, more);
      var inner := Fill(fs[1..], ts[1..]);
      hide Fill;
      assert fs[0] + ts[0] + ("/" + (inner + tail)) == fs[0] + ts[0] + ("/" + inner) + tail;
    }
  }

  lemma TagsAppend(names: seq<string>, name: string)
    ensures Tags(names + [name]) == Tags(names) + [":" + name]
  {
  }

  /** What the loop has read of the pattern when it goes on from `last`. */
  ghost predicate ReadUpTo(m: Matcher, pattern: string, last: nat) {
    && |m.fragments| == |m.names| && NoSlashes(m.names) && last <= |pattern| + 1
    && (forall i :: 0 <= i < |m.fragments| ==> Delimited(m, i))
    && (NoChar(pattern, '\0') ==> NoNul(m))
    && if last == 0 then m.names == []
       else m.names != [] && pattern[..last - 1] == Fill(m.fragments, Tags(m.names)) && (last <= |pattern| ==> pattern[last - 1] == '/')
  }

  lemma SliceHasNoMarker(s: string, from: nat, to: nat)
    requires from <= to <= |s|
    requires forall j :: from <= j < to - 1 ==> !At(s, MARKER, j)
    ensures NoMarker(s[from..to])
  {
    forall j | 0 <= j < to - from ensures !At(s[from..to], MARKER, j) {
      assert s[from..to] == s[..to][from..];
      AtSuffix(s[..to], MARKER, from, j);
      AtPrefix(s, MARKER, to, from + j);
    }
  }

  lemma DelimitedAppend(m: Matcher, f: string, names: seq<string>)
    requires |m.fragments| == |m.names| <= |names|
    requires forall i :: 0 <= i < |m.fragments| ==> Delimited(m, i)
    requires var lead := (if m.fragments == [] then "" else "/") + f;
             NoMarker(lead) && (|m.fragments| < |names| ==> lead != "" && lead[|lead| - 1] == '/')
    ensures var m' := Matcher(m.fragments + [f], names);
            forall i :: 0 <= i < |m'.fragments| ==> Delimited(m', i)
  {
    hide NoMarker;
    var m' := Matcher(m.fragments + [f], names);
    forall i | 0 <= i < |m'.fragments| ensures Delimited(m', i) {
      if i < |m.fragments| {
        assert Delimited(m, i) && Lead(m', i) == Lead(m, i);
      }
    }
  }

  /** The text in front of a fragment found behind `last`, with the slash that closed the parameter before. */
  lemma LeadIsSlice(m: Matcher, pattern: string, last: nat, to: nat)
    requires ReadUpTo(m, pattern, last) && last <= to <= |pattern|
    ensures (if m.fragments == [] then "" else "/") + pattern[last..to] == pattern[(if last == 0 then 0 else last - 1)..to]
  {
  }

  lemma FillNext(m: Matcher, pattern: string, last: nat, to: nat, f: string, texts: seq<string>)
    requires ReadUpTo(m, pattern, last) && last <= to <= |pattern|
    requires pattern[last..to] == Fill([f], texts)
    ensures pattern[..to] == Fill(m.fragments + [f], Tags(m.names) + texts)
  {
    if last == 0 {
      assert m.fragments + [f] == [f] && Tags(m.names) + texts == texts;
    } else {
      FillAppend(m.fragments, Tags(m.names), f, texts);
      hide Fill, Delimited, NoNul;
      assert pattern[..to] == pattern[..last - 1] + ("/" + pattern[last..to]);
    }
  }

  lemma MarkerChars(s: string, k: nat)
    requires At(s, MARKER, k)
    ensures k + 2 <= |s| && s[k] == '/' && s[k + 1] == ':'
  {
    assert s[k..k + 2][0] == s[k] && s[k..k + 2][1] == s[k + 1];
  }

  /** The parameter found at `marker`, named up to `sep`. */
  ghost predicate ParamAt(m: Matcher, pattern: string, last: nat, marker: nat, sep: nat) {
    && ReadUpTo(m, pattern, last)
    && last <= marker + 1 && marker + 2 <= sep <= |pattern| && At(pattern, MARKER, marker)
    && NoMarker(pattern[(if last == 0 then 0 else last - 1)..marker + 1])
    && NoChar(pattern[marker + 2..sep], '/') && (sep < |pattern| ==> pattern[sep] == '/')
  }

  function WithParam(m: Matcher, pattern: string, last: nat, marker: nat, sep: nat): Matcher
    requires last <= marker + 1 && marker + 2 <= sep <= |pattern|
  {
    Matcher(m.fragments + [pattern[last..marker + 1]], m.names + [pattern[marker + 2..sep]])
  }

  lemma ParamDelimited(m: Matcher, pattern: string, last: nat, marker: nat, sep: nat)
    requires ParamAt(m, pattern, last, marker, sep)
    ensures var m' := WithParam(m, pattern, last, marker, sep);
            forall i :: 0 <= i < |m'.fragments| ==> Delimited(m', i)
  {
    var from := if last == 0 then 0 else last - 1;
    LeadIsSlice(m, pattern, last, marker + 1);
    MarkerChars(pattern, marker);
    var lead := (if m.fragments == [] then "" else "/") + pattern[last..marker + 1];
    assert lead == pattern[from..marker + 1] && lead[|lead| - 1] == '/';
    hide NoMarker, NoNul, Fill, Tags, At;
    DelimitedAppend(m, pattern[last..marker + 1], WithParam(m, pattern, last, marker, sep).names);
  }

  lemma ParamFilled(m: Matcher, pattern: string, last: nat, marker: nat, sep: nat)
    requires ParamAt(m, pattern, last, marker, sep)
    ensures var m' := WithParam(m, pattern, last, marker, sep);
            pattern[..sep] == Fill(m'.fragments, Tags(m'.names))
  {
    var f, name := pattern[last..marker + 1], pattern[marker + 2..sep];
    MarkerChars(pattern, marker);
    FillOne(f, ":" + name);
    hide Fill, Tags, Delimited, NoMarker, At, NoNul, NoChar;
    assert f + (":" + name) == pattern[last..sep];
    FillNext(m, pattern, last, sep, f, [":" + name]);
    TagsAppend(m.names, name);
  }

  lemma FillOne(f: string, text: string)
    ensures Fill([f], [text]) == f + text
  {
    assert f + text + "" == f + text;
  }

  lemma ParamNamed(m: Matcher, pattern: string, last: nat, marker: nat, sep: nat)
    requires ParamAt(m, pattern, last, marker, sep)
    ensures var m' := WithParam(m, pattern, last, marker, sep);
            NoSlashes(m'.names) && |m'.fragments| == |m'.names| && (NoChar(pattern, '\0') ==> NoNul(m'))
  {
    hide Fill, Tags, Delimited, NoMarker, At;
    if NoChar(pattern, '\0') {
      assert NoChar(pattern[last..marker + 1], '\0');
    }
  }

  lemma ReadParam(m: Matcher, pattern: string, last: nat, marker: nat, sep: nat)
    requires ParamAt(m, pattern, last, marker, sep)
    ensures ReadUpTo(WithParam(m, pattern, last, marker, sep), pattern, sep + 1)
  {
    ParamDelimited(m, pattern, last, marker, sep);
    ParamFilled(m, pattern, last, marker, sep);
    ParamNamed(m, pattern, last, marker, sep);
    hide NoNul, NoSlashes, Fill, Tags, Delimited, NoMarker, At, NoChar, ParamAt;
  }

  lemma ReadEnd(m: Matcher, pattern: string, last: nat)
    requires ReadUpTo(m, pattern, last) && NoMarker(pattern[(if last == 0 then 0 else last - 1)..])
    ensures var m' := if last < |pattern| then Matcher(m.fragments + [pattern[last..]], m.names) else m;
            Compiled(m', pattern) && (NoChar(pattern, '\0') ==> NoNul(m'))
  {
    TagsHaveNoSlash(m.names);
    if last < |pattern| {
      var f := pattern[last..];
      assert pattern[last..|pattern|] == f && pattern[..|pattern|] == pattern;
      LeadIsSlice(m, pattern, last, |pattern|);
      DelimitedAppend(m, f, m.names);
      FillStatic(f);
      FillNext(m, pattern, last, |pattern|, f, []);
      assert Tags(m.names) + [] == Tags(m.names);
    } else if last == |pattern| && last > 0 {
      assert pattern == pattern[..last - 1] + "/";
    } else if last > 0 {
      assert pattern[..last - 1] == pattern;
    }
  }

  lemma TagsHaveNoSlash(names: seq<string>)
    requires NoSlashes(names)
    ensures NoSlashes(Tags(names))
  {
    forall i | 0 <= i < |names| ensures NoChar(Tags(names)[i], '/') {
      assert NoChar(names[i], '/');
    }
  }

  /** The constructor's loop: up to each marker a fragment, behind it a name. */
  method Compile(pattern: string) returns (m: Matcher)
    ensures Compiled(m, pattern)
    ensures NoChar(pattern, '\0') ==> NoNul(m)
  {
    var fragments: seq<string>, names: seq<string> := [], [];
    var last: nat := 0;
    assert ReadUpTo(Matcher([], []), pattern, 0);
    hide ReadUpTo, Compiled, NoNul, NoMarker, NoChar, At, First;
    while true
      invariant last <= |pattern| + 1 && ReadUpTo(Matcher(fragments, names), pattern, last)
      decreases |pattern| + 1 - last
    {
      var from := if last == 0 then last else last - 1;
      var marker := FindFrom(pattern, MARKER, from);
      NextMarker(pattern, from);
      if marker == |pattern| {
        break;
      }
      var nameStart := marker + |MARKER|;
      var sep := FindFrom(pattern, "/", nameStart);
      NextName(pattern, nameStart);
      assert ParamAt(Matcher(fragments, names), pattern, last, marker, sep);
      ReadParam(Matcher(fragments, names), pattern, last, marker, sep);
      fragments := fragments + [pattern[last..marker + 1]];
      names := names + [pattern[nameStart..sep]];
      last := sep + 1;
    }
    ReadEnd(Matcher(fragments, names), pattern, last);
    if last < |pattern| {
      fragments := fragments + [pattern[last..]];
    }
    m := Matcher(fragments, names);
  }

  lemma NextMarker(pattern: string, from: nat)
    requires from <= |pattern|
    ensures var marker := FindFrom(pattern, MARKER, from);
            && from <= marker <= |pattern|
            && (marker < |pattern| ==> marker + 2 <= |pattern|)
            && (marker < |pattern| ==> At(pattern, MARKER, marker) && NoMarker(pattern[from..marker + 1]))
            && (marker == |pattern| ==> NoMarker(pattern[from..]))
  {
    FoundFrom(pattern, MARKER, from);
    var marker := FindFrom(pattern, MARKER, from);
    if marker < |pattern| {
      SliceHasNoMarker(pattern, from, marker + 1);
    } else {
      SliceHasNoMarker(pattern, from, |pattern|);
      assert pattern[from..|pattern|] == pattern[from..];
    }
  }

  lemma NextName(pattern: string, from: nat)
    requires from <= |pattern|
    ensures var sep := FindFrom(pattern, "/", from);
            && from <= sep <= |pattern| && NoChar(pattern[from..sep], '/') && (sep < |pattern| ==> pattern[sep] == '/')
  {
    CaptureHasNoSlash(pattern[from..]);
    var k := Find(pattern[from..], "/");
    hide Find, First;
    assert pattern[from..][..k] == pattern[from..from + k];
  }

  // ----- what a compiled pattern matches

  /** A path is matched with these captures exactly when it is the pattern with the captures, free of
      slashes, in place of its parameters, up to one slash behind a parameter at the end. */
  lemma MatchesIffSubstituted(m: Matcher, pattern: string, path: string, texts: seq<string>)
    requires Compiled(m, pattern)
    ensures Outcome(m, path) == Some(texts) <==> Fits(m.fragments, |m.names|, texts, path)
  {
    if Outcome(m, path) == Some(texts) {
      MatchedFits(m.fragments, |m.names|, path, texts);
    }
    if Fits(m.fragments, |m.names|, texts, path) {
      FittingMatches(m.fragments, |m.names|, path, texts);
    }
  }

  /** Taken as a path, the pattern matches itself, and each parameter captures its own tag. */
  lemma PatternMatchesItself(m: Matcher, pattern: string)
    requires Compiled(m, pattern)
    ensures Outcome(m, pattern) == Some(Tags(m.names))
  {
    MatchesIffSubstituted(m, pattern, pattern, Tags(m.names));
  }

  /** Each name keeps its first capture, and no other name appears. */
  lemma {:induction false} AssignKeepsFirst(names: seq<string>, texts: seq<string>, i: nat)
    requires i < |texts| <= |names|
    ensures Assign(names, texts).Keys == set j | 0 <= j < |texts| :: names[j]
    ensures names[i] in Assign(names, texts)
    ensures names[i] !in names[..i] ==> Assign(names, texts)[names[i]] == texts[i]
  {
    var n := |texts| - 1;
    var earlier := texts[..n];
    if n == 0 {
      assert earlier == [] && Assign(names, earlier) == map[];
    } else {
      AssignKeepsFirst(names, earlier, if i < n then i else 0);
      if i == n && names[n] in Assign(names, earlier) {
        var j :| 0 <= j < n && names[j] == names[n];
        assert names[..i][j] == names[i];
      }
    }
    assert (set j | 0 <= j < |texts| :: names[j]) == (set j | 0 <= j < n :: names[j]) + {names[n]};
  }

  lemma FillTwo(a: string, x: string, b: string, y: string)
    ensures Fill([a, b], [x, y]) == a + x + ("/" + (b + y))
  {
    assert [a, b][1..] == [b] && [x, y][1..] == [y] && b + y + "" == b + y;
  }

  /** Two parameters and nothing behind them. */
  lemma TwoParamsFit(a: string, x: string, b: string, y: string)
    requires NoChar(x, '/') && NoChar(y, '/')
    ensures Fits([a, b], 2, [x, y], a + x + ("/" + (b + y)))
  {
    FillTwo(a, x, b, y);
  }

  lemma TwiceNamedCompiles()
    ensures Compiled(Matcher(["/", ""], ["a", "a"]), "/:a/:a")
  {
    var m := Matcher(["/", ""], ["a", "a"]);
    TwoParamsFit("/", ":a", "", ":a");
    assert Fits(m.fragments, 2, Tags(m.names), "/:a/:a") by {
      hide Fits;
      assert ":" + "a" == ":a" && Tags(m.names) == [":a", ":a"];
      assert "/" + ":a" + ("/" + ("" + ":a")) == "/:a/:a";
    }
    hide Fits;
    assert Lead(m, 0) == "/" && Lead(m, 1) == "/";
    assert Delimited(m, 0) && Delimited(m, 1);
  }

  // ----- the pattern determines the matcher

  /** `Compiled` for the rest of a pattern, in front of which `lead` stands. */
  ghost predicate Reads(m: Matcher, lead: string, s: string) {
    && WellShaped(m) && NoSlashes(m.names)
    && Fits(m.fragments, |m.names|, Tags(m.names), s)
    && (|m.fragments| > |m.names| ==> m.fragments[|m.names|] != "")
    && forall i :: 0 <= i < |m.fragments| ==> DelimitedBy(m, lead, i)
  }

  ghost predicate DelimitedBy(m: Matcher, lead: string, i: nat)
    requires i < |m.fragments|
  {
    var text := (if i == 0 then lead else "/") + m.fragments[i];
    NoMarker(text) && (i < |m.names| ==> text != "" && text[|text| - 1] == '/')
  }

  function Rest(m: Matcher): Matcher
    requires m.fragments != [] && m.names != []
  {
    Matcher(m.fragments[1..], m.names[1..])
  }

  lemma TagsTail(names: seq<string>)
    requires names != []
    ensures Tags(names)[0] == ":" + names[0] && Tags(names)[1..] == Tags(names[1..])
  {
  }

  lemma RestDelimited(m: Matcher, lead: string)
    requires m.fragments != [] && m.names != []
    requires forall i :: 0 <= i < |m.fragments| ==> DelimitedBy(m, lead, i)
    ensures forall i :: 0 <= i < |Rest(m).fragments| ==> DelimitedBy(Rest(m), "/", i)
  {
    hide NoMarker;
    forall i | 0 <= i < |Rest(m).fragments| ensures DelimitedBy(Rest(m), "/", i) {
      assert DelimitedBy(m, lead, i + 1);
      assert m.fragments[1..][i] == m.fragments[i + 1];
    }
  }

  /** A rest with a parameter: where it begins, its name, and what follows. */
  lemma ReadsHead(m: Matcher, lead: string, s: string) returns (tail: string)
    requires Reads(m, lead, s) && m.names != []
    ensures m.fragments != [] && s == m.fragments[0] + (":" + m.names[0]) + tail
    ensures |m.fragments| == 1 ==> tail == "" || tail == "/"
    ensures |m.fragments| > 1 ==> tail != "" && tail[0] == '/' && Reads(Rest(m), "/", tail[1..])
  {
    TagsTail(m.names);
    tail := FitsHead(m.fragments, |m.names|, Tags(m.names), s);
    RestDelimited(m, lead);
    hide Fits, DelimitedBy, Tags;
    assert forall i :: 0 <= i < |m.names[1..]| ==> m.names[1..][i] == m.names[i + 1];
  }

  lemma HeadSlices(f: string, name: string, tail: string)
    ensures var s := f + (":" + name) + tail;
            && s == f + (":" + (name + tail))
            && s[..|f|] == f && s[|f| + 1..] == name + tail
            && s[|f| + 1..|f| + 1 + |name|] == name && s[|f| + 1 + |name|..] == tail
  {
    Assoc(f, ":" + name, tail);
    Assoc(":", name, tail);
  }

  lemma MarkerHere(head: string, rest: string)
    requires head != "" && head[|head| - 1] == '/'
    ensures At(head + (":" + rest), MARKER, |head| - 1)
  {
    var whole, k := head + (":" + rest), |head| - 1;
    assert whole[k] == '/' && whole[k + 1] == ':';
    assert whole[k..k + 2] == [whole[k], whole[k + 1]];
  }

  lemma NoneBefore(head: string, rest: string, j: nat)
    requires NoMarker(head) && j + 1 < |head|
    ensures !At(head + rest, MARKER, j)
  {
    assert !At(head, MARKER, j);
    assert (head + rest)[..|head|] == head;
    AtPrefix(head + rest, MARKER, |head|, j);
    hide At;
  }

  lemma MarkerAtEnd(head: string, rest: string)
    requires NoMarker(head) && head != "" && head[|head| - 1] == '/'
    ensures Find(head + (":" + rest), MARKER) == |head| - 1
  {
    var whole, k := head + (":" + rest), |head| - 1;
    assert k < |whole|;
    hide At, NoMarker, Find;
    assert At(whole, MARKER, k) by { MarkerHere(head, rest); }
    assert forall j :: 0 <= j < k ==> !At(whole, MARKER, j) by {
      forall j | 0 <= j < k ensures !At(whole, MARKER, j) {
        NoneBefore(head, ":" + rest, j);
      }
    }
    assert First(whole, MARKER, k);
    hide First;
    FindIs(whole, MARKER, k);
  }

  /** The first marker and the end of the name behind it are found by searching. */
  lemma HeadIsFound(lead: string, f: string, name: string, tail: string)
    requires NoMarker(lead + f) && lead + f != "" && (lead + f)[|lead + f| - 1] == '/'
    requires NoChar(name, '/') && (tail == "" || tail[0] == '/')
    ensures var s := f + (":" + name) + tail;
            && Find(lead + s, MARKER) == |lead + f| - 1
            && Find(s[|f| + 1..], "/") == |name|
            && s[..|f|] == f && s[|f| + 1..|f| + 1 + |name|] == name && s[|f| + 1 + |name|..] == tail
  {
    HeadSlices(f, name, tail);
    Assoc(lead, f, ":" + (name + tail));
    MarkerAtEnd(lead + f, name + tail);
    SlashFound(name, tail);
    hide *;
  }

  lemma ReadsFound(m: Matcher, lead: string, s: string) returns (tail: string)
    requires Reads(m, lead, s) && m.names != []
    ensures m.fragments != [] && |lead + m.fragments[0]| == Find(lead + s, MARKER) + 1 <= |lead + s|
    ensures var n, k := |m.fragments[0]|, |m.names[0]|;
            && n + 1 + k <= |s| && m.fragments[0] == s[..n] && k == Find(s[n + 1..], "/")
            && m.names[0] == s[n + 1..n + 1 + k] && tail == s[n + 1 + k..]
    ensures |m.fragments| == 1 ==> tail == "" || tail == "/"
    ensures |m.fragments| > 1 ==> tail != "" && tail[0] == '/' && Reads(Rest(m), "/", tail[1..])
  {
    tail := ReadsHead(m, lead, s);
    assert DelimitedBy(m, lead, 0) && NoChar(m.names[0], '/');
    hide Reads, Find, First, At, NoMarker, NoChar;
    HeadIsFound(lead, m.fragments[0], m.names[0], tail);
  }

  /** Without parameters the rest is one fragment, or nothing, and holds no marker. */
  lemma ReadsStatic(m: Matcher, lead: string, s: string)
    requires Reads(m, lead, s) && m.names == []
    ensures m.fragments == if s == "" then [] else [s]
    ensures s != "" ==> NoMarker(lead + s)
  {
    if m.fragments != [] {
      FillStatic(m.fragments[0]);
      assert m.fragments == [m.fragments[0]] && Tags(m.names) == [];
      assert DelimitedBy(m, lead, 0);
    }
  }

  lemma NothingToRead(m: Matcher, lead: string)
    requires Reads(m, lead, "")
    ensures m.fragments == []
  {
    if m.names == [] {
      ReadsStatic(m, lead, "");
    } else {
      var _ := ReadsHead(m, lead, "");
    }
  }

  lemma MarkerIsFound(s: string)
    requires NoMarker(s)
    ensures Find(s, MARKER) == |s|
  {
  }

  lemma NamesAlike(m: Matcher, m': Matcher, lead: string, s: string)
    requires Reads(m, lead, s) && Reads(m', lead, s) && m.names == []
    ensures m'.names == []
  {
    if m'.names != [] {
      var tail := ReadsFound(m', lead, s);
      ReadsStatic(m, lead, s);
      MarkerIsFound(lead + s);
    }
  }

  lemma StaticAlike(m: Matcher, m': Matcher, lead: string, s: string)
    requires Reads(m, lead, s) && Reads(m', lead, s) && m.names == []
    ensures m == m'
  {
    NamesAlike(m, m', lead, s);
    ReadsStatic(m, lead, s);
    ReadsStatic(m', lead, s);
  }

  /** Both readings begin with the same fragment and name, in front of the same tail. */
  lemma HeadsAlike(m: Matcher, m': Matcher, lead: string, s: string) returns (tail: string)
    requires Reads(m, lead, s) && Reads(m', lead, s) && m.names != [] && m'.names != []
    ensures m.fragments != [] && m'.fragments != []
    ensures m.fragments[0] == m'.fragments[0] && m.names[0] == m'.names[0]
    ensures |m.fragments| == 1 || |m'.fragments| == 1 ==> |m.fragments| == |m'.fragments|
    ensures |m.fragments| > 1 && |m'.fragments| > 1 ==>
              tail != "" && Reads(Rest(m), "/", tail[1..]) && Reads(Rest(m'), "/", tail[1..])
  {
    hide *;
    tail := ReadsFound(m, lead, s);
    var tail' := ReadsFound(m', lead, s);
    assert |m.fragments[0]| == |m'.fragments[0]|;
    assert tail == tail';
    TailsAlike(m, m', tail);
    TailsAlike(m', m, tail);
  }

  lemma TailsAlike(m: Matcher, m': Matcher, tail: string)
    requires |m.fragments| == 1 ==> tail == "" || tail == "/"
    requires |m'.fragments| > 1 ==> m'.names != [] && tail != "" && Reads(Rest(m'), "/", tail[1..])
    requires m.fragments != [] && m'.fragments != []
    ensures |m.fragments| == 1 ==> |m'.fragments| == 1
  {
    hide Reads;
    if |m.fragments| == 1 && |m'.fragments| > 1 {
      assert tail[1..] == "";
      NothingToRead(Rest(m'), "/");
    }
  }

  lemma {:induction false} OneReading(m: Matcher, m': Matcher, lead: string, s: string)
    requires Reads(m, lead, s) && Reads(m', lead, s)
    ensures m == m'
    decreases |m.fragments|
  {
    if m.names == [] {
      StaticAlike(m, m', lead, s);
    } else if m'.names == [] {
      StaticAlike(m', m, lead, s);
    } else {
      var tail := HeadsAlike(m, m', lead, s);
      assert WellShaped(m) && WellShaped(m');
      hide Reads;
      if |m.fragments| > 1 {
        OneReading(Rest(m), Rest(m'), "/", tail[1..]);
        HeadAndRest(m);
        HeadAndRest(m');
        hide Rest;
      } else {
        HeadOnly(m);
        HeadOnly(m');
      }
    }
  }

  lemma HeadAndRest(m: Matcher)
    requires m.fragments != [] && m.names != []
    ensures m == Matcher([m.fragments[0]] + Rest(m).fragments, [m.names[0]] + Rest(m).names)
  {
  }

  lemma HeadOnly(m: Matcher)
    requires WellShaped(m) && |m.fragments| == 1 && m.names != []
    ensures m == Matcher([m.fragments[0]], [m.names[0]])
  {
  }

  /** There is one way to read a pattern, so the constructor's result is determined by `Compiled`. */
  lemma CompiledIsUnique(m: Matcher, m': Matcher, pattern: string)
    requires Compiled(m, pattern) && Compiled(m', pattern)
    ensures m == m'
  {
    CompiledReads(m, pattern);
    CompiledReads(m', pattern);
    OneReading(m, m', "", pattern);
  }

  lemma CompiledReads(m: Matcher, pattern: string)
    requires Compiled(m, pattern)
    ensures Reads(m, "", pattern)
  {
    forall i | 0 <= i < |m.fragments| ensures DelimitedBy(m, "", i) {
      assert Delimited(m, i);
    }
    hide Fits, Tags;
  }

  // ----- which captures are kept

  predicate Distinct(names: seq<string>) {
    forall i, j :: 0 <= i < j < |names| ==> names[i] != names[j]
  }

  ghost predicate AllKept(names: seq<string>, texts: seq<string>)
    requires |texts| == |names|
  {
    var kept := Assign(names, texts);
    forall i :: 0 <= i < |names| ==> names[i] in kept && kept[names[i]] == texts[i]
  }

  /** Every capture can be looked up under its name, whatever is captured, if and only if the names are
      distinct. */
  lemma CapturesKeptIff(names: seq<string>)
    ensures (forall texts: seq<string> | |texts| == |names| :: AllKept(names, texts)) <==> Distinct(names)
  {
    if Distinct(names) {
      forall texts: seq<string> | |texts| == |names| ensures AllKept(names, texts) {
        forall i | 0 <= i < |names| ensures names[i] in Assign(names, texts) && Assign(names, texts)[names[i]] == texts[i] {
          AssignKeepsFirst(names, texts, i);
        }
      }
    } else {
      var i, j :| 0 <= i < j < |names| && names[i] == names[j];
      var texts := seq(|names|, k => if k == j then "x" else "");
      assert texts[i] != texts[j];
      assert !AllKept(names, texts);
    }
  }

  /** A pattern may name a parameter twice: the constructor's set of names is never filled, so the pattern
      is accepted, and with the matcher that is built the second capture is lost. */
  lemma RepeatedNameLosesCapture(m: Matcher)
    requires Compiled(m, "/:a/:a")
    ensures m.names == ["a", "a"] && !Distinct(m.names)
    ensures Outcome(m, "/x/y") == Some(["x", "y"]) && Assign(m.names, ["x", "y"]) == map["a" := "x"]
  {
    TwiceNamedCompiles();
    CompiledIsUnique(m, Matcher(["/", ""], ["a", "a"]), "/:a/:a");
    TwoParamsFit("/", "x", "", "y");
    AssignPush(["a", "a"], [], "x");
    AssignPush(["a", "a"], ["x"], "y");
    assert m.names[0] == m.names[1];
    hide Fits, Compiled, MatchRest;
    assert "/" + "x" + ("/" + ("" + "y")) == "/x/y";
    assert [] + ["x"] == ["x"] && ["x"] + ["y"] == ["x", "y"];
    MatchesIffSubstituted(m, "/:a/:a", "/x/y", ["x", "y"]);
  }
}
