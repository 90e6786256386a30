/** What a first chunk too short for the opening line costs. */
module MultipartLoss {
  import opened MultipartLines
  import opened MultipartRoundTrip
  import opened MultipartSpec
  import opened Text

  /** The opening line occurs in the written part at its start only: no line of the part ends like it. */
  ghost predicate Unmistakable(one: Part, boundary: string) {
    forall j: nat :: j > 0 ==> !At(WrittenPart(one, boundary), Opening(boundary), j)
  }

  ghost predicate AllUnmistakable(parts: seq<Part>, boundary: string) {
    forall i :: 0 <= i < |parts| ==> Unmistakable(parts[i], boundary)
  }

  lemma OpeningEndsLine(boundary: string)
    requires BoundaryChars(boundary)
    ensures var o := Opening(boundary); |o| >= 4 && o[|o| - 1] == '\n' && forall i :: 0 <= i < |o| - 1 ==> o[i] != '\n'
  {
    var o := Opening(boundary);
    forall i | 0 <= i < |o| - 1 ensures o[i] != '\n' {
      if 2 <= i < |boundary| + 2 {
        assert o[i] == boundary[i - 2];
      }
    }
  }

  lemma AtChar(s: string, p: string, i: nat, k: nat)
    requires At(s, p, i) && k < |p|
    ensures i + |p| <= |s| && s[i + k] == p[k]
  {
    assert s[i..i + |p|][k] == s[i + k];
  }

  /** An occurrence lies in the part or behind it, never across its end. */
  lemma OccursInPart(part: string, rest: string, o: string, i: nat)
    requires part != "" && part[|part| - 1] == '\n' && At(part + rest, o, i) && i < |part|
    requires o != "" && forall k :: 0 <= k < |o| - 1 ==> o[k] != '\n'
    ensures At(part, o, i)
  {
    if i + |o| > |part| {
      AtChar(part + rest, o, i, |part| - 1 - i);
      assert false;
    }
    assert (part + rest)[..|part|] == part;
    AtPrefix(part + rest, o, |part|, i);
  }

  lemma PartEndsLine(one: Part, boundary: string)
    ensures var part := WrittenPart(one, boundary); part != "" && part[|part| - 1] == '\n'
  {
  }

  /** Where an occurrence at `i` leads: to the item `k`, or behind the last one. */
  ghost predicate LeadsTo(parts: seq<Part>, boundary: string, i: nat, k: nat) {
    && k <= |parts| && (i > 0 && parts != [] ==> k > 0) && i <= |Written(parts, boundary)|
    && (k < |parts| ==> Written(parts, boundary)[i..] == Written(parts[k..], boundary))
    && (k == |parts| ==> i + |Opening(boundary)| == |Written(parts, boundary)|)
  }

  lemma LeadsFurther(parts: seq<Part>, boundary: string, part: string, i: nat, j: nat)
    requires parts != [] && Written(parts, boundary) == part + Written(parts[1..], boundary)
    requires LeadsTo(parts[1..], boundary, i, j)
    ensures LeadsTo(parts, boundary, |part| + i, j + 1)
  {
    var s, rest := Written(parts, boundary), Written(parts[1..], boundary);
    hide Written, Opening;
    assert parts[1..][j..] == parts[j + 1..];
    assert s[|part| + i..] == rest[i..];
  }

  /** The opening line occurs where an item begins, or else at the very end. */
  lemma {:induction false} OpeningAt(parts: seq<Part>, boundary: string, i: nat) returns (k: nat)
    requires BoundaryChars(boundary) && AllUnmistakable(parts, boundary)
    requires At(Written(parts, boundary), Opening(boundary), i)
    ensures LeadsTo(parts, boundary, i, k)
  {
    if parts == [] {
      k := 0;
      LastLine(boundary, i);
    } else {
      var part, rest := WrittenPart(parts[0], boundary), Written(parts[1..], boundary);
      WrittenSplits(parts, boundary);
      if i < |part| {
        k := 0;
        OpensFirst(parts, boundary, i);
      } else {
        UnmistakableTail(parts, boundary);
        hide Opening, Written, WrittenPart, AllUnmistakable, LeadsTo;
        AtLater(part, rest, Opening(boundary), i);
        hide At;
        var j := OpeningAt(parts[1..], boundary, i - |part|);
        LeadsFurther(parts, boundary, part, i - |part|, j);
        k := j + 1;
      }
    }
  }

  lemma AtLater(part: string, rest: string, o: string, i: nat)
    requires At(part + rest, o, i) && i >= |part|
    ensures At(rest, o, i - |part|)
  {
    DropHead(part, rest);
    AtSuffix(part + rest, o, |part|, i - |part|);
  }

  lemma UnmistakableTail(parts: seq<Part>, boundary: string)
    requires parts != [] && AllUnmistakable(parts, boundary)
    ensures AllUnmistakable(parts[1..], boundary) && Unmistakable(parts[0], boundary)
  {
  }

  lemma OpensFirst(parts: seq<Part>, boundary: string, i: nat)
    requires BoundaryChars(boundary) && parts != [] && AllUnmistakable(parts, boundary)
    requires At(Written(parts, boundary), Opening(boundary), i) && i < |WrittenPart(parts[0], boundary)|
    ensures LeadsTo(parts, boundary, i, 0)
  {
    var part, rest := WrittenPart(parts[0], boundary), Written(parts[1..], boundary);
    WrittenSplits(parts, boundary);
    UnmistakableTail(parts, boundary);
    OpeningEndsLine(boundary);
    PartEndsLine(parts[0], boundary);
    hide Opening, Written, WrittenPart, At, AllUnmistakable;
    OccursInPart(part, rest, Opening(boundary), i);
    assert i == 0;
    assert parts[0..] == parts;
  }

  lemma WrittenSplits(parts: seq<Part>, boundary: string)
    requires parts != []
    ensures Written(parts, boundary) == WrittenPart(parts[0], boundary) + Written(parts[1..], boundary)
  {
    Assoc(WrittenPart(parts[0], boundary), WrittenParts(parts[1..], boundary), "--" + boundary + "--" + CRLF);
  }

  lemma LastLineChars(boundary: string)
    requires BoundaryChars(boundary)
    ensures var s := Written([], boundary); forall n :: 0 <= n < |s| - 1 ==> s[n] != '\n'
  {
    var s := "--" + boundary + "--" + CRLF;
    assert Written([], boundary) == s;
    forall n | 0 <= n < |s| - 1 ensures s[n] != '\n' {
      if 2 <= n < |boundary| + 2 {
        assert s[n] == boundary[n - 2];
      }
    }
  }

  lemma LastLine(boundary: string, i: nat)
    requires BoundaryChars(boundary) && At(Written([], boundary), Opening(boundary), i)
    ensures i + |Opening(boundary)| == |Written([], boundary)|
  {
    OpeningEndsLine(boundary);
    LastLineChars(boundary);
    hide Written;
    AtChar(Written([], boundary), Opening(boundary), i, |Opening(boundary)| - 1);
  }

  /** A chunk without the opening line leaves the fresh parser as it was. */
  lemma ChunkIsLost(chunk: string, chunks: seq<string>, boundary: string, accepts: Receiver)
    requires Find(chunk, Opening(boundary)) == |chunk|
    ensures Feed(FRESH, [chunk] + chunks, boundary, accepts) == Feed(FRESH, chunks, boundary, accepts)
  {
    assert "" + chunk == chunk && chunk[|chunk|..] == "" && ([chunk] + chunks)[1..] == chunks;
    assert Parse(FRESH, chunk, boundary, accepts) == (FRESH, true);
  }

  lemma InitialStep(p: Parser, f: nat, boundary: string, accepts: Receiver)
    requires Opening(boundary) != "" && p.stage == Initial && f == Find(p.window, Opening(boundary))
    requires f <= |p.window| && |Opening(boundary)| <= |p.window[f..]| && At(p.window[f..], Opening(boundary), 0)
    ensures Step(p, boundary, accepts) == Next(p.(window := p.window[f..][|Opening(boundary)|..], stage := Entry))
  {
    hide Opening, Find, At, First;
  }

  lemma Opens(chunk: string, boundary: string, accepts: Receiver)
    requires Find(chunk, Opening(boundary)) < |chunk|
    ensures var f, o := Find(chunk, Opening(boundary)), Opening(boundary);
            && f + |o| <= |chunk|
            && Step(FRESH.(window := chunk), boundary, accepts) == Next(Parser(Entry, false, NO_FILE, chunk[f + |o|..], []))
  {
    var p := Parser(Initial, false, NO_FILE, chunk, []);
    assert FRESH.(window := chunk) == p by {
      hide Find, First, At, Opening, Step;
    }
    OpeningNonEmpty(boundary);
    hide *;
    var f := Find(chunk, Opening(boundary));
    FoundIsAt(chunk, Opening(boundary));
    FrontAt(chunk, Opening(boundary), f);
    InitialStep(p, f, boundary, accepts);
  }

  lemma FrontAt(s: string, o: string, f: nat)
    requires At(s, o, f)
    ensures f + |o| <= |s| && At(s[f..], o, 0) && s[f..][|o|..] == s[f + |o|..]
  {
    assert s[f..][..|o|] == s[f..f + |o|] && s[f..][0..|o|] == s[f..][..|o|];
  }

  /** The rest of a call, and the calls after it as long as none fails. */
  function Onward(p: Parser, chunks: seq<string>, boundary: string, accepts: Receiver): (Parser, bool) {
    var (q, ok) := Run(p, boundary, accepts);
    if ok then Feed(q, chunks, boundary, accepts) else (q, false)
  }

  /** A chunk with it goes on behind it. */
  lemma ChunkOpens(chunk: string, chunks: seq<string>, boundary: string, accepts: Receiver)
    requires Find(chunk, Opening(boundary)) < |chunk|
    ensures var f, o := Find(chunk, Opening(boundary)), Opening(boundary);
            && f + |o| <= |chunk|
            && var p := Parser(Entry, false, NO_FILE, chunk[f + |o|..], []);
               Feed(FRESH, [chunk] + chunks, boundary, accepts) == Onward(p, chunks, boundary, accepts)
  {
    Opens(chunk, boundary, accepts);
    hide Opening, Find, At, First, Step;
    assert "" + chunk == chunk && ([chunk] + chunks)[1..] == chunks;
    assert FRESH.(window := FRESH.window + chunk) == FRESH.(window := chunk);
    assert Run(FRESH.(window := chunk), boundary, accepts) ==
           Run(Step(FRESH.(window := chunk), boundary, accepts).parser, boundary, accepts);
  }

  lemma {:induction false} NothingMore(p: Parser, chunks: seq<string>, boundary: string, accepts: Receiver)
    requires p.window == "" && Concat(chunks) == ""
    ensures Feed(p, chunks, boundary, accepts) == (p, true)
    decreases |chunks|
  {
    if chunks != [] {
      assert chunks[0] == "" && p.(window := p.window + chunks[0]) == p;
      NothingMore(p, chunks[1..], boundary, accepts);
    }
  }

  lemma ReadyTail(parts: seq<Part>, k: nat, boundary: string, accepts: Receiver)
    requires k <= |parts| && Ready(parts, boundary, accepts)
    ensures Ready(parts[k..], boundary, accepts)
  {
  }

  /** From the beginning of a later part on, everything goes as if the stream had begun there. */
  lemma ResumedAt(parts: seq<Part>, window: string, chunks: seq<string>, boundary: string, accepts: Receiver)
    requires parts != [] && Ready(parts, boundary, accepts)
    requires Opening(boundary) + (window + Concat(chunks)) == Written(parts, boundary)
    ensures var (q, ok) := Onward(Parser(Entry, false, NO_FILE, window, []), chunks, boundary, accepts);
            ok == AllReadable(parts) && Deliver(q.log) == Received(parts)
  {
    var p, rest, goal := Parser(Entry, false, NO_FILE, window, []), Concat(chunks), GoalOf(parts);
    EntryStands(parts, window, rest, boundary);
    hide Stands, Run, Opening, Written, AllSendable, BoundaryChars, AcceptsAll, Received, AllReadable;
    var at := RunStands(AtEntry(parts), p, rest, goal, boundary, accepts);
    if at.Refused? {
      RefusedIs(Run(p, boundary, accepts).0, rest, goal, boundary);
    } else {
      FeedStands(at, Run(p, boundary, accepts).0, chunks, goal, boundary, accepts);
    }
  }

  /** Where the text in front of `i` has gone by, the rest of the whole follows. */
  lemma Behind(gone: string, chunk: string, rest: string, whole: string, i: nat, n: nat)
    requires gone + (chunk + rest) == whole && i + n <= |chunk|
    ensures whole[|gone| + i..] == chunk[i..i + n] + (chunk[i + n..] + rest)
  {
    assert whole[|gone|..] == chunk + rest;
    assert whole[|gone| + i..] == (chunk + rest)[i..];
    assert (chunk + rest)[i..] == chunk[i..i + n] + (chunk[i + n..] + rest);
  }

  /** Once bytes are lost, or the first ones are about to be, only later parts arrive: all from some item
      on, or none. */
  lemma {:induction false} Lost(parts: seq<Part>, gone: string, chunks: seq<string>, boundary: string, accepts: Receiver)
      returns (k: nat)
    requires parts != [] && Ready(parts, boundary, accepts) && AllUnmistakable(parts, boundary)
    requires gone + Concat(chunks) == Written(parts, boundary)
    requires gone != "" || |FirstChunk(chunks)| < |Opening(boundary)|
    ensures 0 < k <= |parts|
    ensures var (q, ok) := Feed(FRESH, chunks, boundary, accepts);
            (ok <==> AllReadable(parts[k..])) && Deliver(q.log) == Received(parts[k..])
    decreases |chunks|
  {
    if chunks == [] {
      k := |parts|;
    } else {
      var chunk, later, o := chunks[0], chunks[1..], Opening(boundary);
      assert chunks == [chunk] + later;
      Assoc(gone, chunk, Concat(later));
      if Find(chunk, o) == |chunk| {
        ChunkIsLost(chunk, later, boundary, accepts);
        assert gone == "" && chunk == "" ==> FirstChunk(later) == FirstChunk(chunks);
        hide Ready, AllUnmistakable, Opening, Written, Feed, Find, At, First;
        k := Lost(parts, gone + chunk, later, boundary, accepts);
      } else {
        assert gone != "";
        k := Found(parts, gone, chunk, later, boundary, accepts);
      }
    }
  }

  lemma Located(gone: string, chunk: string, rest: string, whole: string, o: string, f: nat)
    requires gone + (chunk + rest) == whole && At(chunk, o, f)
    ensures f + |o| <= |chunk| && At(whole, o, |gone| + f)
    ensures whole[|gone| + f..] == o + (chunk[f + |o|..] + rest)
    ensures |whole| == |gone| + f + |o| + |chunk[f + |o|..] + rest|
  {
    Behind(gone, chunk, rest, whole, f, |o|);
    var i := |gone| + f;
    assert whole[i..][..|o|] == whole[i..i + |o|];
  }

  lemma OpeningNonEmpty(boundary: string)
    ensures Opening(boundary) != ""
  {
  }

  lemma FoundIsAt(s: string, p: string)
    requires p != "" && Find(s, p) < |s|
    ensures At(s, p, Find(s, p))
  {
  }

  lemma ReadyBoundary(parts: seq<Part>, boundary: string, accepts: Receiver)
    requires Ready(parts, boundary, accepts)
    ensures BoundaryChars(boundary)
  {
  }

  lemma Found(parts: seq<Part>, gone: string, chunk: string, later: seq<string>, boundary: string, accepts: Receiver)
      returns (k: nat)
    requires parts != [] && Ready(parts, boundary, accepts) && AllUnmistakable(parts, boundary)
    requires gone != "" && gone + (chunk + Concat(later)) == Written(parts, boundary)
    requires Find(chunk, Opening(boundary)) < |chunk|
    ensures 0 < k <= |parts|
    ensures var (q, ok) := Feed(FRESH, [chunk] + later, boundary, accepts);
            (ok <==> AllReadable(parts[k..])) && Deliver(q.log) == Received(parts[k..])
  {
    hide *;
    var o, whole, rest := Opening(boundary), Written(parts, boundary), Concat(later);
    OpeningNonEmpty(boundary);
    var f := Find(chunk, o);
    FoundIsAt(chunk, o);
    ReadyBoundary(parts, boundary, accepts);
    ChunkOpens(chunk, later, boundary, accepts);
    Located(gone, chunk, rest, whole, o, f);
    k := OpeningAt(parts, boundary, |gone| + f);
    LeadsBounds(parts, boundary, |gone| + f, k);
    ReadyTail(parts, k, boundary, accepts);
    FoundAt(parts, k, |gone| + f, chunk[f + |o|..], later, boundary, accepts);
  }

  lemma LeadsBounds(parts: seq<Part>, boundary: string, i: nat, k: nat)
    requires LeadsTo(parts, boundary, i, k) && i > 0 && parts != []
    ensures 0 < k <= |parts|
  {
  }

  lemma FoundAt(parts: seq<Part>, k: nat, i: nat, window: string, later: seq<string>, boundary: string, accepts: Receiver)
    requires LeadsTo(parts, boundary, i, k) && Ready(parts[k..], boundary, accepts)
    requires Written(parts, boundary)[i..] == Opening(boundary) + (window + Concat(later))
    ensures var (q, ok) := Onward(Parser(Entry, false, NO_FILE, window, []), later, boundary, accepts);
            (ok <==> AllReadable(parts[k..])) && Deliver(q.log) == Received(parts[k..])
  {
    var p := Parser(Entry, false, NO_FILE, window, []);
    var s := Written(parts, boundary);
    hide Opening, Written, Feed, Run, Ready;
    if k < |parts| {
      ResumedAt(parts[k..], window, later, boundary, accepts);
    } else {
      assert |s[i..]| == |Opening(boundary)|;
      NothingLeft(window, Concat(later));
      RunNothing(p, boundary, accepts);
      NothingMore(p, later, boundary, accepts);
      assert parts[k..] == [] && Deliver([]) == [];
    }
  }

  lemma NothingLeft(window: string, rest: string)
    requires |window + rest| == 0
    ensures window == "" && rest == ""
  {
  }

  lemma RunNothing(p: Parser, boundary: string, accepts: Receiver)
    requires p.window == ""
    ensures Run(p, boundary, accepts) == (p, true)
  {
  }

  lemma {:induction false} ReceivedCount(parts: seq<Part>, k: nat)
    requires k <= |parts| && AllReadable(parts)
    ensures |Received(parts)| == |parts| && AllReadable(parts[k..]) && |Received(parts[k..])| == |parts| - k
  {
    hide Readable;
    if k > 0 {
      ReceivedCount(parts[1..], k - 1);
      assert parts[1..][k - 1..] == parts[k..];
    } else if parts != [] {
      ReceivedCount(parts[1..], 0);
      assert parts[0..] == parts;
    }
  }

  /** When no line inside a part can be taken for the opening line, and every header block can be read, the
      items come back, all of them and nothing else, if and only if the first chunk holds the opening line;
      otherwise the parser delivers the items from a later one on, or none, without complaint. */
  lemma RoundTripIff(parts: seq<Part>, chunks: seq<string>, boundary: string, accepts: Receiver)
    requires parts != [] && Ready(parts, boundary, accepts) && AllUnmistakable(parts, boundary) && AllReadable(parts)
    requires Concat(chunks) == Written(parts, boundary)
    ensures var (q, ok) := Feed(FRESH, chunks, boundary, accepts);
            && (ok && q.valid && Deliver(q.log) == Received(parts) <==> |FirstChunk(chunks)| >= |Opening(boundary)|)
            && (|FirstChunk(chunks)| < |Opening(boundary)| ==>
                  ok && exists k :: 0 < k <= |parts| && Deliver(q.log) == Received(parts[k..]))
  {
    if |FirstChunk(chunks)| >= |Opening(boundary)| {
      RoundTrip(parts, chunks, boundary, accepts);
    } else {
      assert "" + Concat(chunks) == Concat(chunks);
      var k := Lost(parts, "", chunks, boundary, accepts);
      hide *;
      ReceivedCount(parts, k);
    }
  }
}
