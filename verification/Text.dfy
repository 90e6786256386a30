/** Byte strings: a `char` stands for one byte. Searching, trimming and splitting as the HTTP library does. */
module Text {
  const CRLF := "\r\n"

  lemma Assoc<T>(a: seq<T>, b: seq<T>, c: seq<T>)
    ensures a + b + c == a + (b + c)
  {
  }

  lemma DropHead<T>(a: seq<T>, b: seq<T>)
    ensures (a + b)[|a|..] == b
  {
  }

  function Concat(pieces: seq<string>): string {
    if pieces == [] then "" else pieces[0] + Concat(pieces[1..])
  }

  predicate Begins(s: string, p: string) {
    |p| <= |s| && s[..|p|] == p
  }

  // ----- searching

  predicate At(s: string, p: string, i: nat) {
    i + |p| <= |s| && s[i..i + |p|] == p
  }

  /** `i` is where `p` first occurs in `s`, or `|s|` when it does not occur. */
  predicate First(s: string, p: string, i: nat) {
    && i <= |s|
    && (i < |s| ==> At(s, p, i))
    && forall j :: 0 <= j < i ==> !At(s, p, j)
  }

  lemma AtTail(s: string, p: string, j: nat)
    requires s != ""
    ensures At(s, p, j + 1) <==> At(s[1..], p, j)
  {
    if j + 1 + |p| <= |s| {
      assert s[j + 1..j + 1 + |p|] == s[1..][j..j + |p|];
    }
  }

  lemma FirstInTail(s: string, p: string, i: nat)
    requires s != "" && !At(s, p, 0) && First(s[1..], p, i)
    ensures First(s, p, i + 1)
  {
    AtTail(s, p, i);
    forall j | 0 < j < i + 1 ensures !At(s, p, j) {
      AtTail(s, p, j - 1);
    }
  }

  function Find(s: string, p: string): (i: nat)
    requires p != ""
    ensures First(s, p, i)
  {
    if |s| < |p| then |s|
    else if s[..|p|] == p then 0
    else
      var i := Find(s[1..], p);
      FirstInTail(s, p, i);
      i + 1
  }

  lemma FindIs(s: string, p: string, i: nat)
    requires p != "" && First(s, p, i)
    ensures Find(s, p) == i
  {
    var k: nat := Find(s, p);
    if k < |s| && At(s, p, k) {
      assert i <= k;
    }
  }

  lemma AtSuffix(s: string, p: string, k: nat, j: nat)
    requires k <= |s|
    ensures At(s[k..], p, j) <==> At(s, p, k + j)
  {
    if k + j + |p| <= |s| {
      assert s[k + j..k + j + |p|] == s[k..][j..j + |p|];
    }
  }

  lemma AtPrefix(s: string, p: string, k: nat, j: nat)
    requires k <= |s|
    ensures At(s[..k], p, j) <==> At(s, p, j) && j + |p| <= k
  {
    if j + |p| <= k {
      assert s[..k][j..j + |p|] == s[j..j + |p|];
    }
  }

  /** A search in a prefix finds what the whole holds there, or nothing. */
  lemma FindInPrefix(s: string, p: string, k: nat)
    requires p != "" && k <= |s|
    ensures Find(s[..k], p) == if Find(s, p) + |p| <= k then Find(s, p) else k
  {
    var f := Find(s, p);
    var g := if f + |p| <= k then f else k;
    AtPrefix(s, p, k, f);
    forall j | 0 <= j < g ensures !At(s[..k], p, j) {
      AtPrefix(s, p, k, j);
    }
    FindIs(s[..k], p, g);
  }

  predicate NoChar(s: string, c: char) {
    forall i :: 0 <= i < |s| ==> s[i] != c
  }

  /** The marker is first found where it was put, when the text before it does not hold it and its
      own first character does not recur in it. */
  lemma FindAfter(r: string, p: string, rest: string)
    requires p != "" && NoChar(p[1..], p[0])
    requires forall j :: !At(r, p, j)
    ensures Find(r + p + rest, p) == |r|
  {
    var s := r + p + rest;
    assert s[|r|..|r| + |p|] == p;
    forall j | 0 <= j < |r| ensures !At(s, p, j) {
      if j + |p| <= |r| {
        assert !At(r, p, j);
        assert s[j..j + |p|] == r[j..j + |p|];
      } else if j + |p| <= |s| {
        assert s[j..j + |p|][|r| - j] == s[|r|] == p[0];
        assert p[|r| - j] == p[1..][|r| - j - 1];
      }
    }
    FindIs(s, p, |r|);
  }

  lemma NoCharNoMarker(r: string, p: string)
    requires p != "" && NoChar(r, p[0])
    ensures forall j :: !At(r, p, j)
  {
    forall j: nat ensures !At(r, p, j) {
      if j + |p| <= |r| {
        assert r[j..j + |p|][0] != p[0];
      }
    }
  }

  // ----- trimming

  predicate Blank(c: char) {
    c == ' ' || c == '\t'
  }

  function TrimLeft(s: string): string {
    if s != "" && Blank(s[0]) then TrimLeft(s[1..]) else s
  }

  function TrimRight(s: string): string {
    if s != "" && Blank(s[|s| - 1]) then TrimRight(s[..|s| - 1]) else s
  }

  function Trim(s: string): string {
    TrimRight(TrimLeft(s))
  }

  function TrimQuotes(s: string): string {
    if |s| >= 2 && s[0] == '"' && s[|s| - 1] == '"' then s[1..|s| - 1] else s
  }

  // ----- splitting

  /** The pieces between occurrences of `d`, trimmed, the empty ones left out. */
  function Split(s: string, d: char): seq<string> {
    var i := Find(s, [d]);
    var piece := Trim(s[..i]);
    var rest := if i < |s| then Split(s[i + 1..], d) else [];
    if piece == "" then rest else [piece] + rest
  }

  lemma SplitOne(s: string, d: char)
    requires NoChar(s, d) && Trim(s) != ""
    ensures Split(s, d) == [Trim(s)]
  {
    NoCharNoMarker(s, [d]);
    assert s[..|s|] == s;
  }

  lemma SplitHead(a: string, d: char, b: string)
    requires NoChar(a, d) && Trim(a) != ""
    ensures Split(a + [d] + b, d) == [Trim(a)] + Split(b, d)
  {
    var s := a + [d] + b;
    NoCharNoMarker(a, [d]);
    FindAfter(a, [d], b);
    assert s[..|a|] == a && s[|a| + 1..] == b;
  }

  /** A blank after a separator is trimmed away. */
  lemma SplitSkipsBlank(s: string, d: char)
    requires !Blank(d)
    ensures Split(" " + s, d) == Split(s, d)
  {
    var t := " " + s;
    assert t[1..] == s && t[..1] == " ";
    var i := Find(s, [d]);
    assert t[..i + 1] == " " + s[..i];
    assert (" " + s[..i])[1..] == s[..i];
    assert t[i + 1..] == s[i..];
    if |s| > 0 && i < |s| {
      assert t[i + 1 + 1..] == s[i + 1..];
    }
    FoundAfterBlank(s, d);
  }

  lemma FoundAfterBlank(s: string, d: char)
    requires !Blank(d)
    ensures Find(" " + s, [d]) == Find(s, [d]) + 1
  {
    var t := " " + s;
    var i := Find(s, [d]);
    assert t[1..] == s;
    assert !At(t, [d], 0) by {
      assert t[0..1] == " ";
    }
    FirstInTail(t, [d], i);
    FindIs(t, [d], i + 1);
  }

  lemma SplitNext(q: string, d: char, rest: string)
    requires !Blank(d) && NoChar(q, d) && q != "" && Trim(q) == q
    ensures Split(q + ([d] + " " + rest), d) == [q] + Split(rest, d)
  {
    hide *;
    SplitHead(q, d, " " + rest);
    SplitSkipsBlank(rest, d);
    Assoc([d], " ", rest);
    Assoc(q, [d], " " + rest);
  }

  // ----- letters

  function Lower(c: char): char {
    var n := c as int;
    if 65 <= n <= 90 || (192 <= n <= 222 && n != 215) then (n + 32) as char else c
  }

  /** `pre` begins `s` up to the case of letters, those of Latin-1 included. */
  predicate StartsWithIgnoreCase(s: string, pre: string) {
    |pre| <= |s| && forall i :: 0 <= i < |pre| ==> Lower(s[i]) == Lower(pre[i])
  }

  lemma StartsWithSelf(pre: string, rest: string)
    ensures StartsWithIgnoreCase(pre + rest, pre) && (pre + rest)[|pre|..] == rest
  {
  }

  lemma StartsOtherwise(s: string, pre: string, i: nat)
    requires i < |pre| && i < |s| && Lower(s[i]) != Lower(pre[i])
    ensures !StartsWithIgnoreCase(s, pre)
  {
  }
}
