/** The facade's one-pass loop over a query, told by what it is cut into: on every query it reads what
    cutting at the ampersands, and each piece at its equals signs, says. */
module QueryPieces {
  import opened PercentCoding
  import opened QueryStrings
  import opened Text

  /** All the pieces between occurrences of `d`, empty ones included. */
  function Fields(s: string, d: char): (f: seq<string>)
    ensures f != []
    decreases |s|
  {
    var i := Find(s, [d]);
    if i == |s| then [s] else [s[..i]] + Fields(s[i + 1..], d)
  }

  /** What a piece adds. Without an equals sign it is a name, but only at the end of the query; of several
      equals signs the last two fields count; a piece without a name adds nothing, and neither does one
      without a value at the end. */
  function Store(m: map<string, string>, piece: string, last: bool): map<string, string> {
    var f := Fields(piece, '=');
    if |f| == 1 then
      var k := UrlDecode(piece);
      if last && k != "" then m[k := ""] else m
    else
      var k, v := UrlDecode(f[|f| - 2]), f[|f| - 1];
      if k == "" || (last && v == "") then m else m[k := UrlDecode(v)]
  }

  function StoreAll(m: map<string, string>, pieces: seq<string>): map<string, string>
    requires pieces != []
    decreases |pieces|
  {
    if |pieces| == 1 then Store(m, pieces[0], true) else StoreAll(Store(m, pieces[0], false), pieces[1..])
  }

  lemma FirstCuts(s: string, d: char, i: nat)
    requires First(s, [d], i)
    ensures NoChar(s[..i], d) && (i < |s| ==> s == s[..i] + ([d] + s[i + 1..]))
  {
    forall j | 0 <= j < i ensures s[j] != d {
      assert !At(s, [d], j);
      assert s[j..j + 1] == [s[j]];
    }
    if i < |s| {
      assert s[i..i + 1] == [d] && s[i] == d;
    }
  }

  lemma CutAt(s: string, d: char)
    ensures var i := Find(s, [d]);
            && i <= |s| && NoChar(s[..i], d)
            && (i < |s| ==> s == s[..i] + ([d] + s[i + 1..]) && Fields(s, d) == [s[..i]] + Fields(s[i + 1..], d))
            && (i == |s| ==> s[..i] == s && Fields(s, d) == [s])
  {
    hide Find, First, NoChar;
    var i := Find(s, [d]);
    FirstCuts(s, d, i);
    FirstBounds(s, [d], i);
  }

  lemma FirstBounds(s: string, p: string, i: nat)
    requires First(s, p, i)
    ensures i <= |s|
  {
  }

  lemma ScanEquals(st: Scan)
    ensures ScanText(st, "=") == Scan("", UrlDecode(st.current), st.value, false, st.params)
  {
    hide UrlDecode;
    assert ScanText(st, "=") == ScanChar(st, '=');
  }

  lemma ScanFirst(st: Scan, a: string, rest: string)
    requires st.current == "" && NoChar(a, '=') && NoChar(a, '&')
    ensures ScanText(st, a + ("=" + rest)) == ScanText(Scan("", UrlDecode(a), st.value, false, st.params), rest)
  {
    hide *;
    ScanWord(st, a);
    assert "" + a == a;
    ScanEquals(st.(current := a));
    ScanAppend(st, a, "=" + rest);
    ScanAppend(st.(current := a), "=", rest);
  }

  /** The last field, and the one before it if there is one. */
  function FieldsEnd(st: Scan, f: seq<string>): Scan
    requires f != []
  {
    Scan(f[|f| - 1], if |f| > 1 then UrlDecode(f[|f| - 2]) else st.key, st.value, st.parsingKey && |f| == 1, st.params)
  }

  lemma FieldsEndTail(st: Scan, a: string, g: seq<string>)
    requires g != []
    ensures FieldsEnd(st, [a] + g) == FieldsEnd(Scan("", UrlDecode(a), st.value, false, st.params), g)
  {
    var f := [a] + g;
    hide UrlDecode;
    assert f[|f| - 1] == g[|g| - 1];
    assert f[|f| - 2] == if |g| > 1 then g[|g| - 2] else a;
  }

  lemma ScanOnly(st: Scan, piece: string)
    requires NoChar(piece, '&') && NoChar(piece, '=') && st.current == ""
    ensures ScanText(st, piece) == FieldsEnd(st, [piece])
  {
    hide ScanText, NoChar, UrlDecode;
    ScanWord(st, piece);
    assert "" + piece == piece;
  }

  lemma {:induction false} ScanFields(st: Scan, piece: string)
    requires NoChar(piece, '&') && st.current == ""
    ensures ScanText(st, piece) == FieldsEnd(st, Fields(piece, '='))
    decreases |piece|
  {
    var i := Find(piece, "=");
    assert "=" == ['='];
    CutAt(piece, '=');
    if i == |piece| {
      hide *;
      ScanOnly(st, piece);
    } else {
      var a, rest := piece[..i], piece[i + 1..];
      assert NoChar(rest, '&') && NoChar(a, '&');
      hide *;
      ScanFirst(st, a, rest);
      ScanFields(Scan("", UrlDecode(a), st.value, false, st.params), rest);
      FieldsEndTail(st, a, Fields(rest, '='));
    }
  }

  lemma OneField(s: string, d: char)
    ensures |Fields(s, d)| == 1 ==> Fields(s, d) == [s]
  {
    CutAt(s, d);
    hide Find, NoChar;
  }

  lemma DecodesEmpty()
    ensures UrlDecode("") == ""
  {
  }

  lemma LastPiece(m: map<string, string>, piece: string)
    requires NoChar(piece, '&')
    ensures ScanEnd(ScanText(START.(params := m), piece)) == Store(m, piece, true)
  {
    ScanFields(START.(params := m), piece);
    OneField(piece, '=');
    DecodesEmpty();
    hide UrlDecode, Find, ScanText, NoChar, Fields;
  }

  lemma InnerPiece(m: map<string, string>, piece: string)
    requires NoChar(piece, '&')
    ensures ScanText(START.(params := m), piece + "&") == START.(params := Store(m, piece, false))
  {
    var st := START.(params := m);
    ScanFields(st, piece);
    ScanAppend(st, piece, "&");
    var done := ScanText(st, piece);
    assert ScanText(done, "&") == ScanChar(done, '&');
    hide UrlDecode, Find, ScanText, NoChar, Fields;
  }

  lemma {:induction false} PiecesStored(m: map<string, string>, query: string)
    ensures ScanEnd(ScanText(START.(params := m), query)) == StoreAll(m, Fields(query, '&'))
    decreases |query|
  {
    var i := Find(query, "&");
    CutAt(query, '&');
    assert "&" == ['&'];
    if i == |query| {
      LastPiece(m, query);
    } else {
      var a, rest := query[..i], query[i + 1..];
      assert Fields(query, '&')[1..] == Fields(rest, '&');
      assert StoreAll(m, Fields(query, '&')) == StoreAll(Store(m, a, false), Fields(rest, '&'));
      hide ScanText, ScanEnd, Fields, Store, StoreAll, Find, NoChar;
      InnerPiece(m, a);
      Assoc(a, "&", rest);
      ScanAppend(START.(params := m), a + "&", rest);
      PiecesStored(Store(m, a, false), rest);
    }
  }

  /** On every query whatever. */
  lemma FacadeReadsPieces(query: string)
    ensures ScanEnd(ScanText(START, query)) == StoreAll(map[], Fields(query, '&'))
  {
    PiecesStored(map[], query);
    assert START.(params := map[]) == START;
  }

  /** The library divides a piece at its first equals sign; without one the value is empty. */
  lemma LibraryDividesAtFirst(k: string, v: string)
    requires NoChar(k, '=')
    ensures DividePair(k + "=" + v) == (k, v) && DividePair(k) == (k, "")
  {
    NoCharNoMarker(k, "=");
    FindAfter(k, "=", v);
    var s := k + "=" + v;
    assert s[..|k|] == k && s[|k| + 1..] == v && k[..|k|] == k;
  }
}
