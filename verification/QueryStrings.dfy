/** Query strings: the printer of parameter lists and the two parsers that read them, the HTTP
    library's splitter and the facade's one-pass loop. */
module QueryStrings {
  import opened PercentCoding
  import opened Text

  type Params = seq<(string, string)>

  // ----- the printer

  predicate ValuesAreBytes(params: Params) {
    forall i :: 0 <= i < |params| ==> IsBytes(params[i].1)
  }

  function PrintPair(p: (string, string)): string
    requires IsBytes(p.1)
  {
    p.0 + "=" + EncodeParam(p.1)
  }

  function Print(params: Params): string
    requires ValuesAreBytes(params)
  {
    if params == [] then ""
    else if |params| == 1 then PrintPair(params[0])
    else PrintPair(params[0]) + "&" + Print(params[1..])
  }

  function Separator(params: Params, i: nat): string {
    if 0 < i < |params| then "&" else ""
  }

  lemma PrintTurn(params: Params, i: nat)
    requires ValuesAreBytes(params) && i < |params|
    ensures Print(params[i..]) == PrintPair(params[i]) + Separator(params, i + 1) + Print(params[i + 1..])
  {
    var rest := params[i..];
    assert rest[0] == params[i] && rest[1..] == params[i + 1..];
  }

  method ParamsToQueryStr(params: Params) returns (query: string)
    requires ValuesAreBytes(params)
    ensures query == Print(params)
  {
    query := "";
    assert params[0..] == params;
    for i := 0 to |params|
      invariant query + (Separator(params, i) + Print(params[i..])) == Print(params)
    {
      PrintTurn(params, i);
      hide Print;
      ghost var pair, tail := PrintPair(params[i]), Separator(params, i + 1) + Print(params[i + 1..]);
      Assoc(pair, Separator(params, i + 1), Print(params[i + 1..]));
      Assoc(query, Separator(params, i), pair + tail);
      Assoc(query + Separator(params, i), pair, tail);
      ghost var before := query;
      if i > 0 {
        query := query + "&";
      }
      assert query == before + Separator(params, i);
      var escaped := EncodeQueryParam(params[i].1);
      Assoc(query + params[i].0, "=", escaped);
      Assoc(query, params[i].0, "=" + escaped);
      Assoc(params[i].0, "=", escaped);
      query := query + params[i].0 + "=" + escaped;
    }
  }

  // ----- the library's parser

  function DividePair(piece: string): (string, string) {
    var i := Find(piece, "=");
    (piece[..i], if i < |piece| then piece[i + 1..] else "")
  }

  /** The parameters emplaced from the pieces of a query; a piece already seen is skipped. */
  function Emplace(pieces: seq<string>, seen: set<string>): Params {
    if pieces == [] then []
    else if pieces[0] in seen then Emplace(pieces[1..], seen)
    else
      var (k, v) := DividePair(pieces[0]);
      (if k == "" then [] else [(DecodeUrl(k, true), DecodeUrl(v, true))])
      + Emplace(pieces[1..], seen + {pieces[0]})
  }

  function ParseQueryText(s: string): Params {
    Emplace(Split(s, '&'), {})
  }

  /** The value of the first parameter with this name; a missing one reads as empty. */
  function Lookup(params: Params, k: string): string {
    if params == [] then "" else if params[0].0 == k then params[0].1 else Lookup(params[1..], k)
  }

  // ----- the facade's parser

  datatype Scan = Scan(current: string, key: string, value: string, parsingKey: bool, params: map<string, string>)

  const START := Scan("", "", "", true, map[])

  function ScanChar(st: Scan, c: char): Scan {
    if c == '=' then Scan("", UrlDecode(st.current), st.value, false, st.params)
    else if c == '&' then
      Scan("", "", "", true, if st.key != "" then st.params[st.key := UrlDecode(st.current)] else st.params)
    else st.(current := st.current + [c])
  }

  function ScanText(st: Scan, s: string): Scan
    decreases |s|
  {
    if s == "" then st else ScanText(ScanChar(st, s[0]), s[1..])
  }

  function ScanEnd(st: Scan): map<string, string> {
    if st.current == "" then st.params
    else
      var key := if st.parsingKey then UrlDecode(st.current) else st.key;
      var value := if st.parsingKey then st.value else UrlDecode(st.current);
      if key != "" then st.params[key := value] else st.params
  }

  function MapLookup(params: map<string, string>, k: string): string {
    if k in params then params[k] else ""
  }

  /** The parsing loop of `processCompanyRequest`. */
  method ParseCompanyQuery(query: string) returns (params: map<string, string>)
    ensures params == ScanEnd(ScanText(START, query))
  {
    params := map[];
    var current, key, value, parsingKey := "", "", "", true;
    for i := 0 to |query|
      invariant ScanText(Scan(current, key, value, parsingKey, params), query[i..]) == ScanText(START, query)
    {
      var c := query[i];
      assert query[i..][1..] == query[i + 1..];
      if c == '=' {
        key := UrlDecodeLoop(current);
        current := "";
        parsingKey := false;
      } else if c == '&' {
        value := UrlDecodeLoop(current);
        if key != "" {
          params := params[key := value];
        }
        current := "";
        key, value := "", "";
        parsingKey := true;
      } else {
        current := current + [c];
      }
    }
    if current != "" {
      if parsingKey {
        key := UrlDecodeLoop(current);
      } else {
        value := UrlDecodeLoop(current);
      }
      if key != "" {
        params := params[key := value];
      }
    }
  }

  // ----- printed lists are read back by both

  predicate Unreserved(s: string) {
    s != "" && forall i :: 0 <= i < |s| ==> Plain(s[i])
  }

  ghost predicate Printable(params: Params) {
    && ValuesAreBytes(params)
    && (forall i :: 0 <= i < |params| ==> Unreserved(params[i].0))
    && forall i, j :: 0 <= i < j < |params| ==> params[i].0 != params[j].0
  }

  lemma {:induction false} UnreservedIsItself(s: string)
    requires forall i :: 0 <= i < |s| ==> Plain(s[i])
    ensures IsBytes(s) && EncodeParam(s) == s
  {
    if s != "" {
      UnreservedIsItself(s[1..]);
    }
  }

  lemma UnreservedDecodes(s: string)
    requires Unreserved(s)
    ensures DecodeUrl(s, true) == s && UrlDecode(s) == s
  {
    UnreservedIsItself(s);
    DecodeInvertsEncode(s);
    UrlDecodeInvertsEncode(s);
  }

  /** What a printed pair contains: no separator but its own `=`, and no blank. */
  lemma PairText(p: (string, string))
    requires Unreserved(p.0) && IsBytes(p.1)
    ensures NoChar(p.0, '=') && NoChar(EncodeParam(p.1), '=')
    ensures NoChar(p.0, '&') && NoChar(EncodeParam(p.1), '&') && NoChar(PrintPair(p), '&')
    ensures PrintPair(p) != "" && Trim(PrintPair(p)) == PrintPair(p)
  {
    EncodedIsPlain(p.1);
    var s := PrintPair(p);
    assert s[0] == p.0[0];
    var e := EncodeParam(p.1);
    assert s[|s| - 1] == if e == "" then '=' else e[|e| - 1];
  }

  lemma PairDivides(p: (string, string))
    requires Unreserved(p.0) && IsBytes(p.1)
    ensures DividePair(PrintPair(p)) == (p.0, EncodeParam(p.1))
  {
    PairText(p);
    NoCharNoMarker(p.0, "=");
    FindAfter(p.0, "=", EncodeParam(p.1));
    assert PrintPair(p)[..|p.0|] == p.0;
    assert PrintPair(p)[|p.0| + 1..] == EncodeParam(p.1);
  }

  function Pieces(params: Params): seq<string>
    requires ValuesAreBytes(params)
  {
    if params == [] then [] else [PrintPair(params[0])] + Pieces(params[1..])
  }

  lemma {:induction false} PrintSplits(params: Params)
    requires Printable(params)
    ensures Split(Print(params), '&') == Pieces(params)
  {
    if params != [] {
      PairText(params[0]);
      PrintSplits(params[1..]);
      if |params| == 1 {
        SplitOne(PrintPair(params[0]), '&');
      } else {
        SplitHead(PrintPair(params[0]), '&', Print(params[1..]));
      }
    }
  }

  lemma {:induction false} PiecesEmplace(params: Params, seen: set<string>)
    requires Printable(params)
    requires forall i :: 0 <= i < |params| ==> PrintPair(params[i]) !in seen
    ensures Emplace(Pieces(params), seen) == params
  {
    if params != [] {
      var p, rest := params[0], params[1..];
      PairDivides(p);
      forall i | 0 <= i < |rest| ensures PrintPair(rest[i]) !in seen + {PrintPair(p)} {
        assert rest[i] == params[i + 1];
        PairDivides(rest[i]);
      }
      PiecesEmplace(rest, seen + {PrintPair(p)});
      UnreservedDecodes(p.0);
      DecodeInvertsEncode(p.1);
    }
  }

  /** The library reads back exactly the printed list. */
  lemma LibraryReadsPrinted(params: Params)
    requires Printable(params)
    ensures ParseQueryText(Print(params)) == params
  {
    PrintSplits(params);
    PiecesEmplace(params, {});
  }

  lemma {:induction false} ScanAppend(st: Scan, a: string, b: string)
    ensures ScanText(st, a + b) == ScanText(ScanText(st, a), b)
    decreases |a|
  {
    if a == "" {
      assert a + b == b;
    } else {
      assert (a + b)[1..] == a[1..] + b;
      ScanAppend(ScanChar(st, a[0]), a[1..], b);
    }
  }

  lemma {:induction false} ScanWord(st: Scan, w: string)
    requires NoChar(w, '=') && NoChar(w, '&')
    ensures ScanText(st, w) == st.(current := st.current + w)
    decreases |w|
  {
    if w == "" {
      assert st.current + w == st.current;
    } else {
      ScanWord(ScanChar(st, w[0]), w[1..]);
      assert st.current + [w[0]] + w[1..] == st.current + w;
    }
  }

  lemma ScanPair(params: map<string, string>, p: (string, string))
    requires Unreserved(p.0) && IsBytes(p.1)
    ensures ScanText(START.(params := params), PrintPair(p)) == Scan(EncodeParam(p.1), p.0, "", false, params)
  {
    var st := START.(params := params);
    PairText(p);
    ScanAppend(st, p.0 + "=", EncodeParam(p.1));
    ScanAppend(st, p.0, "=");
    ScanWord(st, p.0);
    assert st.current + p.0 == p.0;
    UnreservedDecodes(p.0);
    ScanWord(Scan("", p.0, "", false, params), EncodeParam(p.1));
    assert "" + EncodeParam(p.1) == EncodeParam(p.1);
  }

  lemma {:induction false} ScanPrinted(params: Params, known: map<string, string>, k: string)
    requires Printable(params)
    requires forall i :: 0 <= i < |params| ==> params[i].0 !in known
    ensures var got := ScanEnd(ScanText(START.(params := known), Print(params)));
            MapLookup(got, k) == if k in known then known[k] else Lookup(params, k)
  {
    if params != [] {
      var p, rest := params[0], params[1..];
      ScanPair(known, p);
      UrlDecodeInvertsEncode(p.1);
      if |params| == 1 {
        assert Lookup(rest, k) == "";
        EncodedEmpty(p.1);
      } else {
        ScanAppend(START.(params := known), PrintPair(p) + "&", Print(rest));
        ScanAppend(START.(params := known), PrintPair(p), "&");
        var known' := known[p.0 := p.1];
        assert ScanText(Scan(EncodeParam(p.1), p.0, "", false, known), "&") == START.(params := known');
        ScanPrinted(rest, known', k);
      }
    }
  }

  lemma EncodedEmpty(s: string)
    requires IsBytes(s)
    ensures EncodeParam(s) == "" <==> s == ""
  {
  }

  /** For printed lists with distinct unreserved keys both parsers agree with the list, hence with
      each other, on every name; a name that is missing reads as empty. */
  lemma ParsersAgree(params: Params, k: string)
    requires Printable(params)
    ensures MapLookup(ScanEnd(ScanText(START, Print(params))), k) == Lookup(params, k)
    ensures Lookup(ParseQueryText(Print(params)), k) == Lookup(params, k)
  {
    ScanPrinted(params, map[], k);
    LibraryReadsPrinted(params);
  }
}
