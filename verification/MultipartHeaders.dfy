/** The header lines that the serializer writes are read back field by field. */
module MultipartHeaders {
  import opened HeaderSyntax
  import opened MultipartSpec
  import opened Options
  import opened PercentCoding
  import opened Text

  /** Characters that names and file names may hold: no separator, no control character. */
  predicate NameChars(s: string) {
    forall i :: 0 <= i < |s| ==> s[i] != ';' && s[i] != '=' && (s[i] == ' ' || FieldVchar(s[i]))
  }

  function Quoted(key: string, value: string): string {
    key + "=\"" + value + "\""
  }

  predicate Word(s: string) {
    s != "" && forall i :: 0 <= i < |s| ==> Alpha(s[i]) || s[i] == '*'
  }

  lemma Words()
    ensures Word("name") && Word("filename")
  {
    var n, f := "name", "filename";
    assert n == ['n', 'a', 'm', 'e'] && f == ['f', 'i', 'l', 'e', 'n', 'a', 'm', 'e'];
  }

  lemma QuotedText(key: string, value: string)
    requires Word(key) && NameChars(value)
    ensures var q := Quoted(key, value);
            q != "" && Trim(q) == q && NoChar(q, ';') && OneLine(q) && !Space(q[0])
            && forall i :: 0 <= i < |q| ==> Blank(q[i]) || FieldVchar(q[i])
  {
    var q := Quoted(key, value);
    assert q[0] == key[0];
    assert q[|q| - 1] == '"';
    TrimIdle(q);
    forall i | 0 <= i < |q| ensures q[i] != ';' && q[i] != '\r' && q[i] != '\n' && (Blank(q[i]) || FieldVchar(q[i])) {
      if i < |key| {
        assert q[i] == key[i];
      } else if |key| + 2 <= i < |q| - 1 {
        assert q[i] == value[i - |key| - 2];
      }
    }
  }

  lemma QuotedValue(value: string)
    requires NameChars(value)
    ensures var v := "\"" + value + "\"";
            NoChar(v, '=') && v != "" && Trim(v) == v && TrimQuotes(v) == value
  {
    var v := "\"" + value + "\"";
    forall i | 0 <= i < |v| ensures v[i] != '=' {
      if 1 <= i < |v| - 1 {
        assert v[i] == value[i - 1];
      }
    }
    TrimIdle(v);
    assert v[1..|v| - 1] == value;
  }

  lemma WordText(key: string)
    requires Word(key)
    ensures NoChar(key, '=') && Trim(key) == key && TrimQuotes(key) == key
  {
    TrimIdle(key);
  }

  /** A quoted parameter is split at its equals sign and loses its quotes. */
  lemma QuotedReads(key: string, value: string)
    requires Word(key) && NameChars(value)
    ensures KeyValue(Quoted(key, value)) == Some((key, value))
  {
    var v := "\"" + value + "\"";
    assert Quoted(key, value) == key + ['='] + v;
    QuotedValue(value);
    WordText(key);
    SplitOne(v, '=');
    SplitHead(key, '=', v);
    hide Split, Trim, TrimQuotes, NoChar;
    assert Split(Quoted(key, value), '=') == [key, v];
  }

  /** A value without quotes is taken as it is, and a word alone has none. */
  lemma BareReads(key: string, value: string)
    requires Word(key) && NameChars(value) && value != "" && value[0] != '"' && value[0] != ' ' && value[|value| - 1] != ' '
    ensures KeyValue(key + "=" + value) == Some((key, value)) && KeyValue(key) == Some((key, ""))
  {
    assert key + "=" + value == key + ['='] + value;
    assert NoChar(value, '=');
    TrimIdle(value);
    WordText(key);
    SplitOne(value, '=');
    SplitHead(key, '=', value);
    SplitOne(key, '=');
    hide Split, Trim, NoChar;
    assert Split(key + "=" + value, '=') == [key, value];
  }

  /** The parameters of a name line, in order: words, each once, with what they say. */
  predicate Listed(params: seq<(string, string)>) {
    && (forall i :: 0 <= i < |params| ==> Word(params[i].0) && NameChars(params[i].1))
    && (forall i, j :: 0 <= i < j < |params| ==> params[i].0 != params[j].0)
  }

  function ParamsText(params: seq<(string, string)>): string
    requires params != []
  {
    Quoted(params[0].0, params[0].1) + (if |params| == 1 then "" else "; " + ParamsText(params[1..]))
  }

  /** How a name line is written: its two words in some letter case, and the blanks behind their marks. */
  datatype Style = Style(key: string, pad: string, form: string, gap: string)

  const STANDARD := Style("Content-Disposition", " ", "form-data;", " ")

  predicate Usual(style: Style) {
    && EqualIgnoreCase(style.key, "Content-Disposition") && EqualIgnoreCase(style.form, "form-data;")
    && Blanks(style.pad) && Blanks(style.gap)
  }

  function NameLine(style: Style, params: seq<(string, string)>): string
    requires params != []
  {
    style.key + ":" + (style.pad + (style.form + (style.gap + ParamsText(params))))
  }

  lemma StandardIsUsual()
    ensures Usual(STANDARD)
  {
  }

  predicate ValueText(t: string) {
    && t != "" && !Space(t[0]) && FieldVchar(t[0]) && t[|t| - 1] == '"'
    && forall i :: 0 <= i < |t| ==> Blank(t[i]) || FieldVchar(t[i])
  }

  lemma ValueTextJoins(q: string, t: string)
    requires ValueText(q) && ValueText(t)
    ensures ValueText(q + "; " + t)
  {
    var s := q + "; " + t;
    assert s[0] == q[0] && s[|s| - 1] == t[|t| - 1];
    forall i | 0 <= i < |s| ensures Blank(s[i]) || FieldVchar(s[i]) {
      if i < |q| {
        assert s[i] == q[i];
      } else if i >= |q| + 2 {
        assert s[i] == t[i - |q| - 2];
      }
    }
  }

  lemma {:induction false} ParamsAreValueText(params: seq<(string, string)>)
    requires params != [] && Listed(params)
    ensures ValueText(ParamsText(params))
  {
    var q := Quoted(params[0].0, params[0].1);
    QuotedText(params[0].0, params[0].1);
    assert q[0] == params[0].0[0] && q[|q| - 1] == '"';
    assert ValueText(q);
    hide ValueText, NameChars, Quoted, Word;
    if |params| > 1 {
      ParamsAreValueText(params[1..]);
      ValueTextJoins(q, ParamsText(params[1..]));
      Assoc(q, "; ", ParamsText(params[1..]));
    } else {
      assert q + "" == q;
    }
  }

  lemma LetterChars(c: char, d: char)
    requires Lower(c) == Lower(d) && (Alpha(d) || d == '-' || d == ';')
    ensures Alpha(c) || c == d
  {
  }

  lemma SameLetters(word: string, pre: string)
    requires EqualIgnoreCase(word, pre) && forall i :: 0 <= i < |pre| ==> Alpha(pre[i]) || pre[i] == '-' || pre[i] == ';'
    ensures |word| == |pre| && forall i :: 0 <= i < |pre| ==> Alpha(word[i]) || word[i] == pre[i]
  {
    forall i | 0 <= i < |pre| ensures Alpha(word[i]) || word[i] == pre[i] {
      LetterChars(word[i], pre[i]);
    }
  }

  lemma KeyOfStyle(key: string)
    requires EqualIgnoreCase(key, "Content-Disposition")
    ensures IsFieldName(key) && |key| == 19 && NoChar(key, ':')
  {
    var word := "Content-Disposition";
    assert |word| == 19;
    assert forall i :: 0 <= i < 19 ==> Alpha(word[i]) || word[i] == '-';
    hide EqualIgnoreCase;
    SameLetters(key, word);
    assert forall i :: 0 <= i < 19 ==> TokenChar(key[i]);
    NoColonInToken(key);
  }

  lemma FormOfStyle(form: string)
    requires EqualIgnoreCase(form, "form-data;")
    ensures |form| == 10 && forall i :: 0 <= i < |form| ==> FieldVchar(form[i]) && !Space(form[i])
  {
    var word := "form-data;";
    assert |word| == 10;
    assert forall i :: 0 <= i < 10 ==> Alpha(word[i]) || word[i] == '-' || word[i] == ';';
    hide EqualIgnoreCase;
    SameLetters(form, word);
  }

  lemma WordsOfStyle(style: Style)
    requires Usual(style)
    ensures IsFieldName(style.key) && |style.key| == 19 && NoChar(style.key, ':')
    ensures |style.form| == 10 && forall i :: 0 <= i < |style.form| ==> FieldVchar(style.form[i]) && !Space(style.form[i])
  {
    hide EqualIgnoreCase, IsFieldName, NoChar, FieldVchar, Space, Blanks;
    KeyOfStyle(style.key);
    FormOfStyle(style.form);
  }

  lemma ValueTextIsValue(style: Style, t: string)
    requires ValueText(t) && Usual(style)
    ensures OneLine(t) && var v := style.form + (style.gap + t); IsFieldValue(v) && !Blank(v[0]) && !Blank(v[|v| - 1])
  {
    var v := style.form + (style.gap + t);
    WordsOfStyle(style);
    hide EqualIgnoreCase;
    assert v[0] == style.form[0] && v[|v| - 1] == t[|t| - 1];
    forall i | 0 <= i < |v| ensures Blank(v[i]) || FieldVchar(v[i]) {
      assert v[i] == if i < 10 then style.form[i]
                     else if i < 10 + |style.gap| then style.gap[i - 10] else t[i - 10 - |style.gap|];
    }
  }

  lemma {:induction false} SkipBlanks(pad: string, s: string)
    requires Blanks(pad) && s != "" && !Space(s[0])
    ensures SkipSpace(pad + s) == s
  {
    if pad == "" {
      assert pad + s == s;
    } else {
      assert (pad + s)[1..] == pad[1..] + s;
      assert Blank(pad[0]);
      SkipBlanks(pad[1..], s);
    }
  }

  lemma SameStart(word: string, rest: string, pre: string)
    requires EqualIgnoreCase(word, pre)
    ensures StartsWithIgnoreCase(word + rest, pre) && (word + rest)[|pre|..] == rest
  {
  }

  lemma DispositionOf(style: Style, t: string)
    requires Usual(style) && t != "" && !Space(t[0]) && OneLine(t)
    ensures Disposition(style.key + ":" + (style.pad + (style.form + (style.gap + t)))) == Some(t)
  {
    var params := style.gap + t;
    var rest := style.form + params;
    WordsOfStyle(style);
    assert rest[0] == style.form[0];
    assert EqualIgnoreCase(style.key + ":", "Content-Disposition:") by {
      var a, b := style.key + ":", "Content-Disposition:";
      forall i | 0 <= i < |b| ensures Lower(a[i]) == Lower(b[i]) {
        if i < 19 {
          assert a[i] == style.key[i] && b[i] == "Content-Disposition"[i];
        }
      }
    }
    SameStart(style.key + ":", style.pad + rest, "Content-Disposition:");
    SameStart(style.form, params, "form-data;");
    SkipBlanks(style.pad, rest);
    SkipBlanks(style.gap, t);
    hide StartsWithIgnoreCase, EqualIgnoreCase, SkipSpace, OneLine;
    assert |"form-data;"| == 10 && |"Content-Disposition:"| == 20;
  }

  function Pieces(params: seq<(string, string)>): seq<string> {
    if params == [] then [] else [Quoted(params[0].0, params[0].1)] + Pieces(params[1..])
  }

  lemma {:induction false} ParamPieces(params: seq<(string, string)>)
    requires params != [] && Listed(params)
    ensures Split(ParamsText(params), ';') == Pieces(params)
  {
    var q := Quoted(params[0].0, params[0].1);
    QuotedText(params[0].0, params[0].1);
    assert Pieces(params) == [q] + Pieces(params[1..]);
    if |params| == 1 {
      hide Split, Trim, Quoted, NameChars, OneLine, Word;
      SplitOne(q, ';');
      assert q + "" == q;
    } else {
      var rest := ParamsText(params[1..]);
      assert ParamsText(params) == q + ("; " + rest) && Listed(params[1..]);
      hide *;
      ParamPieces(params[1..]);
      assert [';'] + " " == "; ";
      SplitNext(q, ';', rest);
    }
  }

  lemma {:induction false} ParamsRead(params: seq<(string, string)>, seen: set<string>)
    requires Listed(params) && forall i :: 0 <= i < |params| ==> Quoted(params[i].0, params[i].1) !in seen
    ensures DispositionParams(Pieces(params), seen) == params
  {
    if params != [] {
      var q := Quoted(params[0].0, params[0].1);
      QuotedReads(params[0].0, params[0].1);
      forall i | 1 <= i < |params| ensures Quoted(params[i].0, params[i].1) != q {
        QuotedReads(params[i].0, params[i].1);
      }
      assert params == [params[0]] + params[1..];
      assert Pieces(params)[1..] == Pieces(params[1..]);
      hide Quoted, KeyValue, NameChars, Word;
      ParamsRead(params[1..], seen + {q});
    }
  }

  lemma NameLineParses(style: Style, params: seq<(string, string)>)
    requires Usual(style) && params != [] && Listed(params)
    ensures ParseHeader(NameLine(style, params)).Some?
  {
    var t := ParamsText(params);
    var v := style.form + (style.gap + t);
    ParamsAreValueText(params);
    hide ParamsText, Listed, ParseHeader;
    ValueTextIsValue(style, t);
    WordsOfStyle(style);
    assert NameLine(style, params) == LineText(style.key, style.pad, v, "");
    assert Divides(style.key, style.pad, v, "");
    hide IsFieldName, IsFieldValue, ValueText, LineText, Divides;
    ParsesIff(style.key, style.pad, v, "");
  }

  lemma NameLineDisposes(style: Style, params: seq<(string, string)>)
    requires Usual(style) && params != [] && Listed(params)
    ensures !StartsWithIgnoreCase(NameLine(style, params), "Content-Type:")
    ensures Disposition(NameLine(style, params)) == Some(ParamsText(params))
  {
    var t, line := ParamsText(params), NameLine(style, params);
    WordsOfStyle(style);
    ParamsAreValueText(params);
    ValueTextIsValue(style, t);
    assert line[8] == style.key[8] && Lower(style.key[8]) == Lower("Content-Disposition"[8]) == 'd' && "Content-Type:"[8] == 'T';
    hide ParamsText, Listed, StartsWithIgnoreCase, Disposition, OneLine, EqualIgnoreCase;
    StartsOtherwise(line, "Content-Type:", 8);
    DispositionOf(style, t);
  }

  /** What a name line comes to is decided by its parameters alone. */
  lemma NameLineReads(style: Style, params: seq<(string, string)>, file: FormData)
    requires Usual(style) && params != [] && Listed(params)
    ensures ReadHeader(NameLine(style, params), file) == ApplyParams(params, file)
  {
    NameLineParses(style, params);
    NameLineDisposes(style, params);
    ParamPieces(params);
    ParamsRead(params, {});
    hide Disposition, DispositionParams, ApplyParams, Split, ParamsText, NameLine, StartsWithIgnoreCase, ParseHeader,
         Pieces, Listed, Usual;
  }

  predicate Says(params: seq<(string, string)>, key: string, value: string) {
    (key, value) in params
  }

  predicate Silent(params: seq<(string, string)>, key: string) {
    forall i :: 0 <= i < |params| ==> params[i].0 != key
  }

  lemma {:induction false} ParamIs(params: seq<(string, string)>, key: string)
    requires Listed(params)
    ensures Silent(params, key) ==> Param(params, key) == None
    ensures forall value :: Says(params, key, value) ==> Param(params, key) == Some(value)
  {
    if params != [] {
      ParamIs(params[1..], key);
      assert params == [params[0]] + params[1..];
      hide Word, NameChars;
    }
  }

  /** A name line without a name is refused. */
  lemma NamelessLineIsRefused(style: Style, params: seq<(string, string)>, file: FormData)
    requires Usual(style) && params != [] && Listed(params) && Silent(params, "name")
    ensures ReadHeader(NameLine(style, params), file) == Bad(file)
  {
    NameLineReads(style, params, file);
    ParamIs(params, "name");
    hide ReadHeader, NameLine, Param, Usual;
  }

  /** A name line sets the name, and the file name if it gives one, and nothing else. */
  lemma PlainNameLineReads(style: Style, params: seq<(string, string)>, file: FormData, name: string, filename: Option<string>)
    requires Usual(style) && params != [] && Listed(params) && Says(params, "name", name) && Silent(params, "filename*")
    requires if filename.Some? then Says(params, "filename", filename.value) else Silent(params, "filename")
    ensures ReadHeader(NameLine(style, params), file) ==
            Good(file.(name := name, filename := if filename.Some? then filename.value else file.filename))
  {
    NameLineReads(style, params, file);
    ParamIs(params, "name");
    ParamIs(params, "filename");
    ParamIs(params, "filename*");
    hide ReadHeader, NameLine, Param, Usual;
  }

  /** A file name in extended notation is decoded, when it says it is UTF-8, and takes the place of a plain
      one; in any other encoding, or empty, the line is refused. */
  lemma ExtendedNameLineReads(style: Style, params: seq<(string, string)>, file: FormData, name: string, value: string)
    requires Usual(style) && params != [] && Listed(params) && Says(params, "name", name) && Says(params, "filename*", value)
    ensures !StartsWithIgnoreCase(value, "UTF-8''") || |value| == 7 ==> ReadHeader(NameLine(style, params), file).Bad?
    ensures forall text :: text != "" && OneLine(text) && value == "UTF-8''" + text ==>
              ReadHeader(NameLine(style, params), file) == Good(file.(name := name, filename := DecodeUrl(text, false)))
  {
    NameLineReads(style, params, file);
    ParamIs(params, "name");
    ParamIs(params, "filename*");
    hide ReadHeader, NameLine, Param, Usual, Listed, Says, DecodeUrl;
    forall text | text != "" && OneLine(text) && value == "UTF-8''" + text
      ensures ApplyParams(params, file) == Good(file.(name := name, filename := DecodeUrl(text, false)))
    {
      StartsWithSelf("UTF-8''", text);
      assert value[7..] == text;
    }
  }

  /** The name line that the serializer writes. */
  function OwnParams(d: FormData): seq<(string, string)> {
    [("name", d.name)] + (if d.filename != "" then [("filename", d.filename)] else [])
  }

  lemma OwnParamsListed(d: FormData)
    requires NameChars(d.name) && NameChars(d.filename)
    ensures Listed(OwnParams(d)) && DispositionLine(d) == NameLine(STANDARD, OwnParams(d))
    ensures Says(OwnParams(d), "name", d.name) && Silent(OwnParams(d), "filename*")
    ensures if d.filename != "" then Says(OwnParams(d), "filename", d.filename) else Silent(OwnParams(d), "filename")
  {
    Words();
    KeysDiffer();
    OwnLineText(d);
    hide Word, NameChars, NameLine, DispositionLine;
    var params := OwnParams(d);
    assert params[0] == ("name", d.name);
    if d.filename != "" {
      assert params[1] == ("filename", d.filename);
    }
  }

  lemma NameGroups(name: string, more: string)
    ensures "Content-Disposition: " + ("form-data; name=\"" + name + "\"" + more) ==
            "Content-Disposition: form-data; " + (Quoted("name", name) + more)
  {
  }

  lemma FilenameGroups(filename: string)
    ensures "; filename=\"" + filename + "\"" == "; " + Quoted("filename", filename)
  {
  }

  lemma OwnLineText(d: FormData)
    ensures DispositionLine(d) == NameLine(STANDARD, OwnParams(d))
  {
    var params, n, f := OwnParams(d), Quoted("name", d.name), Quoted("filename", d.filename);
    var more := if d.filename != "" then "; filename=\"" + d.filename + "\"" else "";
    assert params[0] == ("name", d.name);
    NameGroups(d.name, more);
    FilenameGroups(d.filename);
    hide Quoted;
    assert ParamsText(params) == n + more by {
      if d.filename != "" {
        assert params[1..] == [("filename", d.filename)];
        assert ParamsText(params[1..]) == f + "" == f;
      }
    }
  }

  lemma KeysDiffer()
    ensures "name" != "filename" && "name" != "filename*" && "filename" != "filename*"
  {
    assert |"name"| == 4 && |"filename"| == 8 && |"filename*"| == 9;
  }

  lemma LineNames()
    ensures IsFieldName("Content-Disposition") && IsFieldName("Content-Type")
  {
  }

  /** It sets the name and the file name and nothing else. */
  lemma DispositionLineReads(d: FormData)
    requires NameChars(d.name) && NameChars(d.filename)
    ensures ReadHeader(DispositionLine(d), NO_FILE) == Good(FormData(d.name, d.filename, ""))
  {
    OwnParamsListed(d);
    hide Listed, OwnParams, NameLine, DispositionLine, ReadHeader, Says, Silent;
    PlainNameLineReads(STANDARD, OwnParams(d), NO_FILE, d.name, if d.filename != "" then Some(d.filename) else None);
  }

  /** A type line, in any letter case and with any blanks, sets the content type and nothing else. */
  lemma TypeLineReads(key: string, pad: string, value: string, trail: string, file: FormData)
    requires EqualIgnoreCase(key, "Content-Type") && Divides(key, pad, value, trail) && IsFieldName(key) && IsFieldValue(value)
    ensures ReadHeader(LineText(key, pad, value, trail), file) == Good(file.(contentType := value))
  {
    var line, pre := LineText(key, pad, value, trail), "Content-Type:";
    ParsesIff(key, pad, value, trail);
    assert |pre| == 13 && line == key + ":" + (pad + value + trail);
    assert EqualIgnoreCase(key + ":", pre) by {
      forall i | 0 <= i < |pre| ensures Lower((key + ":")[i]) == Lower(pre[i]) {
        if i < 12 {
          assert (key + ":")[i] == key[i] && pre[i] == "Content-Type"[i];
        }
      }
    }
    SameStart(key + ":", pad + value + trail, pre);
    TrimBlanks(pad, value, trail);
    hide StartsWithIgnoreCase, EqualIgnoreCase, IsFieldName, IsFieldValue, ParseHeader, Trim, Disposition, LineText, DecodeUrl;
  }

  lemma TrimBlanks(pad: string, value: string, trail: string)
    requires Blanks(pad) && Blanks(trail) && (value != "" ==> !Blank(value[0]) && !Blank(value[|value| - 1]))
    ensures Trim(pad + value + trail) == value
  {
    if value == "" {
      assert pad + value + trail == pad + trail + "";
      TrimLeftBlanks(pad + trail, "");
    } else {
      Assoc(pad, value, trail);
      TrimLeftBlanks(pad, value + trail);
      TrimRightBlanks(value, trail);
    }
  }

  /** The serializer's own. */
  lemma ContentTypeLineReads(d: FormData, file: FormData)
    requires IsFieldValue(d.contentType)
    ensures ReadHeader(ContentTypeLine(d), file) == Good(file.(contentType := d.contentType))
  {
    LineNames();
    NoColonInToken("Content-Type");
    assert ContentTypeLine(d) == LineText("Content-Type", " ", d.contentType, "");
    assert Divides("Content-Type", " ", d.contentType, "") && EqualIgnoreCase("Content-Type", "Content-Type");
    hide ReadHeader, LineText, ContentTypeLine, IsFieldName, IsFieldValue, EqualIgnoreCase, Divides;
    TypeLineReads("Content-Type", " ", d.contentType, "", file);
  }

  /** Neither line holds a carriage return, so each ends at its own terminator. */
  lemma LinesAreLines(d: FormData)
    requires NameChars(d.name) && NameChars(d.filename) && IsFieldValue(d.contentType)
    ensures forall i :: 0 <= i < |HeaderLines(d)| ==> HeaderLines(d)[i] != "" && NoChar(HeaderLines(d)[i], '\r')
  {
    OwnParamsListed(d);
    ParamsAreValueText(OwnParams(d));
    var t := ParamsText(OwnParams(d));
    StandardIsUsual();
    ValueTextIsValue(STANDARD, t);
    hide Listed, OwnParams, ParamsText, ValueText;
    var p, c := DispositionLine(d), ContentTypeLine(d);
    assert NoChar(p, '\r') by {
      forall i | 0 <= i < |p| ensures p[i] != '\r' {
        if i >= 32 {
          assert p[i] == t[i - 32];
        }
      }
    }
    assert NoChar(c, '\r') by {
      forall i | 0 <= i < |c| ensures c[i] != '\r' {
        if i >= 14 {
          assert c[i] == d.contentType[i - 14];
        }
      }
    }
  }
}
