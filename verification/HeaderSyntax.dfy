/** Header lines: the grammar of names and values and the parser of one line. */
module HeaderSyntax {
  import opened Options
  import opened PercentCoding
  import opened Text

  const HEADER_MAX_LENGTH := 8192

  predicate TokenChar(c: char) {
    Alpha(c) || Digit(c) || c in "!#$%&'*+-.^_`|~"
  }

  predicate IsFieldName(s: string) {
    s != "" && forall i :: 0 <= i < |s| ==> TokenChar(s[i])
  }

  predicate FieldVchar(c: char) {
    33 <= c as int <= 126 || 128 <= c as int
  }

  predicate IsFieldValue(s: string) {
    s == "" ||
    (FieldVchar(s[0]) && FieldVchar(s[|s| - 1]) && forall i :: 0 < i < |s| - 1 ==> Blank(s[i]) || FieldVchar(s[i]))
  }

  predicate EqualIgnoreCase(a: string, b: string) {
    |a| == |b| && StartsWithIgnoreCase(a, b)
  }

  /** `parse_header` on a line without its terminator: the name and the value handed to the receiver. */
  function ParseHeader(s: string): Option<(string, string)> {
    var line := TrimRight(s);
    var p := Find(line, ":");
    if !IsFieldName(line[..p]) || p == |line| then None
    else
      var key, value := line[..p], TrimLeft(line[p + 1..]);
      if !IsFieldValue(value) then None
      else if EqualIgnoreCase(key, "Location") || EqualIgnoreCase(key, "Referer") then Some((key, value))
      else Some((key, DecodeUrl(value, false)))
  }

  lemma TrimIdle(s: string)
    requires s != "" && !Blank(s[0]) && !Blank(s[|s| - 1])
    ensures TrimLeft(s) == s && TrimRight(s) == s && Trim(s) == s
  {
  }

  lemma NoColonInToken(name: string)
    requires IsFieldName(name)
    ensures NoChar(name, ':')
  {
    forall i | 0 <= i < |name| ensures name[i] != ':' {
      assert TokenChar(name[i]);
    }
  }

  /** Text without percent signs is its own decoding. */
  lemma {:induction false} DecodeWithoutPercent(s: string)
    requires NoChar(s, '%')
    ensures DecodeUrl(s, false) == s
  {
    if s != "" {
      assert DecodeStep(s, false) == ([s[0]], 1);
      DecodeWithoutPercent(s[1..]);
    }
  }

  // ----- every line

  predicate Blanks(s: string) {
    forall i :: 0 <= i < |s| ==> Blank(s[i])
  }

  lemma {:induction false} TrimRightBlanks(s: string, trail: string)
    requires s != "" && !Blank(s[|s| - 1]) && Blanks(trail)
    ensures TrimRight(s + trail) == s
  {
    if trail == "" {
      assert s + trail == s;
    } else {
      var t := s + trail;
      assert t[|t| - 1] == trail[|trail| - 1];
      assert t[..|t| - 1] == s + trail[..|trail| - 1];
      TrimRightBlanks(s, trail[..|trail| - 1]);
    }
  }

  lemma {:induction false} TrimLeftBlanks(pad: string, s: string)
    requires Blanks(pad) && (s != "" ==> !Blank(s[0]))
    ensures TrimLeft(pad + s) == s
  {
    if pad == "" {
      assert pad + s == s;
    } else {
      assert (pad + s)[1..] == pad[1..] + s;
      TrimLeftBlanks(pad[1..], s);
    }
  }

  /** The text of a line around its first colon, with the blanks in front of the value and behind it. */
  function LineText(name: string, pad: string, value: string, trail: string): string {
    name + ":" + (pad + value) + trail
  }

  predicate Divides(name: string, pad: string, value: string, trail: string) {
    && NoChar(name, ':') && Blanks(pad) && Blanks(trail)
    && (value != "" ==> !Blank(value[0]) && !Blank(value[|value| - 1]))
  }

  lemma LineTrimmed(name: string, pad: string, value: string, trail: string)
    requires Divides(name, pad, value, trail)
    ensures TrimRight(LineText(name, pad, value, trail)) == if value == "" then name + ":" else name + ":" + (pad + value)
  {
    if value == "" {
      assert LineText(name, pad, value, trail) == name + ":" + (pad + trail);
      TrimRightBlanks(name + ":", pad + trail);
    } else {
      var s := name + ":" + (pad + value);
      assert s[|s| - 1] == value[|value| - 1];
      TrimRightBlanks(s, trail);
    }
  }

  lemma FirstColon(name: string, rest: string)
    requires NoChar(name, ':')
    ensures var line := name + ":" + rest;
            Find(line, ":") == |name| && line[..|name|] == name && line[|name| + 1..] == rest
  {
    NoCharNoMarker(name, ":");
    FindAfter(name, ":", rest);
  }

  /** A line with a colon is a header field if and only if what stands in front of the colon is a name and
      what stands behind it, without the blanks around it, is a value; and those it is divided into. */
  lemma ParsesIff(name: string, pad: string, value: string, trail: string)
    requires Divides(name, pad, value, trail)
    ensures ParseHeader(LineText(name, pad, value, trail)) ==
            if !IsFieldName(name) || !IsFieldValue(value) then None
            else if EqualIgnoreCase(name, "Location") || EqualIgnoreCase(name, "Referer") then Some((name, value))
            else Some((name, DecodeUrl(value, false)))
  {
    var rest := if value == "" then "" else pad + value;
    LineTrimmed(name, pad, value, trail);
    FirstColon(name, rest);
    assert name + ":" + "" == name + ":";
    if value != "" {
      TrimLeftBlanks(pad, value);
    }
    hide Find, TrimRight, LineText, IsFieldName, IsFieldValue, EqualIgnoreCase, DecodeUrl, Divides;
    assert TrimLeft(rest) == value;
  }

  /** A well-formed line as programs write it. */
  lemma ParseWellFormed(name: string, value: string)
    requires IsFieldName(name) && IsFieldValue(value)
    ensures ParseHeader(name + ": " + value) ==
            Some((name, if EqualIgnoreCase(name, "Location") || EqualIgnoreCase(name, "Referer") then value
                        else DecodeUrl(value, false)))
  {
    NoColonInToken(name);
    assert name + ": " + value == LineText(name, " ", value, "");
    assert Divides(name, " ", value, "");
    hide ParseHeader, LineText, DecodeUrl, EqualIgnoreCase;
    ParsesIff(name, " ", value, "");
  }

  lemma {:induction false} NoCharTrimmed(s: string, c: char)
    requires NoChar(s, c)
    ensures NoChar(TrimRight(s), c)
  {
    if s != "" && Blank(s[|s| - 1]) {
      NoCharTrimmed(s[..|s| - 1], c);
    }
  }

  /** A line without a colon is none. */
  lemma NoColonNoField(line: string)
    requires NoChar(line, ':')
    ensures ParseHeader(line).None?
  {
    NoCharTrimmed(line, ':');
    NoCharNoMarker(TrimRight(line), ":");
  }
}
