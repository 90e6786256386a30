/** The `Range` header: the client's printer and the server's parser. */
module RangeHeaders {
  import opened Decimals
  import opened Options
  import opened PercentCoding
  import opened Ranges
  import opened Text

  const MAX_NUMBER := 0x7FFF_FFFF_FFFF_FFFF

  // ----- the printer

  function NumberText(n: int): string
    requires n >= -1
  {
    if n == -1 then "" else Decimal(n)
  }

  predicate Printable(r: Range) {
    r.0 >= -1 && r.1 >= -1
  }

  function RangeText(r: Range): string
    requires Printable(r)
  {
    NumberText(r.0) + "-" + NumberText(r.1)
  }

  predicate AllPrintable(rs: seq<Range>) {
    forall i :: 0 <= i < |rs| ==> Printable(rs[i])
  }

  function ListText(rs: seq<Range>): string
    requires AllPrintable(rs)
  {
    if rs == [] then "" else RangeText(rs[0]) + (if |rs| == 1 then "" else ", " + ListText(rs[1..]))
  }

  function Comma(rs: seq<Range>, i: nat): string {
    if 0 < i < |rs| then ", " else ""
  }

  lemma ListTurn(rs: seq<Range>, i: nat)
    requires i < |rs| && AllPrintable(rs)
    ensures ListText(rs[i..]) == RangeText(rs[i]) + (Comma(rs, i + 1) + ListText(rs[i + 1..]))
  {
    var rest := rs[i..];
    assert rest[0] == rs[i] && rest[1..] == rs[i + 1..];
  }

  lemma TurnDone(before: string, comma: string, r: Range, tail: string)
    requires Printable(r)
    ensures before + (comma + (RangeText(r) + tail)) ==
            before + comma + NumberText(r.0) + "-" + NumberText(r.1) + tail
  {
    var a, b := NumberText(r.0), NumberText(r.1);
    assert RangeText(r) == a + "-" + b;
    hide *;
    Assoc(before, comma, a + "-" + b + tail);
    Assoc(before + comma, a + "-" + b, tail);
    Assoc(before + comma, a + "-", b);
    Assoc(before + comma, a, "-");
  }

  lemma NumberTextIs(s: string, n: int)
    requires n >= -1
    ensures if n == -1 then s + NumberText(n) == s else NumberText(n) == Decimal(n)
  {
  }

  lemma ListEnds(rs: seq<Range>, s: string)
    requires AllPrintable(rs)
    ensures AllPrintable(rs[|rs|..]) && s + (Comma(rs, |rs|) + ListText(rs[|rs|..])) == s
  {
  }

  lemma CommaIs(rs: seq<Range>, i: nat, s: string)
    requires i < |rs|
    ensures s + Comma(rs, i) == if i == 0 then s else s + ", "
  {
  }

  /** `make_range_header`. */
  method MakeRangeHeader(ranges: seq<Range>) returns (field: string)
    requires AllPrintable(ranges)
    ensures field == "bytes=" + ListText(ranges)
  {
    field := "bytes=";
    assert ranges[0..] == ranges && "" + ListText(ranges) == ListText(ranges);
    hide ListText, Decimal, Comma, RangeText, NumberText;
    assert Comma(ranges, 0) == "" by {
      NoComma(ranges);
    }
    for i := 0 to |ranges|
      invariant field + (Comma(ranges, i) + ListText(ranges[i..])) == "bytes=" + ListText(ranges)
    {
      var r := ranges[i];
      ListTurn(ranges, i);
      TurnDone(field, Comma(ranges, i), r, Comma(ranges, i + 1) + ListText(ranges[i + 1..]));
      CommaIs(ranges, i, field);
      if i != 0 {
        field := field + ", ";
      }
      NumberTextIs(field, r.0);
      if r.0 != -1 {
        field := field + Decimal(r.0);
      }
      field := field + "-";
      NumberTextIs(field, r.1);
      if r.1 != -1 {
        field := field + Decimal(r.1);
      }
    }
    ListEnds(ranges, field);
  }

  lemma NoComma(rs: seq<Range>)
    ensures Comma(rs, 0) == ""
  {
  }

  // ----- the parser

  predicate Digits(s: string) {
    forall i :: 0 <= i < |s| ==> Digit(s[i])
  }

  /** An absent number reads as -1; one that does not fit throws. */
  function Number(s: string): Option<int>
    requires Digits(s)
  {
    var n: int := if s == "" then -1 else DecimalValue(s);
    if n > MAX_NUMBER then None else Some(n)
  }

  function ParseRange(piece: string): Option<Range> {
    var i := Find(piece, "-");
    if i == |piece| || !Digits(piece[..i]) || !Digits(piece[i + 1..]) then None
    else
      var first, last := Number(piece[..i]), Number(piece[i + 1..]);
      if first.None? || last.None? then None
      else if (first.value == -1 && last.value == -1) || (first.value != -1 && last.value != -1 && first.value > last.value) then None
      else Some((first.value, last.value))
  }

  function ParseRanges(pieces: seq<string>): Option<seq<Range>> {
    if pieces == [] then Some([])
    else
      match ParseRange(pieces[0])
      case None => None
      case Some(r) =>
        match ParseRanges(pieces[1..])
        case None => None
        case Some(rs) => Some([r] + rs)
  }

  function Parse(s: string): Option<seq<Range>> {
    if |s| > 7 && s[..6] == "bytes=" then
      match ParseRanges(Split(s[6..], ','))
      case None => None
      case Some(rs) => if rs == [] then None else Some(rs)
    else None
  }

  lemma ParseStops(pieces: seq<string>, i: nat)
    requires i <= |pieces|
    ensures ParseRanges(pieces[i..]) ==
            if i == |pieces| then Some([])
            else if ParseRange(pieces[i]).None? || ParseRanges(pieces[i + 1..]).None? then None
            else Some([ParseRange(pieces[i]).value] + ParseRanges(pieces[i + 1..]).value)
  {
    if i < |pieces| {
      assert pieces[i..][0] == pieces[i] && pieces[i..][1..] == pieces[i + 1..];
    }
  }

  /** What has been read so far in front of what is still to come. */
  function Behind(ranges: seq<Range>, rest: Option<seq<Range>>): Option<seq<Range>> {
    match rest case None => None case Some(rs) => Some(ranges + rs)
  }

  lemma BehindNothing(rest: Option<seq<Range>>)
    ensures Behind([], rest) == rest
  {
    if rest.Some? {
      assert [] + rest.value == rest.value;
    }
  }

  /** `parse_range_header`; an exception, too, makes the header invalid. */
  method ParseRangeHeader(s: string) returns (ok: bool, ranges: seq<Range>)
    ensures ok == Parse(s).Some? && (ok ==> ranges == Parse(s).value)
  {
    ranges := [];
    if !(|s| > 7 && s[..6] == "bytes=") {
      return false, ranges;
    }
    var pieces := Split(s[6..], ',');
    assert pieces[0..] == pieces;
    BehindNothing(ParseRanges(pieces));
    for i := 0 to |pieces|
      invariant Behind(ranges, ParseRanges(pieces[i..])) == ParseRanges(pieces)
    {
      ParseStops(pieces, i);
      var r := ParseRange(pieces[i]);
      if r.None? {
        return false, ranges;
      }
      ghost var rest := ParseRanges(pieces[i + 1..]);
      if rest.Some? {
        Assoc(ranges, [r.value], rest.value);
      }
      ranges := ranges + [r.value];
    }
    ParseStops(pieces, |pieces|);
    assert ranges + [] == ranges;
    return ranges != [], ranges;
  }

  // ----- the printed list is read back

  /** A range that the parser can give: not both numbers absent, in order, and within the number type. */
  predicate Sendable(r: Range) {
    Requestable(r) && r != (-1, -1) && r.0 <= MAX_NUMBER && r.1 <= MAX_NUMBER
  }

  predicate AllSendable(rs: seq<Range>) {
    forall i :: 0 <= i < |rs| ==> Sendable(rs[i])
  }

  lemma SendablePrintable(rs: seq<Range>)
    requires AllSendable(rs)
    ensures AllPrintable(rs)
  {
    forall i | 0 <= i < |rs| ensures Printable(rs[i]) {
      assert Sendable(rs[i]);
    }
  }

  lemma NumberReads(n: int)
    requires -1 <= n <= MAX_NUMBER
    ensures Digits(NumberText(n)) && Number(NumberText(n)) == Some(n)
  {
    if n >= 0 {
      DecimalReads(n);
    }
  }

  lemma RangeReads(r: Range)
    requires Sendable(r)
    ensures ParseRange(RangeText(r)) == Some(r)
    ensures var t := RangeText(r); t != "" && NoChar(t, ',') && Trim(t) == t
  {
    var a, b, t := NumberText(r.0), NumberText(r.1), RangeText(r);
    NumberReads(r.0);
    NumberReads(r.1);
    forall i | 0 <= i < |a| ensures a[i] != '-' {
      assert Digit(a[i]);
    }
    NoCharNoMarker(a, "-");
    FindAfter(a, "-", b);
    assert t[..|a|] == a && t[|a| + 1..] == b;
    forall i | 0 <= i < |t| ensures t[i] != ',' && !Blank(t[i]) {
      assert Digit(t[i]) || t[i] == '-' by {
        if i < |a| {
          assert t[i] == a[i];
        } else if i > |a| {
          assert t[i] == b[i - |a| - 1];
        }
      }
    }
    hide Number, NumberText, RangeText, Find, DecimalValue;
    assert !Blank(t[0]) && !Blank(t[|t| - 1]);
  }

  lemma ListTextIs(rs: seq<Range>)
    requires rs != [] && AllSendable(rs) && AllPrintable(rs)
    ensures Sendable(rs[0]) && AllSendable(rs[1..]) && AllPrintable(rs[1..]) && [rs[0]] + rs[1..] == rs
    ensures ListText(rs) == if |rs| == 1 then RangeText(rs[0]) else RangeText(rs[0]) + (", " + ListText(rs[1..]))
  {
    hide RangeText;
    assert RangeText(rs[0]) + "" == RangeText(rs[0]);
  }

  lemma {:induction false} ListReads(rs: seq<Range>)
    requires rs != [] && AllSendable(rs) && AllPrintable(rs)
    ensures ParseRanges(Split(ListText(rs), ',')) == Some(rs)
  {
    assert ParseRanges([]) == Some([]) && !Blank(',') && [','] + " " == ", ";
    ListTextIs(rs);
    hide *;
    var r, later := rs[0], rs[1..];
    var t := RangeText(r);
    RangeReads(r);
    if |rs| == 1 {
      SplitOne(t, ',');
      OneRange(t, r, []);
      assert [t] + [] == [t];
    } else {
      var rest := ListText(later);
      ListReads(later);
      SplitNext(t, ',', rest);
      OneRange(t, r, Split(rest, ','));
    }
  }

  lemma OneRange(t: string, r: Range, pieces: seq<string>)
    requires ParseRange(t) == Some(r) && ParseRanges(pieces).Some?
    ensures ParseRanges([t] + pieces) == Some([r] + ParseRanges(pieces).value)
  {
    hide ParseRange;
    assert ([t] + pieces)[1..] == pieces;
  }

  /** What the client prints the server reads back. */
  lemma PrintedIsRead(rs: seq<Range>)
    requires rs != [] && AllSendable(rs) && AllPrintable(rs)
    ensures Parse("bytes=" + ListText(rs)) == Some(rs)
  {
    ListReads(rs);
    var s := "bytes=" + ListText(rs);
    assert s[..6] == "bytes=" && s[6..] == ListText(rs);
    TwoCharacters(rs);
    hide ParseRanges, Split, ListText;
  }

  lemma TwoCharacters(rs: seq<Range>)
    requires rs != [] && AllSendable(rs) && AllPrintable(rs)
    ensures |ListText(rs)| >= 2
  {
    var r := rs[0];
    if r.0 >= 0 {
      DecimalReads(r.0);
    } else {
      DecimalReads(r.1);
    }
  }

  /** Whatever header it accepts, the ranges it gives are such. */
  lemma {:induction false} ParsedAreSendable(pieces: seq<string>)
    requires ParseRanges(pieces).Some?
    ensures AllSendable(ParseRanges(pieces).value)
  {
    if pieces != [] {
      ParsedAreSendable(pieces[1..]);
      assert Sendable(ParseRange(pieces[0]).value);
      hide ParseRange;
    }
  }

  /** So printing what was read and reading it again changes nothing. */
  lemma ReadAgain(s: string)
    requires Parse(s).Some?
    ensures var rs := Parse(s).value;
            AllSendable(rs) && AllPrintable(rs) && Parse("bytes=" + ListText(rs)) == Some(rs)
  {
    ParsedAreSendable(Split(s[6..], ','));
    SendablePrintable(Parse(s).value);
    hide Split, ParseRanges, ListText;
    PrintedIsRead(Parse(s).value);
  }
}
