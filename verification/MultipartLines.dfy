/** The header lines of a part as a whole: what they come to together, and the lines among them that say
    nothing about the part. */
module MultipartLines {
  import opened HeaderSyntax
  import opened MultipartHeaders
  import opened MultipartSpec
  import opened Options
  import opened PercentCoding
  import opened Text

  /** The fields after these lines, read in order up to the first that is refused. */
  function ReadAll(lines: seq<string>, file: FormData): Fields {
    if lines == [] then Good(file)
    else
      match ReadHeader(lines[0], file)
      case Bad(f) => Bad(f)
      case Good(f) => ReadAll(lines[1..], f)
  }

  /** Lines that end at their own terminators and are short enough to be taken. */
  ghost predicate Plainly(lines: seq<string>) {
    forall i :: 0 <= i < |lines| ==> lines[i] != "" && NoChar(lines[i], '\r') && |lines[i]| < HEADER_MAX_LENGTH
  }

  // ----- lines about something else

  /** A header field of any other name. */
  predicate IsOther(name: string, pad: string, value: string, trail: string) {
    && Divides(name, pad, value, trail) && IsFieldName(name) && IsFieldValue(value)
    && !EqualIgnoreCase(name, "Content-Type") && !EqualIgnoreCase(name, "Content-Disposition")
  }

  /** Up to the case of letters, a line begins with a field's name and colon only if that is its own name. */
  lemma OwnNameOnly(name: string, rest: string, key: string)
    requires NoChar(name, ':') && NoChar(key, ':') && !EqualIgnoreCase(name, key)
    ensures !StartsWithIgnoreCase(name + ":" + rest, key + ":")
  {
    var s, k := name + ":" + rest, key + ":";
    if |name| < |key| {
      assert s[|name|] == ':' && k[|name|] == key[|name|] && Lower(key[|name|]) != Lower(':');
      StartsOtherwise(s, k, |name|);
    } else if |key| < |name| {
      assert s[|key|] == name[|key|] && Lower(name[|key|]) != Lower(':');
      StartsOtherwise(s, k, |key|);
    } else {
      var i :| 0 <= i < |key| && Lower(name[i]) != Lower(key[i]);
      assert s[i] == name[i] && k[i] == key[i];
      StartsOtherwise(s, k, i);
    }
  }

  lemma NoColonInKeys()
    ensures NoChar("Content-Type", ':') && NoChar("Content-Disposition", ':')
  {
  }

  /** A well-formed line about anything else is taken and changes nothing. */
  lemma OtherLineIsPassedOver(name: string, pad: string, value: string, trail: string, file: FormData)
    requires IsOther(name, pad, value, trail)
    ensures ReadHeader(LineText(name, pad, value, trail), file) == Good(file)
  {
    var line := LineText(name, pad, value, trail);
    ParsesIff(name, pad, value, trail);
    NoColonInKeys();
    assert line == name + ":" + (pad + value + trail);
    assert "Content-Type" + ":" == "Content-Type:" && "Content-Disposition" + ":" == "Content-Disposition:";
    hide ParseHeader, IsFieldName, IsFieldValue, NoChar, StartsWithIgnoreCase, EqualIgnoreCase, ApplyParams, LineText, DecodeUrl;
    OwnNameOnly(name, pad + value + trail, "Content-Type");
    OwnNameOnly(name, pad + value + trail, "Content-Disposition");
  }

  /** A line without a colon is refused. */
  lemma LineWithoutColonIsRefused(line: string, file: FormData)
    requires NoChar(line, ':')
    ensures ReadHeader(line, file) == Bad(file)
  {
    NoColonNoField(line);
  }

  ghost predicate SaysNothing(line: string) {
    exists name, pad, value, trail {:trigger LineText(name, pad, value, trail)} ::
      IsOther(name, pad, value, trail) && line == LineText(name, pad, value, trail)
  }

  /** The lines that are left when those about something else are struck out. */
  ghost function Own(lines: seq<string>): seq<string> {
    if lines == [] then [] else (if SaysNothing(lines[0]) then [] else [lines[0]]) + Own(lines[1..])
  }

  /** Wherever they stand, they make no difference. */
  lemma {:induction false} OtherLinesDoNotMatter(lines: seq<string>, file: FormData)
    ensures ReadAll(lines, file) == ReadAll(Own(lines), file)
  {
    if lines != [] {
      if SaysNothing(lines[0]) {
        var name, pad, value, trail :| IsOther(name, pad, value, trail) && lines[0] == LineText(name, pad, value, trail);
        hide ReadHeader, IsOther, SaysNothing;
        OtherLineIsPassedOver(name, pad, value, trail, file);
        assert Own(lines) == Own(lines[1..]);
        OtherLinesDoNotMatter(lines[1..], file);
      } else {
        hide ReadHeader, SaysNothing;
        assert Own(lines)[1..] == Own(lines[1..]);
        if ReadHeader(lines[0], file).Good? {
          OtherLinesDoNotMatter(lines[1..], ReadHeader(lines[0], file).file);
        }
      }
    }
  }

  lemma ReadsOn(line: string, rest: seq<string>, file: FormData, next: FormData)
    requires ReadHeader(line, file) == Good(next)
    ensures ReadAll([line] + rest, file) == ReadAll(rest, next)
  {
    hide ReadHeader;
    assert ([line] + rest)[1..] == rest;
  }

  /** The lines that the serializer writes come to the data they were written from. */
  lemma OwnLinesRead(d: FormData)
    requires NameChars(d.name) && NameChars(d.filename) && IsFieldValue(d.contentType)
    ensures ReadAll(HeaderLines(d), NO_FILE) == Good(d)
  {
    var file, types := FormData(d.name, d.filename, ""), if d.contentType == "" then [] else [ContentTypeLine(d)];
    assert HeaderLines(d) == [DispositionLine(d)] + types;
    assert ReadAll([], d) == Good(d);
    DispositionLineReads(d);
    hide ReadHeader, DispositionLine, ContentTypeLine, HeaderLines, NameChars, IsFieldValue, ReadAll;
    ReadsOn(DispositionLine(d), types, NO_FILE, file);
    if d.contentType != "" {
      ContentTypeLineReads(d, file);
      ReadsOn(ContentTypeLine(d), [], file, d);
      assert [ContentTypeLine(d)] + [] == types;
    }
  }

  lemma ValueIsPlain(value: string)
    requires IsFieldValue(value)
    ensures NoChar(value, '\r')
  {
    forall i | 0 <= i < |value| ensures value[i] != '\r' {
      assert Blank(value[i]) || FieldVchar(value[i]);
    }
  }

  lemma OtherLineIsPlain(name: string, pad: string, value: string, trail: string)
    requires IsOther(name, pad, value, trail)
    ensures LineText(name, pad, value, trail) != "" && NoChar(LineText(name, pad, value, trail), '\r')
  {
    ValueIsPlain(value);
    var line, rest := LineText(name, pad, value, trail), pad + value + trail;
    assert line == name + ":" + rest;
    hide IsFieldValue, EqualIgnoreCase, LineText;
    assert NoChar(rest, '\r') by {
      forall i | 0 <= i < |rest| ensures rest[i] != '\r' {
        assert rest[i] == if i < |pad| then pad[i]
                          else if i < |pad| + |value| then value[i - |pad|] else trail[i - |pad| - |value|];
      }
    }
    forall i | 0 <= i < |line| ensures line[i] != '\r' {
      if i < |name| {
        assert line[i] == name[i] && TokenChar(name[i]);
      } else if i > |name| {
        assert line[i] == rest[i - |name| - 1];
      }
    }
  }

  /** A header block in which the serializer's lines stand among others. */
  ghost predicate Amid(lines: seq<string>, d: FormData) {
    && NameChars(d.name) && NameChars(d.filename) && IsFieldValue(d.contentType)
    && Own(lines) == HeaderLines(d)
    && forall i :: 0 <= i < |lines| ==> |lines[i]| < HEADER_MAX_LENGTH
  }

  lemma {:induction false} LinesArePlain(lines: seq<string>, i: nat)
    requires i < |lines| && forall j :: 0 <= j < |Own(lines)| ==> Own(lines)[j] != "" && NoChar(Own(lines)[j], '\r')
    ensures lines[i] != "" && NoChar(lines[i], '\r')
  {
    var own, later := Own(lines), Own(lines[1..]);
    if SaysNothing(lines[0]) {
      var name, pad, value, trail :| IsOther(name, pad, value, trail) && lines[0] == LineText(name, pad, value, trail);
      OtherLineIsPlain(name, pad, value, trail);
      assert own == later;
    } else {
      assert own[0] == lines[0] && own[1..] == later;
      assert forall j :: 0 <= j < |later| ==> later[j] == own[j + 1];
    }
    hide SaysNothing, NoChar, Own;
    if i > 0 {
      LinesArePlain(lines[1..], i - 1);
    }
  }

  /** Such a block can be read, and comes to the same data. */
  lemma AmidReads(lines: seq<string>, d: FormData)
    requires Amid(lines, d)
    ensures Plainly(lines) && ReadAll(lines, NO_FILE) == Good(d)
  {
    OwnLinesRead(d);
    OtherLinesDoNotMatter(lines, NO_FILE);
    LinesAreLines(d);
    hide HeaderLines, ReadAll, Own, NoChar;
    forall i | 0 <= i < |lines| ensures lines[i] != "" && NoChar(lines[i], '\r') {
      LinesArePlain(lines, i);
    }
  }

  // ----- parts

  /** A part as it travels: the lines of its header block, and its content. */
  datatype Part = Part(lines: seq<string>, content: string)

  predicate Readable(part: Part) {
    ReadAll(part.lines, NO_FILE).Good?
  }

  function ItemOf(part: Part): Item {
    Item(ReadAll(part.lines, NO_FILE).file, part.content)
  }

  /** The items of the parts in front of the first that cannot be read. */
  function Received(parts: seq<Part>): seq<Item> {
    if parts == [] || !Readable(parts[0]) then [] else [ItemOf(parts[0])] + Received(parts[1..])
  }

  predicate AllReadable(parts: seq<Part>) {
    parts == [] || (Readable(parts[0]) && AllReadable(parts[1..]))
  }

  function WrittenPart(part: Part, boundary: string): string {
    Opening(boundary) + HeaderBlock(part.lines) + part.content + CRLF
  }

  function WrittenParts(parts: seq<Part>, boundary: string): string {
    if parts == [] then "" else WrittenPart(parts[0], boundary) + WrittenParts(parts[1..], boundary)
  }

  function Written(parts: seq<Part>, boundary: string): string {
    WrittenParts(parts, boundary) + ("--" + boundary + "--" + CRLF)
  }

  /** These parts come to these items. */
  ghost predicate Carry(parts: seq<Part>, items: seq<Item>) {
    && |parts| == |items|
    && forall i :: 0 <= i < |parts| ==>
         parts[i].content == items[i].content && ReadAll(parts[i].lines, NO_FILE) == Good(items[i].data)
  }

  lemma {:induction false} CarriedAreReceived(parts: seq<Part>, items: seq<Item>)
    requires Carry(parts, items)
    ensures AllReadable(parts) && Received(parts) == items
  {
    if parts != [] {
      assert items == [items[0]] + items[1..];
      hide ReadAll;
      CarriedAreReceived(parts[1..], items[1..]);
    }
  }

  /** What the serializer writes, as parts. */
  function PartsOf(items: seq<Item>): seq<Part> {
    if items == [] then [] else [Part(HeaderLines(items[0].data), items[0].content)] + PartsOf(items[1..])
  }

  lemma {:induction false} SerializedIsWritten(items: seq<Item>, boundary: string)
    ensures SerializeItems(items, boundary) == WrittenParts(PartsOf(items), boundary)
    ensures Serialize(items, boundary) == Written(PartsOf(items), boundary)
  {
    if items != [] {
      hide HeaderLines, HeaderBlock, Opening;
      assert PartsOf(items)[1..] == PartsOf(items[1..]);
      SerializedIsWritten(items[1..], boundary);
    }
  }

  lemma {:induction false} PartsOfAt(items: seq<Item>, i: nat)
    requires i < |items|
    ensures |PartsOf(items)| == |items| && PartsOf(items)[i] == Part(HeaderLines(items[i].data), items[i].content)
  {
    hide HeaderLines;
    if |items| > 1 {
      PartsOfAt(items[1..], if i > 0 then i - 1 else 0);
    }
  }
}
