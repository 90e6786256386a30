/** Multipart form data: the serializer, and the streaming parser as a function on its state. */
module MultipartSpec {
  import opened HeaderSyntax
  import opened Options
  import opened PercentCoding
  import opened Text

  datatype FormData = FormData(name: string, filename: string, contentType: string)
  datatype Item = Item(data: FormData, content: string)

  // ----- the serializer

  function DispositionLine(d: FormData): string {
    "Content-Disposition: " + ("form-data; name=\"" + d.name + "\"" +
    (if d.filename != "" then "; filename=\"" + d.filename + "\"" else ""))
  }

  function ContentTypeLine(d: FormData): string {
    "Content-Type: " + d.contentType
  }

  function HeaderLines(d: FormData): seq<string> {
    if d.contentType == "" then [DispositionLine(d)] else [DispositionLine(d), ContentTypeLine(d)]
  }

  /** Header lines and the empty line that ends them. */
  function HeaderBlock(lines: seq<string>): string {
    if lines == [] then CRLF else lines[0] + CRLF + HeaderBlock(lines[1..])
  }

  function Opening(boundary: string): string {
    "--" + boundary + CRLF
  }

  function Delimiter(boundary: string): string {
    CRLF + "--" + boundary
  }

  function SerializeItem(item: Item, boundary: string): string {
    Opening(boundary) + HeaderBlock(HeaderLines(item.data)) + item.content + CRLF
  }

  function SerializeItems(items: seq<Item>, boundary: string): string {
    if items == [] then "" else SerializeItem(items[0], boundary) + SerializeItems(items[1..], boundary)
  }

  function Serialize(items: seq<Item>, boundary: string): string {
    SerializeItems(items, boundary) + ("--" + boundary + "--" + CRLF)
  }

  // ----- what the parser hands to its callbacks

  datatype Event = HeaderEvent(data: FormData) | ContentEvent(text: string)

  /** Whether the callbacks accept an event, given what they were handed before. */
  type Receiver = (seq<Event>, Event) -> bool

  // ----- one header line

  function SkipSpace(s: string): string {
    if s != "" && Space(s[0]) then SkipSpace(s[1..]) else s
  }

  predicate OneLine(s: string) {
    NoChar(s, '\r') && NoChar(s, '\n')
  }

  /** The parameters of a `Content-Disposition: form-data;` line, in any letter case. */
  function Disposition(header: string): Option<string> {
    if !StartsWithIgnoreCase(header, "Content-Disposition:") then None
    else
      var rest := SkipSpace(header[20..]);
      if !StartsWithIgnoreCase(rest, "form-data;") then None
      else
        var params := SkipSpace(rest[10..]);
        if OneLine(params) then Some(params) else None
  }

  function KeyValue(piece: string): Option<(string, string)> {
    var parts := Split(piece, '=');
    if parts == [] then None
    else Some((TrimQuotes(parts[0]), if |parts| > 1 then TrimQuotes(parts[|parts| - 1]) else ""))
  }

  function DispositionParams(pieces: seq<string>, seen: set<string>): seq<(string, string)> {
    if pieces == [] then []
    else if pieces[0] in seen then DispositionParams(pieces[1..], seen)
    else
      var rest := DispositionParams(pieces[1..], seen + {pieces[0]});
      match KeyValue(pieces[0])
      case Some(kv) => [kv] + rest
      case None => rest
  }

  function Param(params: seq<(string, string)>, k: string): Option<string> {
    if params == [] then None else if params[0].0 == k then Some(params[0].1) else Param(params[1..], k)
  }

  /** The extended value of a `filename*` parameter; only UTF-8 is understood. */
  function ExtendedValue(s: string): Option<string> {
    if StartsWithIgnoreCase(s, "UTF-8''") && |s| > 7 && OneLine(s[7..]) then Some(DecodeUrl(s[7..], false)) else None
  }

  /** The fields after a header line, and whether the line was acceptable. */
  datatype Fields = Good(file: FormData) | Bad(file: FormData)

  function ApplyParams(params: seq<(string, string)>, file: FormData): Fields {
    match Param(params, "name")
    case None => Bad(file)
    case Some(name) =>
      var plain := Param(params, "filename");
      var named := file.(name := name, filename := if plain.Some? then plain.value else file.filename);
      match Param(params, "filename*")
      case None => Good(named)
      case Some(v) =>
        match ExtendedValue(v)
        case None => Bad(named)
        case Some(f) => Good(named.(filename := f))
  }

  function ReadHeader(header: string, file: FormData): Fields {
    if ParseHeader(header).None? then Bad(file)
    else if StartsWithIgnoreCase(header, "Content-Type:") then Good(file.(contentType := Trim(header[13..])))
    else
      match Disposition(header)
      case None => Good(file)
      case Some(params) => ApplyParams(DispositionParams(Split(params, ';'), {}), file)
  }

  // ----- the state machine

  datatype Stage = Initial | Entry | Headers | Body | Boundary

  datatype Parser = Parser(stage: Stage, valid: bool, file: FormData, window: string, log: seq<Event>)

  datatype Outcome = Next(parser: Parser) | Stop(parser: Parser, ok: bool)

  const NO_FILE := FormData("", "", "")
  const FRESH := Parser(Initial, false, NO_FILE, "", [])

  function StepInitial(p: Parser, boundary: string): Outcome {
    var w := p.window[Find(p.window, Opening(boundary))..];
    var q := p.(window := w);
    if |Opening(boundary)| > |w| then Stop(q, true)
    else if !At(w, Opening(boundary), 0) then Stop(q, false)
    else Next(q.(window := w[|Opening(boundary)|..], stage := Entry))
  }

  /** The header lines wholly inside the window, up to the empty one. */
  function StepLines(p: Parser, accepts: Receiver): Outcome
    decreases |p.window|
  {
    var pos := Find(p.window, CRLF);
    if pos == |p.window| then Stop(p, true)
    else if pos == 0 then
      var told := p.(log := p.log + [HeaderEvent(p.file)]);
      if accepts(p.log, HeaderEvent(p.file)) then Next(told.(window := p.window[2..], stage := Body))
      else Stop(told.(valid := false), false)
    else
      match ReadHeader(p.window[..pos], p.file)
      case Bad(file) => Stop(p.(file := file, valid := false), false)
      case Good(file) => StepLines(p.(file := file, window := p.window[pos + 2..]), accepts)
  }

  function StepHeaders(p: Parser, accepts: Receiver): Outcome {
    if Find(p.window, CRLF) > HEADER_MAX_LENGTH then Stop(p, false) else StepLines(p, accepts)
  }

  function StepBody(p: Parser, boundary: string, accepts: Receiver): Outcome {
    var d := Delimiter(boundary);
    if |d| > |p.window| then Stop(p, true)
    else
      var pos := Find(p.window, d);
      var found := pos < |p.window|;
      var n := if found then pos else |p.window| - |d|;
      if !found && n == 0 then Stop(p, true)
      else
        var e := ContentEvent(p.window[..n]);
        var told := p.(log := p.log + [e]);
        if !accepts(p.log, e) then Stop(told.(valid := false), false)
        else if found then Next(told.(window := p.window[pos + |d|..], stage := Boundary))
        else Stop(told.(window := p.window[n..]), true)
  }

  function StepBoundary(p: Parser): Outcome {
    if |p.window| < 2 then Stop(p, true)
    else if At(p.window, CRLF, 0) then Next(p.(window := p.window[2..], stage := Entry))
    else if At(p.window, "--", 0) then Next(p.(window := "", valid := true))
    else Stop(p, true)
  }

  /** One turn of the loop of `parse`. */
  function Step(p: Parser, boundary: string, accepts: Receiver): Outcome {
    match p.stage
    case Initial => StepInitial(p, boundary)
    case Entry => Next(p.(file := NO_FILE, stage := Headers))
    case Headers => StepHeaders(p, accepts)
    case Body => StepBody(p, boundary, accepts)
    case Boundary => StepBoundary(p)
  }

  lemma {:induction false} LinesShrink(p: Parser, accepts: Receiver)
    ensures var o := StepLines(p, accepts); o.Next? ==> |o.parser.window| < |p.window| && o.parser.stage == Body
    decreases |p.window|
  {
    var pos := Find(p.window, CRLF);
    if 0 < pos < |p.window| {
      match ReadHeader(p.window[..pos], p.file)
      case Bad(_) =>
      case Good(file) => LinesShrink(p.(file := file, window := p.window[pos + 2..]), accepts);
    }
  }

  lemma StepShrinks(p: Parser, boundary: string, accepts: Receiver)
    requires p.window != ""
    ensures var o := Step(p, boundary, accepts);
            o.Next? ==> |o.parser.window| < |p.window| ||
                        (o.parser.window == p.window && p.stage == Entry && o.parser.stage == Headers)
  {
    LinesShrink(p, accepts);
    hide StepLines, Find;
  }

  /** The loop of `parse`, from a window that already holds the new input. */
  function Run(p: Parser, boundary: string, accepts: Receiver): (Parser, bool)
    decreases |p.window|, if p.stage == Entry then 1 else 0
  {
    if p.window == "" then (p, true)
    else
      StepShrinks(p, boundary, accepts);
      match Step(p, boundary, accepts)
      case Stop(q, ok) => (q, ok)
      case Next(q) => Run(q, boundary, accepts)
  }

  function Parse(p: Parser, input: string, boundary: string, accepts: Receiver): (Parser, bool) {
    Run(p.(window := p.window + input), boundary, accepts)
  }

  /** Successive calls of `parse` on the chunks of a stream; the caller stops at the first failure. */
  function Feed(p: Parser, chunks: seq<string>, boundary: string, accepts: Receiver): (Parser, bool)
    decreases |chunks|
  {
    if chunks == [] then (p, true)
    else
      var (q, ok) := Parse(p, chunks[0], boundary, accepts);
      if !ok then (q, false) else Feed(q, chunks[1..], boundary, accepts)
  }

  /** No callback ever refuses. */
  ghost predicate AcceptsAll(accepts: Receiver) {
    forall log, e :: accepts(log, e)
  }

  // ----- what the receiver makes of the events

  /** A header starts an item, content is appended to the item started last. */
  function Deliver(log: seq<Event>): seq<Item> {
    if log == [] then []
    else
      var before := Deliver(log[..|log| - 1]);
      match log[|log| - 1]
      case HeaderEvent(d) => before + [Item(d, "")]
      case ContentEvent(t) =>
        if before == [] then []
        else before[|before| - 1 := before[|before| - 1].(content := before[|before| - 1].content + t)]
  }
}
