/** What a backend's reply becomes: the company it describes, and the text sent to the client. JSON text,
    its parser and printer and the reading of timestamps are foreign and enter as functions. */
module CompanyReplies {
  import opened Options

  type Time = int

  datatype Json = Null | Bool(b: bool) | Number(n: real) | Text(text: string) | Array(items: seq<Json>) | Object(fields: map<string, Json>)

  /** `inFuture` compares a timestamp with the clock; it and `dump` throw on some texts. */
  datatype Foreign = Foreign(
    parse: string -> Option<Json>,
    dump: Json -> Option<string>,
    inFuture: (string, Time) -> Option<bool>)

  datatype Reply = Reply(status: nat, contentType: Option<string>, body: string)

  datatype CompanyInfo = CompanyInfo(
    id: string, name: string, version: int, parseSuccess: bool,
    createdOn: Option<string>, closedOn: Option<string>, dissolvedOn: Option<string>)

  const V1 := "application/x-company-v1"
  const V2 := "application/x-company-v2"

  /** `value` of the JSON library with an empty default; it throws when there is no object, or no text. */
  function TextOrEmpty(j: Json, k: string): Option<string> {
    if !j.Object? then None
    else if k !in j.fields then Some("")
    else if j.fields[k].Text? then Some(j.fields[k].text) else None
  }

  function TextIfAny(j: Json, k: string): Option<string> {
    if j.Object? && k in j.fields && j.fields[k].Text? then Some(j.fields[k].text) else None
  }

  const UNREAD := CompanyInfo("", "", -1, false, None, None, None)

  /** `parseBackendResponse`. An exception ends it with what has been filled in so far. */
  method ParseBackendResponse(f: Foreign, id: string, r: Reply) returns (info: CompanyInfo)
    ensures info == Parsed(f, id, r)
  {
    info := UNREAD.(id := id);
    if r.body == "" {
      return;
    }
    var parsed := f.parse(r.body);
    if parsed.None? {
      return;
    }
    var j := parsed.value;
    if r.contentType == Some(V1) {
      info := info.(version := 1, parseSuccess := true);
      var name := TextOrEmpty(j, "cn");
      if name.None? {
        return;
      }
      info := info.(name := name.value);
      var created := TextOrEmpty(j, "created_on");
      if created.None? {
        return;
      }
      info := info.(createdOn := created, closedOn := TextIfAny(j, "closed_on"));
    } else if r.contentType == Some(V2) {
      info := info.(version := 2, parseSuccess := true);
      var name := TextOrEmpty(j, "company_name");
      if name.None? {
        return;
      }
      info := info.(name := name.value);
      var tin := TextOrEmpty(j, "tin");
      if tin.None? {
        return;
      }
      info := info.(dissolvedOn := TextIfAny(j, "dissolved_on"));
    }
  }

  function ParsedV1(id: string, j: Json): CompanyInfo {
    var start := UNREAD.(id := id, version := 1, parseSuccess := true);
    match TextOrEmpty(j, "cn")
    case None => start
    case Some(name) =>
      if TextOrEmpty(j, "created_on").None? then start.(name := name)
      else start.(name := name, createdOn := TextOrEmpty(j, "created_on"), closedOn := TextIfAny(j, "closed_on"))
  }

  function ParsedV2(id: string, j: Json): CompanyInfo {
    var start := UNREAD.(id := id, version := 2, parseSuccess := true);
    match TextOrEmpty(j, "company_name")
    case None => start
    case Some(name) =>
      if TextOrEmpty(j, "tin").None? then start.(name := name)
      else start.(name := name, dissolvedOn := TextIfAny(j, "dissolved_on"))
  }

  function Parsed(f: Foreign, id: string, r: Reply): CompanyInfo {
    if r.body == "" || f.parse(r.body).None? then UNREAD.(id := id)
    else if r.contentType == Some(V1) then ParsedV1(id, f.parse(r.body).value)
    else if r.contentType == Some(V2) then ParsedV2(id, f.parse(r.body).value)
    else UNREAD.(id := id)
  }

  /** What counts as success: a body that is JSON of any kind, under one of the two content types. */
  lemma ParsedIff(f: Foreign, id: string, r: Reply)
    ensures Parsed(f, id, r).parseSuccess <==>
            r.body != "" && f.parse(r.body).Some? && (r.contentType == Some(V1) || r.contentType == Some(V2))
    ensures Parsed(f, id, r).id == id
    ensures Parsed(f, id, r).version == if !Parsed(f, id, r).parseSuccess then -1 else if r.contentType == Some(V1) then 1 else 2
  {
    if r.body != "" && f.parse(r.body).Some? {
      var j := f.parse(r.body).value;
      assert ParsedV1(id, j).parseSuccess && ParsedV2(id, j).parseSuccess;
    }
  }

  // ----- the text sent to the client

  function Later(f: Foreign, t: Option<string>, now: Time): Option<bool> {
    if t == None || t == Some("") then Some(false) else f.inFuture(t.value, now)
  }

  function Company(info: CompanyInfo, active: bool, until: Option<string>): Json {
    var fields := map["id" := Text(info.id), "name" := Text(info.name), "active" := Bool(active)];
    Object(if until == None || until == Some("") then fields else fields["active_until" := Text(until.value)])
  }

  /** `constructV1Json` and `constructV2Json`, with the clock as read for either timestamp. */
  function Construct(f: Foreign, info: CompanyInfo, first: Time, second: Time): Option<Json> {
    var until := if info.version == 1 then info.closedOn else info.dissolvedOn;
    var unborn := if info.version == 1 then Later(f, info.createdOn, first) else Some(false);
    var open := Later(f, until, second);
    if unborn.None? || open.None? then None
    else Some(Company(info, !unborn.value && (until == None || until == Some("") || open.value), until))
  }

  function Rendered(f: Foreign, id: string, r: Reply, first: Time, second: Time): Option<string> {
    match Construct(f, Parsed(f, id, r), first, second)
    case None => None
    case Some(j) => f.dump(j)
  }

  // ----- what the client reads of what the backend wrote

  /** A date in a reply, and what the clock says of it: that it is in the future or not, or nothing. */
  predicate Dated(f: Foreign, j: Json, k: string, date: Option<string>, now: Time, future: Option<bool>)
    requires j.Object?
  {
    match date
    case None => k !in j.fields && future == Some(false)
    case Some(text) => k in j.fields && j.fields[k] == Text(text) && text != "" && future == f.inFuture(text, now)
  }

  function Shown(id: string, name: string, active: bool, until: Option<string>): Json {
    var shown := map["id" := Text(id), "name" := Text(name), "active" := Bool(active)];
    Object(if until.Some? then shown["active_until" := Text(until.value)] else shown)
  }

  /** The first format: the company's name comes through, it is active once it has been created and until it
      is closed, and the date of closing is passed on. A date that cannot be compared with the clock leaves
      nothing to send. */
  lemma RenderedV1(f: Foreign, id: string, r: Reply, j: Json, name: string, created: Option<string>, unborn: Option<bool>,
        closed: Option<string>, open: Option<bool>, first: Time, second: Time)
    requires r.body != "" && f.parse(r.body) == Some(j) && r.contentType == Some("application/x-company-v1")
    requires j.Object? && "cn" in j.fields && j.fields["cn"] == Text(name)
    requires Dated(f, j, "created_on", created, first, unborn) && Dated(f, j, "closed_on", closed, second, open)
    ensures Rendered(f, id, r, first, second) ==
            if unborn.None? || open.None? then None
            else f.dump(Shown(id, name, !unborn.value && (closed.Some? ==> open.value), closed))
  {
  }

  /** The second format has other names and no date of creation. */
  lemma RenderedV2(f: Foreign, id: string, r: Reply, j: Json, name: string, tin: Option<string>,
        dissolved: Option<string>, open: Option<bool>, first: Time, second: Time)
    requires r.body != "" && f.parse(r.body) == Some(j) && r.contentType == Some("application/x-company-v2")
    requires j.Object? && "company_name" in j.fields && j.fields["company_name"] == Text(name)
    requires if tin.Some? then "tin" in j.fields && j.fields["tin"] == Text(tin.value) else "tin" !in j.fields
    requires Dated(f, j, "dissolved_on", dissolved, second, open)
    ensures Rendered(f, id, r, first, second) ==
            if open.None? then None else f.dump(Shown(id, name, dissolved.Some? ==> open.value, dissolved))
  {
  }

  /** A reply that is no object, or whose name is no text, is still a success: the client reads of an active
      company without a name. */
  lemma MisreadName(f: Foreign, id: string, r: Reply, j: Json, first: Time, second: Time)
    requires r.body != "" && f.parse(r.body) == Some(j)
    requires r.contentType == Some("application/x-company-v1") || r.contentType == Some("application/x-company-v2")
    requires var k := if r.contentType == Some("application/x-company-v1") then "cn" else "company_name";
             !j.Object? || (k in j.fields && !j.fields[k].Text?)
    ensures Rendered(f, id, r, first, second) == f.dump(Shown(id, "", true, None))
  {
  }

  /** One whose date of creation, or tax number, is no text keeps its name, and the date behind it is never
      read: the client reads of an active company, be it closed or dissolved. */
  lemma MisreadField(f: Foreign, id: string, r: Reply, j: Json, name: string, first: Time, second: Time)
    requires r.body != "" && f.parse(r.body) == Some(j) && j.Object?
    requires r.contentType == Some("application/x-company-v1") || r.contentType == Some("application/x-company-v2")
    requires var v1 := r.contentType == Some("application/x-company-v1");
             var (k, field) := if v1 then ("cn", "created_on") else ("company_name", "tin");
             k in j.fields && j.fields[k] == Text(name) && field in j.fields && !j.fields[field].Text?
    ensures Rendered(f, id, r, first, second) == f.dump(Shown(id, name, true, None))
  {
  }
}
