/** Company requests: the cache, the call to the country's backend and the answer, in any interleaving of
    requests. */
module CompanyRequests {
  import opened CompanyReplies
  import opened Configuration
  import opened InMemoryCaches
  import opened Options
  import opened Text
  import Lru = LruSpec
  import Query = QueryStrings

  datatype Service = Service(foreign: Foreign, backends: map<string, string>, cache: Lru.Config, dropLate: bool)

  /** A call under way: for which request, and to where. */
  datatype Pending = Pending(request: nat, id: string, country: string, url: string, target: string)

  /** What a request comes to at once, or a call in the end; `Threw` stands for an exception, which leaves
      no answer. */
  datatype Outcome = Answered(status: nat, body: string) | Dropped | Threw | Calls(url: string, target: string)

  const MISSING := "{\"error\": \"Missing required parameters\"}"
  const LATE := "{\"error\": \"Gateway Timeout - SLA Exceeded\"}"
  const UNCONFIGURED := "{\"error\": \"Unconfigured country_iso\"}"
  const TRIPPED := "{\"error\": \"Gateway Timeout - Circuit Breaker Active\"}"
  const UNREACHABLE := "{\"error\": \"Gateway Timeout - Backend Unreachable\"}"
  const UNPARSED := "{\"error\": \"Bad Gateway - Upstream Response Parse Error\"}"
  const NOT_FOUND := "{\"error\": \"Not Found from backend\"}"
  const SERVER_ERROR := "{\"error\": \"Bad Gateway - Upstream Server Error\"}"
  const UNKNOWN_STATUS := "{\"error\": \"Bad Gateway - Unknown Upstream Status\"}"

  const CACHE_TTL := 3600 * 24

  function CacheKey(id: string, country: string): string {
    id + ":" + country
  }

  /** The id and country that a query names. */
  function Named(query: string): (string, string) {
    var params := Query.ScanEnd(Query.ScanText(Query.START, query));
    (Query.MapLookup(params, "id"), Upper(Query.MapLookup(params, "country_iso")))
  }

  /** What was found around a request: the clock read by the cache, whether the request is late, and
      whether the circuit breaker of its backend is tripped. */
  datatype Circumstances = Circumstances(sweep: int, check: int, late: bool, tripped: bool)

  function Begun(v: Service, cache: Lru.State, id: string, country: string, c: Circumstances): (Outcome, Lru.State) {
    if id == "" || country == "" then (Answered(400, MISSING), cache)
    else
      var (cache', hit) := Lru.Lookup(cache, CacheKey(id, country), c.sweep, c.check);
      if hit.Some? then (Answered(200, hit.value), cache')
      else if c.late then (if v.dropLate then Dropped else Answered(504, LATE), cache')
      else if country !in v.backends then (Answered(404, UNCONFIGURED), cache')
      else if c.tripped then (Answered(504, TRIPPED), cache')
      else (Calls(v.backends[country], "/companies/" + id), cache')
  }

  /** How a call ended: with an error or a reply, and the clock read while it was handled. */
  datatype Ending = Ending(failed: bool, reply: Reply, first: int, second: int, now: int)

  function Ended(v: Service, cache: Lru.State, p: Pending, e: Ending): (Outcome, Lru.State) {
    if e.failed then (Answered(504, UNREACHABLE), cache)
    else if e.reply.status == 200 then
      if Parsed(v.foreign, p.id, e.reply).parseSuccess then
        match Rendered(v.foreign, p.id, e.reply, e.first, e.second)
        case None => (Threw, cache)
        case Some(body) =>
          (Answered(200, body), Lru.Apply(cache, v.cache, Lru.Set(CacheKey(p.id, p.country), body, CACHE_TTL, e.now)))
      else (Answered(502, UNPARSED), cache)
    else if e.reply.status == 404 then (Answered(404, NOT_FOUND), cache)
    else if 500 <= e.reply.status < 600 then (Answered(502, SERVER_ERROR), cache)
    else (Answered(502, UNKNOWN_STATUS), cache)
  }

  class Backendify {
    const service: Service
    const cache: InMemoryCache

    constructor (service: Service)
      ensures cache.Valid() && cache.Model() == Lru.EMPTY && cache.config == service.cache && this.service == service
    {
      this.service := service;
      cache := new InMemoryCache(service.cache.defaultTtl, service.cache.maxSize);
    }

    /** `processCompanyRequest` up to the backend call. */
    method ProcessCompanyRequest(query: string, c: Circumstances) returns (outcome: Outcome)
      requires cache.Valid()
      modifies cache, cache.lruList, cache.lruList.repr
      ensures cache.Valid() && cache.lruList.repr == old(cache.lruList.repr)
      ensures (outcome, cache.Model()) == Begun(service, old(cache.Model()), Named(query).0, Named(query).1, c)
    {
      hide Lru.Lookup;
      var params := Query.ParseCompanyQuery(query);
      var id := if "id" in params then params["id"] else "";
      var country := Upper(if "country_iso" in params then params["country_iso"] else "");
      assert Named(query) == (id, country);
      hide Named;
      if id == "" || country == "" {
        return Answered(400, MISSING);
      }
      var cached := cache.Get(CacheKey(id, country), c.sweep, c.check);
      if cached.Some? {
        return Answered(200, cached.value);
      }
      if c.late {
        return if service.dropLate then Dropped else Answered(504, LATE);
      }
      if country !in service.backends {
        return Answered(404, UNCONFIGURED);
      }
      if c.tripped {
        return Answered(504, TRIPPED);
      }
      return Calls(service.backends[country], "/companies/" + id);
    }

    /** The completion handler of the backend call. */
    method OnBackendReply(p: Pending, e: Ending) returns (outcome: Outcome)
      requires cache.Valid() && cache.config == service.cache
      modifies cache, cache.lruList, cache.lruList.repr
      ensures cache.Valid() && fresh(cache.lruList.repr - old(cache.lruList.repr))
      ensures (outcome, cache.Model()) == Ended(service, old(cache.Model()), p, e)
    {
      hide Parsed, Rendered, Lru.Apply;
      if e.failed {
        return Answered(504, UNREACHABLE);
      }
      if e.reply.status == 200 {
        var info := ParseBackendResponse(service.foreign, p.id, e.reply);
        if !info.parseSuccess {
          return Answered(502, UNPARSED);
        }
        var body := Rendered(service.foreign, p.id, e.reply, e.first, e.second);
        if body.None? {
          return Threw;
        }
        var _ := cache.Set(CacheKey(p.id, p.country), body.value, CACHE_TTL, e.now);
        return Answered(200, body.value);
      }
      if e.reply.status == 404 {
        return Answered(404, NOT_FOUND);
      }
      if 500 <= e.reply.status < 600 {
        return Answered(502, SERVER_ERROR);
      }
      return Answered(502, UNKNOWN_STATUS);
    }
  }

  // ----- runs of interleaved requests

  datatype Answer = Answer(request: nat, status: nat, body: string)

  /** A call that ended with a reply. */
  datatype Heard = Heard(call: Pending, ending: Ending)

  datatype World = World(
    cache: Lru.State,
    pending: seq<Pending>,
    requests: seq<(string, string)>,   // the id and country each request named
    answers: seq<Answer>,
    heard: seq<Heard>)

  datatype Event = Request(query: string, around: Circumstances) | Reply(call: nat, ending: Ending)

  const START := World(Lru.EMPTY, [], [], [], [])

  predicate Enabled(w: World, e: Event) {
    e.Request? || e.call < |w.pending|
  }

  function Noted(answers: seq<Answer>, request: nat, o: Outcome): seq<Answer> {
    if o.Answered? then answers + [Answer(request, o.status, o.body)] else answers
  }

  function Asked(v: Service, w: World, id: string, country: string, c: Circumstances): World {
    var n := |w.requests|;
    var (outcome, cache) := Begun(v, w.cache, id, country, c);
    w.(cache := cache, requests := w.requests + [(id, country)], answers := Noted(w.answers, n, outcome),
       pending := if outcome.Calls? then w.pending + [Pending(n, id, country, outcome.url, outcome.target)] else w.pending)
  }

  function Replied(v: Service, w: World, i: nat, ending: Ending): World
    requires i < |w.pending|
  {
    var p := w.pending[i];
    var (outcome, cache) := Ended(v, w.cache, p, ending);
    w.(cache := cache, pending := w.pending[..i] + w.pending[i + 1..], answers := Noted(w.answers, p.request, outcome),
       heard := w.heard + [Heard(p, ending)])
  }

  function Do(v: Service, w: World, e: Event): World
    requires Enabled(w, e)
  {
    match e
    case Request(query, around) => Asked(v, w, Named(query).0, Named(query).1, around)
    case Reply(i, ending) => Replied(v, w, i, ending)
  }

  predicate Possible(v: Service, w: World, events: seq<Event>)
    decreases |events|
  {
    events == [] || (Enabled(w, events[0]) && Possible(v, Do(v, w, events[0]), events[1..]))
  }

  function After(v: Service, w: World, events: seq<Event>): World
    requires Possible(v, w, events)
    decreases |events|
  {
    if events == [] then w else After(v, Do(v, w, events[0]), events[1..])
  }

  // ----- where an answer comes from

  /** A call to the backend of a configured country, for the company's own path. */
  predicate Proper(v: Service, p: Pending) {
    p.country in v.backends && p.url == v.backends[p.country] && p.target == "/companies/" + p.id
  }

  /** The reply has status 200, parses, and is rendered as this text. */
  predicate Gives(v: Service, h: Heard, body: string) {
    && !h.ending.failed && h.ending.reply.status == 200
    && Parsed(v.foreign, h.call.id, h.ending.reply).parseSuccess
    && Rendered(v.foreign, h.call.id, h.ending.reply, h.ending.first, h.ending.second) == Some(body)
  }

  /** `h` is the source of `body` under this key. */
  predicate Source(v: Service, h: Heard, key: string, body: string) {
    Proper(v, h.call) && CacheKey(h.call.id, h.call.country) == key && Gives(v, h, body)
  }

  predicate Known(v: Service, heard: seq<Heard>, key: string, body: string) {
    exists i :: 0 <= i < |heard| && Source(v, heard[i], key, body)
  }

  ghost predicate CacheKnown(v: Service, cache: Lru.State, heard: seq<Heard>) {
    forall k :: k in cache.entries ==> Known(v, heard, k, cache.entries[k].value)
  }

  predicate AnswerKnown(v: Service, w: World, a: Answer) {
    && a.request < |w.requests|
    && (a.status == 200 ==> Known(v, w.heard, CacheKey(w.requests[a.request].0, w.requests[a.request].1), a.body))
  }

  predicate PendingKnown(v: Service, w: World, p: Pending) {
    p.request < |w.requests| && w.requests[p.request] == (p.id, p.country) && Proper(v, p)
  }

  ghost predicate Sourced(v: Service, w: World) {
    && CacheKnown(v, w.cache, w.heard)
    && (forall i :: 0 <= i < |w.answers| ==> AnswerKnown(v, w, w.answers[i]))
    && (forall i :: 0 <= i < |w.pending| ==> PendingKnown(v, w, w.pending[i]))
  }

  lemma {:induction false} EvictedWereThere(s: Lru.State, maxSize: nat, k: string)
    requires k in Lru.Evict(s, maxSize).entries
    ensures k in s.entries && Lru.Evict(s, maxSize).entries[k] == s.entries[k]
    decreases |s.order|
  {
    if |s.order| >= maxSize && s.order != [] {
      EvictedWereThere(Lru.State(s.entries - {s.order[|s.order| - 1]}, s.order[..|s.order| - 1]), maxSize, k);
    }
  }

  lemma LookupAddsNothing(s: Lru.State, key: string, sweep: int, check: int, k: string)
    ensures var (t, hit) := Lru.Lookup(s, key, sweep, check);
            && (k in t.entries ==> k in s.entries && t.entries[k] == s.entries[k])
            && (hit.Some? ==> key in s.entries && s.entries[key].value == hit.value)
  {
  }

  lemma SetAddsOne(s: Lru.State, cfg: Lru.Config, key: string, value: string, ttl: int, now: int, k: string)
    requires k in Lru.Apply(s, cfg, Lru.Set(key, value, ttl, now)).entries
    ensures var t := Lru.Apply(s, cfg, Lru.Set(key, value, ttl, now));
            if k == key then t.entries[k].value == value else k in s.entries && t.entries[k] == s.entries[k]
  {
    if k != key && key !in s.entries {
      EvictedWereThere(s, cfg.maxSize, k);
    }
  }

  lemma KnownGrows(v: Service, heard: seq<Heard>, h: Heard, key: string, body: string)
    requires Known(v, heard, key, body) || Source(v, h, key, body)
    ensures Known(v, heard + [h], key, body)
  {
    hide Source;
    if Known(v, heard, key, body) {
      var i :| 0 <= i < |heard| && Source(v, heard[i], key, body);
      assert (heard + [h])[i] == heard[i];
    } else {
      assert (heard + [h])[|heard|] == h;
    }
  }

  lemma AskedKeepsSourced(v: Service, w: World, id: string, country: string, c: Circumstances)
    requires Sourced(v, w)
    ensures Sourced(v, Asked(v, w, id, country, c))
  {
    var w' := Asked(v, w, id, country, c);
    var n, key := |w.requests|, CacheKey(id, country);
    hide Known, Lru.Lookup;
    forall k | k in w'.cache.entries ensures Known(v, w'.heard, k, w'.cache.entries[k].value) {
      LookupAddsNothing(w.cache, key, c.sweep, c.check, k);
    }
    LookupAddsNothing(w.cache, key, c.sweep, c.check, key);
    assert w'.requests[n] == (id, country);
    forall i | 0 <= i < |w'.answers| ensures AnswerKnown(v, w', w'.answers[i]) {
      if i < |w.answers| {
        assert AnswerKnown(v, w, w.answers[i]);
      }
    }
    forall i | 0 <= i < |w'.pending| ensures PendingKnown(v, w', w'.pending[i]) {
      if i < |w.pending| {
        assert PendingKnown(v, w, w.pending[i]);
      }
    }
  }

  lemma RepliedKeepsSourced(v: Service, w: World, i: nat, ending: Ending)
    requires Sourced(v, w) && i < |w.pending|
    ensures Sourced(v, Replied(v, w, i, ending))
  {
    var p, w' := w.pending[i], Replied(v, w, i, ending);
    var h, key := Heard(p, ending), CacheKey(p.id, p.country);
    assert PendingKnown(v, w, p);
    hide Parsed, Rendered, Known, Lru.Apply;
    forall k | k in w'.cache.entries ensures Known(v, w'.heard, k, w'.cache.entries[k].value) {
      var body := Rendered(v.foreign, p.id, ending.reply, ending.first, ending.second);
      if w'.cache != w.cache {
        SetAddsOne(w.cache, v.cache, key, body.value, CACHE_TTL, ending.now, k);
      }
      KnownGrows(v, w.heard, h, k, w'.cache.entries[k].value);
    }
    forall j | 0 <= j < |w'.answers| ensures AnswerKnown(v, w', w'.answers[j]) {
      var a := w'.answers[j];
      if j < |w.answers| {
        assert AnswerKnown(v, w, a);
      }
      if a.status == 200 {
        KnownGrows(v, w.heard, h, CacheKey(w.requests[a.request].0, w.requests[a.request].1), a.body);
      }
    }
    forall j | 0 <= j < |w'.pending| ensures PendingKnown(v, w', w'.pending[j]) {
      assert w'.pending[j] == w.pending[if j < i then j else j + 1];
    }
  }

  lemma {:induction false} AlwaysSourced(v: Service, w: World, events: seq<Event>)
    requires Sourced(v, w) && Possible(v, w, events)
    ensures Sourced(v, After(v, w, events))
    decreases |events|
  {
    if events != [] {
      match events[0] {
        case Request(query, around) => AskedKeepsSourced(v, w, Named(query).0, Named(query).1, around);
        case Reply(i, ending) => RepliedKeepsSourced(v, w, i, ending);
      }
      hide Sourced, Named, Asked, Replied;
      AlwaysSourced(v, Do(v, w, events[0]), events[1..]);
    }
  }

  /** Keys of two-letter countries tell their companies and countries apart; a key of any other country
      coincides with one of those only if the country text holds a colon. */
  lemma KeysApart(id: string, country: string, id': string, country': string)
    requires TwoLetters(country') && CacheKey(id, country) == CacheKey(id', country')
    ensures (id, country) == (id', country') <==> NoChar(country, ':')
  {
    var key := CacheKey(id, country);
    assert key[|id|] == ':' && key[|id'|] == ':';
    assert key[|id| + 1..] == country && key[|id'| + 1..] == country';
    assert key[..|id|] == id && key[..|id'|] == id';
    assert forall k :: 0 <= k < |country'| ==> country'[k] == key[|id'| + 1 + k];
    if |id| < |id'| {
      assert country[|id'| - |id| - 1] == ':';
    }
  }

  ghost predicate CountryCodes(v: Service) {
    forall c :: c in v.backends ==> TwoLetters(c)
  }

  /** The countries read from the command line are such codes. */
  lemma LoadedCountriesAreCodes(v: Service, arguments: seq<Argument>, parses: string -> bool)
    requires Loaded(v.backends, arguments, parses)
    ensures CountryCodes(v)
  {
    forall c | c in v.backends ensures TwoLetters(c) {
      CountriesAreTwoLetters(v.backends, arguments, parses, c);
    }
  }

  /** Behind an answer 200 there is a reply of status 200, heard from the backend configured for a country
      about a company by its path, parsed and rendered as the answer's body. That company and country are
      the ones the request named exactly when its country text holds no colon; the text of a configured
      country never does. */
  ghost predicate BackedUp(v: Service, w: World, a: Answer, h: Heard) {
    && a.request < |w.requests| && h in w.heard && Proper(v, h.call) && Gives(v, h, a.body)
    && var named := w.requests[a.request];
       && (named == (h.call.id, h.call.country) <==> NoChar(named.1, ':'))
       && (named.1 in v.backends ==> named == (h.call.id, h.call.country))
  }

  lemma SourcedIsBackedUp(v: Service, w: World, a: Answer) returns (h: Heard)
    requires CountryCodes(v) && AnswerKnown(v, w, a) && a.status == 200
    ensures BackedUp(v, w, a, h)
  {
    hide Gives;
    var named := w.requests[a.request];
    var i :| 0 <= i < |w.heard| && Source(v, w.heard[i], CacheKey(named.0, named.1), a.body);
    h := w.heard[i];
    KeysApart(named.0, named.1, h.call.id, h.call.country);
    if named.1 in v.backends {
      assert TwoLetters(named.1);
      assert NoChar(named.1, ':');
    }
  }

  /** In every run every answer 200 is backed up. */
  lemma AnswersAreBackedUp(v: Service, events: seq<Event>, a: Answer) returns (h: Heard)
    requires CountryCodes(v) && Possible(v, START, events)
    requires a in After(v, START, events).answers && a.status == 200
    ensures BackedUp(v, After(v, START, events), a, h)
  {
    AlwaysSourced(v, START, events);
    var w := After(v, START, events);
    hide After, Possible, CacheKnown, AnswerKnown, PendingKnown, BackedUp, CountryCodes;
    h := SourcedIsBackedUp(v, w, a);
  }

  /** The colon matters: a text that is no configured country is answered with the company of another. */
  lemma ForeignCompany(v: Service, cache: Lru.State, id: string, more: string, country: string, c: Circumstances)
    requires CountryCodes(v) && id != "" && country in v.backends && more + ":" + country !in v.backends
    requires Lru.Hits(cache, CacheKey(id + ":" + more, country), c.sweep, c.check)
    ensures Begun(v, cache, id, more + ":" + country, c) == Begun(v, cache, id + ":" + more, country, c)
    ensures Begun(v, cache, id, more + ":" + country, c).0.status == 200
  {
    assert CacheKey(id, more + ":" + country) == CacheKey(id + ":" + more, country);
  }
}
