/** Runs of company requests told from their events: what the cache holds, which requests it answers, and
    what becomes of every request and every call. */
module CompanyHistory {
  import opened CompanyReplies
  import opened CompanyRequests
  import opened Configuration
  import opened Options
  import opened Text
  import H = LruHistory
  import Lru = LruSpec
  import Query = QueryStrings

  // ----- the cache's part of a run

  /** What a reply gives to whoever asks for the company: its status is 200, its body is JSON under one of
      the two content types, and it can be rendered. */
  function Given(v: Service, p: Pending, e: Ending): Option<string> {
    if !e.failed && e.reply.status == 200 && Parsed(v.foreign, p.id, e.reply).parseSuccess
    then Rendered(v.foreign, p.id, e.reply, e.first, e.second)
    else None
  }

  function CacheOps(v: Service, w: World, e: Event): seq<Lru.Op>
    requires Enabled(w, e)
  {
    match e
    case Request(query, around) =>
      var (id, country) := Named(query);
      if id == "" || country == "" then [] else [Lru.Get(CacheKey(id, country), around.sweep, around.check)]
    case Reply(i, ending) =>
      var p := w.pending[i];
      match Given(v, p, ending)
      case None => []
      case Some(body) => [Lru.Set(CacheKey(p.id, p.country), body, 86400, ending.now)]
  }

  /** The calls of the cache that a run makes. */
  function Trace(v: Service, w: World, events: seq<Event>): seq<Lru.Op>
    requires Possible(v, w, events)
    decreases |events|
  {
    if events == [] then [] else CacheOps(v, w, events[0]) + Trace(v, Do(v, w, events[0]), events[1..])
  }

  lemma StepIsTraced(v: Service, w: World, e: Event, past: seq<Lru.Op>)
    requires Enabled(w, e) && w.cache == Lru.Run(past, v.cache)
    ensures Do(v, w, e).cache == Lru.Run(past + CacheOps(v, w, e), v.cache)
  {
    hide Lru.Lookup, Lru.Store, Parsed, Rendered, Named, Noted;
    var ops := CacheOps(v, w, e);
    if ops == [] {
      assert past + ops == past;
    } else {
      assert Lru.Front(past + ops) == past && Lru.Last(past + ops) == ops[0];
    }
  }

  /** The cache of a run is the cache after its trace. */
  lemma {:induction false} CacheIsTraced(v: Service, w: World, events: seq<Event>, past: seq<Lru.Op>)
    requires Possible(v, w, events) && w.cache == Lru.Run(past, v.cache)
    ensures After(v, w, events).cache == Lru.Run(past + Trace(v, w, events), v.cache)
    decreases |events|
  {
    if events == [] {
      assert past + [] == past;
    } else {
      var ops, next := CacheOps(v, w, events[0]), Do(v, w, events[0]);
      assert Possible(v, next, events[1..]) && After(v, w, events) == After(v, next, events[1..]);
      assert Trace(v, w, events) == ops + Trace(v, next, events[1..]);
      StepIsTraced(v, w, events[0], past);
      hide *;
      CacheIsTraced(v, next, events[1..], past + ops);
      Assoc(past, ops, Trace(v, next, events[1..]));
    }
  }

  // ----- the text given last

  datatype Gift = Gift(body: string, now: int)

  /** The last text that a reply gave for this key, and when, or `before` if none did. */
  function LastGiven(v: Service, w: World, events: seq<Event>, key: string, before: Option<Gift>): Option<Gift>
    requires Possible(v, w, events)
    decreases |events|
  {
    if events == [] then before
    else LastGiven(v, Do(v, w, events[0]), events[1..], key, GivenNow(v, w, events[0], key, before))
  }

  function GivenNow(v: Service, w: World, e: Event, key: string, before: Option<Gift>): Option<Gift>
    requires Enabled(w, e)
  {
    match e
    case Request(_, _) => before
    case Reply(i, ending) =>
      var p := w.pending[i];
      if CacheKey(p.id, p.country) == key && Given(v, p, ending).Some?
      then Some(Gift(Given(v, p, ending).value, ending.now)) else before
  }

  /** A day's life in the cache. */
  function Kept(gift: Option<Gift>): Option<Lru.Entry> {
    match gift
    case None => None
    case Some(g) => Some(Lru.Entry(g.body, g.now + 24 * 60 * 60))
  }

  lemma StepGives(v: Service, w: World, e: Event, key: string, before: Option<Gift>, past: seq<Lru.Op>)
    requires Enabled(w, e) && H.LastWrite(past, key, v.cache) == Kept(before)
    ensures H.LastWrite(past + CacheOps(v, w, e), key, v.cache) == Kept(GivenNow(v, w, e, key, before))
  {
    hide Given, Named;
    var ops := CacheOps(v, w, e);
    if ops == [] {
      assert past + ops == past;
    } else {
      assert Lru.Front(past + ops) == past && Lru.Last(past + ops) == ops[0];
    }
  }

  lemma {:induction false} LastGivenIsWritten(v: Service, w: World, events: seq<Event>, key: string,
        before: Option<Gift>, past: seq<Lru.Op>)
    requires Possible(v, w, events) && H.LastWrite(past, key, v.cache) == Kept(before)
    ensures H.LastWrite(past + Trace(v, w, events), key, v.cache) == Kept(LastGiven(v, w, events, key, before))
    decreases |events|
  {
    if events == [] {
      assert past + [] == past;
    } else {
      var e := events[0];
      var ops, next, gift := CacheOps(v, w, e), Do(v, w, e), GivenNow(v, w, e, key, before);
      assert Possible(v, next, events[1..]);
      assert LastGiven(v, w, events, key, before) == LastGiven(v, next, events[1..], key, gift);
      assert Trace(v, w, events) == ops + Trace(v, next, events[1..]);
      StepGives(v, w, e, key, before, past);
      hide *;
      LastGivenIsWritten(v, next, events[1..], key, gift, past + ops);
      Assoc(past, ops, Trace(v, next, events[1..]));
    }
  }

  // ----- what a request names

  /** Of a query as clients print it: the company under `id`, the country, in upper case, under
      `country_iso`, each empty where it is missing. */
  lemma NamedReads(params: Query.Params)
    requires Query.Printable(params)
    ensures Named(Query.Print(params)) == (Query.Lookup(params, "id"), Upper(Query.Lookup(params, "country_iso")))
  {
    hide Query.Print, Query.Lookup, Query.Printable, Query.ScanText, Query.ScanEnd, Upper;
    Query.ParsersAgree(params, "id");
    Query.ParsersAgree(params, "country_iso");
  }

  // ----- what becomes of a request

  predicate Whole(id: string, country: string) {
    id != "" && country != ""
  }

  /** A request makes a call exactly when it names a company and a country, the cache has no answer, it is
      not late, and the country has a backend whose circuit breaker is not tripped. Otherwise it is answered
      at once, or, when late, dropped on a service set to drop. */
  lemma RequestDecides(v: Service, w: World, query: string, c: Circumstances)
    ensures var t := Do(v, w, Request(query, c));
            var (id, country) := Named(query);
            var n := |w.requests|;
            var hit := Lru.Lookup(w.cache, id + ":" + country, c.sweep, c.check).1;
            var asks := Whole(id, country) && hit.None? && !c.late && country in v.backends && !c.tripped;
            && t.requests == w.requests + [(id, country)] && t.heard == w.heard
            && t.pending == (if asks then w.pending + [Pending(n, id, country, v.backends[country], "/companies/" + id)] else w.pending)
            && t.answers == w.answers + (
                 if asks || (Whole(id, country) && hit.None? && c.late && v.dropLate) then []
                 else if !Whole(id, country) then [Answer(n, 400, MISSING)]
                 else if hit.Some? then [Answer(n, 200, hit.value)]
                 else if c.late then [Answer(n, 504, LATE)]
                 else if country !in v.backends then [Answer(n, 404, UNCONFIGURED)]
                 else [Answer(n, 504, TRIPPED)])
  {
    hide Named, Lru.Lookup;
  }

  /** The end of a call takes it off the list and is answered under its request's number: 200 exactly when
      the reply gives a text, and with that text; not at all when rendering throws; and with its own status
      otherwise. */
  lemma EndingDecides(v: Service, w: World, i: nat, e: Ending, body: string)
    requires i < |w.pending|
    ensures var t := Do(v, w, Event.Reply(i, e));
            var p := w.pending[i];
            && t.pending == w.pending[..i] + w.pending[i + 1..] && t.requests == w.requests
            && (t.answers == w.answers + [Answer(p.request, 200, body)] <==> Gives(v, Heard(p, e), body))
    ensures var t := Do(v, w, Event.Reply(i, e));
            var p := w.pending[i];
            var parses := Parsed(v.foreign, p.id, e.reply).parseSuccess;
            var gone := w.answers;
            && (e.failed ==> t.answers == gone + [Answer(p.request, 504, UNREACHABLE)])
            && (!e.failed && e.reply.status == 200 && !parses ==> t.answers == gone + [Answer(p.request, 502, UNPARSED)])
            && (!e.failed && e.reply.status == 200 && parses && Given(v, p, e).None? ==> t.answers == gone)
            && (!e.failed && e.reply.status == 404 ==> t.answers == gone + [Answer(p.request, 404, NOT_FOUND)])
            && (!e.failed && 500 <= e.reply.status <= 599 ==> t.answers == gone + [Answer(p.request, 502, SERVER_ERROR)])
            && (!e.failed && e.reply.status != 200 && e.reply.status != 404 && !(500 <= e.reply.status <= 599) ==>
                  t.answers == gone + [Answer(p.request, 502, UNKNOWN_STATUS)])
  {
    hide Parsed, Rendered, Lru.Apply;
    var gone, now := w.answers, Do(v, w, Event.Reply(i, e)).answers;
    assert now == gone || now[|gone|..] == [now[|gone|]];
    if now == gone + [Answer(w.pending[i].request, 200, body)] {
      assert now[|gone|] == Answer(w.pending[i].request, 200, body);
    }
  }

  // ----- which requests the cache answers

  /** The clock never goes back in the run, up to this reading. */
  predicate InTime(v: Service, events: seq<Event>, sweep: int)
    requires Possible(v, START, events)
  {
    H.Monotone(Trace(v, START, events), sweep)
  }

  /** The other keys given a text or answered from the cache since this one was. */
  function Others(v: Service, events: seq<Event>, key: string): set<string>
    requires Possible(v, START, events)
  {
    H.Touched(Trace(v, START, events), key, v.cache)
  }

  lemma FromStart(v: Service, events: seq<Event>, key: string)
    requires Possible(v, START, events)
    ensures After(v, START, events).cache == Lru.Run(Trace(v, START, events), v.cache)
    ensures H.LastWrite(Trace(v, START, events), key, v.cache) == Kept(LastGiven(v, START, events, key, None))
  {
    assert H.LastWrite([], key, v.cache) == Kept(None) && Lru.Run([], v.cache) == START.cache;
    CacheIsTraced(v, START, events, []);
    LastGivenIsWritten(v, START, events, key, None, []);
    assert [] + Trace(v, START, events) == Trace(v, START, events);
  }

  /** Once a reply has given a text for a company, every request for that company within a day is answered
      with it, and no backend is asked, unless the cache has meanwhile been filled with others. */
  lemma AnsweredAgain(v: Service, events: seq<Event>, query: string, c: Circumstances)
    requires Possible(v, START, events) && Whole(Named(query).0, Named(query).1)
    requires var key := Named(query).0 + ":" + Named(query).1;
             var gift := LastGiven(v, START, events, key, None);
             && gift.Some? && c.sweep <= c.check < gift.value.now + 24 * 60 * 60
             && InTime(v, events, c.sweep) && |Others(v, events, key)| < Lru.Capacity(v.cache.maxSize)
    ensures var key := Named(query).0 + ":" + Named(query).1;
            var w := After(v, START, events);
            var t := Do(v, w, Request(query, c));
            && t.answers == w.answers + [Answer(|w.requests|, 200, LastGiven(v, START, events, key, None).value.body)]
            && t.pending == w.pending
  {
    var key := Named(query).0 + ":" + Named(query).1;
    FromStart(v, events, key);
    H.UnexpiredHits(Trace(v, START, events), v.cache, key, c.sweep, c.check);
    RequestDecides(v, After(v, START, events), query, c);
    hide Named, Lru.Lookup, Do, Trace, LastGiven, After, Possible;
  }

  /** And whatever a request is answered from the cache is the text given last for its key, less than a day
      ago. */
  lemma AnsweredFromCacheIsLast(v: Service, events: seq<Event>, query: string, c: Circumstances, body: string)
    requires Possible(v, START, events)
    requires var w := After(v, START, events);
             Do(v, w, Request(query, c)).answers == w.answers + [Answer(|w.requests|, 200, body)]
    ensures var key := Named(query).0 + ":" + Named(query).1;
            var gift := LastGiven(v, START, events, key, None);
            gift.Some? && gift.value.body == body && c.check < gift.value.now + 24 * 60 * 60
            && c.sweep < gift.value.now + 24 * 60 * 60
  {
    var key, w := Named(query).0 + ":" + Named(query).1, After(v, START, events);
    FromStart(v, events, key);
    RequestDecides(v, w, query, c);
    var more := Do(v, w, Request(query, c)).answers;
    assert more[|w.answers|..] == [Answer(|w.requests|, 200, body)];
    hide Named, Lru.Lookup, Do, Trace, LastGiven, After, Possible;
    H.HitIsLastWrite(Trace(v, START, events), v.cache, key, c.sweep, c.check);
  }

  /** One more event at the end of a run. */
  lemma {:induction false} OneMore(v: Service, w: World, events: seq<Event>, e: Event, key: string, before: Option<Gift>)
    requires Possible(v, w, events) && Enabled(After(v, w, events), e)
    ensures Possible(v, w, events + [e]) && After(v, w, events + [e]) == Do(v, After(v, w, events), e)
    ensures Trace(v, w, events + [e]) == Trace(v, w, events) + CacheOps(v, After(v, w, events), e)
    ensures LastGiven(v, w, events + [e], key, before) ==
            GivenNow(v, After(v, w, events), e, key, LastGiven(v, w, events, key, before))
    decreases |events|
  {
    if events == [] {
      assert [e][1..] == [] && events + [e] == [e];
      hide Do, Enabled, CacheOps, GivenNow;
    } else {
      var next := Do(v, w, events[0]);
      assert (events + [e])[1..] == events[1..] + [e];
      hide Do, Enabled, CacheOps, GivenNow;
      OneMore(v, next, events[1..], e, key, GivenNow(v, w, events[0], key, before));
      Assoc(CacheOps(v, w, events[0]), Trace(v, next, events[1..]), CacheOps(v, After(v, w, events), e));
    }
  }

  /** Right after a reply has given a text, the same company is answered with it, however small the cache,
      if and only if both readings of the clock are within the day. */
  lemma AnsweredRightAfter(v: Service, events: seq<Event>, i: nat, e: Ending, body: string, query: string, c: Circumstances)
    requires Possible(v, START, events) && i < |After(v, START, events).pending|
    requires var p := After(v, START, events).pending[i];
             Gives(v, Heard(p, e), body) && Named(query) == (p.id, p.country) && Whole(p.id, p.country)
    ensures var w := Do(v, After(v, START, events), Event.Reply(i, e));
            var t := Do(v, w, Request(query, c));
            t.answers == w.answers + [Answer(|w.requests|, 200, body)] <==>
            c.sweep < e.now + 24 * 60 * 60 && c.check < e.now + 24 * 60 * 60
  {
    var before := After(v, START, events);
    var p, reply := before.pending[i], Event.Reply(i, e);
    var key := p.id + ":" + p.country;
    OneMore(v, START, events, reply, key, None);
    FromStart(v, events + [reply], key);
    var trace := Trace(v, START, events + [reply]);
    var put := Lru.Set(key, body, 86400, e.now);
    assert CacheOps(v, before, reply) == [put];
    assert Lru.Last(trace) == put;
    H.SetHitsUntil(trace, v.cache, key, body, 86400, e.now, c.sweep, c.check);
    var w := Do(v, before, reply);
    RequestDecides(v, w, query, c);
    var now := Do(v, w, Request(query, c)).answers;
    hide Named, Lru.Lookup, Do, Trace, LastGiven, After, Possible, Gives;
    if now == w.answers + [Answer(|w.requests|, 200, body)] {
      assert now[|w.answers|] == Answer(|w.requests|, 200, body);
    }
  }
}
