/** Company requests on their connection: what handling one says about keeping the connection, and what the
    session then does. */
module CompanySessions {
  import opened Options
  import opened ServerSessions
  import opened SessionPlans
  import C = CompanyRequests
  import Lru = LruSpec

  /** What the session is told by the outcome of a request that asked, or did not ask, to keep the connection.
      An answer from the cache keeps it in any case. A dropped request has been moved from, and `moved` is
      what it then says. */
  function HandlingOf(o: C.Outcome, asked: bool, moved: bool, supported: bool): Handling {
    match o
    case Answered(status, _) => Answer(if status == 200 then true else asked)
    case Calls(_, _) => CallBackend(asked, supported)
    case _ => Drop(moved)
  }

  function HandledNow(v: C.Service, cache: Lru.State, id: string, country: string, c: C.Circumstances,
                      asked: bool, moved: bool, supported: bool): Handling
  {
    HandlingOf(C.Begun(v, cache, id, country, c).0, asked, moved, supported)
  }

  lemma AnsweredKeeps(v: C.Service, cache: Lru.State, id: string, country: string, c: C.Circumstances,
                      asked: bool, moved: bool, supported: bool)
    requires C.Begun(v, cache, id, country, c).0.Answered?
    ensures var hit := id != "" && country != "" && Lru.Lookup(cache, C.CacheKey(id, country), c.sweep, c.check).1.Some?;
            HandledNow(v, cache, id, country, c, asked, moved, supported) == Answer(asked || hit)
  {
    hide Lru.Lookup;
  }

  lemma AnswerThenWrite(s: Session, p: Plan, keepAlive: bool, max: nat)
    requires max > 0 && Follows(s, p) && s.pendingReads > 0 && s.isOpen
    ensures var e := ReadDone(true, Answer(keepAlive));
            && Enabled(s, e)
            && var t := Do(s, e, max);
               Follows(t, Step(p, e)) && Step(p, e).keep == keepAlive && t.writes != [] && !t.stopped && !t.faulted
  {
    StepFollows(s, p, ReadDone(true, Answer(keepAlive)), max);
  }

  /** A request answered at once on an open connection whose answer goes out well is followed by the next one
      if and only if it asked for that or was answered from the cache: a client that asked to close the
      connection finds it kept in the second case. */
  lemma CachedAnswerKeeps(events: seq<Event>, max: nat, v: C.Service, cache: Lru.State, id: string, country: string,
                          c: C.Circumstances, asked: bool, moved: bool, supported: bool)
    requires max > 0 && Possible(FRESH, events, max)
    requires After(FRESH, events, max).pendingReads > 0 && After(FRESH, events, max).isOpen
    requires C.Begun(v, cache, id, country, c).0.Answered?
    ensures var read := ReadDone(true, HandledNow(v, cache, id, country, c, asked, moved, supported));
            var hit := id != "" && country != "" && Lru.Lookup(cache, C.CacheKey(id, country), c.sweep, c.check).1.Some?;
            var s := After(FRESH, events, max);
            && Enabled(s, read) && Enabled(Do(s, read, max), WriteDone(true))
            && var t := Do(Do(s, read, max), WriteDone(true), max);
               t.pendingReads == One(asked || hit) && t.finishes == One(!(asked || hit))
  {
    var s, p := After(FRESH, events, max), Planned(FIRST, events);
    AnsweredKeeps(v, cache, id, country, c, asked, moved, supported);
    FreshFollows();
    hide Follows, WriteEnded, Planned, Possible, After, HandledNow, Lru.Lookup, Handled, Step;
    RunFollows(FRESH, FIRST, events, max);
    var hit := id != "" && country != "" && Lru.Lookup(cache, C.CacheKey(id, country), c.sweep, c.check).1.Some?;
    var read := ReadDone(true, Answer(asked || hit));
    AnswerThenWrite(s, p, asked || hit, max);
    WriteIs(Do(s, read, max), max);
    hide Do, Enabled, C.Begun;
    WriteDecides(Do(s, read, max), Step(p, read), true);
  }

  lemma WriteIs(s: Session, max: nat)
    requires s.writes != [] && !s.faulted
    ensures Enabled(s, WriteDone(true)) && Do(s, WriteDone(true), max) == WriteEnded(s, true)
  {
  }
}
