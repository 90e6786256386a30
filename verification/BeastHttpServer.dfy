/** The server's set of active sessions. */
module BeastHttpServers {
  import opened HttpServerSessions
  import opened ServerSessions

  class BeastHttpServer {
    const maxResponseQueueSize: nat
    var activeSessions: set<HttpServerSession>

    constructor (max: nat)
      ensures activeSessions == {} && maxResponseQueueSize == max
    {
      maxResponseQueueSize := max;
      activeSessions := {};
    }

    /** A connection has been accepted. */
    method OnAccept() returns (session: HttpServerSession)
      modifies this
      ensures fresh(session) && session.State() == FRESH && session.maxResponseQueueSize == maxResponseQueueSize
      ensures activeSessions == old(activeSessions) + {session}
    {
      session := new HttpServerSession(maxResponseQueueSize);
      activeSessions := activeSessions + {session};
    }

    /** `found` tells whether the session was still in the set. */
    method OnSessionFinish(session: HttpServerSession) returns (found: bool)
      modifies this
      ensures activeSessions == old(activeSessions) - {session} && found == (session in old(activeSessions))
    {
      found := session in activeSessions;
      activeSessions := activeSessions - {session};
    }

    /** Stops every active session and forgets them all. */
    method StopServer()
      requires forall s :: s in activeSessions ==> Enabled(s.State(), Stop)
      modifies this, activeSessions
      ensures activeSessions == {}
      ensures forall s :: s in old(activeSessions) ==> s.State() == Do(old(s.State()), Stop, s.maxResponseQueueSize)
    {
      var left := activeSessions;
      while left != {}
        invariant left <= activeSessions == old(activeSessions)
        invariant forall s :: s in left ==> s.State() == old(s.State())
        invariant forall s :: s in activeSessions - left ==>
                    s.State() == Do(old(s.State()), Stop, s.maxResponseQueueSize)
        decreases |left|
      {
        var s :| s in left;
        s.StopSession();
        left := left - {s};
      }
      activeSessions := {};
    }
  }

  // ----- runs of the server

  /** Sessions are numbered as they are accepted; `reported` counts the runs of each one's finish callback,
      `cleared` holds those that a stop of the server took out of the set, and `misses` counts callbacks
      that did not find their session. */
  datatype Server = Server(sessions: seq<Session>, active: set<nat>, reported: multiset<nat>, cleared: set<nat>, misses: nat)

  datatype ServerEvent = Accept | Within(session: nat, event: Event) | Report(session: nat) | StopAll

  const EMPTY := Server([], {}, multiset{}, {}, 0)

  /** Nothing but the server stops a session. */
  predicate CanHappen(v: Server, e: ServerEvent) {
    match e
    case Accept => true
    case Within(i, event) => i < |v.sessions| && !event.Stop? && Enabled(v.sessions[i], event)
    case Report(i) => i < |v.sessions| && v.reported[i] < v.sessions[i].finishes
    case StopAll => forall i :: i in v.active && i < |v.sessions| ==> Enabled(v.sessions[i], Stop)
  }

  function StopIfActive(v: Server, i: nat, max: nat): Session
    requires i < |v.sessions| && (i in v.active ==> Enabled(v.sessions[i], Stop))
  {
    if i in v.active then Do(v.sessions[i], Stop, max) else v.sessions[i]
  }

  function Happen(v: Server, e: ServerEvent, max: nat): Server
    requires CanHappen(v, e)
  {
    match e
    case Accept => v.(sessions := v.sessions + [FRESH], active := v.active + {|v.sessions|})
    case Within(i, event) => v.(sessions := v.sessions[i := Do(v.sessions[i], event, max)])
    case Report(i) =>
      v.(active := v.active - {i}, reported := v.reported + multiset{i}, misses := v.misses + if i in v.active then 0 else 1)
    case StopAll =>
      v.(sessions := seq(|v.sessions|, i requires 0 <= i < |v.sessions| &&
                         (i in v.active ==> Enabled(v.sessions[i], Stop)) => StopIfActive(v, i, max)),
         cleared := v.cleared + v.active, active := {})
  }

  predicate CanRun(v: Server, events: seq<ServerEvent>, max: nat)
    decreases |events|
  {
    events == [] || (CanHappen(v, events[0]) && CanRun(Happen(v, events[0], max), events[1..], max))
  }

  function Ran(v: Server, events: seq<ServerEvent>, max: nat): Server
    requires CanRun(v, events, max)
    decreases |events|
  {
    if events == [] then v else Ran(Happen(v, events[0], max), events[1..], max)
  }

  ghost predicate AllSound(v: Server) {
    forall i :: 0 <= i < |v.sessions| ==> Sound(v.sessions[i]) && v.reported[i] <= v.sessions[i].finishes
  }

  ghost predicate ActiveAreUnreported(v: Server) {
    && (forall i: nat :: i in v.active <==> i < |v.sessions| && v.reported[i] == 0 && i !in v.cleared)
    && (forall i: nat :: i in v.reported || i in v.cleared ==> i < |v.sessions|)
  }

  /** The sessions whose callback came after a stop of the server had taken them out. */
  function Missed(v: Server): set<nat> {
    set i | i in v.cleared && v.reported[i] > 0
  }

  ghost predicate Consistent(v: Server) {
    AllSound(v) && ActiveAreUnreported(v) && v.misses == |Missed(v)|
  }

  lemma FinishesOnlyGrow(s: Session, e: Event, max: nat)
    requires max > 0 && Sound(s) && Enabled(s, e)
    ensures s.finishes <= Do(s, e, max).finishes
  {
    StepKeepsSound(s, e, max);
    if s.finishes > 0 {
      assert !s.registered && Outstanding(s) == 0;
    }
  }

  lemma StoppedStaysSound(v: Server, i: nat, max: nat)
    requires max > 0 && AllSound(v) && CanHappen(v, StopAll) && i < |v.sessions|
    ensures Sound(StopIfActive(v, i, max)) && StopIfActive(v, i, max).finishes == v.sessions[i].finishes
  {
    assert Sound(v.sessions[i]);
    hide Sound;
    if i in v.active {
      StepKeepsSound(v.sessions[i], Stop, max);
    }
  }

  lemma SteppedStaysSound(s: Session, e: Event, reported: nat, max: nat)
    requires max > 0 && Sound(s) && Enabled(s, e) && reported <= s.finishes
    ensures Sound(Do(s, e, max)) && reported <= Do(s, e, max).finishes
  {
    hide Sound, Do, Enabled;
    StepKeepsSound(s, e, max);
    FinishesOnlyGrow(s, e, max);
  }

  lemma FreshIsSound()
    ensures Sound(FRESH) && FRESH.finishes == 0
  {
  }

  lemma HappenKeepsAllSound(v: Server, e: ServerEvent, max: nat)
    requires max > 0 && Consistent(v) && CanHappen(v, e)
    ensures AllSound(Happen(v, e, max))
  {
    hide Sound, Do, Enabled, Missed;
    match e
    case Accept =>
      FreshIsSound();
      assert v.reported[|v.sessions|] == 0;
    case Within(i, event) =>
      SteppedStaysSound(v.sessions[i], event, v.reported[i], max);
    case Report(i) =>
    case StopAll =>
      forall i | 0 <= i < |v.sessions|
        ensures Sound(StopIfActive(v, i, max)) && StopIfActive(v, i, max).finishes == v.sessions[i].finishes
      {
        StoppedStaysSound(v, i, max);
      }
      hide StopIfActive;
  }

  lemma HappenKeepsActive(v: Server, e: ServerEvent, max: nat)
    requires ActiveAreUnreported(v) && CanHappen(v, e)
    ensures ActiveAreUnreported(Happen(v, e, max))
  {
    hide Do, Enabled, StopIfActive;
  }

  lemma ReportCounted(v: Server, i: nat, max: nat)
    requires Consistent(v) && CanHappen(v, Report(i))
    ensures var w := Happen(v, Report(i), max); w.misses == |Missed(w)|
  {
    ReportedOnce(v, i);
    hide AllSound;
    var w := Happen(v, Report(i), max);
    if i in v.active {
      assert i !in v.cleared;
      assert Missed(w) == Missed(v);
    } else {
      assert i in v.cleared;
      assert Missed(w) == Missed(v) + {i};
    }
  }

  lemma MissesAreCounted(v: Server, e: ServerEvent, max: nat)
    requires Consistent(v) && CanHappen(v, e)
    ensures Happen(v, e, max).misses == |Missed(Happen(v, e, max))|
  {
    if e.Report? {
      hide Happen, Missed, Consistent;
      ReportCounted(v, e.session, max);
    } else {
      hide Do, Enabled, StopIfActive, AllSound;
      assert Missed(Happen(v, e, max)) == Missed(v);
    }
  }

  /** A callback that is still due has not run before. */
  lemma ReportedOnce(v: Server, i: nat)
    requires AllSound(v) && CanHappen(v, Report(i))
    ensures v.reported[i] == 0
  {
    assert Sound(v.sessions[i]);
  }

  lemma HappenKeepsConsistent(v: Server, e: ServerEvent, max: nat)
    requires max > 0 && Consistent(v) && CanHappen(v, e)
    ensures Consistent(Happen(v, e, max))
  {
    HappenKeepsAllSound(v, e, max);
    HappenKeepsActive(v, e, max);
    MissesAreCounted(v, e, max);
    hide AllSound, ActiveAreUnreported, CanHappen, Happen;
  }

  lemma {:induction false} AlwaysConsistent(v: Server, events: seq<ServerEvent>, max: nat)
    requires max > 0 && Consistent(v) && CanRun(v, events, max)
    ensures Consistent(Ran(v, events, max))
    decreases |events|
  {
    if events != [] {
      HappenKeepsConsistent(v, events[0], max);
      AlwaysConsistent(Happen(v, events[0], max), events[1..], max);
    }
  }

  /** The set holds exactly the sessions whose finish callback has not run, but for those a stop took out;
      no callback runs twice, and the ones that do not find their session are those of sessions taken out. */
  lemma ActiveAreTheUnfinished(events: seq<ServerEvent>, max: nat, i: nat)
    requires max > 0 && CanRun(EMPTY, events, max) && i < |Ran(EMPTY, events, max).sessions|
    ensures var v := Ran(EMPTY, events, max);
            && v.reported[i] <= 1
            && (i in v.active <==> v.reported[i] == 0 && i !in v.cleared)
            && (v.sessions[i].registered && i !in v.cleared ==> i in v.active)
            && v.misses == |Missed(v)|
  {
    EmptyIsConsistent();
    AlwaysConsistent(EMPTY, events, max);
    assert Sound(Ran(EMPTY, events, max).sessions[i]);
  }

  lemma EmptyIsConsistent()
    ensures Consistent(EMPTY)
  {
    assert Missed(EMPTY) == {};
  }

  /** A connection can be accepted, and the server stopped, at any time. */
  lemma AlwaysReady(events: seq<ServerEvent>, max: nat)
    requires max > 0 && CanRun(EMPTY, events, max)
    ensures var v := Ran(EMPTY, events, max); CanHappen(v, Accept) && CanHappen(v, StopAll)
  {
    EmptyIsConsistent();
    AlwaysConsistent(EMPTY, events, max);
    var v := Ran(EMPTY, events, max);
    forall i | 0 <= i < |v.sessions| ensures Enabled(v.sessions[i], Stop) {
      assert Sound(v.sessions[i]);
    }
  }

  // ----- one session among many

  /** What an event of the server is to session `i`. */
  function Mine(v: Server, e: ServerEvent, i: nat): seq<Event> {
    match e
    case Within(j, event) => if j == i then [event] else []
    case StopAll => if i in v.active then [Stop] else []
    case _ => []
  }

  function Own(v: Server, events: seq<ServerEvent>, i: nat, max: nat): seq<Event>
    requires CanRun(v, events, max)
    decreases |events|
  {
    if events == [] then [] else Mine(v, events[0], i) + Own(Happen(v, events[0], max), events[1..], i, max)
  }

  lemma MineHappens(v: Server, e: ServerEvent, i: nat, max: nat)
    requires CanHappen(v, e) && i < |v.sessions|
    ensures |Mine(v, e, i)| <= 1 && i < |Happen(v, e, max).sessions|
    ensures Mine(v, e, i) == [] ==> Happen(v, e, max).sessions[i] == v.sessions[i]
    ensures Mine(v, e, i) != [] ==>
              Enabled(v.sessions[i], Mine(v, e, i)[0]) && Happen(v, e, max).sessions[i] == Do(v.sessions[i], Mine(v, e, i)[0], max)
  {
    hide Do, Enabled;
  }

  /** Whatever happens to the others, a session goes through a run of its own: all that is proved of every run
      of a session holds of each session of the server. */
  lemma {:induction false} EachRunsAlone(v: Server, events: seq<ServerEvent>, i: nat, max: nat)
    requires CanRun(v, events, max) && i < |v.sessions|
    ensures var own := Own(v, events, i, max);
            && i < |Ran(v, events, max).sessions|
            && Possible(v.sessions[i], own, max) && Ran(v, events, max).sessions[i] == After(v.sessions[i], own, max)
    decreases |events|
  {
    if events != [] {
      var w, mine := Happen(v, events[0], max), Mine(v, events[0], i);
      MineHappens(v, events[0], i, max);
      hide Happen, CanHappen, Mine, Do, Enabled;
      EachRunsAlone(w, events[1..], i, max);
      var rest := Own(w, events[1..], i, max);
      assert Own(v, events, i, max) == mine + rest;
      if mine == [] {
        assert mine + rest == rest;
      } else {
        assert mine == [mine[0]];
        FirstStep(v.sessions[i], mine[0], w.sessions[i], rest, After(w.sessions[i], rest, max), max);
      }
    }
  }
}
