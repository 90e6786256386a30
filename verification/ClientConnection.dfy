/** When the client's connection is open, and how often a send is tried, told from the events of a run
    alone. */
module ClientConnections {
  import opened Options
  import opened ClientSockets

  function Past(events: seq<Event>): seq<Event>
    requires events != []
  {
    events[..|events| - 1]
  }

  function Newest(events: seq<Event>): Event
    requires events != []
  {
    events[|events| - 1]
  }

  // ----- open or closed

  /** The connection is open: the newest event opened it or left it open. A beginning leaves it open if it
      is alive or can be made anew; a finish if the request went well, keeps its connection, and no stop
      stands; a stop only while a request is in flight; and an early close never does. */
  predicate StaysOpen(events: seq<Event>)
    requires Possible(events)
    decreases |events|
  {
    events != [] &&
    var past, e := Past(events), Newest(events);
    match e
    case Begin(_, alive, connects, _) => connects || (alive && StaysOpen(past))
    case Finish(_, ret, closeConnection, _) => ret && !closeConnection && !StopStands(past) && StaysOpen(past)
    case CloseEarly(_) => false
    case Stop(_) => InFlight(past) > 0 && StaysOpen(past)
    case _ => StaysOpen(past)
  }

  /** The requests begun, with a connection, and not finished. */
  function InFlight(events: seq<Event>): int
    requires Possible(events)
    decreases |events|
  {
    if events == [] then 0
    else
      var past, e := Past(events), Newest(events);
      match e
      case Begin(_, alive, connects, _) => InFlight(past) + (if connects || (alive && StaysOpen(past)) then 1 else 0)
      case Finish(_, _, _, _) => InFlight(past) - 1
      case _ => InFlight(past)
  }

  lemma OpenStep(c: Client, e: Event)
    requires Enabled(c, e)
    ensures Do(c, e).isOpen <==>
      match e
      case Begin(_, alive, connects, _) => connects || (alive && c.isOpen)
      case Finish(_, ret, closeConnection, _) => ret && !closeConnection && !c.closeWhenDone && c.isOpen
      case CloseEarly(_) => false
      case Stop(_) => c.inFlight > 0 && c.isOpen
      case _ => c.isOpen
    ensures Do(c, e).inFlight - c.inFlight ==
      match e
      case Begin(_, alive, connects, _) => if connects || (alive && c.isOpen) then 1 else 0
      case Finish(_, _, _, _) => -1
      case _ => 0
  {
  }

  /** In every run. */
  lemma {:induction false} OpenIff(events: seq<Event>)
    requires Possible(events)
    ensures (After(events).isOpen <==> StaysOpen(events)) && After(events).inFlight == InFlight(events)
  {
    if events != [] {
      var past, e := Past(events), Newest(events);
      OpenIff(past);
      ClosesWhenDoneIff(past);
      OpenStep(After(past), e);
      hide Do, Enabled, StopStands;
    }
  }

  /** The end of a request finds or leaves the socket closed if and only if a stop stands, the connection is
      to be closed, or the request failed; before that, it was as it was. */
  lemma FinishClosesIff(events: seq<Event>, t: Thread, ret: bool, closeConnection: bool, peerClosed: bool)
    requires Possible(events) && Enabled(After(events), Finish(t, ret, closeConnection, peerClosed))
    requires After(events).isOpen
    ensures !Do(After(events), Finish(t, ret, closeConnection, peerClosed)).isOpen <==>
            StopStands(events) || closeConnection || !ret
  {
    ClosesWhenDoneIff(events);
    OpenStep(After(events), Finish(t, ret, closeConnection, peerClosed));
    hide StopStands, Possible, After, Do;
  }

  predicate Connects(e: Event) {
    e.Begin? && e.connects
  }

  /** A closed socket stays closed until a later attempt connects. */
  lemma {:induction false} ClosedStaysClosed(events: seq<Event>, later: seq<Event>)
    requires Possible(events + later) && Possible(events) && !After(events).isOpen
    requires forall i :: 0 <= i < |later| ==> !Connects(later[i])
    ensures !After(events + later).isOpen
    decreases |later|
  {
    var all := events + later;
    if later == [] {
      assert all == events;
    } else {
      assert Past(all) == events + Past(later) && Newest(all) == Newest(later);
      ClosedStaysClosed(events, Past(later));
      OpenStep(After(Past(all)), Newest(all));
      hide Do, Enabled;
    }
  }

  /** A step that closes the open socket is one of the only thread with a request in flight, or is taken
      while there is none. */
  lemma NoneClosesUnderAnother(events: seq<Event>, e: Event)
    requires Possible(events) && Enabled(After(events), e)
    requires After(events).isOpen && !Do(After(events), e).isOpen
    ensures var c := After(events); c.inFlight == 0 || c.fromThread == Some(e.thread)
  {
    AlwaysConsistent(events);
    CountFacts(After(events));
    if !e.Enter? && !e.Stop? {
      HolderMayClose(After(events), e.thread);
    }
    hide Possible, After, Consistent;
  }

  /** And this is what the program asserts: were it not so, the step would record a failure. */
  lemma ClosingIsChecked(c: Client, e: Event)
    requires Enabled(c, e)
    ensures e.CloseEarly? && c.inFlight != 0 && c.fromThread != Some(e.thread) ==> !Do(c, e).asserted
    ensures e.Begin? && c.isOpen && !e.alive && c.inFlight != 0 && c.fromThread != Some(e.thread) ==> !Do(c, e).asserted
    ensures e.Begin? && c.isOpen && e.alive && c.inFlight > 1 && c.fromThread != Some(e.thread) ==> !Do(c, e).asserted
    ensures e.Finish? && c.inFlight <= 0 ==> !Do(c, e).asserted
    ensures Do(c, e).asserted ==> c.asserted
  {
  }

  // ----- attempts

  function NextTries(tries: seq<nat>, e: Event): seq<nat> {
    if e.Enter? then tries + [0]
    else if tries == [] then []
    else if e.Begin? then tries[|tries| - 1 := tries[|tries| - 1] + 1]
    else if e.Leave? then tries[..|tries| - 1]
    else tries
  }

  /** How many attempts each call of `send` under way has begun, the innermost last. */
  function Tries(events: seq<Event>): seq<nat>
    requires Possible(events)
    decreases |events|
  {
    if events == [] then [] else NextTries(Tries(Past(events)), Newest(events))
  }

  predicate Tried(p: Phase, n: nat) {
    match p
    case Attempt(left) => left <= 1 && n == 1 - left
    case Active(left) => left <= 1 && n == 2 - left
    case Leaving => 1 <= n <= 2
  }

  predicate AllTried(calls: seq<Frame>, tries: seq<nat>) {
    |calls| == |tries| && forall i :: 0 <= i < |calls| ==> Tried(calls[i].phase, tries[i])
  }

  lemma BeginTries(c: Client, t: Thread, alive: bool, connects: bool, setUpCloses: bool, tries: seq<nat>)
    requires c.calls != [] && Top(c).Attempt? && AllTried(c.calls, tries)
    ensures AllTried(DoBegin(c, t, alive, connects, setUpCloses).calls, tries[|tries| - 1 := tries[|tries| - 1] + 1])
  {
  }

  lemma FinishTries(c: Client, t: Thread, ret: bool, closeConnection: bool, peerClosed: bool, tries: seq<nat>)
    requires c.calls != [] && Top(c).Active? && AllTried(c.calls, tries)
    ensures AllTried(DoFinish(c, t, ret, closeConnection, peerClosed).calls, tries)
  {
  }

  lemma TriesStep(c: Client, e: Event, tries: seq<nat>)
    requires Enabled(c, e) && AllTried(c.calls, tries)
    ensures AllTried(Do(c, e).calls, NextTries(tries, e))
  {
    match e
    case Begin(t, alive, connects, setUpCloses) =>
      BeginTries(c, t, alive, connects, setUpCloses, tries);
      hide AllTried, DoBegin;
    case Finish(t, ret, closeConnection, peerClosed) =>
      FinishTries(c, t, ret, closeConnection, peerClosed, tries);
      hide AllTried, DoFinish;
    case _ =>
  }

  lemma {:induction false} TriesAreKept(events: seq<Event>)
    requires Possible(events)
    ensures AllTried(After(events).calls, Tries(events))
  {
    if events != [] {
      TriesAreKept(Past(events));
      TriesStep(After(Past(events)), Newest(events), Tries(Past(events)));
      hide AllTried, Do, Enabled, NextTries;
    }
  }

  /** A send makes one attempt, or two. */
  lemma AtMostTwoAttempts(events: seq<Event>, i: nat)
    requires Possible(events) && i < |After(events).calls|
    ensures |Tries(events)| == |After(events).calls| && Tries(events)[i] <= 2
  {
    TriesAreKept(events);
  }

  /** A second attempt follows exactly a first one whose peer turned out to have closed the connection;
      after every other end, and after a connection that failed, the call is on its way out. */
  lemma TriesAgainIff(events: seq<Event>, t: Thread, ret: bool, closeConnection: bool, peerClosed: bool)
    requires Possible(events) && Enabled(After(events), Finish(t, ret, closeConnection, peerClosed))
    ensures var c, tries := Do(After(events), Finish(t, ret, closeConnection, peerClosed)), Tries(events);
            && c.calls != [] && |tries| == |c.calls|
            && (Top(c).Attempt? <==> peerClosed && tries[|tries| - 1] == 1)
            && (Top(c).Leaving? <==> !Top(c).Attempt?)
  {
    TriesAreKept(events);
    hide Possible, After, Tries;
  }

  lemma BeginSendsIff(events: seq<Event>, t: Thread, alive: bool, connects: bool, setUpCloses: bool)
    requires Possible(events) && Enabled(After(events), Begin(t, alive, connects, setUpCloses))
    ensures var c, d := After(events), Do(After(events), Begin(t, alive, connects, setUpCloses));
            && d.calls != []
            && (Top(d).Active? <==> d.isOpen) && (Top(d).Leaving? <==> !d.isOpen)
            && (d.isOpen <==> connects || (alive && c.isOpen))
  {
    hide Possible, After;
  }
}
