/** The client's connection shared between threads: a recursive request lock, nested sends, a count of
    the requests in flight, and `stop` from any thread at any time. Each critical section of the socket
    mutex is one step; every step keeps the invariant, so no assertion of the program can fail. */
module ClientSockets {
  import opened Options

  type Thread = nat

  /** What a call of `send` is doing: about to run `send_` (with so many attempts left), inside it with
      its request counted, or on its way out. */
  datatype Phase = Attempt(left: nat) | Active(left: nat) | Leaving

  datatype Frame = Frame(thread: Thread, phase: Phase)

  datatype Client = Client(
    owner: Option<Thread>,        // holder of request_mutex_
    depth: nat,                   // how many times it holds it
    calls: seq<Frame>,            // the calls of `send` under way, the innermost last
    isOpen: bool,                 // socket_.is_open()
    inFlight: int,                // socket_requests_in_flight_
    fromThread: Option<Thread>,   // socket_requests_are_from_thread_
    closeWhenDone: bool,          // socket_should_be_closed_when_request_is_done_
    asserted: bool)               // every assertion evaluated so far has held

  const IDLE := Client(None, 0, [], false, 0, None, false, true)

  datatype Event =
    | Enter(thread: Thread)
      /** The first critical section of `send_`: whether an open socket turns out alive, and whether a
          needed connection (with its TLS set-up, which closes the socket itself on failure) succeeds. */
    | Begin(thread: Thread, alive: bool, connects: bool, setUpCloses: bool)
    | CloseEarly(thread: Thread)
    | Finish(thread: Thread, ret: bool, closeConnection: bool, peerClosed: bool)
    | Leave(thread: Thread)
    | Stop(thread: Thread)

  // ----- the steps

  predicate Innermost(c: Client, t: Thread) {
    c.calls != [] && c.calls[|c.calls| - 1].thread == t
  }

  function Top(c: Client): Phase
    requires c.calls != []
  {
    c.calls[|c.calls| - 1].phase
  }

  function SetTop(c: Client, p: Phase): Client
    requires c.calls != []
  {
    c.(calls := c.calls[|c.calls| - 1 := Frame(c.calls[|c.calls| - 1].thread, p)])
  }

  /** A thread is outside `send`, or at a point of its own innermost call where it may send again. */
  predicate MayEnter(c: Client, t: Thread) {
    (forall i :: 0 <= i < |c.calls| ==> c.calls[i].thread != t) || (Innermost(c, t) && Top(c).Active?)
  }

  predicate Enabled(c: Client, e: Event) {
    match e
    case Enter(t) => MayEnter(c, t) && (c.owner == None || c.owner == Some(t))
    case Begin(t, _, _, _) => Innermost(c, t) && Top(c).Attempt?
    case CloseEarly(t) => Innermost(c, t) && Top(c).Active?
    case Finish(t, ret, _, peerClosed) => Innermost(c, t) && Top(c).Active? && (peerClosed ==> !ret)
    case Leave(t) => Innermost(c, t) && Top(c).Leaving?
    case Stop(_) => true
  }

  /** What `close_socket` asserts: no other thread has a request in flight. */
  predicate MayClose(c: Client, t: Thread) {
    c.inFlight == 0 || c.fromThread == Some(t)
  }

  function CloseSocket(c: Client, t: Thread): Client {
    c.(isOpen := false, asserted := c.asserted && MayClose(c, t))
  }

  function DoBegin(c: Client, t: Thread, alive: bool, connects: bool, setUpCloses: bool): Client
    requires c.calls != [] && Top(c).Attempt?
  {
    var c1 := c.(closeWhenDone := false);
    var usable := c1.isOpen && alive;
    var c2 := if c1.isOpen && !alive then CloseSocket(c1, t) else c1;
    if !usable && !connects then
      SetTop(if setUpCloses then CloseSocket(c2, t) else c2, Leaving)
    else
      var c3 := c2.(isOpen := true, asserted := c2.asserted && (c2.inFlight > 1 ==> c2.fromThread == Some(t)));
      SetTop(c3.(inFlight := c3.inFlight + 1, fromThread := Some(t)), Active(Top(c).left))
  }

  function DoFinish(c: Client, t: Thread, ret: bool, closeConnection: bool, peerClosed: bool): Client
    requires c.calls != [] && Top(c).Active?
  {
    var c1 := c.(inFlight := c.inFlight - 1);
    var c2 := if c1.inFlight <= 0 then c1.(fromThread := None, asserted := c1.asserted && c1.inFlight == 0) else c1;
    var c3 := if c2.closeWhenDone || closeConnection || !ret then CloseSocket(c2, t) else c2;
    SetTop(c3, if peerClosed && Top(c).left > 0 then Attempt(Top(c).left - 1) else Leaving)
  }

  function Do(c: Client, e: Event): Client
    requires Enabled(c, e)
  {
    match e
    case Enter(t) => c.(owner := Some(t), depth := c.depth + 1, calls := c.calls + [Frame(t, Attempt(1))])
    case Begin(t, alive, connects, setUpCloses) => DoBegin(c, t, alive, connects, setUpCloses)
    case CloseEarly(t) => CloseSocket(c, t)
    case Finish(t, ret, closeConnection, peerClosed) => DoFinish(c, t, ret, closeConnection, peerClosed)
    case Leave(t) =>
      c.(calls := c.calls[..|c.calls| - 1], depth := if c.depth > 0 then c.depth - 1 else 0,
         owner := if c.depth <= 1 then None else c.owner)
    case Stop(t) => if c.inFlight > 0 then c.(closeWhenDone := true) else CloseSocket(c, t)
  }

  // ----- the invariant

  function ActiveCount(calls: seq<Frame>): nat {
    if calls == [] then 0
    else ActiveCount(calls[..|calls| - 1]) + (if calls[|calls| - 1].phase.Active? then 1 else 0)
  }

  /** All calls belong to the holder of the lock, all but the innermost are active, the count is the
      number of active ones, and the recorded thread is the holder exactly while it is positive. */
  ghost predicate Consistent(c: Client) {
    && c.asserted
    && c.depth == |c.calls|
    && (c.owner == None <==> c.calls == [])
    && (forall i :: 0 <= i < |c.calls| ==> c.owner == Some(c.calls[i].thread))
    && (forall i :: 0 <= i < |c.calls| - 1 ==> c.calls[i].phase.Active?)
    && c.inFlight == ActiveCount(c.calls)
    && c.fromThread == if c.inFlight == 0 then None else c.owner
  }

  lemma CountPush(calls: seq<Frame>, f: Frame)
    ensures ActiveCount(calls + [f]) == ActiveCount(calls) + (if f.phase.Active? then 1 else 0)
  {
    assert (calls + [f])[..|calls|] == calls;
  }

  lemma CountTop(calls: seq<Frame>, f: Frame)
    requires calls != []
    ensures ActiveCount(calls[|calls| - 1 := f]) == ActiveCount(calls[..|calls| - 1]) + (if f.phase.Active? then 1 else 0)
  {
    var below := calls[..|calls| - 1];
    assert calls[|calls| - 1 := f] == below + [f];
    CountPush(below, f);
  }

  /** Changing only the phase of the innermost call. */
  lemma TopConsistent(c: Client, c': Client, p: Phase)
    requires Consistent(c) && c.calls != []
    requires c'.calls == c.calls[|c.calls| - 1 := Frame(c.calls[|c.calls| - 1].thread, p)]
    requires c'.asserted && c'.depth == c.depth && c'.owner == c.owner
    requires c'.inFlight == c.inFlight - (if Top(c).Active? then 1 else 0) + (if p.Active? then 1 else 0)
    requires c'.fromThread == if c'.inFlight == 0 then None else c.owner
    ensures Consistent(c')
  {
    CountTop(c.calls, Frame(c.calls[|c.calls| - 1].thread, p));
  }

  /** The holder of the lock may always close the socket. */
  lemma HolderMayClose(c: Client, t: Thread)
    requires Consistent(c) && Innermost(c, t)
    ensures MayClose(c, t) && c.owner == Some(t)
  {
  }

  lemma {:induction false} CountBounds(calls: seq<Frame>)
    requires calls != [] && calls[|calls| - 1].phase.Active?
    ensures ActiveCount(calls) >= 1
  {
  }

  lemma BeginConsistent(c: Client, t: Thread, alive: bool, connects: bool, setUpCloses: bool)
    requires Consistent(c) && Innermost(c, t) && Top(c).Attempt?
    ensures Consistent(DoBegin(c, t, alive, connects, setUpCloses))
  {
    HolderMayClose(c, t);
    var c' := DoBegin(c, t, alive, connects, setUpCloses);
    var p := c'.calls[|c.calls| - 1].phase;
    hide Consistent, ActiveCount;
    CountFacts(c);
    TopConsistent(c, c', p);
  }

  lemma CountFacts(c: Client)
    requires Consistent(c)
    ensures c.inFlight >= 0 && c.asserted && c.fromThread == (if c.inFlight == 0 then None else c.owner)
    ensures c.calls != [] && Top(c).Active? ==> c.inFlight >= 1
  {
    if c.calls != [] && Top(c).Active? {
      CountBounds(c.calls);
    }
  }

  lemma FinishConsistent(c: Client, t: Thread, ret: bool, closeConnection: bool, peerClosed: bool)
    requires Consistent(c) && Innermost(c, t) && Top(c).Active?
    ensures Consistent(DoFinish(c, t, ret, closeConnection, peerClosed))
  {
    HolderMayClose(c, t);
    CountFacts(c);
    var c' := DoFinish(c, t, ret, closeConnection, peerClosed);
    hide Consistent, ActiveCount;
    TopConsistent(c, c', c'.calls[|c.calls| - 1].phase);
  }

  lemma EnterConsistent(c: Client, t: Thread)
    requires Consistent(c) && Enabled(c, Enter(t))
    ensures Consistent(Do(c, Enter(t)))
  {
    CountPush(c.calls, Frame(t, Attempt(1)));
    if c.calls != [] {
      assert c.calls[|c.calls| - 1].thread == t;
    }
  }

  lemma LeaveConsistent(c: Client, t: Thread)
    requires Consistent(c) && Enabled(c, Leave(t))
    ensures Consistent(Do(c, Leave(t)))
  {
    assert c.inFlight == ActiveCount(c.calls[..|c.calls| - 1]);
  }

  lemma StepConsistent(c: Client, e: Event)
    requires Consistent(c) && Enabled(c, e)
    ensures Consistent(Do(c, e))
  {
    match e
    case Enter(t) => EnterConsistent(c, t);
    case Begin(t, alive, connects, setUpCloses) => BeginConsistent(c, t, alive, connects, setUpCloses);
    case CloseEarly(t) => HolderMayClose(c, t);
    case Finish(t, ret, closeConnection, peerClosed) => FinishConsistent(c, t, ret, closeConnection, peerClosed);
    case Leave(t) => LeaveConsistent(c, t);
    case Stop(_) => CountFacts(c);
  }

  /** A run: every event is possible where it occurs. */
  predicate Possible(events: seq<Event>)
    decreases |events|, 0
  {
    events == [] || (Possible(events[..|events| - 1]) && Enabled(After(events[..|events| - 1]), events[|events| - 1]))
  }

  function After(events: seq<Event>): Client
    requires Possible(events)
    decreases |events|, 1
  {
    if events == [] then IDLE else Do(After(events[..|events| - 1]), events[|events| - 1])
  }

  /** In every interleaving the count of requests in flight is the number of active calls, these all
      belong to one thread, and every assertion holds. */
  lemma {:induction false} AlwaysConsistent(events: seq<Event>)
    requires Possible(events)
    ensures Consistent(After(events))
  {
    if events != [] {
      AlwaysConsistent(events[..|events| - 1]);
      StepConsistent(After(events[..|events| - 1]), events[|events| - 1]);
    }
  }

  /** No two threads ever have a request in flight together, and none closes the socket under another. */
  lemma OneThreadAtATime(events: seq<Event>, i: nat, j: nat)
    requires Possible(events)
    requires var c := After(events); i < |c.calls| && j < |c.calls|
    ensures var c := After(events);
            c.calls[i].thread == c.calls[j].thread && c.inFlight == ActiveCount(c.calls) && c.asserted
  {
    AlwaysConsistent(events);
  }

  // ----- what `stop` achieves

  predicate NoBegin(events: seq<Event>) {
    forall i :: 0 <= i < |events| ==> !events[i].Begin?
  }

  /** Some stop with a request in flight has been made since the last attempt began, whether that attempt
      found the socket alive, connected, or failed. */
  predicate StopStands(events: seq<Event>)
    requires Possible(events)
    decreases |events|
  {
    events != [] &&
    var past, e := events[..|events| - 1], events[|events| - 1];
    ((e.Stop? && After(past).inFlight > 0) || (!e.Begin? && StopStands(past)))
  }

  lemma CloseFlagStep(c: Client, e: Event)
    requires Enabled(c, e)
    ensures Do(c, e).closeWhenDone <==> (e.Stop? && c.inFlight > 0) || (!e.Begin? && c.closeWhenDone)
  {
  }

  /** The order to close is in force exactly while such a stop stands: every beginning forgets it. */
  lemma {:induction false} ClosesWhenDoneIff(events: seq<Event>)
    requires Possible(events)
    ensures After(events).closeWhenDone <==> StopStands(events)
  {
    if events != [] {
      var past, e := events[..|events| - 1], events[|events| - 1];
      ClosesWhenDoneIff(past);
      CloseFlagStep(After(past), e);
      hide Do, Enabled;
    }
  }

  /** A request that ends well and keeps its connection leaves an open socket closed if and only if a stop
      stands. */
  lemma StopHonouredIff(events: seq<Event>, t: Thread)
    requires Possible(events) && Enabled(After(events), Finish(t, true, false, false)) && After(events).isOpen
    ensures !Do(After(events), Finish(t, true, false, false)).isOpen <==> StopStands(events)
  {
    ClosesWhenDoneIff(events);
    hide StopStands, Possible, After;
  }

  lemma StopStep(c: Client, e: Event)
    requires Consistent(c) && Enabled(c, e) && !e.Begin?
    requires (c.inFlight > 0 ==> c.closeWhenDone) && (c.inFlight <= 0 ==> !c.isOpen)
    ensures var c' := Do(c, e); (c'.inFlight > 0 ==> c'.closeWhenDone) && (c'.inFlight <= 0 ==> !c'.isOpen)
  {
    CountFacts(c);
    hide Consistent, ActiveCount;
  }

  lemma NoBeginPrefix(events: seq<Event>)
    requires events != [] && NoBegin(events)
    ensures NoBegin(events[..|events| - 1]) && !events[|events| - 1].Begin?
  {
  }

  /** A stop is honoured as long as no further attempt begins: the socket is closed as soon as nothing
      is in flight any more, and stays so. */
  lemma {:induction false} StopIsHonoured(events: seq<Event>, t: Thread, later: seq<Event>)
    requires Possible(events + [Stop(t)] + later) && NoBegin(later)
    ensures var c := After(events + [Stop(t)] + later);
            && (c.inFlight > 0 ==> c.closeWhenDone)
            && (c.inFlight <= 0 ==> !c.isOpen)
    decreases |later|
  {
    var all := events + [Stop(t)] + later;
    if later == [] {
      assert all == events + [Stop(t)] && all[..|all| - 1] == events;
    } else {
      NoBeginPrefix(later);
      var past := events + [Stop(t)] + later[..|later| - 1];
      assert all[..|all| - 1] == past && all[|all| - 1] == later[|later| - 1];
      assert Possible(past);
      StopIsHonoured(events, t, later[..|later| - 1]);
      AlwaysConsistent(past);
      StopStep(After(past), later[|later| - 1]);
      assert After(all) == Do(After(past), later[|later| - 1]);
      hide *;
    }
  }

  lemma OneMore(events: seq<Event>, e: Event)
    requires Possible(events) && Enabled(After(events), e)
    ensures Possible(events + [e]) && After(events + [e]) == Do(After(events), e)
  {
    assert (events + [e])[..|events|] == events;
  }

  lemma NestedEnters(c: Client, t: Thread)
    requires Consistent(c) && Innermost(c, t) && Top(c).Active?
    ensures Enabled(c, Enter(t))
    ensures Do(c, Enter(t)) == c.(depth := c.depth + 1, calls := c.calls + [Frame(t, Attempt(1))])
    ensures c.inFlight >= 1 && c.fromThread == Some(t) && c.depth >= 1 && c.asserted
  {
    CountFacts(c);
    HolderMayClose(c, t);
  }

  lemma NestedRuns(c: Client, c1: Client, t: Thread)
    requires c1 == c.(depth := c.depth + 1, calls := c.calls + [Frame(t, Attempt(1))])
    requires c.isOpen && c.inFlight >= 1 && c.fromThread == Some(t) && c.depth >= 1 && c.asserted
    ensures Enabled(c1, Begin(t, true, true, false))
    ensures var c2 := Do(c1, Begin(t, true, true, false));
            && Enabled(c2, Finish(t, true, false, false))
            && Do(c2, Finish(t, true, false, false)) ==
               c1.(calls := c.calls + [Frame(t, Leaving)], closeWhenDone := false)
  {
    assert forall p, q :: (c.calls + [Frame(t, p)])[|c.calls| := Frame(t, q)] == c.calls + [Frame(t, q)];
  }

  lemma NestedLeaves(c: Client, c3: Client, t: Thread)
    requires c3 == c.(depth := c.depth + 1, calls := c.calls + [Frame(t, Leaving)], closeWhenDone := false)
    requires c.depth >= 1
    ensures Enabled(c3, Leave(t)) && Do(c3, Leave(t)) == c.(closeWhenDone := false)
  {
    assert c3.calls[..|c.calls|] == c.calls;
  }

  /** A nested send, such as a redirect, that finds the socket alive and succeeds leaves the client as it
      was, except that a request to close it, made by a `stop` meanwhile, is forgotten: so the request
      then finishes, if all goes well, with the socket still open. */
  lemma NestedSendForgetsStop(events: seq<Event>, t: Thread)
    requires Possible(events)
    requires var c := After(events); Innermost(c, t) && Top(c).Active? && c.isOpen
    ensures var nested := [Enter(t), Begin(t, true, true, false), Finish(t, true, false, false), Leave(t)];
            Possible(events + nested) && After(events + nested) == After(events).(closeWhenDone := false)
  {
    var c := After(events);
    AlwaysConsistent(events);
    NestedEnters(c, t);
    var c1 := Do(c, Enter(t));
    NestedRuns(c, c1, t);
    var c2 := Do(c1, Begin(t, true, true, false));
    var c3 := Do(c2, Finish(t, true, false, false));
    NestedLeaves(c, c3, t);
    hide *;
    OneMore(events, Enter(t));
    var e1 := events + [Enter(t)];
    OneMore(e1, Begin(t, true, true, false));
    var e2 := e1 + [Begin(t, true, true, false)];
    OneMore(e2, Finish(t, true, false, false));
    var e3 := e2 + [Finish(t, true, false, false)];
    OneMore(e3, Leave(t));
    assert e3 + [Leave(t)] == events + [Enter(t), Begin(t, true, true, false), Finish(t, true, false, false), Leave(t)];
  }
}
