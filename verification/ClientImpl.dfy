/** The client object: the critical sections of `send_`, `stop` and `close_socket`, updating its fields in
    place, with the program's own assertions. */
module ClientImpls {
  import opened ClientSockets
  import opened Options

  class ClientImpl {
    var owner: Option<Thread>
    var depth: nat
    var calls: seq<Frame>
    var isOpen: bool
    var requestsInFlight: int
    var requestsAreFromThread: Option<Thread>
    var closeWhenRequestIsDone: bool

    /** No assertion has failed, or the program would have stopped. */
    ghost function State(): Client
      reads this
    {
      Client(owner, depth, calls, isOpen, requestsInFlight, requestsAreFromThread, closeWhenRequestIsDone, true)
    }

    constructor ()
      ensures State() == IDLE && Consistent(State())
    {
      owner, depth, calls, isOpen := None, 0, [], false;
      requestsInFlight, requestsAreFromThread, closeWhenRequestIsDone := 0, None, false;
    }

    method CloseSocket(t: Thread)
      requires MayClose(State(), t)
      modifies this`isOpen
      ensures !isOpen
    {
      assert requestsInFlight == 0 || requestsAreFromThread == Some(t);
      isOpen := false;
    }

    method SetPhase(p: Phase)
      requires calls != []
      modifies this`calls
      ensures State() == SetTop(old(State()), p)
    {
      calls := calls[|calls| - 1 := Frame(calls[|calls| - 1].thread, p)];
    }

    /** `send` takes the recursive request lock. */
    method SendEnters(t: Thread)
      requires Consistent(State()) && Enabled(State(), Enter(t))
      modifies this
      ensures State() == Do(old(State()), Enter(t)) && Consistent(State())
    {
      StepConsistent(State(), Enter(t));
      owner, depth := Some(t), depth + 1;
      calls := calls + [Frame(t, Attempt(1))];
    }

    /** The first critical section of `send_`. */
    method SendBegins(t: Thread, alive: bool, connects: bool, setUpCloses: bool)
      requires Consistent(State()) && Enabled(State(), Begin(t, alive, connects, setUpCloses))
      modifies this
      ensures State() == Do(old(State()), Begin(t, alive, connects, setUpCloses)) && Consistent(State())
    {
      StepConsistent(State(), Begin(t, alive, connects, setUpCloses));
      CountFacts(State());
      HolderMayClose(State(), t);
      hide Consistent;
      var left := calls[|calls| - 1].phase.left;
      closeWhenRequestIsDone := false;
      var isAlive := false;
      if isOpen {
        isAlive := alive;
        if !isAlive {
          CloseSocket(t);
        }
      }
      if !isAlive {
        if !connects {
          if setUpCloses {
            CloseSocket(t);
          }
          SetPhase(Leaving);
          return;
        }
        isOpen := true;
      }
      if requestsInFlight > 1 {
        assert requestsAreFromThread == Some(t);
      }
      requestsInFlight := requestsInFlight + 1;
      requestsAreFromThread := Some(t);
      SetPhase(Active(left));
    }

    /** Handling the request, the connection turns out to be closing. */
    method ClosesEarly(t: Thread)
      requires Consistent(State()) && Enabled(State(), CloseEarly(t))
      modifies this
      ensures State() == Do(old(State()), CloseEarly(t)) && Consistent(State())
    {
      StepConsistent(State(), CloseEarly(t));
      HolderMayClose(State(), t);
      hide Consistent;
      CloseSocket(t);
    }

    /** The scope exit of `send_`. */
    method SendFinishes(t: Thread, ret: bool, closeConnection: bool, peerClosed: bool)
      requires Consistent(State()) && Enabled(State(), Finish(t, ret, closeConnection, peerClosed))
      modifies this
      ensures State() == Do(old(State()), Finish(t, ret, closeConnection, peerClosed)) && Consistent(State())
    {
      StepConsistent(State(), Finish(t, ret, closeConnection, peerClosed));
      CountFacts(State());
      HolderMayClose(State(), t);
      hide Consistent;
      var left := calls[|calls| - 1].phase.left;
      requestsInFlight := requestsInFlight - 1;
      if requestsInFlight <= 0 {
        assert requestsInFlight == 0;
        requestsAreFromThread := None;
      }
      if closeWhenRequestIsDone || closeConnection || !ret {
        CloseSocket(t);
      }
      SetPhase(if peerClosed && left > 0 then Attempt(left - 1) else Leaving);
    }

    method SendLeaves(t: Thread)
      requires Consistent(State()) && Enabled(State(), Leave(t))
      modifies this
      ensures State() == Do(old(State()), Leave(t)) && Consistent(State())
    {
      StepConsistent(State(), Leave(t));
      assert depth > 0;
      hide Consistent;
      calls := calls[..|calls| - 1];
      if depth <= 1 {
        owner := None;
      }
      depth := depth - 1;
    }

    method StopClient(t: Thread)
      requires Consistent(State())
      modifies this
      ensures State() == Do(old(State()), Stop(t)) && Consistent(State())
    {
      StepConsistent(State(), Stop(t));
      CountFacts(State());
      hide Consistent;
      if requestsInFlight > 0 {
        closeWhenRequestIsDone := true;
        return;
      }
      CloseSocket(t);
    }
  }
}
