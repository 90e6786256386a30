/** The session object, its handlers updating its fields in place. */
module HttpServerSessions {
  import opened Options
  import opened ServerSessions

  class HttpServerSession {
    const maxResponseQueueSize: nat
    var responseQueue: seq<Response>
    var writeInProgress: bool
    var currentWriteOpCompleted: bool
    var socketOpen: bool
    var onFinishCallback: bool
    // What the executor holds for this session, and what has happened so far.
    var starts: nat
    var pendingReads: nat
    var calls: seq<Call>
    var writes: seq<Response>
    var timers: nat
    var admitted: nat
    var callbacks: nat
    var fates: seq<Fate>
    var finishes: nat
    var stopped: bool
    var lost: bool
    var faulted: bool

    ghost function State(): Session
      reads this
    {
      Session(responseQueue, writeInProgress, currentWriteOpCompleted, socketOpen, onFinishCallback,
              starts, pendingReads, calls, writes, timers,
              admitted, callbacks, fates, finishes, stopped, lost, faulted)
    }

    /** A new session, its `run` called. */
    constructor (max: nat)
      ensures State() == FRESH && maxResponseQueueSize == max
    {
      maxResponseQueueSize := max;
      responseQueue, writeInProgress, currentWriteOpCompleted, socketOpen, onFinishCallback := [], false, false, true, true;
      starts, pendingReads, calls, writes, timers := 1, 0, [], [], 0;
      admitted, callbacks, fates, finishes, stopped, lost, faulted := 0, 0, [], 0, false, false, false;
    }

    method DoRead()
      modifies this
      ensures State() == Reading(old(State()))
    {
      pendingReads := pendingReads + 1;
    }

    method DoClose()
      modifies this
      ensures State() == Closed(old(State()))
    {
      currentWriteOpCompleted := true;
      if onFinishCallback {
        onFinishCallback := false;
        finishes := finishes + 1;
      }
    }

    method ClearQueue()
      modifies this
      ensures State() == Cleared(old(State()))
    {
      fates := fates + Discards(|responseQueue|);
      responseQueue := [];
      writeInProgress := false;
    }

    method DoWrite()
      modifies this
      ensures State() == WriteStarted(old(State()))
    {
      if responseQueue == [] {
        writeInProgress := false;
        return;
      }
      writeInProgress := true;
      if !socketOpen {
        ClearQueue();
        DoClose();
        return;
      }
      currentWriteOpCompleted := false;
      timers := timers + 1;
      writes := writes + [responseQueue[0]];
    }

    /** Queues an answer, dropping the oldest one when there is no room, and starts writing; without an
        answer goes on to the next request or closes. */
    method SendResponse(result: Option<Response>, keepAlive: bool)
      modifies this
      ensures State() == Sent(old(State()), result, keepAlive, maxResponseQueueSize)
    {
      hide WriteStarted, Closed;
      callbacks := callbacks + 1;
      if result.Some? {
        if |responseQueue| >= maxResponseQueueSize {
          if responseQueue == [] {
            faulted := true;
            return;
          }
          responseQueue := responseQueue[1..];
          fates := fates + [Discarded];
        }
      } else {
        fates := fates + [Dropped];
        if writeInProgress {
          return;
        }
        if keepAlive {
          DoRead();
        } else {
          DoClose();
        }
        return;
      }
      responseQueue := responseQueue + [result.value];
      if !writeInProgress {
        DoWrite();
      }
    }

    method HandleRequest(h: Handling)
      modifies this
      ensures State() == Handled(old(State()), h, maxResponseQueueSize)
    {
      hide Sent;
      var number := admitted;
      admitted := admitted + 1;
      match h
      case Answer(keepAlive) => SendResponse(Some(Response(number, keepAlive)), keepAlive);
      case Drop(keepAlive) => SendResponse(None, keepAlive);
      case CallBackend(keepAlive, supported) =>
        calls := calls + [Call(number, keepAlive, if supported then Resolving else Posted)];
    }

    /** `on_read`: with an error, the end of the stream included, the session closes. */
    method OnRead(ok: bool, h: Handling)
      requires Enabled(State(), ReadDone(ok, h))
      modifies this
      ensures State() == Do(old(State()), ReadDone(ok, h), maxResponseQueueSize)
    {
      hide Handled, Closed;
      pendingReads := pendingReads - 1;
      if !ok {
        DoClose();
        return;
      }
      HandleRequest(h);
    }

    /** A stage of the backend call ends: the next one starts, or the completion callback runs. */
    method OnCallAdvances(i: nat, ok: bool)
      requires Enabled(State(), CallAdvances(i, ok))
      modifies this
      ensures State() == Do(old(State()), CallAdvances(i, ok), maxResponseQueueSize)
    {
      hide Sent;
      var c := calls[i];
      if Concludes(c, ok) {
        calls := calls[..i] + calls[i + 1..];
        SendResponse(Some(Response(c.request, c.keepAlive)), c.keepAlive);
      } else {
        calls := calls[i := c.(stage := Next(c.stage))];
      }
    }

    method Continue(keepAlive: bool)
      modifies this
      ensures State() == Continued(old(State()), keepAlive)
    {
      hide Closed, Cleared, WriteStarted;
      if responseQueue != [] {
        fates := fates + [Written(responseQueue[0])];
        responseQueue := responseQueue[1..];
      }
      if responseQueue != [] {
        DoWrite();
      } else {
        writeInProgress := false;
        if !keepAlive {
          DoClose();
        } else {
          DoRead();
        }
      }
    }

    method OnWrite(ok: bool)
      requires Enabled(State(), WriteDone(ok))
      modifies this
      ensures State() == Do(old(State()), WriteDone(ok), maxResponseQueueSize)
    {
      hide Closed, Cleared, Continued;
      var keepAlive := writes[0].keepAlive;
      writes := writes[1..];
      var timerAlreadyFired := currentWriteOpCompleted;
      currentWriteOpCompleted := true;
      if timerAlreadyFired {
        DoClose();
        return;
      }
      if !ok {
        ClearQueue();
        DoClose();
        return;
      }
      Continue(keepAlive);
    }

    /** The diagnostic timer's handler. */
    method OnTimer(expired: bool)
      requires Enabled(State(), TimerDone(expired))
      modifies this
      ensures State() == Do(old(State()), TimerDone(expired), maxResponseQueueSize)
    {
      timers := timers - 1;
      if currentWriteOpCompleted {
        return;
      }
      if expired {
        socketOpen := false;
      }
    }

    method StopSession()
      requires Enabled(State(), Stop)
      modifies this
      ensures State() == Do(old(State()), Stop, maxResponseQueueSize)
    {
      currentWriteOpCompleted := true;
      socketOpen := false;
      stopped := true;
    }

    method OnStart()
      requires Enabled(State(), StartRuns)
      modifies this
      ensures State() == Do(old(State()), StartRuns, maxResponseQueueSize)
    {
      starts := starts - 1;
      DoRead();
    }

    /** The exception leaves the completion handler: nobody calls back. */
    method OnRenderingThrows(i: nat)
      requires Enabled(State(), RenderingThrows(i))
      modifies this
      ensures State() == Do(old(State()), RenderingThrows(i), maxResponseQueueSize)
    {
      calls := calls[..i] + calls[i + 1..];
      lost := true;
    }

    method OnSocketLost()
      requires Enabled(State(), SocketLost)
      modifies this
      ensures State() == Do(old(State()), SocketLost, maxResponseQueueSize)
    {
      socketOpen := false;
    }

    /** The executor runs one handler. */
    method Run(e: Event)
      requires Sound(State()) && Enabled(State(), e) && maxResponseQueueSize > 0
      modifies this
      ensures State() == Do(old(State()), e, maxResponseQueueSize) && Sound(State())
    {
      StepKeepsSound(State(), e, maxResponseQueueSize);
      hide Sound, Do, Enabled;
      match e
      case StartRuns => OnStart();
      case ReadDone(ok, h) => OnRead(ok, h);
      case CallAdvances(i, ok) => OnCallAdvances(i, ok);
      case RenderingThrows(i) => OnRenderingThrows(i);
      case WriteDone(ok) => OnWrite(ok);
      case TimerDone(expired) => OnTimer(expired);
      case Stop => StopSession();
      case SocketLost => OnSocketLost();
    }
  }
}
