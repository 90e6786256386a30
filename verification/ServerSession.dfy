/** One connection of the server: read a request, answer or drop it, write the answer, read again. Every
    completion handler is one step; a step starts the operation that follows it. */
module ServerSessions {
  import opened Options

  /** `request` is the number of the request it answers. */
  datatype Response = Response(request: nat, keepAlive: bool)

  /** Where a call to a backend stands: posted with an error in place of a connection, or in the chain. */
  datatype Stage = Posted | Resolving | Connecting | Sending | Receiving

  datatype Call = Call(request: nat, keepAlive: bool, stage: Stage)

  datatype Fate = Written(response: Response) | Dropped | Discarded

  datatype Session = Session(
    queue: seq<Response>,     // response_queue_
    writing: bool,            // write_in_progress_
    completed: bool,          // current_write_op_completed_
    isOpen: bool,             // the socket
    registered: bool,         // on_finish_callback_ is set
    // operations under way
    starts: nat, pendingReads: nat, calls: seq<Call>, writes: seq<Response>, timers: nat,
    // what has happened
    admitted: nat,            // requests read
    callbacks: nat,           // results handed to send_response
    fates: seq<Fate>,         // what became of them, in order
    finishes: nat,            // dispatches of the finish callback
    stopped: bool,            // stop() has been called
    lost: bool,               // a backend call ended in an exception in place of its callback
    faulted: bool)            // the front of an empty queue has been asked for

  /** What handling a request comes to at once: an answer, a drop, or a call. A dropped request has been
      moved from, so what it says about keeping the connection is arbitrary. */
  datatype Handling = Answer(keepAlive: bool) | Drop(keepAlive: bool) | CallBackend(keepAlive: bool, supported: bool)

  datatype Event =
    | StartRuns
    | ReadDone(ok: bool, handling: Handling)
    | CallAdvances(call: nat, ok: bool)
      /** Rendering what the backend sent throws, and the callback is never made. */
    | RenderingThrows(call: nat)
    | WriteDone(ok: bool)
    | TimerDone(expired: bool)
    | Stop
    | SocketLost

  const FRESH := Session([], false, false, true, true, 1, 0, [], [], 0, 0, 0, [], 0, false, false, false)

  // ----- the handlers

  function Discards(n: nat): seq<Fate> {
    seq(n, i => Discarded)
  }

  function Closed(s: Session): Session {
    s.(completed := true, registered := false, finishes := if s.registered then s.finishes + 1 else s.finishes)
  }

  function Reading(s: Session): Session {
    s.(pendingReads := s.pendingReads + 1)
  }

  function Cleared(s: Session): Session {
    s.(queue := [], writing := false, fates := s.fates + Discards(|s.queue|))
  }

  function WriteStarted(s: Session): Session {
    if s.queue == [] then s.(writing := false)
    else if !s.isOpen then Closed(Cleared(s))
    else s.(writing := true, completed := false, timers := s.timers + 1, writes := s.writes + [s.queue[0]])
  }

  /** `send_response`; the queue may hold `max` responses. */
  function Sent(s: Session, result: Option<Response>, keepAlive: bool, max: nat): Session {
    var s := s.(callbacks := s.callbacks + 1);
    match result
    case None =>
      var dropped := s.(fates := s.fates + [Dropped]);
      if s.writing then dropped else if keepAlive then Reading(dropped) else Closed(dropped)
    case Some(response) =>
      if |s.queue| >= max && s.queue == [] then s.(faulted := true)
      else
        var room := if |s.queue| >= max then s.(queue := s.queue[1..], fates := s.fates + [Discarded]) else s;
        var queued := room.(queue := room.queue + [response]);
        if queued.writing then queued else WriteStarted(queued)
  }

  function Handled(s: Session, h: Handling, max: nat): Session {
    var n := s.admitted;
    var s := s.(admitted := n + 1);
    match h
    case Answer(keepAlive) => Sent(s, Some(Response(n, keepAlive)), keepAlive, max)
    case Drop(keepAlive) => Sent(s, None, keepAlive, max)
    case CallBackend(keepAlive, supported) =>
      s.(calls := s.calls + [Call(n, keepAlive, if supported then Resolving else Posted)])
  }

  function Next(stage: Stage): Stage {
    match stage { case Resolving => Connecting case Connecting => Sending case _ => Receiving }
  }

  predicate Concludes(c: Call, ok: bool) {
    !ok || c.stage.Posted? || c.stage.Receiving?
  }

  function Advanced(s: Session, i: nat, ok: bool, max: nat): Session
    requires i < |s.calls|
  {
    var c := s.calls[i];
    if Concludes(c, ok) then
      Sent(s.(calls := s.calls[..i] + s.calls[i + 1..]), Some(Response(c.request, c.keepAlive)), c.keepAlive, max)
    else s.(calls := s.calls[i := c.(stage := Next(c.stage))])
  }

  /** After a successful write: the next answer, the next request, or the end. */
  function Continued(s: Session, keepAlive: bool): Session {
    var popped := if s.queue == [] then s else s.(queue := s.queue[1..], fates := s.fates + [Written(s.queue[0])]);
    if popped.queue != [] then WriteStarted(popped)
    else
      var idle := popped.(writing := false);
      if keepAlive then Reading(idle) else Closed(idle)
  }

  function WriteEnded(s: Session, ok: bool): Session
    requires s.writes != []
  {
    var ended := s.(writes := s.writes[1..], completed := true);
    if s.completed then Closed(ended)
    else if !ok then Closed(Cleared(ended))
    else Continued(ended, s.writes[0].keepAlive)
  }

  // ----- steps and runs

  predicate Enabled(s: Session, e: Event) {
    && !s.faulted
    && match e
       case StartRuns => s.starts > 0
       case ReadDone(_, _) => s.pendingReads > 0
       case CallAdvances(i, _) => i < |s.calls|
       case RenderingThrows(i) => i < |s.calls| && s.calls[i].stage.Receiving?
       case WriteDone(_) => s.writes != []
       case TimerDone(_) => s.timers > 0
       case Stop => true
       case SocketLost => true
  }

  function Do(s: Session, e: Event, max: nat): Session
    requires Enabled(s, e)
  {
    match e
    case StartRuns => Reading(s.(starts := s.starts - 1))
    case ReadDone(ok, handling) =>
      var read := s.(pendingReads := s.pendingReads - 1);
      if ok then Handled(read, handling, max) else Closed(read)
    case CallAdvances(i, ok) => Advanced(s, i, ok, max)
    case RenderingThrows(i) => s.(calls := s.calls[..i] + s.calls[i + 1..], lost := true)
    case WriteDone(ok) => WriteEnded(s, ok)
    case TimerDone(expired) =>
      var fired := s.(timers := s.timers - 1);
      if s.completed || !expired then fired else fired.(isOpen := false)
    case Stop => s.(completed := true, isOpen := false, stopped := true)
    case SocketLost => s.(isOpen := false)
  }

  predicate Possible(s: Session, events: seq<Event>, max: nat)
    decreases |events|
  {
    events == [] || (Enabled(s, events[0]) && Possible(Do(s, events[0], max), events[1..], max))
  }

  function After(s: Session, events: seq<Event>, max: nat): Session
    requires Possible(s, events, max)
    decreases |events|
  {
    if events == [] then s else After(Do(s, events[0], max), events[1..], max)
  }

  // ----- what every step keeps

  function Outstanding(s: Session): nat {
    s.starts + s.pendingReads + |s.calls| + |s.writes|
  }

  ghost predicate InOrder(fates: seq<Fate>) {
    forall i :: 0 <= i < |fates| && fates[i].Written? ==> fates[i].response.request == i
  }

  function One(b: bool): nat {
    if b then 1 else 0
  }

  /** Exactly one operation is under way until the finish callback is dispatched or a callback is lost, and
      none after that; the queue is what is being written; and every request read has one fate, or is in a
      call or in the queue, or was lost. */
  ghost predicate Sound(s: Session) {
    && !s.faulted
    && Outstanding(s) == One(s.registered && !s.lost)
    && (s.lost ==> s.registered)
    && s.finishes == (if s.registered then 0 else 1)
    && (s.registered ==> s.queue == s.writes)
    && (s.writing <==> s.queue != [])
    && |s.queue| <= 1
    && (!s.registered && s.queue != [] ==> s.stopped)
    && (s.stopped ==> !s.isOpen)
    && (s.registered && s.writes != [] ==> (s.completed <==> s.stopped))
    && s.admitted == |s.fates| + |s.calls| + |s.queue| + One(s.lost)
    && s.admitted == s.callbacks + |s.calls| + One(s.lost)
    && InOrder(s.fates)
    && (forall i :: 0 <= i < |s.queue| ==> s.queue[i].request == |s.fates|)
    && (forall i :: 0 <= i < |s.calls| ==> s.calls[i].request == |s.fates|)
  }

  lemma SentKeepsSound(s: Session, result: Option<Response>, keepAlive: bool, max: nat)
    requires !s.faulted && s.registered && !s.lost && Outstanding(s) == 0 && s.finishes == 0
    requires s.queue == [] && !s.writing && InOrder(s.fates) && (s.stopped ==> !s.isOpen)
    requires s.admitted == |s.fates| + 1 == s.callbacks + 1
    requires result.Some? ==> result.value.request == |s.fates|
    requires max > 0
    ensures Sound(Sent(s, result, keepAlive, max))
  {
  }

  lemma HandledKeepsSound(s: Session, h: Handling, max: nat)
    requires max > 0 && !s.faulted && s.registered && !s.lost && Outstanding(s) == 0 && s.finishes == 0
    requires s.queue == [] && !s.writing && InOrder(s.fates) && (s.stopped ==> !s.isOpen)
    requires s.admitted == |s.fates| == s.callbacks
    ensures Sound(Handled(s, h, max))
  {
    var n := s.admitted;
    var read := s.(admitted := n + 1);
    if h.CallBackend? {
      hide Sent;
    } else {
      SentKeepsSound(read, if h.Answer? then Some(Response(n, h.keepAlive)) else None, h.keepAlive, max);
      hide Sound, Sent;
    }
  }

  lemma AdvancedKeepsSound(s: Session, i: nat, ok: bool, max: nat)
    requires max > 0 && Sound(s) && i < |s.calls|
    ensures Sound(Advanced(s, i, ok, max))
  {
    var c := s.calls[i];
    if Concludes(c, ok) {
      assert s.calls[..i] + s.calls[i + 1..] == [];
      SentKeepsSound(s.(calls := []), Some(Response(c.request, c.keepAlive)), c.keepAlive, max);
      hide Sound, Sent;
    } else {
      hide Sent;
    }
  }

  lemma WriteEndedKeepsSound(s: Session, ok: bool)
    requires Sound(s) && s.writes != []
    ensures Sound(WriteEnded(s, ok))
  {
    assert s.registered && s.writes == s.queue == [s.queue[0]] && s.calls == [];
    assert s.writes[1..] == [];
  }

  lemma ReadKeepsSound(s: Session, ok: bool, h: Handling, max: nat)
    requires max > 0 && Sound(s) && s.pendingReads > 0
    ensures var read := s.(pendingReads := s.pendingReads - 1);
            Sound(if ok then Handled(read, h, max) else Closed(read))
  {
    hide Handled;
    if ok {
      HandledKeepsSound(s.(pendingReads := s.pendingReads - 1), h, max);
    }
  }

  lemma ThrowKeepsSound(s: Session, i: nat)
    requires Sound(s) && i < |s.calls|
    ensures Sound(s.(calls := s.calls[..i] + s.calls[i + 1..], lost := true))
  {
    assert s.calls[..i] + s.calls[i + 1..] == [];
  }

  lemma QuietKeepsSound(s: Session, e: Event, max: nat)
    requires Sound(s) && Enabled(s, e) && (e.StartRuns? || e.TimerDone? || e.Stop? || e.SocketLost?)
    ensures Sound(Do(s, e, max))
  {
    hide Handled, Advanced, WriteEnded, InOrder;
  }

  lemma StepKeepsSound(s: Session, e: Event, max: nat)
    requires max > 0 && Sound(s) && Enabled(s, e)
    ensures Sound(Do(s, e, max))
  {
    match e
    case ReadDone(ok, handling) =>
      ReadKeepsSound(s, ok, handling, max);
      hide *;
    case CallAdvances(i, ok) =>
      AdvancedKeepsSound(s, i, ok, max);
      hide *;
    case RenderingThrows(i) =>
      ThrowKeepsSound(s, i);
      hide *;
    case WriteDone(ok) =>
      WriteEndedKeepsSound(s, ok);
      hide *;
    case _ =>
      QuietKeepsSound(s, e, max);
      hide *;
  }

  /** In every state of every run. */
  lemma {:induction false} AlwaysSound(s: Session, events: seq<Event>, max: nat)
    requires max > 0 && Sound(s) && Possible(s, events, max)
    ensures Sound(After(s, events, max))
    decreases |events|
  {
    if events != [] {
      StepKeepsSound(s, events[0], max);
      AlwaysSound(Do(s, events[0], max), events[1..], max);
    }
  }

  // ----- what it comes to

  /** No operation is left behind: a session that has neither finished nor lost a callback has exactly one
      read, backend call or write under way (or its start); one that has finished has none and was reported
      exactly once. */
  lemma OneOperation(events: seq<Event>, max: nat)
    requires max > 0 && Possible(FRESH, events, max)
    ensures var s := After(FRESH, events, max);
            && s.starts + s.pendingReads + |s.calls| + |s.writes| == One(s.finishes == 0 && !s.lost)
            && s.finishes <= 1 && (s.lost ==> s.finishes == 0)
  {
    AlwaysSound(FRESH, events, max);
  }

  /** After an exception in place of a callback the session hangs: it never finishes in any continuation. */
  lemma {:induction false} LostHangs(s: Session, events: seq<Event>, max: nat)
    requires max > 0 && Sound(s) && s.lost && Possible(s, events, max)
    ensures var t := After(s, events, max); t.finishes == 0 && t.fates == s.fates && t.admitted == s.admitted
    decreases |events|
  {
    if events != [] {
      StepKeepsSound(s, events[0], max);
      LostHangs(Do(s, events[0], max), events[1..], max);
    }
  }

  predicate IsWritten(f: Fate) { f.Written? }
  predicate IsDropped(f: Fate) { f.Dropped? }
  predicate IsDiscarded(f: Fate) { f.Discarded? }

  function Count(fates: seq<Fate>, p: Fate -> bool): nat {
    if fates == [] then 0 else (if p(fates[0]) then 1 else 0) + Count(fates[1..], p)
  }

  lemma {:induction false} CountAll(fates: seq<Fate>)
    ensures Count(fates, IsWritten) + Count(fates, IsDropped) + Count(fates, IsDiscarded) == |fates|
  {
    if fates != [] {
      CountAll(fates[1..]);
    }
  }

  /** Every request read is written, dropped, discarded at a close, still under way, lost to an exception,
      or, when `stop` cut its write short, left in the queue of a closed session; and its result was handed
      over exactly once, unless the backend still has it or its callback was lost. */
  lemma RequestsAreConserved(events: seq<Event>, max: nat)
    requires max > 0 && Possible(FRESH, events, max)
    ensures var s := After(FRESH, events, max);
            var abandoned := |s.queue| - |s.writes|;
            && s.admitted == Count(s.fates, IsWritten) + Count(s.fates, IsDropped) + Count(s.fates, IsDiscarded)
                             + |s.calls| + |s.writes| + abandoned + One(s.lost)
            && 0 <= abandoned <= 1 && (abandoned == 1 ==> s.stopped && s.finishes == 1)
            && s.callbacks == s.admitted - |s.calls| - One(s.lost)
  {
    AlwaysSound(FRESH, events, max);
    CountAll(After(FRESH, events, max).fates);
  }

  /** Answers go out in the order of their requests, each under its own number, none twice. */
  lemma AnswersInOrder(events: seq<Event>, max: nat, i: nat, j: nat)
    requires max > 0 && Possible(FRESH, events, max)
    requires i < j < |After(FRESH, events, max).fates|
    requires After(FRESH, events, max).fates[i].Written? && After(FRESH, events, max).fates[j].Written?
    ensures After(FRESH, events, max).fates[i].response.request < After(FRESH, events, max).fates[j].response.request
  {
    AlwaysSound(FRESH, events, max);
  }

  predicate HandsOver(s: Session, e: Event) {
    match e
    case ReadDone(ok, handling) => ok && !handling.CallBackend?
    case CallAdvances(i, ok) => i < |s.calls| && Concludes(s.calls[i], ok)
    case _ => false
  }

  /** Whenever a result is handed over nothing is queued and nothing is being written, so with room for
      one response the branch for a full queue is never taken. */
  lemma QueueIsEmptyAtHandOver(events: seq<Event>, max: nat, e: Event)
    requires max > 0 && Possible(FRESH, events, max) && Enabled(After(FRESH, events, max), e)
    requires HandsOver(After(FRESH, events, max), e)
    ensures var s := After(FRESH, events, max); s.queue == [] && !s.writing && |s.queue| < max
  {
    AlwaysSound(FRESH, events, max);
  }

  /** Of that branch: in any state with a write under way an answer for which there is no room pushes out the
      oldest one, the very one that is being written if no other is queued. */
  lemma FullQueueDropsOldest(s: Session, r: Response, keepAlive: bool, max: nat)
    requires s.writing && |s.queue| == max > 0
    ensures var t := Sent(s, Some(r), keepAlive, max);
            && |t.queue| == max && t.queue[max - 1] == r && (forall i :: 0 <= i < max - 1 ==> t.queue[i] == s.queue[i + 1])
            && t.fates == s.fates + [Discarded] && t.writes == s.writes && t.pendingReads == s.pendingReads
  {
  }

  /** With room for none the first answer asks an empty queue for its front; from a sound state an answer
      does so exactly then. */
  lemma FaultsIffNoRoom(s: Session, keepAlive: bool, max: nat)
    requires Sound(s) && s.pendingReads > 0
    ensures Do(s, ReadDone(true, Answer(keepAlive)), max).faulted <==> max == 0
  {
  }

  /** The end of a write leaves its answer in the queue of the finished session if and only if `stop` has
      been called; otherwise the answer has been written, or was discarded when the write failed. */
  lemma StopAbandonsAnAnswer(events: seq<Event>, ok: bool, max: nat)
    requires max > 0 && Possible(FRESH, events, max) && Enabled(After(FRESH, events, max), WriteDone(ok))
    ensures var s := After(FRESH, events, max);
            var t := Do(s, WriteDone(ok), max);
            && (t.queue != [] <==> s.stopped)
            && (s.stopped ==> t.queue == s.writes && t.fates == s.fates && t.finishes == 1)
            && (!s.stopped ==> t.fates == s.fates + [if ok then Written(s.writes[0]) else Discarded])
  {
    AlwaysSound(FRESH, events, max);
    var s := After(FRESH, events, max);
    hide After, Possible, InOrder;
    assert s.queue == s.writes == [s.writes[0]];
  }

  // ----- runs that show it

  /** One more event at the front of a run. */
  lemma FirstStep(s: Session, e: Event, t: Session, events: seq<Event>, u: Session, max: nat)
    requires Enabled(s, e) && Do(s, e, max) == t && Possible(t, events, max) && After(t, events, max) == u
    ensures Possible(s, [e] + events, max) && After(s, [e] + events, max) == u
  {
    assert ([e] + events)[1..] == events;
    hide Do, Enabled;
  }

  function Idle(): Session {
    FRESH.(starts := 0, pendingReads := 1)
  }

  lemma FirstRead()
    ensures Enabled(FRESH, StartRuns) && Do(FRESH, StartRuns, 1) == Idle()
  {
  }

  function Answering(): Session {
    Idle().(pendingReads := 0, admitted := 1, callbacks := 1, timers := 1,
            queue := [Response(0, true)], writes := [Response(0, true)], writing := true)
  }

  lemma FirstAnswer()
    ensures var e := ReadDone(true, Answer(true)); Enabled(Idle(), e) && Do(Idle(), e, 1) == Answering()
  {
  }

  function Stopped(): Session {
    Answering().(completed := true, isOpen := false, stopped := true)
  }

  function Abandoned(): Session {
    Stopped().(writes := [], registered := false, finishes := 1)
  }

  lemma FirstStop()
    ensures Enabled(Answering(), Stop) && Do(Answering(), Stop, 1) == Stopped()
    ensures Enabled(Stopped(), WriteDone(true)) && Do(Stopped(), WriteDone(true), 1) == Abandoned()
  {
    assert Stopped().writes[1..] == [];
  }

  lemma Rests(s: Session)
    ensures Possible(s, [], 1) && After(s, [], 1) == s
  {
  }

  /** A write under way when the server stops. */
  lemma AnswerAbandoned()
    ensures var events := [StartRuns] + ([ReadDone(true, Answer(true))] + ([Stop] + ([WriteDone(true)] + [])));
            Possible(FRESH, events, 1) && After(FRESH, events, 1) == Abandoned()
    ensures Abandoned().admitted == 1 && Abandoned().fates == [] && Abandoned().queue == [Response(0, true)]
  {
    FirstRead();
    FirstAnswer();
    FirstStop();
    Rests(Abandoned());
    assert Abandoned().admitted == 1 && Abandoned().fates == [] && Abandoned().queue == [Response(0, true)];
    hide *;
    FirstStep(Stopped(), WriteDone(true), Abandoned(), [], Abandoned(), 1);
    FirstStep(Answering(), Stop, Stopped(), [WriteDone(true)] + [], Abandoned(), 1);
    FirstStep(Idle(), ReadDone(true, Answer(true)), Answering(), [Stop] + ([WriteDone(true)] + []), Abandoned(), 1);
    FirstStep(FRESH, StartRuns, Idle(), [ReadDone(true, Answer(true))] + ([Stop] + ([WriteDone(true)] + [])), Abandoned(), 1);
  }

  function Calling(stage: Stage): Session {
    Idle().(pendingReads := 0, admitted := 1, calls := [Call(0, true, stage)])
  }

  function Lost(): Session {
    Idle().(pendingReads := 0, admitted := 1, lost := true)
  }

  lemma FirstCall()
    ensures var e := ReadDone(true, CallBackend(true, true)); Enabled(Idle(), e) && Do(Idle(), e, 1) == Calling(Resolving)
  {
  }

  lemma CallGoesOn(stage: Stage)
    requires !stage.Posted? && !stage.Receiving?
    ensures var e := CallAdvances(0, true);
            Enabled(Calling(stage), e) && Do(Calling(stage), e, 1) == Calling(Next(stage))
  {
    hide Sent;
  }

  lemma CallThrows()
    ensures var e := RenderingThrows(0); Enabled(Calling(Receiving), e) && Do(Calling(Receiving), e, 1) == Lost()
  {
    var c := Calling(Receiving).calls;
    assert c[..0] + c[1..] == [];
  }

  function Rank(stage: Stage): nat {
    match stage { case Posted => 0 case Resolving => 3 case Connecting => 2 case Sending => 1 case Receiving => 0 }
  }

  lemma LostFrom(stage: Stage) returns (events: seq<Event>)
    requires !stage.Posted?
    ensures Possible(Calling(stage), events, 1) && After(Calling(stage), events, 1) == Lost()
    decreases Rank(stage)
  {
    if stage.Receiving? {
      CallThrows();
      Rests(Lost());
      hide *;
      FirstStep(Calling(Receiving), RenderingThrows(0), Lost(), [], Lost(), 1);
      events := [RenderingThrows(0)] + [];
    } else {
      CallGoesOn(stage);
      var later := LostFrom(Next(stage));
      hide *;
      FirstStep(Calling(stage), CallAdvances(0, true), Calling(Next(stage)), later, Lost(), 1);
      events := [CallAdvances(0, true)] + later;
    }
  }

  lemma LostIsSound()
    ensures Lost().lost && Sound(Lost())
  {
  }

  /** A backend call that runs through, and whose reply cannot be rendered. */
  lemma CallbackLost() returns (events: seq<Event>)
    ensures Possible(FRESH, events, 1) && After(FRESH, events, 1) == Lost() && Lost().lost && Sound(Lost())
  {
    hide *;
    FirstRead();
    FirstCall();
    LostIsSound();
    var later := LostFrom(Resolving);
    var read := ReadDone(true, CallBackend(true, true));
    FirstStep(Idle(), read, Calling(Resolving), later, Lost(), 1);
    FirstStep(FRESH, StartRuns, Idle(), [read] + later, Lost(), 1);
    events := [StartRuns] + ([read] + later);
  }
}
