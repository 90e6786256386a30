/** A session without its queue, flags and counters: what it is doing, whether the connection is to be kept
    after the request in hand, and what has happened to the socket. Every run of the session follows this
    plan. */
module SessionPlans {
  import opened Options
  import opened ServerSessions

  datatype Doing = Starting | AwaitingRequest | Asking(stage: Stage) | Answering | Finished | Hanging

  /** `keep` is what the handling of the last request read says of the connection. */
  datatype Plan = Plan(doing: Doing, keep: bool, open: bool, stopped: bool)

  const FIRST := Plan(Starting, false, true, false)

  /** An answer is at hand: it is written while the socket is open. */
  function Respond(p: Plan): Plan {
    p.(doing := if p.open then Answering else Finished)
  }

  function GoOn(p: Plan): Plan {
    p.(doing := if p.keep then AwaitingRequest else Finished)
  }

  function Step(p: Plan, e: Event): Plan {
    match e
    case StartRuns => p.(doing := AwaitingRequest)
    case ReadDone(ok, h) =>
      if !ok then p.(doing := Finished)
      else
        var q := p.(keep := h.keepAlive);
        if h.Answer? then Respond(q)
        else if h.Drop? then GoOn(q)
        else q.(doing := Asking(if h.supported then Resolving else Posted))
    case CallAdvances(_, ok) =>
      if ok && p.doing == Asking(Resolving) then p.(doing := Asking(Connecting))
      else if ok && p.doing == Asking(Connecting) then p.(doing := Asking(Sending))
      else if ok && p.doing == Asking(Sending) then p.(doing := Asking(Receiving))
      else Respond(p)
    case RenderingThrows(_) => p.(doing := Hanging)
    case WriteDone(ok) => if ok && !p.stopped then GoOn(p) else p.(doing := Finished)
    case TimerDone(expired) => if expired && p.doing.Answering? then p.(open := false) else p
    case Stop => p.(open := false, stopped := true)
    case SocketLost => p.(open := false)
  }

  function Planned(p: Plan, events: seq<Event>): Plan
    decreases |events|
  {
    if events == [] then p else Planned(Step(p, events[0]), events[1..])
  }

  /** What the handling of the last request read says of the connection, or `before` when none has been read. */
  function Wish(before: bool, events: seq<Event>): bool
    decreases |events|
  {
    if events == [] then before
    else Wish(if events[0].ReadDone? && events[0].ok then events[0].handling.keepAlive else before, events[1..])
  }

  /** What a session is seen to be doing. */
  predicate Does(s: Session, d: Doing) {
    && s.starts == One(d.Starting?)
    && s.pendingReads == One(d.AwaitingRequest?)
    && |s.calls| == One(d.Asking?)
    && (d.Asking? ==> s.calls[0].stage == d.stage)
    && |s.writes| == One(d.Answering?)
    && s.finishes == One(d.Finished?)
    && s.lost == d.Hanging?
  }

  predicate Agrees(s: Session, p: Plan) {
    && Does(s, p.doing)
    && s.isOpen == p.open && s.stopped == p.stopped
    && (forall i :: 0 <= i < |s.calls| ==> s.calls[i].keepAlive == p.keep)
    && (forall i :: 0 <= i < |s.writes| ==> s.writes[i].keepAlive == p.keep)
    && (s.writes == [] && s.timers > 0 ==> s.completed)
  }

  ghost predicate Follows(s: Session, p: Plan) {
    Sound(s) && Agrees(s, p)
  }

  /** Between two operations: nothing is under way. */
  predicate Between(s: Session, p: Plan) {
    && Outstanding(s) == 0 && s.registered && !s.lost && s.finishes == 0 && s.queue == [] && !s.writing
    && s.isOpen == p.open && s.stopped == p.stopped
    && (s.timers > 0 ==> s.completed)
  }

  lemma AnswerAgrees(s: Session, p: Plan, r: Response, max: nat)
    requires max > 0 && Between(s, p) && r.keepAlive == p.keep
    ensures Agrees(Sent(s, Some(r), r.keepAlive, max), Respond(p))
  {
  }

  lemma DropAgrees(s: Session, p: Plan, max: nat)
    requires Between(s, p)
    ensures Agrees(Sent(s, None, p.keep, max), GoOn(p))
  {
  }

  lemma ReadAgrees(s: Session, p: Plan, ok: bool, h: Handling, max: nat)
    requires max > 0 && Follows(s, p) && s.pendingReads > 0
    ensures Agrees(Do(s, ReadDone(ok, h), max), Step(p, ReadDone(ok, h)))
  {
    var read := s.(pendingReads := s.pendingReads - 1);
    if ok {
      var n, q := s.admitted, p.(keep := h.keepAlive);
      var next := read.(admitted := n + 1);
      assert Between(next, q);
      hide Sound, Does;
      if h.Answer? {
        AnswerAgrees(next, q, Response(n, h.keepAlive), max);
        hide Sent, Agrees, Between;
      } else if h.Drop? {
        DropAgrees(next, q, max);
        hide Sent, Agrees, Between;
      } else {
        hide Sent, Between;
        ReadCalls(s, p, h, max);
      }
    } else {
      hide Handled;
    }
  }

  lemma ReadCalls(s: Session, p: Plan, h: Handling, max: nat)
    requires Follows(s, p) && s.pendingReads > 0 && h.CallBackend?
    ensures Agrees(Do(s, ReadDone(true, h), max), Step(p, ReadDone(true, h)))
  {
    hide Sent;
  }

  lemma CallConcludes(s: Session, p: Plan, i: nat, ok: bool, max: nat)
    requires max > 0 && Follows(s, p) && i < |s.calls| && Concludes(s.calls[i], ok)
    ensures Agrees(Advanced(s, i, ok, max), Step(p, CallAdvances(i, ok)))
  {
    var c := s.calls[i];
    assert s.calls[..i] + s.calls[i + 1..] == [];
    var next := s.(calls := []);
    assert Between(next, p) && c.keepAlive == p.keep;
    assert Step(p, CallAdvances(i, ok)) == Respond(p);
    hide Sound, Does, Agrees, Sent, Between, Step, Respond;
    AnswerAgrees(next, p, Response(c.request, c.keepAlive), max);
  }

  lemma CallGoesOn(s: Session, p: Plan, i: nat, ok: bool, max: nat)
    requires Follows(s, p) && i < |s.calls| && !Concludes(s.calls[i], ok)
    ensures Agrees(Advanced(s, i, ok, max), Step(p, CallAdvances(i, ok)))
  {
    hide Sent, InOrder, Respond;
  }

  lemma CallAgrees(s: Session, p: Plan, i: nat, ok: bool, max: nat)
    requires max > 0 && Follows(s, p) && i < |s.calls|
    ensures Agrees(Advanced(s, i, ok, max), Step(p, CallAdvances(i, ok)))
  {
    hide Follows, Agrees, Advanced, Step, Concludes;
    if Concludes(s.calls[i], ok) {
      CallConcludes(s, p, i, ok, max);
    } else {
      CallGoesOn(s, p, i, ok, max);
    }
  }

  lemma WriteAgrees(s: Session, p: Plan, ok: bool)
    requires Follows(s, p) && s.writes != []
    ensures Agrees(WriteEnded(s, ok), Step(p, WriteDone(ok)))
  {
    assert s.registered && s.writes == s.queue == [s.queue[0]] && s.calls == [];
    assert s.writes[1..] == [];
  }

  lemma QuietAgrees(s: Session, p: Plan, e: Event, max: nat)
    requires Follows(s, p) && Enabled(s, e) && !e.ReadDone? && !e.CallAdvances? && !e.WriteDone?
    ensures Agrees(Do(s, e, max), Step(p, e))
  {
    hide Handled, Advanced, WriteEnded, InOrder;
  }

  lemma StepFollows(s: Session, p: Plan, e: Event, max: nat)
    requires max > 0 && Follows(s, p) && Enabled(s, e)
    ensures Follows(Do(s, e, max), Step(p, e))
  {
    StepKeepsSound(s, e, max);
    match e
    case ReadDone(ok, h) =>
      ReadAgrees(s, p, ok, h, max);
      hide Sound, Agrees, Do, Step, Enabled;
    case CallAdvances(i, ok) =>
      CallAgrees(s, p, i, ok, max);
      hide Sound, Agrees, Advanced, Step;
    case WriteDone(ok) =>
      WriteAgrees(s, p, ok);
      hide Sound, Agrees, WriteEnded, Step;
    case _ =>
      QuietAgrees(s, p, e, max);
      hide Sound, Agrees, Do, Step;
  }

  /** Every run follows the plan. */
  lemma {:induction false} RunFollows(s: Session, p: Plan, events: seq<Event>, max: nat)
    requires max > 0 && Follows(s, p) && Possible(s, events, max)
    ensures Follows(After(s, events, max), Planned(p, events))
    decreases |events|
  {
    if events != [] {
      StepFollows(s, p, events[0], max);
      hide Follows, Do, Step, Enabled;
      RunFollows(Do(s, events[0], max), Step(p, events[0]), events[1..], max);
    }
  }

  lemma {:induction false} PlanKeepsWish(p: Plan, events: seq<Event>)
    ensures Planned(p, events).keep == Wish(p.keep, events)
    decreases |events|
  {
    if events != [] {
      PlanKeepsWish(Step(p, events[0]), events[1..]);
    }
  }

  lemma FreshFollows()
    ensures Follows(FRESH, FIRST) && !FIRST.keep
  {
  }

  /** Every session is doing what its plan says, and what it writes, or will write, says of the connection
      what was settled when the request in hand was read. */
  lemma PlanFollowed(events: seq<Event>, max: nat)
    requires max > 0 && Possible(FRESH, events, max)
    ensures var s, p := After(FRESH, events, max), Planned(FIRST, events);
            && Does(s, p.doing) && s.isOpen == p.open && s.stopped == p.stopped
            && (forall i :: 0 <= i < |s.calls| ==> s.calls[i].keepAlive == Wish(false, events))
            && (forall i :: 0 <= i < |s.writes| ==> s.writes[i].keepAlive == Wish(false, events))
  {
    FreshFollows();
    hide Sound, Does;
    RunFollows(FRESH, FIRST, events, max);
    PlanKeepsWish(FIRST, events);
  }

  lemma WriteDecides(s: Session, p: Plan, ok: bool)
    requires Follows(s, p) && s.writes != []
    ensures var t := WriteEnded(s, ok);
            var on := ok && !s.stopped && p.keep;
            t.pendingReads == One(on) && t.finishes == One(!on) && t.writes == [] && t.isOpen == s.isOpen
  {
    assert s.registered && s.writes == s.queue == [s.queue[0]] && s.calls == [];
    assert s.writes[1..] == [];
  }

  /** When a write ends, the session reads the next request if and only if the write went well, `stop` has
      not been called and the answer says to keep the connection, as settled when its request was read; otherwise
      it finishes. */
  lemma KeepAliveDecides(events: seq<Event>, ok: bool, max: nat)
    requires max > 0 && Possible(FRESH, events, max) && Enabled(After(FRESH, events, max), WriteDone(ok))
    ensures var s := After(FRESH, events, max);
            var t := Do(s, WriteDone(ok), max);
            var on := ok && !s.stopped && Wish(false, events);
            t.pendingReads == One(on) && t.finishes == One(!on) && t.writes == [] && t.isOpen == s.isOpen
  {
    FreshFollows();
    hide Follows, WriteEnded, Planned, Possible, After, Wish;
    RunFollows(FRESH, FIRST, events, max);
    PlanKeepsWish(FIRST, events);
    WriteDecides(After(FRESH, events, max), Planned(FIRST, events), ok);
  }

  /** A request that is dropped is followed by the next one if and only if the connection is to be kept. */
  lemma DropDecides(events: seq<Event>, keepAlive: bool, max: nat)
    requires max > 0 && Possible(FRESH, events, max) && Enabled(After(FRESH, events, max), ReadDone(true, Drop(keepAlive)))
    ensures var s := After(FRESH, events, max);
            var t := Do(s, ReadDone(true, Drop(keepAlive)), max);
            t.pendingReads == One(keepAlive) && t.finishes == One(!keepAlive) && t.writes == [] && t.calls == []
  {
    AlwaysSound(FRESH, events, max);
  }

  /** An answer found at once is written while the socket is open; with the socket closed the session
      finishes and the answer is discarded. */
  lemma AnswerDecides(events: seq<Event>, keepAlive: bool, max: nat)
    requires max > 0 && Possible(FRESH, events, max) && Enabled(After(FRESH, events, max), ReadDone(true, Answer(keepAlive)))
    ensures var s := After(FRESH, events, max);
            var t := Do(s, ReadDone(true, Answer(keepAlive)), max);
            && t.writes == (if s.isOpen then [Response(s.admitted, keepAlive)] else [])
            && t.fates == (if s.isOpen then s.fates else s.fates + [Discarded])
            && t.finishes == One(!s.isOpen) && t.pendingReads == 0
  {
    AlwaysSound(FRESH, events, max);
    assert Discards(1) == [Discarded];
    hide After, Possible;
  }

  lemma CallDecides(s: Session, p: Plan, ok: bool, max: nat)
    requires max > 0 && Follows(s, p) && s.calls != []
    ensures var t := Advanced(s, 0, ok, max);
            var answers := !ok || s.calls[0].stage.Posted? || s.calls[0].stage.Receiving?;
            && t.writes == (if answers && s.isOpen then [Response(|s.fates|, p.keep)] else [])
            && |t.calls| == One(!answers) && t.finishes == One(answers && !s.isOpen)
  {
    assert s.calls[..0] + s.calls[1..] == [];
  }

  /** A call is answered at its first failure, or when the reply is there, under the number of its request
      and with what was settled for it. */
  lemma CallIsAnswered(events: seq<Event>, ok: bool, max: nat)
    requires max > 0 && Possible(FRESH, events, max) && Enabled(After(FRESH, events, max), CallAdvances(0, ok))
    ensures var s := After(FRESH, events, max);
            var t := Do(s, CallAdvances(0, ok), max);
            var answers := !ok || s.calls[0].stage.Posted? || s.calls[0].stage.Receiving?;
            && t.writes == (if answers && s.isOpen then [Response(|s.fates|, Wish(false, events))] else [])
            && |t.calls| == One(!answers) && t.finishes == One(answers && !s.isOpen)
  {
    FreshFollows();
    hide Follows, Advanced, Planned, Possible, After, Wish;
    RunFollows(FRESH, FIRST, events, max);
    PlanKeepsWish(FIRST, events);
    CallDecides(After(FRESH, events, max), Planned(FIRST, events), ok, max);
  }

  // ----- what can happen next

  /** Timers are left out. */
  predicate Allows(p: Plan, e: Event) {
    match e
    case StartRuns => p.doing.Starting?
    case ReadDone(_, _) => p.doing.AwaitingRequest?
    case CallAdvances(i, _) => i == 0 && p.doing.Asking?
    case RenderingThrows(i) => i == 0 && p.doing == Asking(Receiving)
    case WriteDone(_) => p.doing.Answering?
    case _ => true
  }

  function TimersAfter(p: Plan, e: Event, n: int): int {
    if e.TimerDone? then n - 1
    else if Step(p, e).doing.Answering? && !p.doing.Answering? then n + 1 else n
  }

  /** Every write starts a timer, and every timer ends once. */
  function Timers(p: Plan, events: seq<Event>, before: int): int
    decreases |events|
  {
    if events == [] then before
    else Timers(Step(p, events[0]), events[1..], TimersAfter(p, events[0], before))
  }

  lemma SentTimers(s: Session, p: Plan, result: Option<Response>, keepAlive: bool, max: nat)
    requires max > 0 && Between(s, p)
    ensures Sent(s, result, keepAlive, max).timers == s.timers + One(result.Some? && p.open)
  {
  }

  lemma ReadTimers(s: Session, p: Plan, ok: bool, h: Handling, max: nat)
    requires max > 0 && Follows(s, p) && s.pendingReads > 0
    ensures Do(s, ReadDone(ok, h), max).timers == TimersAfter(p, ReadDone(ok, h), s.timers)
  {
    var next, q := s.(pendingReads := s.pendingReads - 1, admitted := s.admitted + 1), p.(keep := h.keepAlive);
    assert Between(next, q) && p.doing.AwaitingRequest?;
    hide Sent, Sound, Between, Does;
    SentTimers(next, q, if h.Answer? then Some(Response(s.admitted, h.keepAlive)) else None, h.keepAlive, max);
  }

  lemma CallTimers(s: Session, p: Plan, i: nat, ok: bool, max: nat)
    requires max > 0 && Follows(s, p) && i < |s.calls|
    ensures Do(s, CallAdvances(i, ok), max).timers == TimersAfter(p, CallAdvances(i, ok), s.timers)
  {
    var c := s.calls[i];
    assert s.calls[..i] + s.calls[i + 1..] == [];
    assert Between(s.(calls := []), p) && p.doing == Asking(c.stage);
    hide Sent, Sound, Between, Does;
    SentTimers(s.(calls := []), p, Some(Response(c.request, c.keepAlive)), c.keepAlive, max);
  }

  lemma WriteTimers(s: Session, p: Plan, ok: bool)
    requires Follows(s, p) && s.writes != []
    ensures WriteEnded(s, ok).timers == TimersAfter(p, WriteDone(ok), s.timers)
  {
    assert s.registered && s.writes == s.queue == [s.queue[0]];
    assert p.doing.Answering?;
    hide InOrder, Does;
  }

  lemma StepTimers(s: Session, p: Plan, e: Event, max: nat)
    requires max > 0 && Follows(s, p) && Enabled(s, e)
    ensures Do(s, e, max).timers == TimersAfter(p, e, s.timers)
  {
    match e
    case ReadDone(ok, h) =>
      ReadTimers(s, p, ok, h, max);
      hide *;
    case CallAdvances(i, ok) =>
      CallTimers(s, p, i, ok, max);
      hide *;
    case WriteDone(ok) =>
      WriteTimers(s, p, ok);
      hide Follows, WriteEnded, TimersAfter;
    case _ =>
      hide Sound;
  }

  lemma {:induction false} RunTimers(s: Session, p: Plan, events: seq<Event>, max: nat)
    requires max > 0 && Follows(s, p) && Possible(s, events, max)
    ensures After(s, events, max).timers == Timers(p, events, s.timers)
    decreases |events|
  {
    if events != [] {
      StepFollows(s, p, events[0], max);
      StepTimers(s, p, events[0], max);
      hide Follows, Do, Step, Enabled, TimersAfter;
      RunTimers(Do(s, events[0], max), Step(p, events[0]), events[1..], max);
    }
  }

  /** In every run an event can happen exactly when the plan allows it, and the end of a timer when one is
      running. */
  lemma PossibleIffPlanned(events: seq<Event>, e: Event, max: nat)
    requires max > 0 && Possible(FRESH, events, max)
    ensures Enabled(After(FRESH, events, max), e) <==>
            if e.TimerDone? then Timers(FIRST, events, 0) > 0 else Allows(Planned(FIRST, events), e)
  {
    FreshFollows();
    assert FRESH.timers == 0;
    RunFollows(FRESH, FIRST, events, max);
    RunTimers(FRESH, FIRST, events, max);
    hide Planned, Timers, After, Possible, InOrder;
  }
}
