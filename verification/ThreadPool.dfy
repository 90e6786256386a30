/** The thread pool: a queue of jobs under a mutex, workers that wait, take, run and exit. Each turn
    under the mutex is one step, in any interleaving. */
module ThreadPools {
  import opened Options
  import opened Text

  /** Stands for the callable; the same one may be queued several times. */
  type Job = nat

  /** A running worker runs the job that was taken as number `index`. */
  datatype Worker = Waiting | Running(index: nat) | Exited

  /** `accepted` and `started` list the jobs in the order in which they were queued and taken;
      `finished` holds the numbers of those whose run has ended. */
  datatype Pool = Pool(
    jobs: seq<Job>,
    isShutdown: bool,
    maxQueued: nat,
    workers: seq<Worker>,
    accepted: seq<Job>,
    started: seq<Job>,
    finished: set<nat>)

  datatype Event = Enqueue(job: Job) | Wake(worker: nat) | Complete(worker: nat) | Shutdown

  function Create(n: nat, maxQueued: nat): Pool {
    Pool([], false, maxQueued, seq(n, i => Waiting), [], [], {})
  }

  // ----- the steps

  /** `enqueue` turns a job away when the queue is limited and full. */
  predicate Admits(p: Pool) {
    p.maxQueued == 0 || |p.jobs| < p.maxQueued
  }

  /** A waiting worker goes on when there is a job or the pool is being shut down. */
  predicate Enabled(p: Pool, e: Event) {
    match e
    case Enqueue(_) => true
    case Wake(w) => w < |p.workers| && p.workers[w].Waiting? && (p.jobs != [] || p.isShutdown)
    case Complete(w) => w < |p.workers| && p.workers[w].Running?
    case Shutdown => true
  }

  function Do(p: Pool, e: Event): Pool
    requires Enabled(p, e)
  {
    match e
    case Enqueue(job) => if Admits(p) then p.(jobs := p.jobs + [job], accepted := p.accepted + [job]) else p
    case Wake(w) =>
      if p.jobs == [] then p.(workers := p.workers[w := Exited])
      else p.(jobs := p.jobs[1..], started := p.started + [p.jobs[0]], workers := p.workers[w := Running(|p.started|)])
    case Complete(w) => p.(workers := p.workers[w := Waiting], finished := p.finished + {p.workers[w].index})
    case Shutdown => p.(isShutdown := true)
  }

  predicate Possible(p: Pool, events: seq<Event>)
    decreases |events|
  {
    events == [] || (Enabled(p, events[0]) && Possible(Do(p, events[0]), events[1..]))
  }

  function After(p: Pool, events: seq<Event>): Pool
    requires Possible(p, events)
    decreases |events|
  {
    if events == [] then p else After(Do(p, events[0]), events[1..])
  }

  // ----- what every step keeps

  predicate RunBy(p: Pool, i: nat, w: nat) {
    w < |p.workers| && p.workers[w] == Running(i)
  }

  /** Jobs leave the queue in the order in which they entered it, none twice and none lost; each one
      taken is finished or being run by exactly one worker; workers only exit once the pool shuts down. */
  ghost predicate Sound(p: Pool) {
    && p.accepted == p.started + p.jobs
    && (p.maxQueued > 0 ==> |p.jobs| <= p.maxQueued)
    && (forall i :: i in p.finished ==> i < |p.started|)
    && (forall i :: 0 <= i < |p.started| && i !in p.finished ==> exists w: nat :: RunBy(p, i, w))
    && (forall i: nat, w: nat :: RunBy(p, i, w) ==> i < |p.started| && i !in p.finished)
    && (forall i: nat, v: nat, w: nat :: RunBy(p, i, v) && RunBy(p, i, w) ==> v == w)
    && (forall w :: 0 <= w < |p.workers| && p.workers[w].Exited? ==> p.isShutdown)
  }

  lemma WakeSound(p: Pool, w: nat)
    requires Sound(p) && Enabled(p, Wake(w))
    ensures Sound(Do(p, Wake(w)))
  {
    var q := Do(p, Wake(w));
    forall i: nat, v: nat | RunBy(q, i, v) ensures v != w ==> RunBy(p, i, v) {
    }
    if p.jobs == [] {
      forall i | 0 <= i < |q.started| && i !in q.finished ensures exists v: nat :: RunBy(q, i, v) {
        var v: nat :| RunBy(p, i, v);
        assert RunBy(q, i, v);
      }
    } else {
      forall i | 0 <= i < |q.started| && i !in q.finished ensures exists v: nat :: RunBy(q, i, v) {
        if i < |p.started| {
          var v: nat :| RunBy(p, i, v);
          assert RunBy(q, i, v);
        } else {
          assert RunBy(q, i, w);
        }
      }
    }
  }

  lemma CompleteSound(p: Pool, w: nat)
    requires Sound(p) && Enabled(p, Complete(w))
    ensures Sound(Do(p, Complete(w)))
  {
    var q := Do(p, Complete(w));
    var done := p.workers[w].index;
    assert RunBy(p, done, w);
    forall i: nat, v: nat | RunBy(q, i, v) ensures RunBy(p, i, v) && v != w {
    }
    forall i | 0 <= i < |q.started| && i !in q.finished ensures exists v: nat :: RunBy(q, i, v) {
      var v: nat :| RunBy(p, i, v);
      assert RunBy(q, i, v);
    }
  }

  lemma QuietSound(p: Pool, q: Pool)
    requires Sound(p) && q.workers == p.workers && q.started == p.started && q.finished == p.finished
    requires q.accepted == q.started + q.jobs && (q.maxQueued > 0 ==> |q.jobs| <= q.maxQueued)
    requires p.isShutdown ==> q.isShutdown
    ensures Sound(q)
  {
    forall i | 0 <= i < |q.started| && i !in q.finished ensures exists v: nat :: RunBy(q, i, v) {
      var v: nat :| RunBy(p, i, v);
      assert RunBy(q, i, v);
    }
    forall i: nat, v: nat | RunBy(q, i, v) ensures RunBy(p, i, v) {
    }
  }

  lemma StepSound(p: Pool, e: Event)
    requires Sound(p) && Enabled(p, e)
    ensures Sound(Do(p, e))
  {
    hide Sound;
    match e
    case Enqueue(job) =>
      QueueFacts(p);
      QuietSound(p, Do(p, e));
    case Wake(w) => WakeSound(p, w);
    case Complete(w) => CompleteSound(p, w);
    case Shutdown =>
      QueueFacts(p);
      QuietSound(p, Do(p, e));
  }

  lemma QueueFacts(p: Pool)
    requires Sound(p)
    ensures p.accepted == p.started + p.jobs && (p.maxQueued > 0 ==> |p.jobs| <= p.maxQueued)
    ensures forall job :: p.accepted + [job] == p.started + (p.jobs + [job])
  {
  }

  /** In every interleaving, from the construction of the pool on. */
  lemma {:induction false} AlwaysSound(p: Pool, events: seq<Event>)
    requires Sound(p) && Possible(p, events)
    ensures Sound(After(p, events))
    decreases |events|
  {
    if events != [] {
      StepSound(p, events[0]);
      AlwaysSound(Do(p, events[0]), events[1..]);
    }
  }

  lemma CreatedSound(n: nat, maxQueued: nat)
    ensures Sound(Create(n, maxQueued))
  {
  }

  // ----- draining

  predicate AllExited(p: Pool) {
    forall w :: 0 <= w < |p.workers| ==> p.workers[w].Exited?
  }

  /** What has been accepted when the last worker exits has all been run. */
  ghost predicate Drained(p: Pool) {
    p.jobs == [] && forall i :: 0 <= i < |p.accepted| ==> i in p.finished
  }

  lemma LastExitDrains(p: Pool, w: nat)
    requires Sound(p) && Enabled(p, Wake(w)) && AllExited(Do(p, Wake(w)))
    ensures Drained(Do(p, Wake(w)))
  {
    var q := Do(p, Wake(w));
    WakeSound(p, w);
    assert w < |q.workers| && q.workers[w].Exited?;
    forall i: nat, v: nat ensures !RunBy(q, i, v) {
      assert v < |q.workers| ==> q.workers[v].Exited?;
    }
  }

  /** Over a whole life of the pool: at the step by which the last worker exits every job accepted until
      then has been run, whatever was enqueued, taken and finished in between. */
  lemma ShutdownDrains(n: nat, maxQueued: nat, events: seq<Event>, w: nat)
    requires n > 0 && Possible(Create(n, maxQueued), events)
    requires var p := After(Create(n, maxQueued), events); Enabled(p, Wake(w)) && AllExited(Do(p, Wake(w)))
    ensures Drained(Do(After(Create(n, maxQueued), events), Wake(w)))
  {
    CreatedSound(n, maxQueued);
    AlwaysSound(Create(n, maxQueued), events);
    LastExitDrains(After(Create(n, maxQueued), events), w);
  }

  /** Jobs accepted after that are never started: nobody is left to take them. */
  lemma {:induction false} NothingStartsAfterwards(p: Pool, events: seq<Event>)
    requires AllExited(p) && Possible(p, events)
    ensures var q := After(p, events); q.started == p.started && q.finished == p.finished && p.accepted <= q.accepted
    decreases |events|
  {
    if events != [] {
      NothingStartsAfterwards(Do(p, events[0]), events[1..]);
    }
  }

  // ----- what is turned away

  /** The jobs offered in a run, in order. */
  function Offered(events: seq<Event>): seq<Job> {
    if events == [] then []
    else (if events[0].Enqueue? then [events[0].job] else []) + Offered(events[1..])
  }

  /** A pool without a limit takes every job, even after its shutdown. */
  lemma {:induction false} UnlimitedTakesAll(p: Pool, events: seq<Event>)
    requires p.maxQueued == 0 && Possible(p, events)
    ensures After(p, events).accepted == p.accepted + Offered(events)
    decreases |events|
  {
    if events != [] {
      UnlimitedTakesAll(Do(p, events[0]), events[1..]);
      if events[0].Enqueue? {
        Assoc(p.accepted, [events[0].job], Offered(events[1..]));
      }
    }
  }

  lemma {:induction false} LimitStays(p: Pool, events: seq<Event>)
    requires Possible(p, events)
    ensures After(p, events).maxQueued == p.maxQueued
    decreases |events|
  {
    if events != [] {
      LimitStays(Do(p, events[0]), events[1..]);
    }
  }

  /** A limited one turns a job away if and only if as many jobs as its limit have been accepted and not yet
      taken; then nothing changes. */
  lemma TurnedAwayIffFull(n: nat, maxQueued: nat, events: seq<Event>, job: Job)
    requires Possible(Create(n, maxQueued), events)
    ensures var p := After(Create(n, maxQueued), events);
            var q := Do(p, Enqueue(job));
            && |p.started| <= |p.accepted|
            && (if maxQueued > 0 && |p.accepted| - |p.started| == maxQueued then q == p
                else q.accepted == p.accepted + [job] && q.started == p.started)
  {
    CreatedSound(n, maxQueued);
    AlwaysSound(Create(n, maxQueued), events);
    LimitStays(Create(n, maxQueued), events);
    QueueFacts(After(Create(n, maxQueued), events));
    hide Sound, After, Possible;
  }

  // ----- who wakes, and who goes

  predicate AskedToStop(events: seq<Event>) {
    exists i :: 0 <= i < |events| && events[i].Shutdown?
  }

  /** The pool is shutting down exactly once that has been asked for. */
  lemma {:induction false} ShuttingDownIff(p: Pool, events: seq<Event>)
    requires Possible(p, events)
    ensures After(p, events).isShutdown <==> p.isShutdown || AskedToStop(events)
    decreases |events|
  {
    if events != [] {
      var rest := events[1..];
      ShuttingDownIff(Do(p, events[0]), rest);
      if AskedToStop(rest) {
        var i :| 0 <= i < |rest| && rest[i].Shutdown?;
        assert events[i + 1].Shutdown?;
      }
      if AskedToStop(events) && !events[0].Shutdown? {
        var i :| 0 <= i < |events| && events[i].Shutdown?;
        assert rest[i - 1].Shutdown?;
      }
    }
  }

  /** In every run a waiting worker can go on exactly when a job accepted has not been taken or a shutdown has
      been asked for; it takes the oldest such job, or leaves when there is none. Jobs can be offered, and a
      shutdown asked for, at any time. */
  lemma WakeDecides(n: nat, maxQueued: nat, events: seq<Event>, w: nat)
    requires Possible(Create(n, maxQueued), events)
    requires w < |After(Create(n, maxQueued), events).workers| && After(Create(n, maxQueued), events).workers[w].Waiting?
    ensures var p := After(Create(n, maxQueued), events);
            var ready := |p.started| < |p.accepted|;
            && (Enabled(p, Wake(w)) <==> ready || AskedToStop(events))
            && (Enabled(p, Wake(w)) ==>
                  var q := Do(p, Wake(w));
                  && q.workers == p.workers[w := if ready then Running(|p.started|) else Exited]
                  && q.started == (if ready then p.started + [p.accepted[|p.started|]] else p.started)
                  && q.accepted == p.accepted && q.finished == p.finished)
            && Enabled(p, Shutdown) && forall job :: Enabled(p, Enqueue(job))
  {
    CreatedSound(n, maxQueued);
    AlwaysSound(Create(n, maxQueued), events);
    ShuttingDownIff(Create(n, maxQueued), events);
    QueueFacts(After(Create(n, maxQueued), events));
    hide Sound, After, Possible, AskedToStop;
  }

  // ----- the object

  /** The pool under its mutex; each method is what one thread does while it holds it. */
  class ThreadPool {
    var jobs: seq<Job>
    var isShutdown: bool
    const maxQueuedRequests: nat
    var workers: seq<Worker>
    var accepted: seq<Job>
    var started: seq<Job>
    var finished: set<nat>

    ghost function State(): Pool
      reads this
    {
      Pool(jobs, isShutdown, maxQueuedRequests, workers, accepted, started, finished)
    }

    constructor (n: nat, mqr: nat)
      ensures State() == Create(n, mqr) && Sound(State())
    {
      jobs, isShutdown, maxQueuedRequests := [], false, mqr;
      workers := seq(n, i => Waiting);
      accepted, started, finished := [], [], {};
      new;
      CreatedSound(n, mqr);
    }

    method EnqueueJob(job: Job) returns (admitted: bool)
      requires Sound(State())
      modifies this
      ensures State() == Do(old(State()), Enqueue(job)) && Sound(State())
      ensures admitted == Admits(old(State()))
    {
      StepSound(State(), Enqueue(job));
      hide Sound;
      if maxQueuedRequests > 0 && |jobs| >= maxQueuedRequests {
        return false;
      }
      jobs := jobs + [job];
      accepted := accepted + [job];
      return true;
    }

    /** A worker whose wait is over leaves its loop or takes the job at the front. */
    method TakeOrExit(w: nat) returns (job: Option<Job>)
      requires Sound(State()) && Enabled(State(), Wake(w))
      modifies this
      ensures State() == Do(old(State()), Wake(w)) && Sound(State())
      ensures job == if old(jobs) == [] then None else Some(old(jobs)[0])
      ensures job == None ==> isShutdown
    {
      StepSound(State(), Wake(w));
      hide Sound;
      if isShutdown && jobs == [] {
        workers := workers[w := Exited];
        return None;
      }
      var fn := jobs[0];
      jobs := jobs[1..];
      workers := workers[w := Running(|started|)];
      started := started + [fn];
      return Some(fn);
    }

    /** The job has been run; the worker goes back to waiting. */
    method JobDone(w: nat)
      requires Sound(State()) && Enabled(State(), Complete(w))
      modifies this
      ensures State() == Do(old(State()), Complete(w)) && Sound(State())
    {
      StepSound(State(), Complete(w));
      hide Sound;
      finished := finished + {workers[w].index};
      workers := workers[w := Waiting];
    }

    method ShutDown()
      requires Sound(State())
      modifies this
      ensures State() == Do(old(State()), Shutdown) && Sound(State())
    {
      StepSound(State(), Shutdown);
      hide Sound;
      isShutdown := true;
    }
  }
}
