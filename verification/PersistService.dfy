/**
 * The whole persistence service: the transition system of `PersistProtocol`
 * with every write, commit, sleep and retry decision of a job as a step of its
 * own, so that producers and `close` may fall between any two of them.
 */
module PersistService {
  import opened Prelude
  import opened PersistQueue
  import opened PersistProtocol
  import opened PersistJob
  import opened PersistSteps

  /** The job in progress; `closedAt` is the number of its events before `close`, once that has happened. */
  datatype Job = Job(phase: Phase, trace: seq<Event>, closedAt: Option<nat>)

  datatype Settled = Settled(request: Request, job: Job)

  /** Queue and worker, the worker's job, and the history: all events of all jobs, and the jobs that ended. */
  datatype Service = Service(system: System, job: Option<Job>, log: seq<Event>, settled: seq<Settled>)

  /**
   * A step of producers, `close` or the worker's loop; an event of the job;
   * its return without a retry; and the recording of its result.
   */
  datatype Action = Protocol(step: Step) | Did(event: Event) | GiveUp | Settle(ok: bool)

  function Start(capacity: nat): Service {
    Service(Initial(capacity), None, [], [])
  }

  predicate OneJob(s: Service) {
    1 <= s.system.queue.capacity && (s.job.Some? <==> s.system.worker.Running?)
  }

  predicate Can(cfg: Config, s: Service, a: Action) {
    match a
    case Protocol(step) => !step.Finish? && Enabled(s.system, step)
    case Did(e) =>
      && s.job.Some? && s.system.worker.Running?
      && CanDo(cfg, s.system.worker.request.blobs, s.job.value.phase, s.system.queue.closed, e)
    case GiveUp =>
      s.job.Some? && !s.job.value.phase.Ended? && ResultOf(s.job.value.phase, s.system.queue.closed).Some?
    case Settle(ok) =>
      && s.job.Some? && s.system.worker.Running?
      && s.job.value.phase.Ended? && ok == s.job.value.phase.result.Ok?
  }

  /** What a step of queue or worker means for the job: a popped request starts one, the first `close` marks it. */
  function JobAfter(s: Service, step: Step): Option<Job>
    requires 1 <= s.system.queue.capacity && Enabled(s.system, step)
  {
    var next := Next(s.system, step);
    if step.Pop? && next.worker.Running? then
      Some(Job(Progress(next.worker.request.blobs, 0, []), [], if next.queue.closed then Some(0) else None))
    else if step.Close? && s.job.Some? && !s.system.queue.closed then
      Some(s.job.value.(closedAt := Some(|s.job.value.trace|)))
    else s.job
  }

  function Act(cfg: Config, s: Service, a: Action): Service
    requires 1 <= s.system.queue.capacity && Can(cfg, s, a)
  {
    match a
    case Protocol(step) => s.(system := Next(s.system, step), job := JobAfter(s, step))
    case Did(e) =>
      var phase := Do(cfg, s.system.worker.request, s.job.value.phase, s.system.queue.closed, e);
      s.(job := Some(s.job.value.(phase := phase, trace := s.job.value.trace + [e])), log := s.log + [e])
    case GiveUp =>
      s.(job := Some(s.job.value.(phase := Ended(ResultOf(s.job.value.phase, s.system.queue.closed).value))))
    case Settle(ok) =>
      s.(system := Next(s.system, Finish(ok)), job := None,
         settled := s.settled + [Settled(s.system.worker.request, s.job.value)])
  }

  ghost predicate Runs(cfg: Config, s: Service, acts: seq<Action>, t: Service)
    requires 1 <= s.system.queue.capacity
    decreases |acts|
  {
    if acts == [] then s == t
    else Can(cfg, s, acts[0]) && Runs(cfg, Act(cfg, s, acts[0]), acts[1..], t)
  }

  // ---------- the service refines the protocol ----------

  /** The run as the protocol sees it: a job is one `Finish`. */
  function Steps(acts: seq<Action>): seq<Step> {
    if acts == [] then []
    else (
      match acts[0]
      case Protocol(step) => [step] + Steps(acts[1..])
      case Settle(ok) => [Finish(ok)] + Steps(acts[1..])
      case _ => Steps(acts[1..])
    )
  }

  /** Every run of the service is a run of the protocol, so all that holds of those holds here. */
  lemma {:induction false} ServiceRefinesProtocol(cfg: Config, s: Service, acts: seq<Action>, t: Service)
    requires 1 <= s.system.queue.capacity && Runs(cfg, s, acts, t)
    ensures Run(s.system, Steps(acts), t.system)
    decreases |acts|
  {
    if acts != [] {
      ServiceRefinesProtocol(cfg, Act(cfg, s, acts[0]), acts[1..], t);
    }
  }

  // ---------- what is true of every job ----------

  /** When `close` came, counted in the job's events; past the end of the trace while it has not. */
  function Instant(job: Job): nat {
    if job.closedAt.Some? then job.closedAt.value else |job.trace| + 1
  }

  /** The job did its trace event by event, and stands where that left it or has returned from there. */
  ghost predicate Follows(cfg: Config, request: Request, job: Job) {
    var after := After(cfg, request, Instant(job), job.trace);
    && (job.closedAt.Some? ==> job.closedAt.value <= |job.trace|)
    && after.Some?
    && (job.phase == after.value
        || (job.phase.Ended? && ResultOf(after.value, job.closedAt.Some?) == Some(job.phase.result)))
  }

  ghost predicate JobsFollow(cfg: Config, s: Service) {
    && OneJob(s)
    && (s.job.Some? ==>
          Follows(cfg, s.system.worker.request, s.job.value) && (s.job.value.closedAt.Some? <==> s.system.queue.closed))
    && (forall i :: 0 <= i < |s.settled| ==>
          Follows(cfg, s.settled[i].request, s.settled[i].job) && s.settled[i].job.phase.Ended?)
  }

  /** Until `close` comes it does not matter when it will. */
  lemma {:induction false} AfterWhileOpen(cfg: Config, request: Request, c: nat, d: nat, trace: seq<Event>)
    requires |trace| <= c && |trace| <= d
    ensures After(cfg, request, c, trace) == After(cfg, request, d, trace)
  {
    if trace != [] {
      AfterWhileOpen(cfg, request, c, d, trace[..|trace| - 1]);
    }
  }

  lemma DidFollows(cfg: Config, request: Request, job: Job, e: Event)
    requires Follows(cfg, request, job) && CanDo(cfg, request.blobs, job.phase, job.closedAt.Some?, e)
    ensures Follows(cfg, request,
                    job.(phase := Do(cfg, request, job.phase, job.closedAt.Some?, e), trace := job.trace + [e]))
  {
    var next := job.(trace := job.trace + [e]);
    AfterWhileOpen(cfg, request, Instant(job), |job.trace|, []);
    if job.closedAt.None? {
      AfterWhileOpen(cfg, request, Instant(job), Instant(next), job.trace);
    }
    Push(cfg, request, Instant(next), job.trace, e);
  }

  lemma CloseFollows(cfg: Config, request: Request, job: Job)
    requires Follows(cfg, request, job) && job.closedAt.None?
    ensures Follows(cfg, request, job.(closedAt := Some(|job.trace|)))
  {
    AfterWhileOpen(cfg, request, |job.trace| + 1, |job.trace|, job.trace);
  }

  lemma FollowKept(cfg: Config, s: Service, a: Action)
    requires JobsFollow(cfg, s) && Can(cfg, s, a)
    ensures JobsFollow(cfg, Act(cfg, s, a))
  {
    match a
    case Protocol(step) =>
      if step.Close? && s.job.Some? && !s.system.queue.closed {
        CloseFollows(cfg, s.system.worker.request, s.job.value);
      }
    case Did(e) => DidFollows(cfg, s.system.worker.request, s.job.value, e);
    case GiveUp =>
    case Settle(ok) =>
  }

  lemma {:induction false} RunFollows(cfg: Config, s: Service, acts: seq<Action>, t: Service)
    requires JobsFollow(cfg, s) && Runs(cfg, s, acts, t)
    ensures JobsFollow(cfg, t)
    decreases |acts|
  {
    if acts != [] {
      FollowKept(cfg, s, acts[0]);
      RunFollows(cfg, Act(cfg, s, acts[0]), acts[1..], t);
    }
  }

  /**
   * However producers and `close` fall between its events, a job that ended did
   * what `PersistRequestWithRetry` promises, its result is the outcome recorded
   * for its request, and its `closedAt` is where `close` really fell.
   */
  lemma EndedJobsDid(cfg: Config, capacity: nat, acts: seq<Action>, t: Service, i: nat) returns (st: Story)
    requires 1 <= capacity && Runs(cfg, Start(capacity), acts, t) && i < |t.settled|
    ensures var s := t.settled[i];
      && s.job.phase.Ended?
      && JobDid(cfg, s.request, Instant(s.job), st, s.job.trace, Some(s.job.phase.result))
  {
    RunFollows(cfg, Start(capacity), acts, t);
    var s := t.settled[i];
    var after := After(cfg, s.request, Instant(s.job), s.job.trace);
    ReturnsIffDid(cfg, s.request, Instant(s.job), s.job.trace, s.job.phase.result);
    st :| JobDid(cfg, s.request, Instant(s.job), st, s.job.trace, Some(s.job.phase.result));
  }

  // ---------- the recorded outcomes ----------

  predicate IsPersisted(e: Event) { e.Commit? && e.committed.Ok? }

  /** Outcomes are the results of the ended jobs, and each success is one commit in the log. */
  ghost predicate Recorded(s: Service) {
    && OneJob(s)
    && |s.settled| == |s.system.finished|
    && (forall i :: 0 <= i < |s.settled| ==>
          && s.settled[i].job.phase.Ended?
          && s.system.finished[i] == Outcome(s.settled[i].request, s.settled[i].job.phase.result.Ok?))
    && Count(IsPersisted, s.log)
    == Count(IsOk, s.system.finished) + (if s.job.Some? && Succeeded(s.job.value.phase) then 1 else 0)
  }

  predicate Succeeded(p: Phase) { p.Ended? && p.result.Ok? }

  lemma ProtocolRecorded(cfg: Config, s: Service, step: Step)
    requires Recorded(s) && Can(cfg, s, Protocol(step))
    ensures Recorded(Act(cfg, s, Protocol(step)))
  {
  }

  lemma DidRecorded(cfg: Config, s: Service, e: Event)
    requires Recorded(s) && Can(cfg, s, Did(e))
    ensures Recorded(Act(cfg, s, Did(e)))
  {
    CountPush(IsPersisted, s.log, e);
    assert Succeeded(Act(cfg, s, Did(e)).job.value.phase) <==> IsPersisted(e);
  }

  lemma SettleRecorded(cfg: Config, s: Service, ok: bool)
    requires Recorded(s) && Can(cfg, s, Settle(ok))
    ensures Recorded(Act(cfg, s, Settle(ok)))
  {
    CountPush(IsOk, s.system.finished, Outcome(s.system.worker.request, ok));
  }

  lemma RecordedKept(cfg: Config, s: Service, a: Action)
    requires Recorded(s) && Can(cfg, s, a)
    ensures Recorded(Act(cfg, s, a))
  {
    match a
    case Protocol(step) => ProtocolRecorded(cfg, s, step);
    case Did(e) => DidRecorded(cfg, s, e);
    case GiveUp =>
    case Settle(ok) => SettleRecorded(cfg, s, ok);
  }

  lemma {:induction false} RunRecords(cfg: Config, s: Service, acts: seq<Action>, t: Service)
    requires Recorded(s) && Runs(cfg, s, acts, t)
    ensures Recorded(t)
    decreases |acts|
  {
    if acts != [] {
      RecordedKept(cfg, s, acts[0]);
      RunRecords(cfg, Act(cfg, s, acts[0]), acts[1..], t);
    }
  }

  /** The published count of persisted requests is the number of commits the sink accepted. */
  lemma {:induction false} PersistedCountsCommits(cfg: Config, capacity: nat, acts: seq<Action>, t: Service)
    requires 1 <= capacity && Runs(cfg, Start(capacity), acts, t)
    ensures t.job.None? || !Succeeded(t.job.value.phase) ==>
      t.system.queue.stats.persisted == Min(Count(IsPersisted, t.log), U64_MAX)
    ensures t.job.Some? && Succeeded(t.job.value.phase) ==>
      Count(IsPersisted, t.log) >= 1 && t.system.queue.stats.persisted == Min(Count(IsPersisted, t.log) - 1, U64_MAX)
  {
    RunRecords(cfg, Start(capacity), acts, t);
    ServiceRefinesProtocol(cfg, Start(capacity), acts, t);
    ReachableInvariant(capacity, Steps(acts), t.system);
  }

  lemma {:induction false} CapacityStays(cfg: Config, s: Service, acts: seq<Action>, t: Service)
    requires 1 <= s.system.queue.capacity && Runs(cfg, s, acts, t)
    ensures t.system.queue.capacity == s.system.queue.capacity
    decreases |acts|
  {
    if acts != [] {
      CapacityStays(cfg, Act(cfg, s, acts[0]), acts[1..], t);
    }
  }

  /** Once the worker has left, every accepted request was evicted, committed, failed or dropped at `close`. */
  lemma {:induction false} StoppedStats(cfg: Config, capacity: nat, acts: seq<Action>, t: Service)
    requires 1 <= capacity && Runs(cfg, Start(capacity), acts, t)
    requires t.system.worker.Stopped? && |t.system.accepted| <= U64_MAX
    ensures t.system.queue.pending == [] && t.system.queue.capacity == capacity
    ensures var st := t.system.queue.stats;
      && st.persisted == Count(IsPersisted, t.log)
      && st.enqueued == st.evicted + st.persisted + st.failed + Count(IsDropped, t.system.exits)
  {
    RunFollows(cfg, Start(capacity), acts, t);
    RunRecords(cfg, Start(capacity), acts, t);
    ServiceRefinesProtocol(cfg, Start(capacity), acts, t);
    ReachableInvariant(capacity, Steps(acts), t.system);
    Conservation(capacity, Steps(acts), t.system);
    CountOutcomes(t.system.finished);
    CountKinds(t.system.exits);
    CapacityStays(cfg, Start(capacity), acts, t);
  }

  // ---------- shutdown ----------

  /** The writes and commits a job can still make once the queue is closed. */
  function WritesLeft(s: Service): nat {
    if s.job.None? || !s.system.worker.Running? then 0
    else (
      var blobs := s.system.worker.request.blobs;
      match s.job.value.phase
      case Writing(_, stored) => if |stored| < |blobs| then |blobs| - |stored| else 0
      case _ => 0
    )
  }

  function CommitsLeft(s: Service): nat {
    if s.job.Some? && (s.job.value.phase.Writing? || s.job.value.phase.Committing?) then 1 else 0
  }

  /** How many steps separate the worker from its exit once the queue is closed. */
  function StepsLeft(s: Service): nat {
    if s.job.None? then StepsToExit(s.system.worker)
    else
      match s.job.value.phase
      case Ended(_) => 4
      case Writing(_, _) => 6 + WritesLeft(s)
      case Committing(_, _) => 6
      case _ => 5
  }

  predicate WorkerAction(a: Action) {
    a.Protocol? ==> WorkerStep(a.step)
  }

  function WorkerActions(acts: seq<Action>): nat {
    if acts == [] then 0 else (if WorkerAction(acts[0]) then 1 else 0) + WorkerActions(acts[1..])
  }

  /** What the job does between two states of a closed service. */
  ghost predicate Winds(s: Service, t: Service, more: seq<Event>) {
    && t.log == s.log + more
    && Writes(more) + WritesLeft(t) <= WritesLeft(s)
    && Commits(more) + CommitsLeft(t) <= CommitsLeft(s)
    && (forall i :: 0 <= i < |more| ==> !more[i].Sleep?)
  }

  ghost predicate Closed(s: Service) {
    OneJob(s) && s.system.queue.closed && s.system.queue.pending == []
  }

  lemma WindsOne(cfg: Config, s: Service, a: Action) returns (more: seq<Event>)
    requires Closed(s) && Can(cfg, s, a)
    ensures var t := Act(cfg, s, a);
      && Closed(t) && Winds(s, t, more) && t.system.accepted == s.system.accepted
      && (if WorkerAction(a) then 1 else 0) + StepsLeft(t) <= StepsLeft(s)
  {
    more := if a.Did? then [a.event] else [];
    if a.Did? {
      assert more[1..] == [];
    }
  }

  lemma WindsOn(s: Service, t: Service, u: Service, more: seq<Event>, later: seq<Event>)
    requires Winds(s, t, more) && Winds(t, u, later)
    ensures Winds(s, u, more + later)
  {
    CountSplit(more, later);
  }

  lemma {:induction false} ClosedWinds(cfg: Config, s: Service, acts: seq<Action>, t: Service)
    returns (more: seq<Event>)
    requires Closed(s) && Runs(cfg, s, acts, t)
    ensures Closed(t) && Winds(s, t, more) && t.system.accepted == s.system.accepted
    ensures WorkerActions(acts) + StepsLeft(t) <= StepsLeft(s)
    decreases |acts|
  {
    if acts == [] {
      more := [];
    } else {
      var next := Act(cfg, s, acts[0]);
      var first := WindsOne(cfg, s, acts[0]);
      var later := ClosedWinds(cfg, next, acts[1..], t);
      WindsOn(s, next, t, first, later);
      more := first + later;
    }
  }

  /**
   * Shutdown: from `close` on, whatever producers still try, the worker makes
   * at most one write pass and one commit for the job it runs and none without
   * one, decides on no sleep, accepts nothing, and is gone after so many steps.
   */
  lemma ShutdownIsPrompt(cfg: Config, capacity: nat, before: seq<Action>, s: Service, acts: seq<Action>, t: Service)
    returns (more: seq<Event>)
    requires 1 <= capacity && Runs(cfg, Start(capacity), before, s)
    requires 1 <= s.system.queue.capacity && Runs(cfg, Act(cfg, s, Protocol(Close)), acts, t)
    ensures t.log == s.log + more && t.system.accepted == s.system.accepted
    ensures forall i :: 0 <= i < |more| ==> !more[i].Sleep?
    ensures Writes(more) <= (if s.system.worker.Running? then |s.system.worker.request.blobs| else 0)
    ensures Commits(more) <= (if s.system.worker.Running? then 1 else 0)
    ensures WorkerActions(acts) <= 6 + (if s.system.worker.Running? then |s.system.worker.request.blobs| else 0)
  {
    RunFollows(cfg, Start(capacity), before, s);
    ServiceRefinesProtocol(cfg, Start(capacity), before, s);
    ReachableInvariant(capacity, Steps(before), s.system);
    more := ClosedWinds(cfg, Act(cfg, s, Protocol(Close)), acts, t);
  }

  /**
   * Nothing gets stuck: a worker that has a job, or work waiting, or a closed
   * queue before it, and is not gone, can move, whatever writer and sink answer.
   */
  lemma ServiceCanMove(cfg: Config, capacity: nat, acts: seq<Action>, t: Service,
                       written: Result<StoredBlob, PersistError>, committed: Result<(), PersistError>)
    returns (a: Action)
    requires 1 <= capacity && Runs(cfg, Start(capacity), acts, t)
    requires !t.system.worker.Stopped?
    requires t.job.Some? || t.system.queue.pending != [] || t.system.queue.closed
    ensures WorkerAction(a) && Can(cfg, t, a)
    ensures a.Did? && a.event.Write? ==> a.event.written == written
    ensures a.Did? && a.event.Commit? ==> a.event.committed == committed
  {
    RunFollows(cfg, Start(capacity), acts, t);
    if t.job.None? {
      ServiceRefinesProtocol(cfg, Start(capacity), acts, t);
      var step := WorkerCanMove(capacity, Steps(acts), t.system);
      return Protocol(step);
    }
    var job, blobs := t.job.value, t.system.worker.request.blobs;
    var st := RunIsTold(cfg, t.system.worker.request, Instant(job), job.trace);
    match job.phase
    case Writing(_, stored) => a := Did(Write(blobs[|stored|], written));
    case Committing(_, refs) => a := Did(Commit(refs, committed));
    case WriteRefused(attempt, err) =>
      a := if err.retryable && !t.system.queue.closed then Did(Sleep(RetryDelay(cfg, attempt))) else GiveUp;
    case CommitRefused(attempt, _, err) =>
      a := if err.retryable && !t.system.queue.closed then Did(Sleep(RetryDelay(cfg, attempt))) else GiveUp;
    case Ended(result) => a := Settle(result.Ok?);
  }
}
