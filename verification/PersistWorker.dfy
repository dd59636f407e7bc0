/**
 * The steps of the transition system, carried out on the shared queue: each
 * critical section of the code moves the queue as its step says.
 */
module PersistWorker {
  import opened Prelude
  import opened PersistQueue
  import opened PersistProtocol
  import opened PersistService
  import PersistJob
  import PersistSteps

  /** The service's queue is the one shared by producers and worker. */
  ghost predicate Mirrors(shared: SharedQueue, s: Service)
    reads shared
  {
    shared.Valid() && shared.View() == s.system.queue
  }

  method EnqueueStep(shared: SharedQueue, r: Request, ghost cfg: PersistJob.Config, ghost s: Service)
    returns (result: EnqueueResult, ghost t: Service)
    requires Mirrors(shared, s)
    modifies shared
    ensures t == Act(cfg, s, Protocol(Enqueue(r))) && Mirrors(shared, t)
    ensures result.accepted <==> t.system.accepted == s.system.accepted + [r]
  {
    result := shared.Enqueue(r);
    t := Act(cfg, s, Protocol(Enqueue(r)));
  }

  method CloseStep(shared: SharedQueue, ghost cfg: PersistJob.Config, ghost s: Service)
    returns (dropped: nat, ghost t: Service)
    requires Mirrors(shared, s)
    modifies shared
    ensures t == Act(cfg, s, Protocol(Close)) && Mirrors(shared, t)
    ensures dropped == if s.system.queue.closed then 0 else |s.system.queue.pending|
  {
    dropped := shared.Close();
    t := Act(cfg, s, Protocol(Close));
  }

  method AcquireStep(shared: SharedQueue, ghost cfg: PersistJob.Config, ghost s: Service) returns (ghost t: Service)
    requires Mirrors(shared, s) && Can(cfg, s, Protocol(Acquire))
    modifies shared
    ensures t == Act(cfg, s, Protocol(Acquire)) && Mirrors(shared, t)
  {
    shared.AcquireAndForget();
    t := Act(cfg, s, Protocol(Acquire));
  }

  method PopStep(shared: SharedQueue, ghost cfg: PersistJob.Config, ghost s: Service)
    returns (request: Option<Request>, ghost t: Service)
    requires Mirrors(shared, s) && Can(cfg, s, Protocol(Pop))
    modifies shared
    ensures t == Act(cfg, s, Protocol(Pop)) && Mirrors(shared, t)
    ensures t.system.worker == if request.Some? then Running(request.value) else FoundEmpty
  {
    request := shared.PopRequest();
    t := Act(cfg, s, Protocol(Pop));
  }

  /** The worker leaves its loop exactly when the system's worker stops. */
  method CheckClosedStep(shared: SharedQueue, ghost cfg: PersistJob.Config, ghost s: Service)
    returns (leave: bool, ghost t: Service)
    requires Mirrors(shared, s) && Can(cfg, s, Protocol(CheckClosed))
    ensures t == Act(cfg, s, Protocol(CheckClosed)) && Mirrors(shared, t)
    ensures t.system.worker == if leave then Stopped else Waiting
  {
    leave := shared.IsClosed();
    t := Act(cfg, s, Protocol(CheckClosed));
  }

  /** The job was refused with this error at this attempt. */
  ghost predicate Refused(p: PersistSteps.Phase, attempt: nat, err: PersistJob.PersistError) {
    || p == PersistSteps.WriteRefused(attempt, err)
    || (p.CommitRefused? && p.attempt == attempt && p.err == err)
  }

  /** After a failed attempt: sleep when the error allows it and the queue is open, give up otherwise. */
  method RetryStep(shared: SharedQueue, err: PersistJob.PersistError, attempt: nat, cfg: PersistJob.Config,
                   ghost s: Service)
    returns (delay: Option<nat>, ghost t: Service)
    requires Mirrors(shared, s) && s.job.Some? && s.system.worker.Running? && Refused(s.job.value.phase, attempt, err)
    ensures Mirrors(shared, t)
    ensures var a := if delay.Some? then Did(PersistJob.Sleep(delay.value)) else GiveUp;
      Can(cfg, s, a) && t == Act(cfg, s, a)
  {
    if err.retryable {
      var abort := shared.ShouldAbortRetry();
      if !abort {
        delay := Some(PersistJob.RetryDelay(cfg, attempt));
        t := Act(cfg, s, Did(PersistJob.Sleep(delay.value)));
        return;
      }
    }
    delay := None;
    t := Act(cfg, s, GiveUp);
  }

  /** The result of the job that ended is recorded as the outcome of the request the worker runs. */
  method FinishStep(shared: SharedQueue, result: Result<string, PersistJob.PersistError>,
                    ghost cfg: PersistJob.Config, ghost s: Service)
    returns (ghost t: Service)
    requires Mirrors(shared, s) && s.job.Some? && s.system.worker.Running?
    requires s.job.value.phase == PersistSteps.Ended(result)
    modifies shared
    ensures t == Act(cfg, s, Settle(result.Ok?)) && Mirrors(shared, t)
  {
    shared.RecordOutcome(result.Ok?);
    t := Act(cfg, s, Settle(result.Ok?));
  }

  /** What the worker returns once it has left: nothing waits, and every accepted request is accounted for. */
  method FinalStats(shared: SharedQueue, ghost cfg: PersistJob.Config, ghost capacity: nat,
                    ghost acts: seq<Action>, ghost s: Service)
    returns (stats: Snapshot)
    requires Mirrors(shared, s) && s.system.worker.Stopped?
    requires 1 <= capacity && Runs(cfg, Start(capacity), acts, s) && |s.system.accepted| <= U64_MAX
    ensures stats.queueLen == 0 && stats.queueCapacity == capacity
    ensures stats.totals.enqueued
         == stats.totals.evicted + stats.totals.persisted + stats.totals.failed + Count(IsDropped, s.system.exits)
    ensures stats.totals.persisted == Count(IsPersisted, s.log)
  {
    stats := shared.StatsSnapshot();
    StoppedStats(cfg, capacity, acts, s);
  }

  /** What is recorded as persisted is what the sink committed: the job's last event, and no other commit succeeds. */
  lemma RecordedAsCommitted(cfg: PersistJob.Config, request: Request, closedAt: nat, st: PersistJob.Story,
                            trace: seq<PersistJob.Event>, result: Result<string, PersistJob.PersistError>)
    requires PersistJob.JobDid(cfg, request, closedAt, st, trace, Some(result))
    ensures result.Ok? <==> exists i :: 0 <= i < |trace| && trace[i].Commit? && trace[i].committed.Ok?
    ensures result.Ok? ==> trace != [] && trace[|trace| - 1].Commit? && trace[|trace| - 1].committed.Ok?
  {
    forall i | 0 <= i < |trace| && trace[i].Commit?
      ensures trace[i].committed.Ok? <==> st.end.Persisted? && i == |trace| - 1
    {
      PersistJob.CommitPlace(cfg, request.blobs, st, i);
    }
    if result.Ok? {
      PersistJob.PersistedEndsInCommit(cfg, request.blobs, st);
    }
  }
}
