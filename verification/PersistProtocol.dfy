/**
 * Producers, `close` and the single worker as a transition system whose steps
 * are the critical sections of the queue, in any interleaving.
 */
module PersistProtocol {
  import opened Prelude
  import opened PersistQueue

  /**
   * Where the worker stands: waiting on the semaphore, holding a permit before
   * its pop, having popped nothing, running a job, or gone.
   */
  datatype Worker = Waiting | Holding | FoundEmpty | Running(request: Request) | Stopped

  /** How a request left the queue. */
  datatype Exit = Evicted(request: Request) | Taken(request: Request) | Dropped(request: Request)

  datatype Outcome = Outcome(request: Request, ok: bool)

  /** The shared queue, the worker, and the history: acceptance log, exits and finished jobs in order. */
  datatype System = System(queue: Queue, worker: Worker,
                           accepted: seq<Request>, exits: seq<Exit>, finished: seq<Outcome>)

  datatype Step = Enqueue(request: Request) | Close | Acquire | Pop | CheckClosed | Finish(ok: bool)

  function Initial(capacity: nat): System {
    System(EmptyQueue(capacity), Waiting, [], [], [])
  }

  predicate WorkerStep(step: Step) {
    !step.Enqueue? && !step.Close?
  }

  predicate Enabled(s: System, step: Step) {
    match step
    case Enqueue(_) => true
    case Close => true
    case Acquire => s.worker.Waiting? && s.queue.permits > 0
    case Pop => s.worker.Holding?
    case CheckClosed => s.worker.FoundEmpty?
    case Finish(_) => s.worker.Running?
  }

  function Next(s: System, step: Step): System
    requires 1 <= s.queue.capacity && Enabled(s, step)
  {
    var q := s.queue;
    match step
    case Enqueue(r) =>
      if q.closed then s
      else s.(queue := Admit(q, r), accepted := s.accepted + [r],
              exits := if Full(q) then s.exits + [Evicted(q.pending[0])] else s.exits)
    case Close =>
      s.(queue := CloseQueue(q), exits := s.exits + DropAll(q.pending))
    case Acquire =>
      s.(queue := TakePermit(q), worker := Holding)
    case Pop =>
      if Oldest(q).None? then s.(worker := FoundEmpty)
      else s.(queue := PopOldest(q), worker := Running(Oldest(q).value), exits := s.exits + [Taken(Oldest(q).value)])
    case CheckClosed =>
      s.(worker := if Drained(q) then Stopped else Waiting)
    case Finish(ok) =>
      s.(queue := q.(stats := Record(q.stats, ok)), worker := Waiting,
         finished := s.finished + [Outcome(s.worker.request, ok)])
  }

  ghost predicate Run(s: System, steps: seq<Step>, t: System)
    requires 1 <= s.queue.capacity
    decreases |steps|
  {
    if steps == [] then s == t
    else Enabled(s, steps[0]) && Run(Next(s, steps[0]), steps[1..], t)
  }

  // ---------- reading the history ----------

  function DropAll(rs: seq<Request>): seq<Exit> {
    seq(|rs|, i requires 0 <= i < |rs| => Dropped(rs[i]))
  }

  function Requests(exits: seq<Exit>): seq<Request> {
    seq(|exits|, i requires 0 <= i < |exits| => exits[i].request)
  }

  function Jobs(exits: seq<Exit>): seq<Request> {
    if exits == [] then []
    else (
      var last := exits[|exits| - 1];
      Jobs(exits[..|exits| - 1]) + (if last.Taken? then [last.request] else [])
    )
  }

  function Count<T>(p: T -> bool, s: seq<T>): nat {
    if s == [] then 0 else Count(p, s[..|s| - 1]) + (if p(s[|s| - 1]) then 1 else 0)
  }

  predicate IsEvicted(e: Exit) { e.Evicted? }
  predicate IsTaken(e: Exit) { e.Taken? }
  predicate IsDropped(e: Exit) { e.Dropped? }
  predicate IsOk(o: Outcome) { o.ok }
  predicate IsFailed(o: Outcome) { !o.ok }

  function Results(finished: seq<Outcome>): seq<Request> {
    seq(|finished|, i requires 0 <= i < |finished| => finished[i].request)
  }

  function InFlight(w: Worker): seq<Request> {
    if w.Running? then [w.request] else []
  }

  // ---------- the invariant ----------

  /** First in, first out: what was accepted is what left, in order, followed by what still waits. */
  ghost predicate Ordered(s: System) {
    s.accepted == Requests(s.exits) + s.queue.pending
  }

  /** The jobs the worker took are, in order, those it finished and the one it runs. */
  ghost predicate JobsServed(s: System) {
    Jobs(s.exits) == Results(s.finished) + InFlight(s.worker)
  }

  /** The counters are the lengths of the history, held at the largest 64-bit value. */
  ghost predicate Totals(s: System) {
    s.queue.stats == Stats(Min(|s.accepted|, U64_MAX), Min(Count(IsEvicted, s.exits), U64_MAX),
                           Min(Count(IsOk, s.finished), U64_MAX), Min(Count(IsFailed, s.finished), U64_MAX))
  }

  /** The permit discipline before and after `close`. */
  ghost predicate Permits(s: System) {
    && 1 <= s.queue.capacity && |s.queue.pending| <= s.queue.capacity
    && (!s.queue.closed ==>
          && s.queue.permits + (if s.worker.Holding? then 1 else 0) == |s.queue.pending|
          && !s.worker.FoundEmpty? && !s.worker.Stopped?)
    && (s.queue.closed ==>
          && s.queue.pending == []
          && (!s.worker.Stopped? ==>
            s.queue.permits + (if s.worker.Holding? || s.worker.FoundEmpty? then 1 else 0) >= 1))
  }

  /** Requests are dropped only at `close`, after which nothing else leaves the queue. */
  ghost predicate DropsLast(s: System) {
    && (!s.queue.closed ==> forall i :: 0 <= i < |s.exits| ==> !s.exits[i].Dropped?)
    && forall i, j :: 0 <= i < j < |s.exits| && s.exits[i].Dropped? ==> s.exits[j].Dropped?
  }

  ghost predicate Invariant(s: System) {
    Permits(s) && Ordered(s) && JobsServed(s) && Totals(s) && DropsLast(s)
  }

  lemma PermitsKept(s: System, step: Step)
    requires Permits(s) && Enabled(s, step)
    ensures Permits(Next(s, step))
  {
  }

  lemma DropsLastKept(s: System, step: Step)
    requires Permits(s) && DropsLast(s) && Enabled(s, step)
    ensures DropsLast(Next(s, step))
  {
  }

  lemma {:induction false} CountPush<T>(p: T -> bool, s: seq<T>, x: T)
    ensures Count(p, s + [x]) == Count(p, s) + if p(x) then 1 else 0
  {
    assert (s + [x])[..|s|] == s;
  }

  lemma {:induction false} CountNone<T>(p: T -> bool, s: seq<T>, t: seq<T>)
    requires forall i :: 0 <= i < |t| ==> !p(t[i])
    ensures Count(p, s + t) == Count(p, s)
  {
    if t == [] {
      assert s + t == s;
    } else {
      CountNone(p, s, t[..|t| - 1]);
      assert s + t == (s + t[..|t| - 1]) + [t[|t| - 1]];
      CountPush(p, s + t[..|t| - 1], t[|t| - 1]);
    }
  }

  lemma {:induction false} JobsPush(exits: seq<Exit>, e: Exit)
    ensures Jobs(exits + [e]) == Jobs(exits) + if e.Taken? then [e.request] else []
  {
    assert (exits + [e])[..|exits|] == exits;
  }

  lemma {:induction false} JobsDrop(exits: seq<Exit>, rs: seq<Request>)
    ensures Jobs(exits + DropAll(rs)) == Jobs(exits)
  {
    if rs == [] {
      assert exits + DropAll(rs) == exits;
    } else {
      var n := |rs| - 1;
      JobsDrop(exits, rs[..n]);
      assert exits + DropAll(rs) == (exits + DropAll(rs[..n])) + [Dropped(rs[n])];
      JobsPush(exits + DropAll(rs[..n]), Dropped(rs[n]));
    }
  }

  lemma RequestsPush(exits: seq<Exit>, e: Exit)
    ensures Requests(exits + [e]) == Requests(exits) + [e.request]
  {
  }

  lemma OrderedKept(s: System, step: Step)
    requires Permits(s) && Ordered(s) && Enabled(s, step)
    ensures Ordered(Next(s, step))
  {
    var p := s.queue.pending;
    match step
    case Enqueue(r) =>
      if !s.queue.closed && Full(s.queue) {
        RequestsPush(s.exits, Evicted(p[0]));
        assert p == [p[0]] + p[1..];
      }
    case Close => assert Requests(s.exits + DropAll(p)) == Requests(s.exits) + p;
    case Acquire =>
    case Pop =>
      if p != [] {
        RequestsPush(s.exits, Taken(p[0]));
        assert p == [p[0]] + p[1..];
      }
    case CheckClosed =>
    case Finish(ok) =>
  }

  lemma JobsServedKept(s: System, step: Step)
    requires Permits(s) && JobsServed(s) && Enabled(s, step)
    ensures JobsServed(Next(s, step))
  {
    var p := s.queue.pending;
    match step
    case Enqueue(r) =>
      if !s.queue.closed && Full(s.queue) {
        JobsPush(s.exits, Evicted(p[0]));
      }
    case Close => JobsDrop(s.exits, p);
    case Acquire =>
    case Pop =>
      if p != [] {
        JobsPush(s.exits, Taken(p[0]));
      }
    case CheckClosed =>
    case Finish(ok) =>
      assert Results(s.finished + [Outcome(s.worker.request, ok)]) == Results(s.finished) + [s.worker.request];
  }

  lemma EnqueueTotals(s: System, r: Request)
    requires Permits(s) && Totals(s)
    ensures Totals(Next(s, Enqueue(r)))
  {
    if !s.queue.closed && Full(s.queue) {
      CountPush(IsEvicted, s.exits, Evicted(s.queue.pending[0]));
    }
  }

  lemma CloseTotals(s: System)
    requires Permits(s) && Totals(s)
    ensures Totals(Next(s, Close))
  {
    CountNone(IsEvicted, s.exits, DropAll(s.queue.pending));
  }

  lemma PopTotals(s: System)
    requires Permits(s) && Totals(s) && Enabled(s, Pop)
    ensures Totals(Next(s, Pop))
  {
    if s.queue.pending != [] {
      CountPush(IsEvicted, s.exits, Taken(s.queue.pending[0]));
    }
  }

  lemma FinishTotals(s: System, ok: bool)
    requires Permits(s) && Totals(s) && Enabled(s, Finish(ok))
    ensures Totals(Next(s, Finish(ok)))
  {
    var o := Outcome(s.worker.request, ok);
    CountPush(IsOk, s.finished, o);
    CountPush(IsFailed, s.finished, o);
  }

  /** Every state of every interleaving satisfies the invariant. */
  lemma {:induction false} RunKeeps(s: System, steps: seq<Step>, t: System)
    requires Invariant(s) && Run(s, steps, t)
    ensures Invariant(t)
    decreases |steps|
  {
    if steps != [] {
      PermitsKept(s, steps[0]);
      OrderedKept(s, steps[0]);
      JobsServedKept(s, steps[0]);
      match steps[0] {
        case Enqueue(r) => EnqueueTotals(s, r);
        case Close => CloseTotals(s);
        case Pop => PopTotals(s);
        case Finish(ok) => FinishTotals(s, ok);
        case Acquire =>
        case CheckClosed =>
      }
      DropsLastKept(s, steps[0]);
      RunKeeps(Next(s, steps[0]), steps[1..], t);
    }
  }

  lemma {:induction false} ReachableInvariant(capacity: nat, steps: seq<Step>, t: System)
    requires 1 <= capacity && Run(Initial(capacity), steps, t)
    ensures Invariant(t)
  {
    RunKeeps(Initial(capacity), steps, t);
  }

  // ---------- what the invariant buys ----------

  lemma {:induction false} CountKinds(exits: seq<Exit>)
    ensures |exits| == Count(IsEvicted, exits) + Count(IsTaken, exits) + Count(IsDropped, exits)
    ensures |Jobs(exits)| == Count(IsTaken, exits)
  {
    if exits != [] {
      CountKinds(exits[..|exits| - 1]);
    }
  }

  lemma {:induction false} CountOutcomes(finished: seq<Outcome>)
    ensures |finished| == Count(IsOk, finished) + Count(IsFailed, finished)
  {
    if finished != [] {
      CountOutcomes(finished[..|finished| - 1]);
    }
  }

  /** Conservation: every accepted request has exactly one fate, and the counters say so. */
  lemma {:induction false} Conservation(capacity: nat, steps: seq<Step>, t: System)
    requires 1 <= capacity && Run(Initial(capacity), steps, t)
    requires |t.accepted| <= U64_MAX
    ensures var st := t.queue.stats;
      st.enqueued == st.evicted + st.persisted + st.failed + |t.queue.pending| + |InFlight(t.worker)|
                     + Count(IsDropped, t.exits)
  {
    ReachableInvariant(capacity, steps, t);
    CountKinds(t.exits);
    CountOutcomes(t.finished);
  }

  /** What any observer of an open queue reads adds up: only the job in flight is in no counter. */
  lemma {:induction false} OpenSnapshotAddsUp(capacity: nat, steps: seq<Step>, t: System)
    requires 1 <= capacity && Run(Initial(capacity), steps, t)
    requires !t.queue.closed && |t.accepted| <= U64_MAX
    ensures var s := SnapshotOf(t.queue);
      && s.queueLen <= s.queueCapacity
      && s.totals.enqueued == s.totals.evicted + s.totals.persisted + s.totals.failed + s.queueLen
                              + (if t.worker.Running? then 1 else 0)
  {
    Conservation(capacity, steps, t);
    ReachableInvariant(capacity, steps, t);
    CountNone(IsDropped, [], t.exits);
    assert [] + t.exits == t.exits;
  }

  /** While the queue is open, what waits is a contiguous suffix of the acceptance log within the capacity. */
  lemma {:induction false} PendingIsSuffix(capacity: nat, steps: seq<Step>, t: System)
    requires 1 <= capacity && Run(Initial(capacity), steps, t)
    ensures |t.exits| <= |t.accepted| && t.queue.pending == t.accepted[|t.exits|..]
    ensures |t.queue.pending| <= t.queue.capacity
    ensures forall i :: 0 <= i < |t.exits| ==> t.exits[i].request == t.accepted[i]
  {
    ReachableInvariant(capacity, steps, t);
  }

  /** The jobs among the exits, in order, are taken at these positions. */
  ghost predicate AtPositions(exits: seq<Exit>, jobs: seq<Request>, at: seq<nat>) {
    && |at| == |jobs|
    && (forall i :: 0 <= i < |at| ==> at[i] < |exits| && exits[at[i]] == Taken(jobs[i]))
    && (forall i, j :: 0 <= i < j < |at| ==> at[i] < at[j])
  }

  lemma PositionsPush(exits: seq<Exit>, jobs: seq<Request>, at: seq<nat>, e: Exit)
    requires AtPositions(exits, jobs, at)
    ensures AtPositions(exits + [e], jobs, at)
    ensures e.Taken? ==> AtPositions(exits + [e], jobs + [e.request], at + [|exits|])
  {
  }

  lemma {:induction false} JobPositions(exits: seq<Exit>) returns (at: seq<nat>)
    ensures AtPositions(exits, Jobs(exits), at)
  {
    at := [];
    if exits != [] {
      var n := |exits| - 1;
      at := JobPositions(exits[..n]);
      PositionsPush(exits[..n], Jobs(exits[..n]), at, exits[n]);
      assert exits == exits[..n] + [exits[n]];
      if exits[n].Taken? {
        at := at + [n];
      } else {
        assert Jobs(exits[..n]) + [] == Jobs(exits[..n]);
      }
    }
  }

  /** Jobs run in acceptance order: the k-th job is the request accepted at the k-th of increasing positions. */
  lemma JobsInAcceptanceOrder(capacity: nat, steps: seq<Step>, t: System) returns (at: seq<nat>)
    requires 1 <= capacity && Run(Initial(capacity), steps, t)
    ensures |at| == |t.finished| + |InFlight(t.worker)|
    ensures forall i, j :: 0 <= i < j < |at| ==> at[i] < at[j]
    ensures forall i :: 0 <= i < |t.finished| ==> at[i] < |t.accepted| && t.finished[i].request == t.accepted[at[i]]
    ensures t.worker.Running? ==> at[|t.finished|] < |t.accepted| && t.worker.request == t.accepted[at[|t.finished|]]
  {
    ReachableInvariant(capacity, steps, t);
    at := JobPositions(t.exits);
    forall i | 0 <= i < |at| ensures at[i] < |t.accepted| && t.accepted[at[i]] == Jobs(t.exits)[i] {
      assert t.accepted[at[i]] == Requests(t.exits)[at[i]];
    }
  }

  /** While the queue is open the worker never pops nothing, so its `continue` branch is dead code. */
  lemma {:induction false} OpenPopFindsRequest(capacity: nat, steps: seq<Step>, t: System)
    requires 1 <= capacity && Run(Initial(capacity), steps, t)
    ensures Permits(t)
    ensures !t.queue.closed && t.worker.Holding? ==> t.queue.pending != []
    ensures t.worker.FoundEmpty? ==> Next(t, CheckClosed).worker.Stopped?
  {
    ReachableInvariant(capacity, steps, t);
  }

  /** A worker that popped nothing leaves for a queue that is closed and empty only, whatever state it is in. */
  lemma LeavesOnlyClosed(s: System)
    requires 1 <= s.queue.capacity && s.worker.FoundEmpty?
    ensures Next(s, CheckClosed).worker == if s.queue.closed && s.queue.pending == [] then Stopped else Waiting
  {
  }

  /** No lost wakeup: as long as work waits or the queue is closed, a worker that is not gone can move. */
  lemma WorkerCanMove(capacity: nat, steps: seq<Step>, t: System) returns (step: Step)
    requires 1 <= capacity && Run(Initial(capacity), steps, t)
    requires !t.worker.Stopped? && (t.queue.pending != [] || t.queue.closed)
    ensures WorkerStep(step) && Enabled(t, step)
  {
    ReachableInvariant(capacity, steps, t);
    match t.worker
    case Waiting => step := Acquire;
    case Holding => step := Pop;
    case FoundEmpty => step := CheckClosed;
    case Running(_) => step := Finish(true);
  }

  /** How many steps separate the worker from its exit once the queue is closed. */
  function StepsToExit(w: Worker): nat {
    match w
    case Running(_) => 4
    case Waiting => 3
    case Holding => 2
    case FoundEmpty => 1
    case Stopped => 0
  }

  function WorkerSteps(steps: seq<Step>): nat {
    if steps == [] then 0 else (if WorkerStep(steps[0]) then 1 else 0) + WorkerSteps(steps[1..])
  }

  /**
   * After `close`, each worker step brings its exit one closer whatever the
   * producers do, so it takes at most four and, by `WorkerCanMove`, is never stuck.
   */
  lemma {:induction false} ClosedRunDrains(s: System, steps: seq<Step>, t: System)
    requires Invariant(s) && s.queue.closed && Run(s, steps, t)
    ensures t.queue.closed && StepsToExit(t.worker) + WorkerSteps(steps) == StepsToExit(s.worker)
    ensures t.accepted == s.accepted && t.exits == s.exits && |t.finished| <= |s.finished| + |InFlight(s.worker)|
    decreases |steps|
  {
    if steps != [] {
      RunKeeps(s, steps[..1], Next(s, steps[0]));
      ClosedRunDrains(Next(s, steps[0]), steps[1..], t);
    }
  }
}
