/**
 * The bounded, evicting persistence queue: the operations producers and the
 * worker perform under the queue's mutex.
 */
module PersistQueue {
  import opened Prelude

  datatype Blob = Blob(path: string, bytes: string)

  datatype Request = Request(key: string, metadata: string, blobs: seq<Blob>)

  datatype Stats = Stats(enqueued: nat, evicted: nat, persisted: nat, failed: nat)

  datatype Queue = Queue(capacity: nat, pending: seq<Request>, closed: bool, stats: Stats, permits: nat)

  datatype EnqueueResult = EnqueueResult(accepted: bool, evictedOldestKey: Option<string>, queueLen: nat)

  datatype Snapshot = Snapshot(queueLen: nat, queueCapacity: nat, totals: Stats)

  function EmptyQueue(capacity: nat): Queue {
    Queue(capacity, [], false, Stats(0, 0, 0, 0), 0)
  }

  predicate Full(q: Queue) {
    |q.pending| == q.capacity
  }

  /** The queue after an accepted request: at most the oldest waiting request makes room. */
  function Admit(q: Queue, r: Request): Queue
    requires 1 <= q.capacity
  {
    if Full(q) then
      q.(pending := q.pending[1..] + [r],
         stats := q.stats.(enqueued := SaturatingInc(q.stats.enqueued), evicted := SaturatingInc(q.stats.evicted)))
    else
      q.(pending := q.pending + [r], permits := q.permits + 1,
         stats := q.stats.(enqueued := SaturatingInc(q.stats.enqueued)))
  }

  function CloseQueue(q: Queue): Queue {
    if q.closed then q else q.(closed := true, pending := [], permits := q.permits + 1)
  }

  /** The queue after the worker's wait: the permit is forgotten, never returned. */
  function TakePermit(q: Queue): Queue
    requires q.permits > 0
  {
    q.(permits := q.permits - 1)
  }

  function Oldest(q: Queue): Option<Request> {
    if q.pending == [] then None else Some(q.pending[0])
  }

  function PopOldest(q: Queue): Queue {
    if q.pending == [] then q else q.(pending := q.pending[1..])
  }

  /** The worker may leave: nothing waits and nothing will be accepted. */
  predicate Drained(q: Queue) {
    q.closed && q.pending == []
  }

  function SnapshotOf(q: Queue): Snapshot {
    Snapshot(|q.pending|, q.capacity, q.stats)
  }

  function Record(stats: Stats, ok: bool): Stats {
    if ok then stats.(persisted := SaturatingInc(stats.persisted)) else stats.(failed := SaturatingInc(stats.failed))
  }

  /** The mutex-protected state together with the counting semaphore. */
  class SharedQueue {
    const capacity: nat
    var pending: seq<Request>
    var closed: bool
    var stats: Stats
    var permits: nat

    ghost predicate Valid()
      reads this
    {
      1 <= capacity && |pending| <= capacity
    }

    ghost function View(): Queue
      reads this
    {
      Queue(capacity, pending, closed, stats, permits)
    }

    constructor (configured: nat)
      ensures Valid()
      ensures View() == EmptyQueue(if configured == 0 then 1 else configured)
    {
      capacity := if configured == 0 then 1 else configured;
      pending, closed, stats, permits := [], false, Stats(0, 0, 0, 0), 0;
    }

    method Enqueue(r: Request) returns (result: EnqueueResult)
      requires Valid()
      modifies this
      ensures Valid()
      ensures View() == if old(closed) then old(View()) else Admit(old(View()), r)
      ensures result.accepted == !old(closed) && result.queueLen == |pending|
      ensures result.evictedOldestKey
           == if !old(closed) && |old(pending)| == capacity then Some(old(pending)[0].key) else None
    {
      if closed {
        return EnqueueResult(false, None, |pending|);
      }
      var evicted: Option<string> := None;
      if |pending| == capacity {
        stats := stats.(evicted := SaturatingInc(stats.evicted));
        evicted := Some(pending[0].key);
        pending := pending[1..];
      } else {
        stats := stats.(enqueued := SaturatingInc(stats.enqueued));
        permits := permits + 1;
      }
      pending := pending + [r];
      if evicted.Some? {
        stats := stats.(enqueued := SaturatingInc(stats.enqueued));
      }
      return EnqueueResult(true, evicted, |pending|);
    }

    method Close() returns (dropped: nat)
      requires Valid()
      modifies this
      ensures Valid()
      ensures View() == CloseQueue(old(View()))
      ensures dropped == if old(closed) then 0 else |old(pending)|
    {
      if closed {
        return 0;
      }
      closed := true;
      dropped := |pending|;
      pending := [];
      permits := permits + 1;
    }

    /** The worker's wait on the semaphore. */
    method AcquireAndForget()
      requires Valid() && permits > 0
      modifies this`permits
      ensures Valid()
      ensures View() == TakePermit(old(View()))
    {
      permits := permits - 1;
    }

    method PopRequest() returns (r: Option<Request>)
      requires Valid()
      modifies this`pending
      ensures Valid()
      ensures r == Oldest(old(View())) && View() == PopOldest(old(View()))
    {
      if pending == [] {
        return None;
      }
      r := Some(pending[0]);
      pending := pending[1..];
    }

    method IsClosed() returns (b: bool)
      ensures b == Drained(View())
    {
      b := closed && pending == [];
    }

    /** The check between a failed attempt and its retry. */
    method ShouldAbortRetry() returns (b: bool)
      ensures b == View().closed
    {
      b := closed;
    }

    method RecordOutcome(ok: bool)
      requires Valid()
      modifies this`stats
      ensures Valid()
      ensures View() == old(View()).(stats := Record(old(stats), ok))
    {
      if ok {
        stats := stats.(persisted := SaturatingInc(stats.persisted));
      } else {
        stats := stats.(failed := SaturatingInc(stats.failed));
      }
    }

    method StatsSnapshot() returns (s: Snapshot)
      ensures s == SnapshotOf(View())
    {
      s := Snapshot(|pending|, capacity, stats);
    }
  }
}
