/**
 * Drop accounting of a receiver that sends into a bounded event queue and
 * reports overflow through warnings in the same queue.
 */
module Backpressure {
  import opened Prelude

  datatype Tracker = Tracker(dropTotal: nat, sinceReport: nat)

  /** A warning is built from the counters as they are when it is attempted. */
  datatype Message = Event(item: int) | Warning(seen: Tracker)

  datatype SendError = Full | Closed

  datatype Queue = Queue(capacity: nat, messages: seq<Message>, closed: bool)

  function Refusal(q: Queue): Option<SendError> {
    if q.closed then Some(Closed) else if |q.messages| >= q.capacity then Some(Full) else None
  }

  function Sent(q: Queue, m: Message): Queue {
    if Refusal(q).None? then q.(messages := q.messages + [m]) else q
  }

  function Waiting(q: Queue): Option<Message> {
    if q.messages == [] then None else Some(q.messages[0])
  }

  function Received(q: Queue): Queue {
    if q.messages == [] then q else q.(messages := q.messages[1..])
  }

  function Failed(t: Tracker, err: SendError): Tracker {
    if err == Full then Tracker(SaturatingInc(t.dropTotal), SaturatingInc(t.sinceReport)) else t
  }

  /** The observer calls of one send, in order. */
  datatype Callback = WarningSent | Dropped(seen: Tracker)

  datatype State = State(queue: Queue, tracker: Tracker)

  datatype Outcome = Outcome(state: State, refused: Option<SendError>, calls: seq<Callback>)

  /** The warning, attempted first and only while drops are unreported. */
  function Report(s: State): Outcome {
    var w := Warning(s.tracker);
    match Refusal(s.queue)
    case None => Outcome(State(Sent(s.queue, w), s.tracker.(sinceReport := 0)), None, [WarningSent])
    case Some(err) =>
      var t := Failed(s.tracker, err);
      Outcome(State(s.queue, t), Some(err), [Dropped(t)])
  }

  function Deliver(s: State, item: int): Outcome {
    match Refusal(s.queue)
    case None => Outcome(State(Sent(s.queue, Event(item)), s.tracker), None, [])
    case Some(err) =>
      var t := Failed(s.tracker, err);
      Outcome(State(s.queue, t), Some(err), [Dropped(t)])
  }

  // ---------- the operations in place ----------

  class BackpressureTracker {
    var eventQueueDropTotal: nat
    var droppedSinceLastReport: nat

    ghost function Counters(): Tracker
      reads this
    {
      Tracker(eventQueueDropTotal, droppedSinceLastReport)
    }

    constructor ()
      ensures Counters() == Tracker(0, 0)
    {
      eventQueueDropTotal, droppedSinceLastReport := 0, 0;
    }

    method HasPendingReport() returns (pending: bool)
      ensures pending <==> Counters().sinceReport > 0
    {
      return droppedSinceLastReport > 0;
    }

    method Snapshot() returns (t: Tracker)
      ensures t == Counters()
    {
      return Tracker(eventQueueDropTotal, droppedSinceLastReport);
    }

    method ClearPendingReport()
      modifies this
      ensures Counters() == old(Counters()).(sinceReport := 0)
    {
      droppedSinceLastReport := 0;
    }

    method RecordSendFailure(err: SendError)
      modifies this
      ensures Counters() == Failed(old(Counters()), err)
    {
      if err == Full {
        eventQueueDropTotal := SaturatingInc(eventQueueDropTotal);
        droppedSinceLastReport := SaturatingInc(droppedSinceLastReport);
      }
    }
  }

  class EventQueue {
    const capacity: nat
    var messages: seq<Message>
    var closed: bool

    ghost function Contents(): Queue
      reads this
    {
      Queue(capacity, messages, closed)
    }

    constructor (capacity: nat)
      ensures Contents() == Queue(capacity, [], false)
    {
      this.capacity, messages, closed := capacity, [], false;
    }

    method TrySend(m: Message) returns (refused: Option<SendError>)
      modifies this
      ensures refused == Refusal(old(Contents())) && Contents() == Sent(old(Contents()), m)
    {
      if closed {
        return Some(Closed);
      }
      if |messages| >= capacity {
        return Some(Full);
      }
      messages := messages + [m];
      return None;
    }

    method Recv() returns (m: Option<Message>)
      modifies this
      ensures m == Waiting(old(Contents())) && Contents() == Received(old(Contents()))
    {
      if messages == [] {
        return None;
      }
      m := Some(messages[0]);
      messages := messages[1..];
    }
  }

  method TrySendWithBackpressureWarning(queue: EventQueue, tracker: BackpressureTracker, item: int)
    returns (calls: seq<Callback>)
    modifies queue, tracker
    ensures var was := old(State(queue.Contents(), tracker.Counters()));
      var o := Offer(was, item);
      State(queue.Contents(), tracker.Counters()) == o.state && calls == o.calls
  {
    calls := [];
    var pending := tracker.HasPendingReport();
    if pending {
      var seen := tracker.Snapshot();
      var refused := queue.TrySend(Warning(seen));
      match refused {
        case None =>
          tracker.ClearPendingReport();
          calls := calls + [WarningSent];
        case Some(err) =>
          tracker.RecordSendFailure(err);
          var t := tracker.Snapshot();
          calls := calls + [Dropped(t)];
      }
    }
    var refused := queue.TrySend(Event(item));
    if refused.Some? {
      tracker.RecordSendFailure(refused.value);
      var t := tracker.Snapshot();
      calls := calls + [Dropped(t)];
    }
  }

  function Offer(s: State, item: int): Outcome {
    if s.tracker.sinceReport > 0 then (
      var first := Report(s);
      var second := Deliver(first.state, item);
      second.(calls := first.calls + second.calls)
    ) else Deliver(s, item)
  }

  // ---------- runs against any consumer ----------

  datatype Step = Offering(item: int) | Receiving | Closing

  /** A state with its history: what was tried, refused, accepted, received and observed. */
  datatype History = History(state: State, offered: seq<int>, warnings: nat, full: nat, lost: nat,
                             accepted: seq<Message>, received: seq<Message>, calls: seq<Callback>)

  function Refused(h: History, err: SendError): History {
    if err == Full then h.(full := h.full + 1) else h.(lost := h.lost + 1)
  }

  function Accounted(h: History, o: Outcome, m: Message): History {
    var h' := h.(state := o.state, calls := h.calls + o.calls);
    if o.refused.None? then h'.(accepted := h.accepted + [m]) else Refused(h', o.refused.value)
  }

  function Reported(h: History): History {
    if h.state.tracker.sinceReport > 0
    then Accounted(h, Report(h.state), Warning(h.state.tracker)).(warnings := h.warnings + 1)
    else h
  }

  function Offered(h: History, item: int): History {
    Accounted(h, Deliver(h.state, item), Event(item)).(offered := h.offered + [item])
  }

  function Next(h: History, step: Step): History {
    var q := h.state.queue;
    match step
    case Offering(item) => Offered(Reported(h), item)
    case Receiving =>
      if Waiting(q).None? then h
      else h.(state := h.state.(queue := Received(q)), received := h.received + [Waiting(q).value])
    case Closing => h.(state := h.state.(queue := q.(closed := true)))
  }

  function Run(capacity: nat, steps: seq<Step>): History {
    if steps == [] then Initial(capacity)
    else Next(Run(capacity, steps[..|steps| - 1]), steps[|steps| - 1])
  }

  /** The history follows the operation: its state and observer calls are those of an offer. */
  lemma HistoryFollowsOffer(h: History, item: int)
    ensures Next(h, Offering(item)).state == Offer(h.state, item).state
    ensures Next(h, Offering(item)).calls == h.calls + Offer(h.state, item).calls
  {
    if h.state.tracker.sinceReport > 0 {
      var first := Report(h.state);
      assert (h.calls + first.calls) + Deliver(first.state, item).calls
           == h.calls + (first.calls + Deliver(first.state, item).calls);
    }
  }

  // ---------- what a consumer can add up ----------

  /** The drops told by the warnings among some messages. */
  function ToldBy(ms: seq<Message>): nat {
    if ms == [] then 0
    else ToldBy(ms[..|ms| - 1]) + (if ms[|ms| - 1].Warning? then ms[|ms| - 1].seen.sinceReport else 0)
  }

  function WarningsIn(ms: seq<Message>): nat {
    if ms == [] then 0 else WarningsIn(ms[..|ms| - 1]) + (if ms[|ms| - 1].Warning? then 1 else 0)
  }

  function ItemsIn(ms: seq<Message>): seq<int> {
    if ms == [] then []
    else ItemsIn(ms[..|ms| - 1]) + (if ms[|ms| - 1].Event? then [ms[|ms| - 1].item] else [])
  }

  function DropCalls(calls: seq<Callback>): nat {
    if calls == [] then 0 else DropCalls(calls[..|calls| - 1]) + (if calls[|calls| - 1].Dropped? then 1 else 0)
  }

  predicate Subsequence(a: seq<int>, b: seq<int>) {
    || a == []
    || (b != [] && (|| Subsequence(a, b[..|b| - 1])
                    || (a[|a| - 1] == b[|b| - 1] && Subsequence(a[..|a| - 1], b[..|b| - 1]))))
  }

  lemma {:induction false} MessagePush(ms: seq<Message>, m: Message)
    ensures ToldBy(ms + [m]) == ToldBy(ms) + (if m.Warning? then m.seen.sinceReport else 0)
    ensures WarningsIn(ms + [m]) == WarningsIn(ms) + (if m.Warning? then 1 else 0)
    ensures ItemsIn(ms + [m]) == if m.Event? then ItemsIn(ms) + [m.item] else ItemsIn(ms)
  {
    assert (ms + [m])[..|ms|] == ms;
    assert ItemsIn(ms) + [] == ItemsIn(ms);
  }

  lemma {:induction false} CallPush(calls: seq<Callback>, c: Callback)
    ensures DropCalls(calls + [c]) == DropCalls(calls) + (if c.Dropped? then 1 else 0)
  {
    assert (calls + [c])[..|calls|] == calls;
  }

  lemma {:induction false} SubsequencePush(a: seq<int>, b: seq<int>, x: int)
    requires Subsequence(a, b)
    ensures Subsequence(a, b + [x]) && Subsequence(a + [x], b + [x])
  {
    assert (a + [x])[..|a|] == a && (b + [x])[..|b|] == b;
  }

  /** First in, first out: what was accepted was received or still waits, within the capacity. */
  predicate InOrder(h: History) {
    && h.accepted == h.received + h.state.queue.messages
    && |h.state.queue.messages| <= h.state.queue.capacity
    && Subsequence(ItemsIn(h.accepted), h.offered)
  }

  /** Every attempt is accepted, dropped because the queue was full, or lost because it was closed. */
  predicate Balanced(h: History) {
    && |h.offered| + h.warnings == |h.accepted| + h.full + h.lost
    && (h.lost > 0 ==> h.state.queue.closed)
    && DropCalls(h.calls) == h.full + h.lost
    && |h.calls| == DropCalls(h.calls) + WarningsIn(h.accepted)
  }

  /** The counters are the drops, told or not yet told, as far as the counter width goes. */
  predicate Counted(h: History) {
    var t := h.state.tracker;
    && t.dropTotal == Min(h.full, U64_MAX)
    && ToldBy(h.accepted) + t.sinceReport >= t.dropTotal
    && (h.full <= U64_MAX ==> ToldBy(h.accepted) + t.sinceReport == h.full)
    && t.sinceReport <= U64_MAX
  }

  predicate Sound(h: History) {
    InOrder(h) && Balanced(h) && Counted(h)
  }

  lemma WarningKeepsOrder(h: History)
    requires InOrder(h) && h.state.tracker.sinceReport > 0 && Refusal(h.state.queue).None?
    ensures InOrder(Reported(h))
  {
    var w := Warning(h.state.tracker);
    MessagePush(h.accepted, w);
    assert h.received + (h.state.queue.messages + [w]) == (h.received + h.state.queue.messages) + [w];
  }

  lemma WarningKeepsBalance(h: History)
    requires Balanced(h) && h.state.tracker.sinceReport > 0 && Refusal(h.state.queue).None?
    ensures Balanced(Reported(h))
  {
    MessagePush(h.accepted, Warning(h.state.tracker));
    CallPush(h.calls, WarningSent);
  }

  lemma WarningKeepsCount(h: History)
    requires Counted(h) && h.state.tracker.sinceReport > 0 && Refusal(h.state.queue).None?
    ensures Counted(Reported(h))
  {
    MessagePush(h.accepted, Warning(h.state.tracker));
  }

  lemma WarningAccepted(h: History)
    requires Sound(h) && h.state.tracker.sinceReport > 0 && Refusal(h.state.queue).None?
    ensures Sound(Reported(h))
  {
    WarningKeepsOrder(h);
    WarningKeepsBalance(h);
    WarningKeepsCount(h);
  }

  /** What any refused attempt does to the history. */
  function RefusedBy(h: History, err: SendError): History {
    var t := Failed(h.state.tracker, err);
    Refused(h.(state := h.state.(tracker := t), calls := h.calls + [Dropped(t)]), err)
  }

  lemma RefusalKeepsCount(h: History, err: SendError)
    requires Counted(h)
    ensures Counted(RefusedBy(h, err))
  {
  }

  lemma RefusalKeepsOrder(h: History, err: SendError, item: int)
    requires InOrder(h)
    ensures InOrder(RefusedBy(h, err)) && InOrder(RefusedBy(h, err).(offered := h.offered + [item]))
  {
    SubsequencePush(ItemsIn(h.accepted), h.offered, item);
  }

  lemma RefusalKeepsBalance(h: History, err: SendError, item: int)
    requires Balanced(h) && Refusal(h.state.queue) == Some(err)
    ensures var r := RefusedBy(h, err);
      Balanced(r.(warnings := h.warnings + 1)) && Balanced(r.(offered := h.offered + [item]))
  {
    CallPush(h.calls, Dropped(Failed(h.state.tracker, err)));
  }

  lemma ReportedKeeps(h: History)
    requires Sound(h)
    ensures Sound(Reported(h))
  {
    if h.state.tracker.sinceReport > 0 {
      match Refusal(h.state.queue)
      case None => WarningAccepted(h);
      case Some(err) =>
        RefusalKeepsCount(h, err);
        RefusalKeepsOrder(h, err, 0);
        RefusalKeepsBalance(h, err, 0);
        assert Reported(h) == RefusedBy(h, err).(warnings := h.warnings + 1);
    }
  }

  lemma EventAccepted(h: History, item: int)
    requires Sound(h) && Refusal(h.state.queue).None?
    ensures Sound(Offered(h, item))
  {
    var h' := Offered(h, item);
    MessagePush(h.accepted, Event(item));
    assert h.calls + [] == h.calls;
    assert InOrder(h') by {
      SubsequencePush(ItemsIn(h.accepted), h.offered, item);
      assert h.received + (h.state.queue.messages + [Event(item)])
           == (h.received + h.state.queue.messages) + [Event(item)];
    }
  }

  lemma OfferedKeeps(h: History, item: int)
    requires Sound(h)
    ensures Sound(Offered(h, item))
  {
    match Refusal(h.state.queue)
    case None => EventAccepted(h, item);
    case Some(err) =>
      RefusalKeepsCount(h, err);
      RefusalKeepsOrder(h, err, item);
      RefusalKeepsBalance(h, err, item);
      assert Offered(h, item) == RefusedBy(h, err).(offered := h.offered + [item]);
  }

  lemma ReceivingKeeps(h: History)
    requires Sound(h)
    ensures Sound(Next(h, Receiving))
  {
    var q := h.state.queue.messages;
    if q != [] {
      assert (h.received + [q[0]]) + q[1..] == h.received + q;
    }
  }

  lemma ClosingKeeps(h: History)
    requires Sound(h)
    ensures Sound(Next(h, Closing))
  {
  }

  lemma NextKeeps(h: History, step: Step)
    requires Sound(h)
    ensures Sound(Next(h, step))
  {
    match step
    case Offering(item) =>
      ReportedKeeps(h);
      OfferedKeeps(Reported(h), item);
    case Receiving => ReceivingKeeps(h);
    case Closing => ClosingKeeps(h);
  }

  lemma CapacityKept(h: History, step: Step)
    ensures Next(h, step).state.queue.capacity == h.state.queue.capacity
  {
  }

  function Initial(capacity: nat): History {
    History(State(Queue(capacity, [], false), Tracker(0, 0)), [], 0, 0, 0, [], [], [])
  }

  lemma InitialIsSound(capacity: nat)
    ensures Sound(Initial(capacity))
  {
  }

  /** In every run, with any consumer, drops are told exactly once and nothing goes unaccounted. */
  lemma {:induction false} RunIsSound(capacity: nat, steps: seq<Step>)
    ensures Sound(Run(capacity, steps)) && Run(capacity, steps).state.queue.capacity == capacity
  {
    if steps == [] {
      InitialIsSound(capacity);
    } else {
      var h := Run(capacity, steps[..|steps| - 1]);
      RunIsSound(capacity, steps[..|steps| - 1]);
      NextKeeps(h, steps[|steps| - 1]);
      CapacityKept(h, steps[|steps| - 1]);
    }
  }

  /** While the queue is open and no counter is full, attempts are deliveries plus counted drops. */
  lemma {:induction false} OpenRunBalances(capacity: nat, steps: seq<Step>)
    requires var h := Run(capacity, steps); !h.state.queue.closed && h.full <= U64_MAX
    ensures var h := Run(capacity, steps);
      && |h.offered| + h.warnings == |h.accepted| + h.state.tracker.dropTotal
      && ToldBy(h.accepted) + h.state.tracker.sinceReport == h.state.tracker.dropTotal
  {
    RunIsSound(capacity, steps);
  }
}
