/**
 * One persistence job: write every blob, then commit the metadata, retrying
 * each phase with backoff until it succeeds, fails for good or the queue closes.
 */
module PersistJob {
  import opened Prelude
  import opened PersistQueue

  const U32_MAX: nat := 0xFFFF_FFFF

  /** The largest representable duration, in nanoseconds. */
  const DURATION_MAX: nat := 0xFFFF_FFFF_FFFF_FFFF * 1_000_000_000 + 999_999_999

  datatype PersistError = PersistError(retryable: bool, text: string)

  datatype StoredBlob = StoredBlob(location: string, size: nat)

  /** Retry delays in nanoseconds. */
  datatype Config = Config(initialDelay: nat, maxDelay: nat)

  /** What a job does to the outside world, with the answer it got. */
  datatype Event =
    | Write(blob: Blob, written: Result<StoredBlob, PersistError>)
    | Commit(refs: seq<StoredBlob>, committed: Result<(), PersistError>)
    | Sleep(delay: nat)

  // ---------- backoff ----------

  function Pow2(n: nat): nat {
    if n == 0 then 1 else 2 * Pow2(n - 1)
  }

  function RetryDelay(cfg: Config, attempt: nat): nat {
    var multiplier := Pow2(Min(attempt, 6));
    Min(Min(cfg.initialDelay * multiplier, DURATION_MAX), cfg.maxDelay)
  }

  lemma {:induction false} Pow2Monotone(a: nat, b: nat)
    requires a <= b
    ensures Pow2(a) <= Pow2(b)
    decreases b - a
  {
    if a < b {
      Pow2Monotone(a + 1, b);
    }
  }

  lemma ScaleMonotone(initial: nat, x: nat, y: nat)
    requires x <= y
    ensures initial * x <= initial * y
  {
  }

  /** The delay never shrinks, stops growing after six attempts, and respects the cap. */
  lemma BackoffGrows(cfg: Config, a: nat, b: nat)
    requires a <= b
    ensures RetryDelay(cfg, a) <= RetryDelay(cfg, b) <= cfg.maxDelay
    ensures 6 <= a ==> RetryDelay(cfg, a) == RetryDelay(cfg, b)
  {
    Pow2Monotone(Min(a, 6), Min(b, 6));
    ScaleMonotone(cfg.initialDelay, Pow2(Min(a, 6)), Pow2(Min(b, 6)));
  }

  /** Below the cap each of the first six failures doubles the delay; saturation of durations never shows. */
  lemma BackoffDoubles(cfg: Config, a: nat)
    requires cfg.maxDelay <= DURATION_MAX
    ensures RetryDelay(cfg, 0) == Min(cfg.initialDelay, cfg.maxDelay)
    ensures RetryDelay(cfg, a + 1) == if a < 6 then Min(2 * RetryDelay(cfg, a), cfg.maxDelay) else RetryDelay(cfg, a)
  {
    if a < 6 {
      var x := Pow2(a);
      assert cfg.initialDelay * (2 * x) == 2 * (cfg.initialDelay * x);
    }
  }

  // ---------- the language of job traces ----------

  /** Writes of the first |refs| blobs, all stored. */
  function StoredPass(blobs: seq<Blob>, refs: seq<StoredBlob>): seq<Event>
    requires |refs| <= |blobs|
  {
    seq(|refs|, i requires 0 <= i < |refs| => Write(blobs[i], Ok(refs[i])))
  }

  /** A pass that stored the first |refs| blobs and failed on the next one. */
  function FailedPass(blobs: seq<Blob>, refs: seq<StoredBlob>, err: PersistError): seq<Event>
    requires |refs| < |blobs|
  {
    StoredPass(blobs, refs) + [Write(blobs[|refs|], Err(err))]
  }

  datatype Round = Round(refs: seq<StoredBlob>, err: PersistError)

  /** How a job ended, or where it stood when the observation stopped. */
  datatype End = Persisted | WriteFailed(err: PersistError) | CommitFailed(err: PersistError)
               | StillWriting | StillCommitting

  /** Failed write passes, the blobs stored by the last pass, failed commits, and the end. */
  datatype Story = Story(rounds: seq<Round>, refs: seq<StoredBlob>, refusals: seq<PersistError>, end: End)

  ghost predicate Told(blobs: seq<Blob>, st: Story) {
    && (forall i :: 0 <= i < |st.rounds| ==> |st.rounds[i].refs| < |blobs| && st.rounds[i].err.retryable)
    && (forall i :: 0 <= i < |st.refusals| ==> st.refusals[i].retryable)
    && match st.end
       case WriteFailed(_) => |st.refs| < |blobs| && st.refusals == []
       case StillWriting => |st.refs| <= |blobs| && st.refusals == []
       case _ => |st.refs| == |blobs|
  }

  ghost function WriteRounds(cfg: Config, blobs: seq<Blob>, rounds: seq<Round>): seq<Event>
    requires forall i :: 0 <= i < |rounds| ==> |rounds[i].refs| < |blobs|
  {
    if rounds == [] then []
    else (
      var n := |rounds| - 1;
      WriteRounds(cfg, blobs, rounds[..n]) + FailedPass(blobs, rounds[n].refs, rounds[n].err)
          + [Sleep(RetryDelay(cfg, n))]
    )
  }

  ghost function CommitRounds(cfg: Config, refs: seq<StoredBlob>, refusals: seq<PersistError>): seq<Event>
  {
    if refusals == [] then []
    else (
      var n := |refusals| - 1;
      CommitRounds(cfg, refs, refusals[..n]) + [Commit(refs, Err(refusals[n])), Sleep(RetryDelay(cfg, n))]
    )
  }

  ghost function LastEvents(blobs: seq<Blob>, st: Story): seq<Event>
    requires Told(blobs, st)
  {
    match st.end
    case Persisted => [Commit(st.refs, Ok(()))]
    case WriteFailed(err) => [Write(blobs[|st.refs|], Err(err))]
    case CommitFailed(err) => [Commit(st.refs, Err(err))]
    case StillWriting => []
    case StillCommitting => []
  }

  /** Everything the job did, in order. */
  ghost function Trace(cfg: Config, blobs: seq<Blob>, st: Story): seq<Event>
    requires Told(blobs, st)
  {
    WriteRounds(cfg, blobs, st.rounds) + StoredPass(blobs, st.refs) + CommitRounds(cfg, st.refs, st.refusals)
    + LastEvents(blobs, st)
  }

  /** Every retry was decided while the queue was open: `closedAt` is the number of events before `close`. */
  ghost predicate SleptBefore(trace: seq<Event>, closedAt: nat) {
    forall i :: 0 <= i < |trace| && trace[i].Sleep? ==> i < closedAt
  }

  ghost predicate JobDid(cfg: Config, request: Request, closedAt: nat, st: Story, trace: seq<Event>,
                         result: Option<Result<string, PersistError>>) {
    && Told(request.blobs, st)
    && trace == Trace(cfg, request.blobs, st)
    && SleptBefore(trace, closedAt)
    && match st.end
       case Persisted => result == Some(Ok(request.key))
       case WriteFailed(err) => result == Some(Err(err)) && (!err.retryable || closedAt <= |trace|)
       case CommitFailed(err) => result == Some(Err(err)) && (!err.retryable || closedAt <= |trace|)
       case _ => result.None?
  }

  // ---------- the job ----------

  /**
   * The writer, the sink and the queue's closed flag as a job meets them. The
   * answers are arbitrary finite scripts; a job that outlives its script is cut
   * off, so each script is one finite observation of a run.
   */
  class Backend {
    const writeReplies: seq<Result<StoredBlob, PersistError>>
    const commitReplies: seq<Result<(), PersistError>>
    const closedAt: nat
    var trace: seq<Event>
    var writesUsed: nat
    var commitsUsed: nat

    constructor (writeReplies: seq<Result<StoredBlob, PersistError>>, commitReplies: seq<Result<(), PersistError>>,
                 closedAt: nat)
      ensures trace == [] && writesUsed == commitsUsed == 0
      ensures this.writeReplies == writeReplies && this.commitReplies == commitReplies && this.closedAt == closedAt
    {
      this.writeReplies, this.commitReplies, this.closedAt := writeReplies, commitReplies, closedAt;
      trace, writesUsed, commitsUsed := [], 0, 0;
    }

    method WriteBlob(blob: Blob) returns (reply: Option<Result<StoredBlob, PersistError>>)
      modifies this`trace, this`writesUsed
      ensures reply.None? ==> trace == old(trace) && writesUsed == old(writesUsed)
      ensures reply.Some? ==> trace == old(trace) + [Write(blob, reply.value)]
      ensures reply.Some? ==> old(writesUsed) < writesUsed <= |writeReplies|
    {
      if writesUsed >= |writeReplies| {
        return None;
      }
      reply := Some(writeReplies[writesUsed]);
      writesUsed := writesUsed + 1;
      trace := trace + [Write(blob, reply.value)];
    }

    method PersistMetadata(refs: seq<StoredBlob>) returns (reply: Option<Result<(), PersistError>>)
      modifies this`trace, this`commitsUsed
      ensures reply.None? ==> trace == old(trace)
      ensures reply.Some? ==> trace == old(trace) + [Commit(refs, reply.value)]
      ensures reply.Some? ==> old(commitsUsed) < commitsUsed <= |commitReplies|
    {
      if commitsUsed >= |commitReplies| {
        return None;
      }
      reply := Some(commitReplies[commitsUsed]);
      commitsUsed := commitsUsed + 1;
      trace := trace + [Commit(refs, reply.value)];
    }

    method ShouldAbortRetry() returns (b: bool)
      ensures b == (closedAt <= |trace|)
    {
      b := closedAt <= |trace|;
    }

    method SleepFor(delay: nat)
      modifies this`trace
      ensures trace == old(trace) + [Sleep(delay)]
    {
      trace := trace + [Sleep(delay)];
    }

    /** One pass over the blobs, stopping at the first failure. */
    method WriteBlobs(blobs: seq<Blob>)
      returns (reply: Option<Result<seq<StoredBlob>, PersistError>>, ghost refs: seq<StoredBlob>)
      modifies this`trace, this`writesUsed
      ensures old(writesUsed) <= writesUsed && |refs| <= |blobs|
      ensures reply.None? ==> trace == old(trace) + StoredPass(blobs, refs)
      ensures reply.Some? && reply.value.Ok? ==>
        reply.value.value == refs && |refs| == |blobs| && trace == old(trace) + StoredPass(blobs, refs)
      ensures reply.Some? && reply.value.Err? ==>
        && |refs| < |blobs| && trace == old(trace) + FailedPass(blobs, refs, reply.value.error)
        && old(writesUsed) < writesUsed <= |writeReplies|
    {
      var stored: seq<StoredBlob> := [];
      for i := 0 to |blobs|
        invariant |stored| == i && old(writesUsed) <= writesUsed
        invariant trace == old(trace) + StoredPass(blobs, stored)
      {
        var r := WriteBlob(blobs[i]);
        if r.None? {
          return None, stored;
        }
        if r.value.Err? {
          return Some(Err(r.value.error)), stored;
        }
        stored := stored + [r.value.value];
      }
      return Some(Ok(stored)), stored;
    }
  }

  lemma SleptAppend(trace: seq<Event>, more: seq<Event>, closedAt: nat)
    requires SleptBefore(trace, closedAt)
    requires forall i :: 0 <= i < |more| && more[i].Sleep? ==> |trace| + i < closedAt
    ensures SleptBefore(trace + more, closedAt)
  {
  }

  lemma {:induction false} FailedAgain(cfg: Config, blobs: seq<Blob>, rounds: seq<Round>, last: Round)
    requires forall i :: 0 <= i < |rounds| ==> |rounds[i].refs| < |blobs|
    requires |last.refs| < |blobs|
    ensures WriteRounds(cfg, blobs, rounds + [last])
         == WriteRounds(cfg, blobs, rounds) + FailedPass(blobs, last.refs, last.err)
             + [Sleep(RetryDelay(cfg, |rounds|))]
  {
    assert (rounds + [last])[..|rounds|] == rounds;
  }

  lemma {:induction false} PassTold(cfg: Config, blobs: seq<Blob>, rounds: seq<Round>, refs: seq<StoredBlob>, end: End)
    requires forall i :: 0 <= i < |rounds| ==> |rounds[i].refs| < |blobs| && rounds[i].err.retryable
    requires |refs| <= |blobs| && (end.StillWriting? || (end.StillCommitting? && |refs| == |blobs|))
    ensures var st := Story(rounds, refs, [], end);
      Told(blobs, st) && Trace(cfg, blobs, st) == WriteRounds(cfg, blobs, rounds) + StoredPass(blobs, refs)
  {
  }

  lemma {:induction false} FailureTold(cfg: Config, blobs: seq<Blob>, rounds: seq<Round>, refs: seq<StoredBlob>,
                                       err: PersistError)
    requires forall i :: 0 <= i < |rounds| ==> |rounds[i].refs| < |blobs| && rounds[i].err.retryable
    requires |refs| < |blobs|
    ensures var st := Story(rounds, refs, [], WriteFailed(err));
      Told(blobs, st) && Trace(cfg, blobs, st) == WriteRounds(cfg, blobs, rounds) + FailedPass(blobs, refs, err)
  {
  }

  /** The write phase: the returned story ends with a full pass, a refusal or the end of the observation. */
  method WritePhase(backend: Backend, request: Request, cfg: Config)
    returns (reply: Option<Result<seq<StoredBlob>, PersistError>>, ghost st: Story)
    requires backend.trace == []
    modifies backend`trace, backend`writesUsed
    ensures Told(request.blobs, st) && st.refusals == []
    ensures backend.trace == Trace(cfg, request.blobs, st) && SleptBefore(backend.trace, backend.closedAt)
    ensures reply.None? ==> st.end == StillWriting
    ensures reply.Some? && reply.value.Ok? ==> st.end == StillCommitting && st.refs == reply.value.value
    ensures reply.Some? && reply.value.Err? ==>
      st.end == WriteFailed(reply.value.error) && (!reply.value.error.retryable || backend.closedAt <= |backend.trace|)
  {
    var attempt: nat := 0;
    ghost var rounds: seq<Round> := [];
    while true
      invariant attempt == Min(|rounds|, U32_MAX)
      invariant forall i :: 0 <= i < |rounds| ==> |rounds[i].refs| < |request.blobs| && rounds[i].err.retryable
      invariant backend.trace == WriteRounds(cfg, request.blobs, rounds)
      invariant SleptBefore(backend.trace, backend.closedAt)
      decreases |backend.writeReplies| - backend.writesUsed
    {
      ghost var before := backend.trace;
      ghost var refs;
      reply, refs := backend.WriteBlobs(request.blobs);
      if reply.None? || reply.value.Ok? {
        st := Story(rounds, refs, [], if reply.None? then StillWriting else StillCommitting);
        PassTold(cfg, request.blobs, rounds, refs, st.end);
        SleptAppend(before, StoredPass(request.blobs, refs), backend.closedAt);
        return;
      }
      var err := reply.value.error;
      SleptAppend(before, FailedPass(request.blobs, refs, err), backend.closedAt);
      var abort := backend.ShouldAbortRetry();
      if !err.retryable || abort {
        st := Story(rounds, refs, [], WriteFailed(err));
        FailureTold(cfg, request.blobs, rounds, refs, err);
        return;
      }
      var delay := RetryDelay(cfg, attempt);
      SleptAppend(backend.trace, [Sleep(delay)], backend.closedAt);
      backend.SleepFor(delay);
      attempt := if attempt < U32_MAX then attempt + 1 else U32_MAX;
      FailedAgain(cfg, request.blobs, rounds, Round(refs, err));
      rounds := rounds + [Round(refs, err)];
    }
  }

  /** The last event of a commit phase. */
  ghost function Verdict(refs: seq<StoredBlob>, end: End): seq<Event> {
    match end
    case Persisted => [Commit(refs, Ok(()))]
    case CommitFailed(err) => [Commit(refs, Err(err))]
    case _ => []
  }

  lemma {:induction false} RefusedAgain(cfg: Config, refs: seq<StoredBlob>, refusals: seq<PersistError>,
                                        err: PersistError)
    ensures CommitRounds(cfg, refs, refusals + [err])
         == CommitRounds(cfg, refs, refusals) + [Commit(refs, Err(err)), Sleep(RetryDelay(cfg, |refusals|))]
  {
    assert (refusals + [err])[..|refusals|] == refusals;
  }

  /** The commit phase: refusals with backoff, then success, a final refusal or the end of the observation. */
  method CommitPhase(backend: Backend, refs: seq<StoredBlob>, cfg: Config)
    returns (reply: Option<Result<(), PersistError>>, ghost refusals: seq<PersistError>, ghost end: End)
    requires SleptBefore(backend.trace, backend.closedAt)
    modifies backend`trace, backend`commitsUsed
    ensures forall i :: 0 <= i < |refusals| ==> refusals[i].retryable
    ensures backend.trace == old(backend.trace) + CommitRounds(cfg, refs, refusals) + Verdict(refs, end)
    ensures SleptBefore(backend.trace, backend.closedAt)
    ensures reply.None? ==> end == StillCommitting
    ensures reply.Some? && reply.value.Ok? ==> end == Persisted
    ensures reply.Some? && reply.value.Err? ==>
      end == CommitFailed(reply.value.error) && (!reply.value.error.retryable || backend.closedAt <= |backend.trace|)
  {
    var attempt: nat := 0;
    refusals, end := [], StillCommitting;
    while true
      invariant attempt == Min(|refusals|, U32_MAX) && end == StillCommitting
      invariant forall i :: 0 <= i < |refusals| ==> refusals[i].retryable
      invariant backend.trace == old(backend.trace) + CommitRounds(cfg, refs, refusals)
      invariant SleptBefore(backend.trace, backend.closedAt)
      decreases |backend.commitReplies| - backend.commitsUsed
    {
      ghost var before := backend.trace;
      reply := backend.PersistMetadata(refs);
      if reply.None? {
        return;
      }
      SleptAppend(before, [Commit(refs, reply.value)], backend.closedAt);
      if reply.value.Ok? {
        assert reply.value.value == ();
        end := Persisted;
        return;
      }
      var err := reply.value.error;
      var abort := backend.ShouldAbortRetry();
      if !err.retryable || abort {
        end := CommitFailed(err);
        return;
      }
      var delay := RetryDelay(cfg, attempt);
      SleptAppend(backend.trace, [Sleep(delay)], backend.closedAt);
      backend.SleepFor(delay);
      attempt := if attempt < U32_MAX then attempt + 1 else U32_MAX;
      RefusedAgain(cfg, refs, refusals, err);
      refusals := refusals + [err];
    }
  }

  /** The whole job: what it did is exactly the trace of some story. */
  method PersistRequestWithRetry(backend: Backend, request: Request, cfg: Config)
    returns (result: Option<Result<string, PersistError>>, ghost st: Story)
    requires backend.trace == []
    modifies backend`trace, backend`writesUsed, backend`commitsUsed
    ensures JobDid(cfg, request, backend.closedAt, st, backend.trace, result)
  {
    var written;
    written, st := WritePhase(backend, request, cfg);
    if written.None? {
      return None, st;
    }
    if written.value.Err? {
      return Some(Err(written.value.error)), st;
    }
    var committed;
    ghost var refusals, end;
    committed, refusals, end := CommitPhase(backend, written.value.value, cfg);
    st := st.(refusals := refusals, end := end);
    if committed.None? {
      return None, st;
    }
    return Some(if committed.value.Ok? then Ok(request.key) else Err(committed.value.error)), st;
  }

  // ---------- what every job trace promises ----------

  lemma {:induction false} WriteRoundsShape(cfg: Config, blobs: seq<Blob>, rounds: seq<Round>)
    requires forall i :: 0 <= i < |rounds| ==> |rounds[i].refs| < |blobs|
    ensures var tr := WriteRounds(cfg, blobs, rounds);
      && (forall i :: 0 <= i < |tr| ==> !tr[i].Commit?)
      && (tr != [] ==> tr[|tr| - 1].Sleep?)
  {
    if rounds != [] {
      WriteRoundsShape(cfg, blobs, rounds[..|rounds| - 1]);
    }
  }

  lemma {:induction false} CommitRoundsShape(cfg: Config, refs: seq<StoredBlob>, refusals: seq<PersistError>)
    ensures var tr := CommitRounds(cfg, refs, refusals);
      && (forall i :: 0 <= i < |tr| ==> tr[i].Sleep? || (tr[i].Commit? && tr[i].refs == refs && tr[i].committed.Err?))
      && (tr != [] ==> tr[|tr| - 1].Sleep?)
  {
    if refusals != [] {
      CommitRoundsShape(cfg, refs, refusals[..|refusals| - 1]);
    }
  }

  /** A persisted job ends with the commit that succeeded. */
  lemma PersistedEndsInCommit(cfg: Config, blobs: seq<Blob>, st: Story)
    requires Told(blobs, st) && st.end.Persisted?
    ensures var tr := Trace(cfg, blobs, st); tr != [] && tr[|tr| - 1] == Commit(st.refs, Ok(()))
  {
    assert LastEvents(blobs, st) == [Commit(st.refs, Ok(()))];
  }

  /** Commits lie in the commit rounds or at the very end. */
  lemma {:induction false} CommitPlace(cfg: Config, blobs: seq<Blob>, st: Story, i: nat)
    requires Told(blobs, st) && i < |Trace(cfg, blobs, st)| && Trace(cfg, blobs, st)[i].Commit?
    ensures var tr := Trace(cfg, blobs, st);
      var full := |WriteRounds(cfg, blobs, st.rounds)| + |st.refs|;
      && full <= i && tr[i].refs == st.refs && |st.refs| == |blobs|
      && (tr[i].committed.Ok? <==> st.end.Persisted? && i == |tr| - 1)
  {
    WriteRoundsShape(cfg, blobs, st.rounds);
    CommitRoundsShape(cfg, st.refs, st.refusals);
    var a, b := WriteRounds(cfg, blobs, st.rounds), StoredPass(blobs, st.refs);
    var c := CommitRounds(cfg, st.refs, st.refusals);
    var tr := Trace(cfg, blobs, st);
    if |a| + |b| <= i < |a| + |b| + |c| {
      assert tr[i] == c[i - |a| - |b|];
    }
  }

  lemma PassBetween(a: seq<Event>, b: seq<Event>, c: seq<Event>, d: seq<Event>)
    requires (forall i :: 0 <= i < |c| ==> !c[i].Write?) && (forall i :: 0 <= i < |d| ==> !d[i].Write?)
    ensures (a + b + c + d)[|a|..|a| + |b|] == b
    ensures forall j :: |a| + |b| <= j < |a + b + c + d| ==> !(a + b + c + d)[j].Write?
  {
    assert a + b + c + d == a + b + (c + d);
  }

  /** A trace with all blobs stored has its last pass right behind the write rounds, and no write behind that. */
  lemma {:induction false} LastPass(cfg: Config, blobs: seq<Blob>, st: Story)
    requires Told(blobs, st) && |st.refs| == |blobs|
    ensures var tr := Trace(cfg, blobs, st);
      var from := |WriteRounds(cfg, blobs, st.rounds)|;
      && from + |blobs| <= |tr| && tr[from..from + |blobs|] == StoredPass(blobs, st.refs)
      && (forall j :: from + |blobs| <= j < |tr| ==> !tr[j].Write?)
  {
    CommitRoundsShape(cfg, st.refs, st.refusals);
    PassBetween(WriteRounds(cfg, blobs, st.rounds), StoredPass(blobs, st.refs),
                CommitRounds(cfg, st.refs, st.refusals), LastEvents(blobs, st));
  }

  /**
   * Metadata is committed only after one pass that stored every blob in order,
   * always with that pass's references, with no blob written later, and the
   * commit succeeds at most once, as the last thing the job does.
   */
  lemma {:induction false} CommitOnlyAfterFullPass(cfg: Config, blobs: seq<Blob>, st: Story, i: nat)
    requires Told(blobs, st) && i < |Trace(cfg, blobs, st)| && Trace(cfg, blobs, st)[i].Commit?
    ensures var tr := Trace(cfg, blobs, st);
      var from := |WriteRounds(cfg, blobs, st.rounds)|;
      && |tr[i].refs| == |blobs| && from + |blobs| <= i
      && tr[from..from + |blobs|] == StoredPass(blobs, tr[i].refs)
      && (forall j :: i < j < |tr| ==> !tr[j].Write?)
      && (tr[i].committed.Ok? <==> st.end.Persisted? && i == |tr| - 1)
  {
    CommitPlace(cfg, blobs, st, i);
    LastPass(cfg, blobs, st);
  }

  function Writes(tr: seq<Event>): nat {
    if tr == [] then 0 else (if tr[0].Write? then 1 else 0) + Writes(tr[1..])
  }

  function Commits(tr: seq<Event>): nat {
    if tr == [] then 0 else (if tr[0].Commit? then 1 else 0) + Commits(tr[1..])
  }

  lemma {:induction false} CountSplit(a: seq<Event>, b: seq<Event>)
    ensures Writes(a + b) == Writes(a) + Writes(b) && Commits(a + b) == Commits(a) + Commits(b)
  {
    if a == [] {
      assert a + b == b;
    } else {
      assert (a + b)[1..] == a[1..] + b;
      CountSplit(a[1..], b);
    }
  }

  lemma {:induction false} CountPass(tr: seq<Event>)
    requires forall i :: 0 <= i < |tr| ==> tr[i].Write?
    ensures Writes(tr) == |tr| && Commits(tr) == 0
  {
    if tr != [] {
      CountPass(tr[1..]);
    }
  }

  /** Without a commit sleep, what follows the write rounds is one pass and the last events. */
  lemma {:induction false} TailOfWrites(a: seq<Event>, b: seq<Event>, d: seq<Event>)
    requires forall i :: 0 <= i < |b| ==> b[i].Write?
    ensures (a + b + [] + d)[|a|..] == b + d
    ensures Writes(b + d) == |b| + Writes(d) && Commits(b + d) == Commits(d)
  {
    assert a + b + [] + d == a + (b + d);
    CountPass(b);
    CountSplit(b, d);
  }

  lemma TailOfCommits(a: seq<Event>, b: seq<Event>, c: seq<Event>, d: seq<Event>)
    requires c != []
    ensures (a + b + c + d)[|a + b + c|..] == d
    ensures (a + b + c + d)[|a + b + c| - 1] == c[|c| - 1]
  {
  }

  /** The last events: at most one write, and then the pass is short of it, or at most one commit. */
  lemma LastEventsCount(blobs: seq<Blob>, st: Story)
    requires Told(blobs, st)
    ensures var d := LastEvents(blobs, st);
      Writes(d) <= 1 && Commits(d) <= 1 && |st.refs| + Writes(d) <= |blobs| && (st.refusals != [] ==> Writes(d) == 0)
  {
    var d := LastEvents(blobs, st);
    if d != [] {
      assert d[..0] == [] && d[1..] == [];
    }
  }

  /** The part of a trace after its last sleep is one pass at most, and one commit at most. */
  lemma TailAfterSleeps(cfg: Config, blobs: seq<Blob>, st: Story) returns (cut: nat)
    requires Told(blobs, st)
    ensures var tr := Trace(cfg, blobs, st);
      && cut <= |tr| && (cut == 0 || tr[cut - 1].Sleep?)
      && Writes(tr[cut..]) <= |blobs| && Commits(tr[cut..]) <= 1
  {
    WriteRoundsShape(cfg, blobs, st.rounds);
    CommitRoundsShape(cfg, st.refs, st.refusals);
    LastEventsCount(blobs, st);
    var a, b := WriteRounds(cfg, blobs, st.rounds), StoredPass(blobs, st.refs);
    var c, d := CommitRounds(cfg, st.refs, st.refusals), LastEvents(blobs, st);
    if c == [] {
      cut := |a|;
      TailOfWrites(a, b, d);
    } else {
      cut := |a + b + c|;
      TailOfCommits(a, b, c, d);
    }
  }

  /**
   * After `close` a job makes at most one more write pass and one more commit
   * attempt: every retry happened before, so what is left is sleep-free.
   */
  lemma AfterClose(cfg: Config, blobs: seq<Blob>, st: Story, closedAt: nat)
    requires Told(blobs, st) && SleptBefore(Trace(cfg, blobs, st), closedAt) && closedAt <= |Trace(cfg, blobs, st)|
    ensures var rest := Trace(cfg, blobs, st)[closedAt..];
      && Writes(rest) <= |blobs| && Commits(rest) <= 1 && forall i :: 0 <= i < |rest| ==> !rest[i].Sleep?
  {
    var tr := Trace(cfg, blobs, st);
    var cut := TailAfterSleeps(cfg, blobs, st);
    assert tr[cut..] == tr[cut..closedAt] + tr[closedAt..];
    CountSplit(tr[cut..closedAt], tr[closedAt..]);
  }
}
