/**
 * A job taken event by event, as a machine that others may interleave with,
 * and the proof that it does exactly what the stories of `PersistJob` tell.
 */
module PersistSteps {
  import opened Prelude
  import opened PersistQueue
  import opened PersistJob

  /** Where a job stands: the next thing it does, or how it ended. */
  datatype Phase =
    | Writing(attempt: nat, stored: seq<StoredBlob>)
    | WriteRefused(attempt: nat, err: PersistError)
    | Committing(attempt: nat, refs: seq<StoredBlob>)
    | CommitRefused(attempt: nat, refs: seq<StoredBlob>, err: PersistError)
    | Ended(result: Result<string, PersistError>)

  function Progress(blobs: seq<Blob>, attempt: nat, stored: seq<StoredBlob>): Phase {
    if |stored| < |blobs| then Writing(attempt, stored) else Committing(0, stored)
  }

  /** The next thing a job may do; it decides to sleep only while it sees the queue open. */
  predicate CanDo(cfg: Config, blobs: seq<Blob>, p: Phase, closed: bool, e: Event) {
    match p
    case Writing(_, stored) => |stored| < |blobs| && e.Write? && e.blob == blobs[|stored|]
    case WriteRefused(attempt, err) => err.retryable && !closed && e == Sleep(RetryDelay(cfg, attempt))
    case Committing(_, refs) => e.Commit? && e.refs == refs
    case CommitRefused(attempt, _, err) => err.retryable && !closed && e == Sleep(RetryDelay(cfg, attempt))
    case Ended(_) => false
  }

  function Do(cfg: Config, request: Request, p: Phase, closed: bool, e: Event): Phase
    requires CanDo(cfg, request.blobs, p, closed, e)
  {
    match p
    case Writing(attempt, stored) =>
      if e.written.Ok? then Progress(request.blobs, attempt, stored + [e.written.value])
      else WriteRefused(attempt, e.written.error)
    case WriteRefused(attempt, _) => Progress(request.blobs, Min(attempt + 1, U32_MAX), [])
    case Committing(attempt, refs) =>
      if e.committed.Ok? then Ended(Ok(request.key)) else CommitRefused(attempt, refs, e.committed.error)
    case CommitRefused(attempt, refs, _) => Committing(Min(attempt + 1, U32_MAX), refs)
  }

  /** With what a job returns here, if it does: a refused one only when it may not retry. */
  function ResultOf(p: Phase, closed: bool): Option<Result<string, PersistError>> {
    match p
    case Ended(result) => Some(result)
    case WriteRefused(_, err) => if !err.retryable || closed then Some(Err(err)) else None
    case CommitRefused(_, _, err) => if !err.retryable || closed then Some(Err(err)) else None
    case _ => None
  }

  /** The phase a job reaches by this trace when `close` comes after `closedAt` of its events; none if it cannot. */
  function After(cfg: Config, request: Request, closedAt: nat, trace: seq<Event>): Option<Phase> {
    if trace == [] then Some(Progress(request.blobs, 0, []))
    else (
      var n := |trace| - 1;
      var before := After(cfg, request, closedAt, trace[..n]);
      if before.Some? && CanDo(cfg, request.blobs, before.value, closedAt <= n, trace[n]) then
        Some(Do(cfg, request, before.value, closedAt <= n, trace[n]))
      else None
    )
  }

  /** The phase in which a story leaves its job. */
  function PhaseOf(request: Request, st: Story): Phase {
    match st.end
    case StillWriting => Progress(request.blobs, Min(|st.rounds|, U32_MAX), st.refs)
    case WriteFailed(err) => WriteRefused(Min(|st.rounds|, U32_MAX), err)
    case StillCommitting => Committing(Min(|st.refusals|, U32_MAX), st.refs)
    case CommitFailed(err) => CommitRefused(Min(|st.refusals|, U32_MAX), st.refs, err)
    case Persisted => Ended(Ok(request.key))
  }

  ghost predicate Tells(cfg: Config, request: Request, closedAt: nat, trace: seq<Event>, st: Story) {
    Told(request.blobs, st) && trace == Trace(cfg, request.blobs, st) && SleptBefore(trace, closedAt)
  }

  // ---------- every run of a job is told by a story ----------

  /** The story after one more event. */
  function Longer(st: Story, e: Event): Story {
    match e
    case Write(_, Ok(stored)) => st.(refs := st.refs + [stored])
    case Write(_, Err(err)) => st.(end := WriteFailed(err))
    case Commit(_, Ok(_)) => st.(end := Persisted)
    case Commit(_, Err(err)) => st.(end := CommitFailed(err))
    case Sleep(_) =>
      match st.end
      case WriteFailed(err) => st.(rounds := st.rounds + [Round(st.refs, err)], refs := [], end := StillWriting)
      case CommitFailed(err) => st.(refusals := st.refusals + [err], end := StillCommitting)
      case _ => st
  }

  /** A full pass is the start of the commit phase. */
  lemma FullPass(cfg: Config, request: Request, st: Story) returns (same: Story)
    requires Told(request.blobs, st)
    ensures Told(request.blobs, same) && Trace(cfg, request.blobs, same) == Trace(cfg, request.blobs, st)
    ensures PhaseOf(request, same) == PhaseOf(request, st)
    ensures same.end.StillWriting? ==> |same.refs| < |request.blobs|
  {
    same := if st.end.StillWriting? && |st.refs| == |request.blobs| then st.(end := StillCommitting) else st;
  }

  lemma LongerByWrite(cfg: Config, request: Request, st: Story, e: Event)
    requires Told(request.blobs, st) && st.end.StillWriting? && |st.refs| < |request.blobs|
    requires CanDo(cfg, request.blobs, PhaseOf(request, st), false, e)
    ensures var next := Longer(st, e);
      && Told(request.blobs, next) && Trace(cfg, request.blobs, next) == Trace(cfg, request.blobs, st) + [e]
      && PhaseOf(request, next) == Do(cfg, request, PhaseOf(request, st), false, e)
  {
    var blobs := request.blobs;
    if e.written.Ok? {
      var refs := st.refs + [e.written.value];
      assert StoredPass(blobs, refs) == StoredPass(blobs, st.refs) + [e];
    }
  }

  lemma LongerByCommit(cfg: Config, request: Request, st: Story, e: Event)
    requires Told(request.blobs, st) && st.end.StillCommitting?
    requires CanDo(cfg, request.blobs, PhaseOf(request, st), false, e)
    ensures var next := Longer(st, e);
      && Told(request.blobs, next) && Trace(cfg, request.blobs, next) == Trace(cfg, request.blobs, st) + [e]
      && PhaseOf(request, next) == Do(cfg, request, PhaseOf(request, st), false, e)
  {
    if e.committed.Ok? {
      assert e.committed.value == ();
    }
  }

  lemma WriteAgain(cfg: Config, request: Request, st: Story, e: Event)
    requires Told(request.blobs, st) && st.end.WriteFailed?
    requires CanDo(cfg, request.blobs, PhaseOf(request, st), false, e)
    ensures var next := Longer(st, e);
      && Told(request.blobs, next) && Trace(cfg, request.blobs, next) == Trace(cfg, request.blobs, st) + [e]
      && PhaseOf(request, next) == Do(cfg, request, PhaseOf(request, st), false, e)
  {
    FailedAgain(cfg, request.blobs, st.rounds, Round(st.refs, st.end.err));
  }

  lemma CommitAgain(cfg: Config, request: Request, st: Story, e: Event)
    requires Told(request.blobs, st) && st.end.CommitFailed?
    requires CanDo(cfg, request.blobs, PhaseOf(request, st), false, e)
    ensures var next := Longer(st, e);
      && Told(request.blobs, next) && Trace(cfg, request.blobs, next) == Trace(cfg, request.blobs, st) + [e]
      && PhaseOf(request, next) == Do(cfg, request, PhaseOf(request, st), false, e)
  {
    RefusedAgain(cfg, st.refs, st.refusals, st.end.err);
  }

  lemma OneMore(cfg: Config, request: Request, st: Story, closed: bool, e: Event) returns (next: Story)
    requires Told(request.blobs, st) && CanDo(cfg, request.blobs, PhaseOf(request, st), closed, e)
    ensures Told(request.blobs, next) && Trace(cfg, request.blobs, next) == Trace(cfg, request.blobs, st) + [e]
    ensures PhaseOf(request, next) == Do(cfg, request, PhaseOf(request, st), closed, e)
    ensures e.Sleep? ==> !closed
  {
    var before := FullPass(cfg, request, st);
    next := Longer(before, e);
    match before.end
    case StillWriting => LongerByWrite(cfg, request, before, e);
    case StillCommitting => LongerByCommit(cfg, request, before, e);
    case WriteFailed(_) => WriteAgain(cfg, request, before, e);
    case CommitFailed(_) => CommitAgain(cfg, request, before, e);
    case Persisted => assert false;
  }

  lemma TellMore(cfg: Config, request: Request, closedAt: nat, trace: seq<Event>, st: Story, e: Event)
    returns (next: Story)
    requires Tells(cfg, request, closedAt, trace, st)
    requires CanDo(cfg, request.blobs, PhaseOf(request, st), closedAt <= |trace|, e)
    ensures Tells(cfg, request, closedAt, trace + [e], next)
    ensures PhaseOf(request, next) == Do(cfg, request, PhaseOf(request, st), closedAt <= |trace|, e)
  {
    next := OneMore(cfg, request, st, closedAt <= |trace|, e);
    SleptAppend(trace, [e], closedAt);
  }

  /** What a job does, event by event, is the trace of a story. */
  lemma {:induction false} RunIsTold(cfg: Config, request: Request, closedAt: nat, trace: seq<Event>)
    returns (st: Story)
    requires After(cfg, request, closedAt, trace).Some?
    ensures Tells(cfg, request, closedAt, trace, st)
    ensures After(cfg, request, closedAt, trace) == Some(PhaseOf(request, st))
  {
    if trace == [] {
      return Story([], [], [], StillWriting);
    }
    var n := |trace| - 1;
    var before := RunIsTold(cfg, request, closedAt, trace[..n]);
    assert trace == trace[..n] + [trace[n]];
    st := TellMore(cfg, request, closedAt, trace[..n], before, trace[n]);
  }

  // ---------- every story is a run of the job ----------

  lemma {:induction false} Push(cfg: Config, request: Request, closedAt: nat, trace: seq<Event>, e: Event)
    requires After(cfg, request, closedAt, trace).Some?
    requires CanDo(cfg, request.blobs, After(cfg, request, closedAt, trace).value, closedAt <= |trace|, e)
    ensures After(cfg, request, closedAt, trace + [e])
         == Some(Do(cfg, request, After(cfg, request, closedAt, trace).value, closedAt <= |trace|, e))
  {
    assert (trace + [e])[..|trace|] == trace;
  }

  lemma {:induction false} PassRuns(cfg: Config, request: Request, closedAt: nat, trace: seq<Event>, attempt: nat,
                                    refs: seq<StoredBlob>)
    requires |refs| <= |request.blobs|
    requires After(cfg, request, closedAt, trace) == Some(Progress(request.blobs, attempt, []))
    ensures After(cfg, request, closedAt, trace + StoredPass(request.blobs, refs))
         == Some(Progress(request.blobs, attempt, refs))
  {
    if refs == [] {
      assert trace + StoredPass(request.blobs, refs) == trace;
    } else {
      var n := |refs| - 1;
      var e := Write(request.blobs[n], Ok(refs[n]));
      PassRuns(cfg, request, closedAt, trace, attempt, refs[..n]);
      Push(cfg, request, closedAt, trace + StoredPass(request.blobs, refs[..n]), e);
      assert StoredPass(request.blobs, refs) == StoredPass(request.blobs, refs[..n]) + [e];
      assert trace + StoredPass(request.blobs, refs) == trace + StoredPass(request.blobs, refs[..n]) + [e];
      assert refs == refs[..n] + [refs[n]];
    }
  }

  /** A pass that fails after `refs`. */
  lemma {:induction false} FailedPassRuns(cfg: Config, request: Request, closedAt: nat, trace: seq<Event>, attempt: nat,
                       refs: seq<StoredBlob>, err: PersistError)
    requires |refs| < |request.blobs|
    requires After(cfg, request, closedAt, trace) == Some(Progress(request.blobs, attempt, []))
    ensures After(cfg, request, closedAt, trace + FailedPass(request.blobs, refs, err))
         == Some(WriteRefused(attempt, err))
  {
    var pass := StoredPass(request.blobs, refs);
    PassRuns(cfg, request, closedAt, trace, attempt, refs);
    Push(cfg, request, closedAt, trace + pass, Write(request.blobs[|refs|], Err(err)));
    assert trace + FailedPass(request.blobs, refs, err) == trace + pass + [Write(request.blobs[|refs|], Err(err))];
  }

  lemma {:induction false} WriteRoundsRun(cfg: Config, request: Request, closedAt: nat, rounds: seq<Round>)
    requires forall i :: 0 <= i < |rounds| ==> |rounds[i].refs| < |request.blobs| && rounds[i].err.retryable
    requires SleptBefore(WriteRounds(cfg, request.blobs, rounds), closedAt)
    ensures After(cfg, request, closedAt, WriteRounds(cfg, request.blobs, rounds))
         == Some(Progress(request.blobs, Min(|rounds|, U32_MAX), []))
  {
    if rounds != [] {
      var n := |rounds| - 1;
      var done := WriteRounds(cfg, request.blobs, rounds[..n]);
      var failed := done + FailedPass(request.blobs, rounds[n].refs, rounds[n].err);
      var all := WriteRounds(cfg, request.blobs, rounds);
      var sleep := Sleep(RetryDelay(cfg, n));
      assert all == failed + [sleep] && all[|failed|] == sleep;
      assert SleptBefore(done, closedAt) by {
        assert forall i :: 0 <= i < |done| ==> all[i] == done[i];
      }
      WriteRoundsRun(cfg, request, closedAt, rounds[..n]);
      FailedPassRuns(cfg, request, closedAt, done, Min(n, U32_MAX), rounds[n].refs, rounds[n].err);
      Push(cfg, request, closedAt, failed, sleep);
    }
  }

  lemma {:induction false} RefusalsRun(cfg: Config, request: Request, closedAt: nat, trace: seq<Event>,
                                       refs: seq<StoredBlob>, refusals: seq<PersistError>)
    requires forall i :: 0 <= i < |refusals| ==> refusals[i].retryable
    requires After(cfg, request, closedAt, trace) == Some(Committing(0, refs))
    requires SleptBefore(trace + CommitRounds(cfg, refs, refusals), closedAt)
    ensures After(cfg, request, closedAt, trace + CommitRounds(cfg, refs, refusals))
         == Some(Committing(Min(|refusals|, U32_MAX), refs))
  {
    if refusals == [] {
      assert trace + CommitRounds(cfg, refs, refusals) == trace;
    } else {
      var n := |refusals| - 1;
      var done := trace + CommitRounds(cfg, refs, refusals[..n]);
      var commit, sleep := Commit(refs, Err(refusals[n])), Sleep(RetryDelay(cfg, n));
      var all := trace + CommitRounds(cfg, refs, refusals);
      assert all == done + [commit] + [sleep] && all[|done| + 1] == sleep;
      assert SleptBefore(done, closedAt) by {
        assert forall i :: 0 <= i < |done| ==> all[i] == done[i];
      }
      RefusalsRun(cfg, request, closedAt, trace, refs, refusals[..n]);
      Push(cfg, request, closedAt, done, commit);
      Push(cfg, request, closedAt, done + [commit], sleep);
    }
  }

  lemma SleptPrefix(a: seq<Event>, b: seq<Event>, closedAt: nat)
    requires SleptBefore(a + b, closedAt)
    ensures SleptBefore(a, closedAt)
  {
    assert forall i :: 0 <= i < |a| ==> (a + b)[i] == a[i];
  }

  /** Every story whose sleeps come before `close` is something a job can do. */
  lemma {:induction false} StoryRuns(cfg: Config, request: Request, closedAt: nat, st: Story)
    requires Told(request.blobs, st) && SleptBefore(Trace(cfg, request.blobs, st), closedAt)
    ensures After(cfg, request, closedAt, Trace(cfg, request.blobs, st)) == Some(PhaseOf(request, st))
  {
    var blobs := request.blobs;
    var a, b := WriteRounds(cfg, blobs, st.rounds), StoredPass(blobs, st.refs);
    var c, d := CommitRounds(cfg, st.refs, st.refusals), LastEvents(blobs, st);
    SleptPrefix(a + b + c, d, closedAt);
    SleptPrefix(a + b, c, closedAt);
    SleptPrefix(a, b, closedAt);
    WriteRoundsRun(cfg, request, closedAt, st.rounds);
    PassRuns(cfg, request, closedAt, a, Min(|st.rounds|, U32_MAX), st.refs);
    if |st.refs| == |blobs| {
      RefusalsRun(cfg, request, closedAt, a + b, st.refs, st.refusals);
    } else {
      assert a + b + c == a + b;
    }
    if d == [] {
      assert a + b + c + d == a + b + c;
    } else {
      assert d == [d[0]];
      Push(cfg, request, closedAt, a + b + c, d[0]);
    }
  }

  /** The job taken event by event and the language of stories are the same thing. */
  lemma {:induction false} AfterIffTold(cfg: Config, request: Request, closedAt: nat, trace: seq<Event>, p: Phase)
    ensures After(cfg, request, closedAt, trace) == Some(p)
       <==> exists st :: Tells(cfg, request, closedAt, trace, st) && PhaseOf(request, st) == p
  {
    if After(cfg, request, closedAt, trace) == Some(p) {
      var st := RunIsTold(cfg, request, closedAt, trace);
    }
    if st :| Tells(cfg, request, closedAt, trace, st) && PhaseOf(request, st) == p {
      StoryRuns(cfg, request, closedAt, st);
    }
  }

  /** A story is a finished job when it ends where a job returns. */
  lemma DidIff(cfg: Config, request: Request, closedAt: nat, st: Story, trace: seq<Event>,
               result: Result<string, PersistError>)
    ensures JobDid(cfg, request, closedAt, st, trace, Some(result))
       <==> Tells(cfg, request, closedAt, trace, st)
            && ResultOf(PhaseOf(request, st), closedAt <= |trace|) == Some(result)
  {
  }

  ghost predicate Returns(cfg: Config, request: Request, closedAt: nat, trace: seq<Event>,
                          result: Result<string, PersistError>) {
    var end := After(cfg, request, closedAt, trace);
    end.Some? && ResultOf(end.value, closedAt <= |trace|) == Some(result)
  }

  /** The results a job can return on a trace are those `PersistRequestWithRetry` promises. */
  lemma ReturnsIffDid(cfg: Config, request: Request, closedAt: nat, trace: seq<Event>,
                      result: Result<string, PersistError>)
    ensures Returns(cfg, request, closedAt, trace, result)
       <==> exists st :: JobDid(cfg, request, closedAt, st, trace, Some(result))
  {
    if Returns(cfg, request, closedAt, trace, result) {
      var st := RunIsTold(cfg, request, closedAt, trace);
      DidIff(cfg, request, closedAt, st, trace, result);
    }
    if st :| JobDid(cfg, request, closedAt, st, trace, Some(result)) {
      DidIff(cfg, request, closedAt, st, trace, result);
      StoryRuns(cfg, request, closedAt, st);
    }
  }
}
