/**
 * When the order in which updates arrive matters to an incident: the exact
 * condition, for two updates and for whole runs, with redeliveries.
 */
module IncidentOrder {
  import opened Prelude
  import opened IncidentUpdates
  import opened IncidentTable

  ghost predicate SameArrivals(a: seq<Event>, b: seq<Event>) {
    forall e: Event :: e.Arrived? ==> (e in a <==> e in b)
  }

  /** Equal but for the first product of an incident that was not there before. */
  predicate SameIncident(was: Option<Incident>, a: Option<Incident>, b: Option<Incident>) {
    && a.Some? == b.Some?
    && (a.Some? ==> a.value.(firstProduct := 0) == b.value.(firstProduct := 0))
    && (was.Some? ==> a == b)
  }

  /** The row, if there is one, has a status. */
  predicate Stands(row: Option<Incident>) {
    row.Some? ==> row.value.status.Some?
  }

  predicate Of(e: Event, k: Key) {
    e.Arrived? && e.update.key == k
  }

  predicate Precedes(e: Event, f: Event) {
    e.Arrived? && f.Arrived? && e.update.timestamp < f.update.timestamp
  }

  /** The row, if there is one, is not newer than the arrival. */
  predicate Reaches(e: Event, was: Option<Incident>) {
    e.Arrived? && (was.Some? ==> was.value.latestTimestamp <= e.update.timestamp)
  }

  /** What an update writes, but for the status and the first product. */
  function Content(e: Event): Incident
    requires e.Arrived?
  {
    FromUpdate(e.product, e.update, None, 0)
  }

  /** Either of two arrivals may overwrite the other: same content and no two different statuses. */
  predicate Agree(e: Event, f: Event) {
    && e.Arrived? && f.Arrived? && Content(e) == Content(f)
    && (e.update.status.Some? && f.update.status.Some? ==> e.update.status == f.update.status)
  }

  // ---------- two updates ----------

  /** The earlier update would set a status that the later one, without a status, keeps. */
  predicate StatusLost(was: Option<Incident>, u: Update, v: Update) {
    && v.status.None? && u.status.Some?
    && (was.Some? ==> u.timestamp >= was.value.latestTimestamp && u.status != was.value.status)
  }

  /** Of two updates at different times the order matters exactly when a status would be lost. */
  lemma OrderMattersIff(was: Option<Incident>, p: int, u: Update, q: int, v: Update)
    requires Stands(was) && u.timestamp < v.timestamp
    ensures SameIncident(was, UpsertRow(UpsertRow(was, p, u), q, v), UpsertRow(UpsertRow(was, q, v), p, u))
       <==> !StatusLost(was, u, v)
  {
  }

  /** Neither update is written: both are older than the row, or there is no row and no status. */
  predicate BothIgnored(was: Option<Incident>, u: Update, v: Update) {
    if was.Some? then u.timestamp < was.value.latestTimestamp && v.timestamp < was.value.latestTimestamp
    else u.status.None? && v.status.None?
  }

  /** Of two updates at the same time the order matters exactly when they are written and disagree. */
  lemma SameTimeOrderMattersIff(was: Option<Incident>, p: int, u: Update, q: int, v: Update)
    requires Stands(was) && u.timestamp == v.timestamp
    ensures SameIncident(was, UpsertRow(UpsertRow(was, p, u), q, v), UpsertRow(UpsertRow(was, q, v), p, u))
       <==> BothIgnored(was, u, v) || Agree(Arrived(p, u), Arrived(q, v))
  {
  }

  /** Two products of one second, a new incident and its cancellation, do not commute. */
  lemma SameSecondDiffers(k: Key)
    ensures var u := Update(k, Some("active"), "NEW", 7, None, None, 7);
      var v := Update(k, Some("cancelled"), "CAN", 7, None, None, 7);
      && !StatusLost(None, u, v) && !StatusLost(None, v, u)
      && !SameIncident(None, UpsertRow(UpsertRow(None, 1, u), 2, v), UpsertRow(UpsertRow(None, 2, v), 1, u))
  {
  }

  /** A new incident and a later correction without a status do not commute on an empty table. */
  lemma CorrectionBeforeOpeningIsLost(k: Key)
    ensures var u := Update(k, Some("active"), "NEW", 5, None, None, 5);
      var v := Update(k, None, "COR", 6, None, None, 6);
      && StatusLost(None, u, v)
      && !SameIncident(None, UpsertRow(UpsertRow(None, 1, u), 2, v), UpsertRow(UpsertRow(None, 2, v), 1, u))
  {
  }

  // ---------- the condition for a run ----------

  /** A latest arrival of the incident. */
  ghost predicate IsTop(a: seq<Event>, k: Key, e: Event) {
    e in a && Of(e, k) && forall x :: x in a && Of(x, k) ==> !Precedes(e, x)
  }

  /** Nothing that arrives is written: all is older than the row, or there is no row and no status. */
  ghost predicate Idle(was: Option<Incident>, a: seq<Event>, k: Key) {
    forall e :: e in a && Of(e, k) ==> if was.Some? then !Reaches(e, was) else e.update.status.None?
  }

  /** The latest arrivals agree, and one of them has a status or none loses one. */
  ghost predicate Settled(was: Option<Incident>, a: seq<Event>, k: Key) {
    && (forall e, f :: IsTop(a, k, e) && IsTop(a, k, f) ==> Agree(e, f))
    && ((exists e :: IsTop(a, k, e) && e.update.status.Some?)
        || forall e, u :: IsTop(a, k, e) && u in a && Of(u, k) ==> !StatusLost(was, u.update, e.update))
  }

  lemma {:induction false} TopExists(a: seq<Event>, k: Key, e: Event) returns (top: Event)
    requires e in a && Of(e, k)
    ensures IsTop(a, k, top)
    decreases |a|
  {
    var n := |a| - 1;
    var init, last := a[..n], a[n];
    assert a == init + [last];
    if x :| x in init && Of(x, k) {
      top := TopExists(init, k, x);
      if Of(last, k) && Precedes(top, last) {
        top := last;
      }
    } else {
      assert e == last;
      top := last;
    }
  }

  // ---------- enough for order not to matter ----------

  /** What the row becomes once `top` has arrived. */
  function Final(was: Option<Incident>, top: Event, first: int): Incident
    requires top.Arrived?
  {
    FromUpdate(top.product, top.update, Coalesce(top.update.status, if was.Some? then was.value.status else None),
               first)
  }

  /** An arrival that cannot keep `top` from settling the row. */
  predicate Yields(was: Option<Incident>, top: Event, e: Event) {
    && e.Arrived? && top.Arrived?
    && (Precedes(e, top) || (Agree(e, top) && (top.update.status.None? ==> e.update.status.None?)))
    && (top.update.status.None? ==> !StatusLost(was, e.update, top.update))
  }

  ghost predicate AllYield(was: Option<Incident>, top: Event, k: Key, s: seq<Event>) {
    forall e :: e in s && Of(e, k) ==> Yields(was, top, e)
  }

  /** The row on its way: never past `top`, with the old status while `top` brings none, and settled once `top` came. */
  predicate OnItsWay(was: Option<Incident>, top: Event, row: Option<Incident>, came: bool) {
    && Stands(row) && Reaches(top, row)
    && (was.Some? ==>
          && row.Some? && row.value.firstProduct == was.value.firstProduct
          && was.value.latestTimestamp <= row.value.latestTimestamp
          && (top.update.status.None? ==> row.value.status == was.value.status))
    && (came ==> row.Some? && row.value == Final(was, top, row.value.firstProduct))
  }

  lemma YieldingStep(was: Option<Incident>, top: Event, k: Key, row: Option<Incident>, came: bool, e: Event)
    requires Stands(was) && Of(top, k) && (was.Some? || top.update.status.Some?)
    requires OnItsWay(was, top, row, came) && Of(e, k) && Yields(was, top, e)
    ensures OnItsWay(was, top, RowStep(row, k, e), came)
  {
  }

  lemma TopStep(was: Option<Incident>, top: Event, k: Key, row: Option<Incident>, came: bool)
    requires Stands(was) && Of(top, k) && (was.Some? || top.update.status.Some?)
    requires OnItsWay(was, top, row, came)
    ensures OnItsWay(was, top, RowStep(row, k, top), true)
  {
  }

  lemma {:induction false} RunSettles(was: Option<Incident>, top: Event, k: Key, s: seq<Event>)
    requires Stands(was) && Of(top, k) && Reaches(top, was) && (was.Some? || top.update.status.Some?)
    requires AllArrived(s) && AllYield(was, top, k, s)
    ensures OnItsWay(was, top, RowRun(was, k, s), top in s)
  {
    if s != [] {
      var init, last := s[..|s| - 1], s[|s| - 1];
      assert s == init + [last];
      RunSettles(was, top, k, init);
      if last == top {
        TopStep(was, top, k, RowRun(was, k, init), top in init);
      } else if Of(last, k) {
        YieldingStep(was, top, k, RowRun(was, k, init), top in init, last);
      }
    }
  }

  lemma {:induction false} IdleRun(was: Option<Incident>, k: Key, s: seq<Event>)
    requires Stands(was) && AllArrived(s) && Idle(was, s, k)
    ensures RowRun(was, k, s) == was
  {
    if s != [] {
      assert s == s[..|s| - 1] + [s[|s| - 1]];
      IdleRun(was, k, s[..|s| - 1]);
    }
  }

  /** The latest arrival whose status decides, if any has one. */
  lemma SettlingTop(was: Option<Incident>, a: seq<Event>, k: Key) returns (top: Event)
    requires Settled(was, a, k) && !Idle(was, a, k)
    ensures IsTop(a, k, top) && Reaches(top, was) && (was.Some? || top.update.status.Some?)
    ensures AllYield(was, top, k, a)
  {
    var e :| e in a && Of(e, k) && if was.Some? then Reaches(e, was) else e.update.status.Some?;
    if f :| IsTop(a, k, f) && f.update.status.Some? {
      top := f;
    } else {
      top := TopExists(a, k, e);
      assert !StatusLost(was, e.update, top.update);
    }
    forall x | x in a && Of(x, k) ensures Yields(was, top, x) {
      if !Precedes(x, top) {
        assert IsTop(a, k, x);
      }
    }
  }

  lemma {:induction false} SettledRow(was: Option<Incident>, a: seq<Event>, b: seq<Event>, k: Key)
    requires Stands(was) && AllArrived(a) && AllArrived(b) && SameArrivals(a, b)
    requires Idle(was, a, k) || Settled(was, a, k)
    ensures SameIncident(was, RowRun(was, k, a), RowRun(was, k, b))
  {
    if Idle(was, a, k) {
      IdleRun(was, k, a);
      IdleRun(was, k, b);
    } else {
      var top := SettlingTop(was, a, k);
      RunSettles(was, top, k, a);
      RunSettles(was, top, k, b);
    }
  }

  // ---------- rearranging arrivals ----------

  function Pick(p: Event -> bool, s: seq<Event>): seq<Event> {
    if s == [] then [] else Pick(p, s[..|s| - 1]) + (if p(s[|s| - 1]) then [s[|s| - 1]] else [])
  }

  function Drop(p: Event -> bool, s: seq<Event>): seq<Event> {
    if s == [] then [] else Drop(p, s[..|s| - 1]) + (if p(s[|s| - 1]) then [] else [s[|s| - 1]])
  }

  lemma {:induction false} PickDrop(p: Event -> bool, s: seq<Event>)
    ensures multiset(Pick(p, s)) + multiset(Drop(p, s)) == multiset(s)
    ensures forall e :: e in Pick(p, s) <==> e in s && p(e)
    ensures forall e :: e in Drop(p, s) <==> e in s && !p(e)
  {
    PickDropCount(p, s);
    forall e ensures e in Pick(p, s) <==> e in s && p(e) ensures e in Drop(p, s) <==> e in s && !p(e) {
      PickDropMember(p, s, e);
    }
  }

  lemma OneMore(a: multiset<Event>, b: multiset<Event>, s: multiset<Event>, e: Event)
    requires a + b == s
    ensures (a + multiset{e}) + b == s + multiset{e} && a + (b + multiset{e}) == s + multiset{e}
  {
  }

  lemma SnocCount(s: seq<Event>, init: seq<Event>, last: Event)
    requires s == init + [last]
    ensures multiset(s) == multiset(init) + multiset{last}
  {
  }

  lemma {:induction false} PickDropCount(p: Event -> bool, s: seq<Event>)
    ensures multiset(Pick(p, s)) + multiset(Drop(p, s)) == multiset(s)
  {
    if s != [] {
      var init, last := s[..|s| - 1], s[|s| - 1];
      PickDropCount(p, init);
      OneMore(multiset(Pick(p, init)), multiset(Drop(p, init)), multiset(init), last);
      SnocCount(s, init, last);
      if p(last) {
        SnocCount(Pick(p, s), Pick(p, init), last);
        assert Drop(p, s) == Drop(p, init);
      } else {
        SnocCount(Drop(p, s), Drop(p, init), last);
        assert Pick(p, s) == Pick(p, init);
      }
    }
  }

  lemma {:induction false} PickDropMember(p: Event -> bool, s: seq<Event>, e: Event)
    ensures e in Pick(p, s) <==> e in s && p(e)
    ensures e in Drop(p, s) <==> e in s && !p(e)
  {
    if s != [] {
      PickDropMember(p, s[..|s| - 1], e);
      assert s == s[..|s| - 1] + [s[|s| - 1]];
    }
  }

  function Is(e: Event): Event -> bool {
    x => x == e
  }

  function MoveFirst(e: Event, s: seq<Event>): seq<Event> {
    Pick(Is(e), s) + Drop(Is(e), s)
  }

  function MoveLast(e: Event, s: seq<Event>): seq<Event> {
    Drop(Is(e), s) + Pick(Is(e), s)
  }

  ghost predicate Permutes(a: seq<Event>, b: seq<Event>) {
    multiset(a) == multiset(b)
  }

  lemma PermutesMembers(a: seq<Event>, b: seq<Event>)
    requires Permutes(a, b)
    ensures forall e :: e in a <==> e in b
    ensures AllArrived(a) ==> AllArrived(b)
  {
    forall e ensures e in a <==> e in b {
      assert e in multiset(a) <==> e in multiset(b);
    }
    if AllArrived(a) {
      forall i | 0 <= i < |b| ensures b[i].Arrived? {
        assert b[i] in a;
      }
    }
  }

  lemma {:induction false} RowRunAppend(was: Option<Incident>, k: Key, a: seq<Event>, b: seq<Event>)
    ensures RowRun(was, k, a + b) == RowRun(RowRun(was, k, a), k, b)
  {
    if b == [] {
      assert a + b == a;
    } else {
      assert (a + b)[..|a + b| - 1] == a + b[..|b| - 1];
      RowRunAppend(was, k, a, b[..|b| - 1]);
    }
  }

  // ---------- rows of rearranged runs ----------

  /** Copies of one arrival that the row admits. */
  lemma {:induction false} CopiesRun(row: Option<Incident>, k: Key, s: seq<Event>, e: Event)
    requires Stands(row) && Reaches(e, row) && Of(e, k) && (row.Some? || e.update.status.Some?)
    requires s != [] && forall x :: x in s ==> x == e
    ensures RowRun(row, k, s)
         == Some(Final(row, e, if row.Some? then row.value.firstProduct else e.product))
  {
    var init := s[..|s| - 1];
    assert s[|s| - 1] in s;
    if init != [] {
      assert forall x :: x in init ==> x in s;
      CopiesRun(row, k, init, e);
    } else {
      assert RowRun(row, k, init) == row;
    }
  }

  /** Arrivals no later than `e` leave a row that `e` can overwrite, and open one if any has a status. */
  lemma {:induction false} NoLaterRun(was: Option<Incident>, k: Key, s: seq<Event>, e: Event)
    requires Stands(was) && Reaches(e, was) && AllArrived(s) && forall x :: x in s && Of(x, k) ==> !Precedes(e, x)
    ensures var row := RowRun(was, k, s);
      && Stands(row) && Reaches(e, row) && (was.Some? ==> row.Some?)
      && ((exists x :: x in s && Of(x, k) && x.update.status.Some?) ==> row.Some?)
  {
    if s != [] {
      assert s == s[..|s| - 1] + [s[|s| - 1]] && s[|s| - 1] in s;
      NoLaterRun(was, k, s[..|s| - 1], e);
    }
  }

  lemma {:induction false} EarlierRun(k: Key, s: seq<Event>, e: Event)
    requires e.Arrived? && AllArrived(s) && forall x :: x in s && Of(x, k) ==> Precedes(x, e)
    ensures var row := RowRun(None, k, s); Stands(row) && (row.Some? ==> row.value.latestTimestamp < e.update.timestamp)
  {
    if s != [] {
      assert s == s[..|s| - 1] + [s[|s| - 1]] && s[|s| - 1] in s;
      EarlierRun(k, s[..|s| - 1], e);
    }
  }

  /** A row written by `e` stays when all that follows is earlier, or agrees and brings no status. */
  lemma {:induction false} StaysRun(was: Option<Incident>, first: int, k: Key, s: seq<Event>, e: Event)
    requires Of(e, k) && AllArrived(s) && Coalesce(e.update.status, if was.Some? then was.value.status else None).Some?
    requires forall x :: x in s && Of(x, k) ==> Precedes(x, e) || (Agree(x, e) && x.update.status.None?)
    ensures RowRun(Some(Final(was, e, first)), k, s) == Some(Final(was, e, first))
  {
    if s != [] {
      assert s == s[..|s| - 1] + [s[|s| - 1]] && s[|s| - 1] in s;
      StaysRun(was, first, k, s[..|s| - 1], e);
    }
  }

  /** A latest arrival that comes last is what the row ends with. */
  lemma LastWins(was: Option<Incident>, a: seq<Event>, k: Key, e: Event) returns (from: Option<Incident>, first: int)
    requires Stands(was) && AllArrived(a) && IsTop(a, k, e) && !Idle(was, a, k)
    ensures Permutes(a, MoveLast(e, a)) && RowRun(was, k, MoveLast(e, a)) == Some(Final(from, e, first))
    ensures Stands(from) && (from.Some? || e.update.status.Some?)
  {
    PickDrop(Is(e), a);
    var others, copies := Drop(Is(e), a), Pick(Is(e), a);
    assert e in copies;
    var x :| x in a && Of(x, k) && if was.Some? then Reaches(x, was) else x.update.status.Some?;
    assert !Precedes(e, x);
    assert AllArrived(others) by {
      forall i | 0 <= i < |others| ensures others[i].Arrived? {
        assert others[i] in others;
      }
    }
    NoLaterRun(was, k, others, e);
    from := RowRun(was, k, others);
    if was.None? && x != e {
      assert x in others;
    }
    CopiesRun(from, k, copies, e);
    RowRunAppend(was, k, others, copies);
    first := if from.Some? then from.value.firstProduct else e.product;
  }

  lemma {:induction false} ArrivedParts(p: Event -> bool, s: seq<Event>)
    requires AllArrived(s)
    ensures AllArrived(Pick(p, s)) && AllArrived(Drop(p, s))
  {
    PickDrop(p, s);
    forall i | 0 <= i < |Pick(p, s)| ensures Pick(p, s)[i].Arrived? {
      assert Pick(p, s)[i] in Pick(p, s);
    }
    forall i | 0 <= i < |Drop(p, s)| ensures Drop(p, s)[i].Arrived? {
      assert Drop(p, s)[i] in Drop(p, s);
    }
  }

  // ---------- order matters otherwise ----------

  /** Two latest arrivals that disagree give different rows, each when it comes last. */
  lemma {:induction false} DisagreementShows(was: Option<Incident>, a: seq<Event>, k: Key, e: Event, f: Event)
    requires Stands(was) && AllArrived(a) && !Idle(was, a, k) && IsTop(a, k, e) && IsTop(a, k, f) && !Agree(e, f)
    ensures Permutes(a, MoveLast(e, a)) && Permutes(a, MoveLast(f, a))
    ensures !SameIncident(was, RowRun(was, k, MoveLast(e, a)), RowRun(was, k, MoveLast(f, a)))
  {
    var from, first := LastWins(was, a, k, e);
    var from', first' := LastWins(was, a, k, f);
  }

  /** The latest arrivals bring no status and agree. */
  ghost predicate SilentTop(a: seq<Event>, k: Key, e: Event) {
    && IsTop(a, k, e) && e.update.status.None?
    && forall x :: x in a && Of(x, k) ==> Precedes(x, e) || (Agree(x, e) && x.update.status.None?)
  }

  /** First `e`, then the rest: the row has the content of `e` and the status it had. */
  lemma {:induction false} SilentFirst(row: Option<Incident>, a: seq<Event>, k: Key, e: Event)
    requires row.Some? && Stands(row) && Reaches(e, row) && AllArrived(a) && e in a && Of(e, k)
    requires e.update.status.None? && forall x :: x in a && Of(x, k) ==>
      Precedes(x, e) || (Agree(x, e) && x.update.status.None?)
    ensures RowRun(row, k, MoveFirst(e, a)) == Some(Final(row, e, row.value.firstProduct))
  {
    PickDrop(Is(e), a);
    ArrivedParts(Is(e), a);
    var copies, rest := Pick(Is(e), a), Drop(Is(e), a);
    assert e in copies;
    CopiesRun(row, k, copies, e);
    StaysRun(row, row.value.firstProduct, k, rest, e);
    RowRunAppend(row, k, copies, rest);
  }

  /** First `u`, then `e`, then the rest: the row keeps the status of `u`. */
  lemma StatusKept(was: Option<Incident>, a: seq<Event>, k: Key, e: Event, u: Event) returns (b: seq<Event>, first: int)
    requires Stands(was) && AllArrived(a) && SilentTop(a, k, e) && u in a && Of(u, k)
    requires StatusLost(was, u.update, e.update)
    ensures Permutes(a, b)
    ensures RowRun(was, k, b) == Some(FromUpdate(e.product, e.update, u.update.status, first))
  {
    PickDrop(Is(u), a);
    ArrivedParts(Is(u), a);
    var copies, others := Pick(Is(u), a), Drop(Is(u), a);
    assert u in copies && e in others && Precedes(u, e);
    CopiesRun(was, k, copies, u);
    first := if was.Some? then was.value.firstProduct else u.product;
    PickDrop(Is(e), others);
    SilentFirst(Some(Final(was, u, first)), others, k, e);
    b := copies + MoveFirst(e, others);
    RowRunAppend(was, k, copies, MoveFirst(e, others));
  }

  function AsLate(k: Key, e: Event): Event -> bool {
    x => Of(x, k) && !Precedes(x, e)
  }

  /** Without a row, the silent latest arrivals come first and are ignored. */
  lemma SilentIgnored(a: seq<Event>, k: Key, e: Event) returns (b: seq<Event>)
    requires AllArrived(a) && SilentTop(a, k, e)
    ensures Permutes(a, b)
    ensures RowRun(None, k, b).Some? ==> RowRun(None, k, b).value.latestTimestamp < e.update.timestamp
  {
    PickDrop(AsLate(k, e), a);
    ArrivedParts(AsLate(k, e), a);
    var late, rest := Pick(AsLate(k, e), a), Drop(AsLate(k, e), a);
    IdleRun(None, k, late);
    EarlierRun(k, rest, e);
    b := late + rest;
    RowRunAppend(None, k, late, rest);
  }

  /** A status that would be lost shows in two orders. */
  lemma LossShows(was: Option<Incident>, a: seq<Event>, k: Key, e: Event, u: Event)
    returns (b: seq<Event>, c: seq<Event>)
    requires Stands(was) && AllArrived(a) && SilentTop(a, k, e) && u in a && Of(u, k)
    requires StatusLost(was, u.update, e.update)
    ensures Permutes(a, b) && Permutes(a, c)
    ensures !SameIncident(was, RowRun(was, k, b), RowRun(was, k, c))
  {
    var first: int;
    b, first := StatusKept(was, a, k, e, u);
    if was.None? {
      c := SilentIgnored(a, k, e);
    } else {
      PickDrop(Is(e), a);
      assert Precedes(u, e);
      SilentFirst(was, a, k, e);
      c := MoveFirst(e, a);
    }
  }

  /** Whenever the condition fails, two orders of the same arrivals give different incidents. */
  lemma UnsettledShows(was: Option<Incident>, a: seq<Event>, k: Key) returns (b: seq<Event>, c: seq<Event>)
    requires Stands(was) && AllArrived(a) && !Idle(was, a, k) && !Settled(was, a, k)
    ensures Permutes(a, b) && Permutes(a, c)
    ensures !SameIncident(was, RowRun(was, k, b), RowRun(was, k, c))
  {
    if e, f :| IsTop(a, k, e) && IsTop(a, k, f) && !Agree(e, f) {
      b, c := MoveLast(e, a), MoveLast(f, a);
      DisagreementShows(was, a, k, e, f);
    } else {
      var e, u :| IsTop(a, k, e) && u in a && Of(u, k) && StatusLost(was, u.update, e.update);
      forall x | x in a && Of(x, k) ensures Precedes(x, e) || (Agree(x, e) && x.update.status.None?) {
        if !Precedes(x, e) {
          assert IsTop(a, k, x);
        }
      }
      b, c := LossShows(was, a, k, e, u);
    }
  }

  // ---------- the theorem ----------

  /** The incident is the same after `b` as after `a`. */
  ghost predicate SameAfter(t: Table, a: seq<Event>, b: seq<Event>, k: Key) {
    SameIncident(Find(t, k), Find(Run(t, a), k), Find(Run(t, b), k))
  }

  /**
   * The order in which the updates of a run arrive does not matter to an
   * incident, with or without redeliveries, exactly when nothing is written or
   * its latest updates agree and settle the status.
   */
  lemma OrderIsIrrelevantIff(t: Table, a: seq<Event>, k: Key)
    requires Lawful(t) && AllArrived(a)
    ensures (forall b :: Permutes(a, b) ==> SameAfter(t, a, b, k))
       <==> Idle(Find(t, k), a, k) || Settled(Find(t, k), a, k)
    ensures (forall b :: AllArrived(b) && SameArrivals(a, b) ==> SameAfter(t, a, b, k))
       <==> Idle(Find(t, k), a, k) || Settled(Find(t, k), a, k)
  {
    var was := Find(t, k);
    assert Stands(was) by {
      assert k in t ==> LawfulStatus(t[k].status);
    }
    if Idle(was, a, k) || Settled(was, a, k) {
      forall b | AllArrived(b) && SameArrivals(a, b) ensures SameAfter(t, a, b, k) {
        RowsAreIndependent(t, a, k);
        RowsAreIndependent(t, b, k);
        SettledRow(was, a, b, k);
      }
      forall b | Permutes(a, b) ensures SameAfter(t, a, b, k) {
        PermutesMembers(a, b);
      }
    } else {
      var b, c := UnsettledShows(was, a, k);
      RowsAreIndependent(t, a, k);
      RowsAreIndependent(t, b, k);
      RowsAreIndependent(t, c, k);
      PermutesMembers(a, b);
      PermutesMembers(a, c);
      assert !SameAfter(t, a, b, k) || !SameAfter(t, a, c, k);
    }
  }

  // ---------- with sweeps ----------

  predicate Passed(end: Option<int>, now: int) {
    end.Some? && end.value < now
  }

  /** A status as a sweep at `now` leaves it in a row with that end. */
  function SweptStatus(status: Option<string>, end: Option<int>, now: int): Option<string> {
    if status == Some("active") && Passed(end, now) then Some("expired") else status
  }

  /** As `Agree`, but statuses need only agree once a sweep has passed. */
  predicate AgreeSwept(e: Event, f: Event, now: int) {
    && e.Arrived? && f.Arrived? && Content(e) == Content(f)
    && (e.update.status.Some? && f.update.status.Some? ==>
          SweptStatus(e.update.status, e.update.end, now) == SweptStatus(f.update.status, e.update.end, now))
  }

  /** Without a status of its own, the latest arrival finds the same status whatever came before it. */
  predicate KeepsStatus(was: Option<Incident>, top: Event, e: Event, now: int) {
    && was.Some? && top.Arrived? && e.Arrived?
    && (Reaches(e, was) && e.update.status.Some? ==>
          SweptStatus(e.update.status, top.update.end, now) == SweptStatus(was.value.status, top.update.end, now))
  }

  /** No sweep can expire the row before the latest arrival, unless that one is due itself. */
  ghost predicate SweepProof(was: Option<Incident>, a: seq<Event>, k: Key, top: Event, now: int)
    requires was.Some? && top.Arrived?
  {
    || was.value.status != Some("active") || Passed(top.update.end, now)
    || (!Passed(was.value.end, now) && forall e :: e in a && Of(e, k) && Reaches(e, was) ==> !Passed(e.update.end, now))
  }

  /** The latest arrivals agree, and one has a status or what came before cannot change the one they find. */
  ghost predicate SweptSettled(was: Option<Incident>, a: seq<Event>, k: Key, now: int) {
    && (forall e, f :: IsTop(a, k, e) && IsTop(a, k, f) ==> AgreeSwept(e, f, now))
    && ((exists e :: IsTop(a, k, e) && e.update.status.Some?)
        || forall e :: IsTop(a, k, e) ==>
             && (forall u :: u in a && Of(u, k) ==> KeepsStatus(was, e, u, now))
             && was.Some? && SweepProof(was, a, k, e, now))
  }

  /** The status the row ends with once `top` has come and the last sweep has passed. */
  function FinalStatus(was: Option<Incident>, top: Event, now: int): Option<string>
    requires top.Arrived?
  {
    SweptStatus(Coalesce(top.update.status, if was.Some? then was.value.status else None), top.update.end, now)
  }

  /** An arrival that cannot keep `top` and the last sweep from settling the row. */
  predicate YieldsSwept(was: Option<Incident>, top: Event, e: Event, now: int) {
    && e.Arrived? && top.Arrived?
    && (Precedes(e, top)
        || (Content(e) == Content(top)
            && (e.update.status.Some? ==>
              SweptStatus(e.update.status, top.update.end, now) == FinalStatus(was, top, now))))
    && (top.update.status.None? && Reaches(e, was) ==>
          && (e.update.status.Some? ==> SweptStatus(e.update.status, top.update.end, now) == FinalStatus(was, top, now))
          && (FinalStatus(was, top, now) == Some("active") ==> !Passed(e.update.end, now)))
  }

  /** As `OnItsWay`, with sweeps up to `now`. */
  predicate OnItsWaySwept(was: Option<Incident>, top: Event, row: Option<Incident>, came: bool, now: int) {
    && Stands(row) && Reaches(top, row)
    && (was.Some? ==>
          && row.Some? && row.value.firstProduct == was.value.firstProduct
          && was.value.latestTimestamp <= row.value.latestTimestamp)
    && (came ==> row.Some? && row.value.(status := None, firstProduct := 0) == Content(top))
    && (came || top.update.status.None? ==>
          && row.Some? && SweptStatus(row.value.status, top.update.end, now) == FinalStatus(was, top, now)
          && (FinalStatus(was, top, now) == Some("active") ==> !Passed(row.value.end, now)))
  }

  lemma SweptYieldingStep(was: Option<Incident>, top: Event, k: Key, row: Option<Incident>, came: bool, e: Event,
                          now: int)
    requires Stands(was) && Of(top, k) && (was.Some? || top.update.status.Some?)
    requires OnItsWaySwept(was, top, row, came, now) && Of(e, k) && YieldsSwept(was, top, e, now)
    ensures OnItsWaySwept(was, top, RowStep(row, k, e), came, now)
  {
  }

  lemma SweptTopStep(was: Option<Incident>, top: Event, k: Key, row: Option<Incident>, came: bool, now: int)
    requires Stands(was) && Of(top, k) && (was.Some? || top.update.status.Some?)
    requires OnItsWaySwept(was, top, row, came, now)
    ensures OnItsWaySwept(was, top, RowStep(row, k, top), true, now)
  {
  }

  lemma SweptExpiryStep(was: Option<Incident>, top: Event, k: Key, row: Option<Incident>, came: bool, early: int,
                        now: int)
    requires top.Arrived? && OnItsWaySwept(was, top, row, came, now) && early <= now
    ensures OnItsWaySwept(was, top, RowStep(row, k, Expiry(early)), came, now)
  {
  }

  ghost predicate AllYieldSwept(was: Option<Incident>, top: Event, k: Key, s: seq<Event>, now: int) {
    forall e :: e in s && Of(e, k) ==> YieldsSwept(was, top, e, now)
  }

  lemma {:induction false} SweptRunSettles(was: Option<Incident>, top: Event, k: Key, s: seq<Event>, now: int)
    requires Stands(was) && Of(top, k) && (was.Some? || top.update.status.Some?)
    requires OnItsWaySwept(was, top, was, false, now)
    requires SweptBy(s, now) && AllYieldSwept(was, top, k, s, now)
    ensures OnItsWaySwept(was, top, RowRun(was, k, s), top in s, now)
  {
    if s != [] {
      var init, last := s[..|s| - 1], s[|s| - 1];
      assert s == init + [last] && last in s;
      SweptRunSettles(was, top, k, init, now);
      var row := RowRun(was, k, init);
      if last == top {
        SweptTopStep(was, top, k, row, top in init, now);
      } else if Of(last, k) {
        SweptYieldingStep(was, top, k, row, top in init, last, now);
      } else if last.Expiry? {
        SweptExpiryStep(was, top, k, row, top in init, last.now, now);
      }
    }
  }

  /** A settled row, once the last sweep has passed. */
  lemma SettledBySweep(was: Option<Incident>, top: Event, row: Option<Incident>, now: int)
    requires top.Arrived? && OnItsWaySwept(was, top, row, true, now)
    ensures Sweep(row, now).Some?
    ensures Sweep(row, now).value
         == Content(top).(status := FinalStatus(was, top, now), firstProduct := row.value.firstProduct)
  {
  }

  lemma {:induction false} SweptIdleRun(was: Option<Incident>, k: Key, s: seq<Event>, now: int)
    requires Stands(was) && SweptBy(s, now) && Idle(was, s, k)
    ensures Sweep(RowRun(was, k, s), now) == Sweep(was, now)
    ensures Stands(RowRun(was, k, s))
  {
    if s != [] {
      var init, last := s[..|s| - 1], s[|s| - 1];
      assert s == init + [last] && last in s;
      SweptIdleRun(was, k, init, now);
      SameUnswept(RowRun(was, k, init), was, now);
      if last.Expiry? {
        SweepAgain(RowRun(was, k, init), last.now, now);
      }
    }
  }

  lemma SweptSettlingTop(was: Option<Incident>, a: seq<Event>, k: Key, now: int) returns (top: Event)
    requires Stands(was) && SweptSettled(was, a, k, now) && !Idle(was, a, k)
    ensures IsTop(a, k, top) && (was.Some? || top.update.status.Some?)
    ensures OnItsWaySwept(was, top, was, false, now) && AllYieldSwept(was, top, k, a, now)
  {
    var e :| e in a && Of(e, k) && if was.Some? then Reaches(e, was) else e.update.status.Some?;
    if f :| IsTop(a, k, f) && f.update.status.Some? {
      top := f;
    } else {
      top := TopExists(a, k, e);
    }
    assert !Precedes(top, e);
    forall x | x in a && Of(x, k) ensures YieldsSwept(was, top, x, now) {
      if !Precedes(x, top) {
        assert IsTop(a, k, x);
        assert AgreeSwept(top, x, now);
      }
      if top.update.status.None? {
        assert KeepsStatus(was, top, x, now);
      }
    }
  }

  /**
   * Whatever the order, the redeliveries and the sweeps in between, the same
   * settled arrivals give the same incident once a last sweep has passed.
   */
  lemma {:induction false} ArrivalOrderIsIrrelevant(t: Table, a: seq<Event>, b: seq<Event>, now: int, k: Key)
    requires Lawful(t) && SameArrivals(a, b) && SweptBy(a, now) && SweptBy(b, now)
    requires Idle(Find(t, k), a, k) || SweptSettled(Find(t, k), a, k, now)
    ensures SameIncident(Find(t, k), Find(Expire(Run(t, a), now), k), Find(Expire(Run(t, b), now), k))
  {
    var was := Find(t, k);
    assert Stands(was) by {
      assert k in t ==> LawfulStatus(t[k].status);
    }
    RowsAreIndependent(t, a, k);
    RowsAreIndependent(t, b, k);
    if Idle(was, a, k) {
      SweptIdleRun(was, k, a, now);
      SweptIdleRun(was, k, b, now);
    } else {
      var top := SweptSettlingTop(was, a, k, now);
      SweptRunSettles(was, top, k, a, now);
      SweptRunSettles(was, top, k, b, now);
      SettledBySweep(was, top, RowRun(was, k, a), now);
      SettledBySweep(was, top, RowRun(was, k, b), now);
    }
  }

  // ---------- order or sweeps matter otherwise ----------

  /** The same arrivals, with sweeps no later than `now`. */
  ghost predicate Resweeps(a: seq<Event>, b: seq<Event>, now: int) {
    SameArrivals(a, b) && SweptBy(b, now)
  }

  ghost predicate DifferBySweep(was: Option<Incident>, k: Key, b: seq<Event>, c: seq<Event>, now: int) {
    !SameIncident(was, Sweep(RowRun(was, k, b), now), Sweep(RowRun(was, k, c), now))
  }

  lemma PermutesResweeps(a: seq<Event>, b: seq<Event>, now: int)
    requires AllArrived(a) && Permutes(a, b)
    ensures Resweeps(a, b, now)
  {
    PermutesMembers(a, b);
  }

  lemma SweptDisagreementShows(was: Option<Incident>, a: seq<Event>, k: Key, e: Event, f: Event, now: int)
    returns (b: seq<Event>, c: seq<Event>)
    requires Stands(was) && AllArrived(a) && !Idle(was, a, k)
    requires IsTop(a, k, e) && IsTop(a, k, f) && !AgreeSwept(e, f, now)
    ensures Resweeps(a, b, now) && Resweeps(a, c, now) && DifferBySweep(was, k, b, c, now)
  {
    var from, first := LastWins(was, a, k, e);
    var from', first' := LastWins(was, a, k, f);
    b, c := MoveLast(e, a), MoveLast(f, a);
    PermutesResweeps(a, b, now);
    PermutesResweeps(a, c, now);
    assert Sweep(RowRun(was, k, b), now).value.(status := None, firstProduct := 0) == Content(e);
    assert Sweep(RowRun(was, k, c), now).value.(status := None, firstProduct := 0) == Content(f);
  }

  /** Without a row, a status that would be lost decides whether the latest arrival is written at all. */
  lemma SweptOpeningShows(a: seq<Event>, k: Key, e: Event, u: Event, now: int)
    returns (b: seq<Event>, c: seq<Event>)
    requires AllArrived(a) && SilentTop(a, k, e) && u in a && Of(u, k) && u.update.status.Some?
    ensures Resweeps(a, b, now) && Resweeps(a, c, now) && DifferBySweep(None, k, b, c, now)
  {
    var first: int;
    b, first := StatusKept(None, a, k, e, u);
    c := SilentIgnored(a, k, e);
    PermutesResweeps(a, b, now);
    PermutesResweeps(a, c, now);
  }

  lemma SweptLossShows(was: Option<Incident>, a: seq<Event>, k: Key, e: Event, u: Event, now: int)
    returns (b: seq<Event>, c: seq<Event>)
    requires was.Some? && Stands(was) && AllArrived(a) && SilentTop(a, k, e) && u in a && Of(u, k)
    requires !KeepsStatus(was, e, u, now)
    ensures Resweeps(a, b, now) && Resweeps(a, c, now) && DifferBySweep(was, k, b, c, now)
  {
    var first: int;
    b, first := StatusKept(was, a, k, e, u);
    PickDrop(Is(e), a);
    assert Precedes(u, e);
    SilentFirst(was, a, k, e);
    c := MoveFirst(e, a);
    PermutesResweeps(a, b, now);
    PermutesResweeps(a, c, now);
  }

  lemma SweptAppend(a: seq<Event>, b: seq<Event>, now: int)
    requires SweptBy(a, now) && SweptBy(b, now)
    ensures SweptBy(a + b, now)
  {
  }

  /** A sweep before the silent latest arrival expires a row that would stay active after it. */
  lemma SweepShows(was: Option<Incident>, a: seq<Event>, k: Key, e: Event, now: int)
    returns (b: seq<Event>, c: seq<Event>)
    requires was.Some? && was.value.status == Some("active") && Reaches(e, was) && AllArrived(a) && SilentTop(a, k, e)
    requires !Passed(e.update.end, now)
    requires Passed(was.value.end, now)
    ensures Resweeps(a, b, now) && Resweeps(a, c, now) && DifferBySweep(was, k, b, c, now)
  {
    c := ActiveAfterSilent(was, a, k, e, now);
    var sweep := [Expiry(now)];
    assert sweep[..0] == [] && RowRun(was, k, []) == was;
    var expired := RowRun(was, k, sweep);
    assert expired == Some(ExpireRow(was.value, now));
    SilentFirst(expired, a, k, e);
    b := sweep + c;
    RowRunAppend(was, k, sweep, c);
    SweptAppend(sweep, c, now);
  }

  /** Copies of a due arrival, a sweep, then the silent latest arrival and the rest. */
  lemma {:induction false} SweptBetweenRow(was: Option<Incident>, k: Key, copies: seq<Event>, others: seq<Event>,
                                           e: Event, u: Event, now: int)
    requires was.Some? && was.value.status == Some("active") && Of(u, k) && Reaches(u, was) && Precedes(u, e)
    requires u.update.status.None? || u.update.status == Some("active")
    requires Passed(u.update.end, now) && copies != [] && forall x :: x in copies ==> x == u
    requires AllArrived(others) && e in others && Of(e, k) && e.update.status.None?
    requires forall x :: x in others && Of(x, k) ==> Precedes(x, e) || (Agree(x, e) && x.update.status.None?)
    ensures RowRun(was, k, copies + ([Expiry(now)] + MoveFirst(e, others)))
         == Some(FromUpdate(e.product, e.update, Some("expired"), was.value.firstProduct))
  {
    var sweep, rest := [Expiry(now)], MoveFirst(e, others);
    CopiesRun(was, k, copies, u);
    var between := Some(Final(was, u, was.value.firstProduct));
    assert sweep[..0] == [] && RowRun(between, k, []) == between;
    var expired := RowRun(between, k, sweep);
    assert expired == Some(ExpireRow(between.value, now));
    SilentFirst(expired, others, k, e);
    RowRunAppend(was, k, copies, sweep + rest);
    RowRunAppend(between, k, sweep, rest);
  }

  /** The same with an earlier arrival that is due. */
  lemma SweepBetweenShows(was: Option<Incident>, a: seq<Event>, k: Key, e: Event, u: Event, now: int)
    returns (b: seq<Event>, c: seq<Event>)
    requires was.Some? && was.value.status == Some("active") && AllArrived(a) && SilentTop(a, k, e)
    requires !Passed(e.update.end, now)
    requires u in a && Of(u, k) && Reaches(u, was) && KeepsStatus(was, e, u, now) && Passed(u.update.end, now)
    ensures Resweeps(a, b, now) && Resweeps(a, c, now) && DifferBySweep(was, k, b, c, now)
  {
    assert Precedes(u, e);
    c := ActiveAfterSilent(was, a, k, e, now);
    var first: seq<Event>, others: seq<Event>;
    first, others := Parted(a, u, e);
    b := first + ([Expiry(now)] + MoveFirst(e, others));
    SweptBetweenRow(was, k, first, others, e, u, now);
    BetweenResweeps(a, first, others, e, now);
  }

  lemma Parted(a: seq<Event>, u: Event, e: Event) returns (copies: seq<Event>, others: seq<Event>)
    requires AllArrived(a) && u in a && e in a && u != e
    ensures copies != [] && e in others && AllArrived(copies) && AllArrived(others)
    ensures forall x :: x in copies ==> x == u
    ensures forall x :: x in others ==> x in a
    ensures forall x :: x in a <==> x in copies || x in others
  {
    PickDrop(Is(u), a);
    ArrivedParts(Is(u), a);
    copies, others := Pick(Is(u), a), Drop(Is(u), a);
    assert u in copies;
  }

  lemma ActiveAfterSilent(was: Option<Incident>, a: seq<Event>, k: Key, e: Event, now: int) returns (c: seq<Event>)
    requires was.Some? && was.value.status == Some("active") && Reaches(e, was) && AllArrived(a) && SilentTop(a, k, e)
    requires !Passed(e.update.end, now)
    ensures Resweeps(a, c, now) && c == MoveFirst(e, a)
    ensures Sweep(RowRun(was, k, c), now)
         == Some(FromUpdate(e.product, e.update, Some("active"), was.value.firstProduct))
  {
    PickDrop(Is(e), a);
    c := MoveFirst(e, a);
    PermutesResweeps(a, c, now);
    SilentFirst(was, a, k, e);
  }

  lemma BetweenResweeps(a: seq<Event>, copies: seq<Event>, others: seq<Event>, e: Event, now: int)
    requires AllArrived(copies) && AllArrived(others) && forall x :: x in a <==> x in copies || x in others
    ensures Resweeps(a, copies + ([Expiry(now)] + MoveFirst(e, others)), now)
  {
    PickDrop(Is(e), others);
    ArrivedParts(Is(e), others);
    var rest := MoveFirst(e, others);
    SweptAppend([Expiry(now)], rest, now);
    SweptAppend(copies, [Expiry(now)] + rest, now);
  }

  lemma SweptUnsettledShows(was: Option<Incident>, a: seq<Event>, k: Key, now: int)
    returns (b: seq<Event>, c: seq<Event>)
    requires Stands(was) && AllArrived(a) && !Idle(was, a, k) && !SweptSettled(was, a, k, now)
    ensures Resweeps(a, b, now) && Resweeps(a, c, now) && DifferBySweep(was, k, b, c, now)
  {
    if e, f :| IsTop(a, k, e) && IsTop(a, k, f) && !AgreeSwept(e, f, now) {
      b, c := SweptDisagreementShows(was, a, k, e, f, now);
    } else {
      var e :| IsTop(a, k, e) && !((forall u :: u in a && Of(u, k) ==> KeepsStatus(was, e, u, now))
                                   && was.Some? && SweepProof(was, a, k, e, now));
      assert SilentTop(a, k, e) by {
        forall x | x in a && Of(x, k) ensures Precedes(x, e) || (Agree(x, e) && x.update.status.None?) {
          if !Precedes(x, e) {
            assert IsTop(a, k, x);
            assert AgreeSwept(x, e, now);
          }
        }
      }
      var w :| w in a && Of(w, k) && if was.Some? then Reaches(w, was) else w.update.status.Some?;
      assert !Precedes(e, w);
      if was.None? {
        b, c := SweptOpeningShows(a, k, e, w, now);
      } else if u :| u in a && Of(u, k) && !KeepsStatus(was, e, u, now) {
        b, c := SweptLossShows(was, a, k, e, u, now);
      } else if Passed(was.value.end, now) {
        b, c := SweepShows(was, a, k, e, now);
      } else {
        var u :| u in a && Of(u, k) && Reaches(u, was) && Passed(u.update.end, now);
        b, c := SweepBetweenShows(was, a, k, e, u, now);
      }
    }
  }

  /** The incident is the same after `b` as after `a`, once a last sweep has passed. */
  ghost predicate SameAfterSweep(t: Table, a: seq<Event>, b: seq<Event>, now: int, k: Key) {
    SameIncident(Find(t, k), Find(Expire(Run(t, a), now), k), Find(Expire(Run(t, b), now), k))
  }

  lemma {:induction false} SweptRow(t: Table, a: seq<Event>, now: int, k: Key)
    ensures Find(Expire(Run(t, a), now), k) == Sweep(RowRun(Find(t, k), k, a), now)
  {
    RowsAreIndependent(t, a, k);
  }

  /**
   * With sweeps anywhere and a last one at `now`, neither the order of the
   * updates nor the place of the sweeps matters exactly when nothing is written
   * or the latest updates settle the row.
   */
  lemma SweptOrderIsIrrelevantIff(t: Table, a: seq<Event>, now: int, k: Key)
    requires Lawful(t) && AllArrived(a)
    ensures (forall b :: Resweeps(a, b, now) ==> SameAfterSweep(t, a, b, now, k))
       <==> Idle(Find(t, k), a, k) || SweptSettled(Find(t, k), a, k, now)
  {
    var was := Find(t, k);
    assert Stands(was) by {
      assert k in t ==> LawfulStatus(t[k].status);
    }
    if Idle(was, a, k) || SweptSettled(was, a, k, now) {
      forall b | Resweeps(a, b, now) ensures SameAfterSweep(t, a, b, now, k) {
        ArrivalOrderIsIrrelevant(t, a, b, now, k);
      }
    } else {
      var b, c := SweptUnsettledShows(was, a, k, now);
      SweptRow(t, a, now, k);
      SweptRow(t, b, now, k);
      SweptRow(t, c, now, k);
      assert !SameAfterSweep(t, a, b, now, k) || !SameAfterSweep(t, a, c, now, k);
    }
  }

  /** An active incident, a correction without a status that extends it, and a sweep before or after the correction. */
  lemma SweepBeforeCorrectionShows(k: Key)
    ensures var was := Some(Incident(Some("active"), "NEW", 1, None, Some(10), 1, 1, 1));
      var cor := Arrived(2, Update(k, None, "COR", 2, None, Some(100), 2));
      DifferBySweep(was, k, [Expiry(20), cor], [cor, Expiry(20)], 50)
  {
    var was := Some(Incident(Some("active"), "NEW", 1, None, Some(10), 1, 1, 1));
    var cor := Arrived(2, Update(k, None, "COR", 2, None, Some(100), 2));
    var b, c := [Expiry(20), cor], [cor, Expiry(20)];
    assert b[..1] == [Expiry(20)] && c[..1] == [cor] && [Expiry(20)][..0] == [] && [cor][..0] == [];
    assert RowRun(was, k, []) == was;
    assert RowRun(was, k, [Expiry(20)]).value.status == Some("expired");
    assert RowRun(was, k, b).value.status == Some("expired");
    assert RowRun(was, k, [cor]).value.status == Some("active");
    assert RowRun(was, k, c).value.status == Some("active");
  }
}
