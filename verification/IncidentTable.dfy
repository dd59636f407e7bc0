/**
 * The incident table: last writer wins by product timestamp, beside a sweep
 * that expires active incidents. Null columns are absent values.
 */
module IncidentTable {
  import opened Prelude
  import opened IncidentUpdates

  datatype Incident = Incident(status: Option<string>, action: string, issuedAt: int, start: Option<int>,
                               end: Option<int>, firstProduct: int, latestProduct: int, latestTimestamp: int)

  type Table = map<Key, Incident>

  /** What happens to the table: an update of a product arrives, or the sweep passes. */
  datatype Event = Arrived(product: int, update: Update) | Expiry(now: int)

  /** The values the table's check constraint admits. */
  const STATUSES := {"active", "cancelled", "expired", "upgraded"}

  function Coalesce(a: Option<string>, b: Option<string>): Option<string> {
    if a.Some? then a else b
  }

  function FromUpdate(product: int, u: Update, status: Option<string>, firstProduct: int): Incident {
    Incident(status, u.action, u.issuedAt, u.start, u.end, firstProduct, product, u.timestamp)
  }

  /** The row an upsert leaves: nothing without a status, the old row when the update is stale. */
  function UpsertRow(was: Option<Incident>, product: int, u: Update): Option<Incident> {
    var offered := Coalesce(u.status, if was.Some? then was.value.status else None);
    if offered.None? then was
    else if was.None? then Some(FromUpdate(product, u, offered, product))
    else if u.timestamp >= was.value.latestTimestamp then
      Some(FromUpdate(product, u, Coalesce(offered, was.value.status), was.value.firstProduct))
    else was
  }

  predicate Due(row: Incident, now: int) {
    row.status == Some("active") && row.end.Some? && row.end.value < now
  }

  function ExpireRow(row: Incident, now: int): Incident {
    if Due(row, now) then row.(status := Some("expired")) else row
  }

  function Find(t: Table, k: Key): Option<Incident> {
    if k in t then Some(t[k]) else None
  }

  function Upsert(t: Table, product: int, u: Update): Table {
    match UpsertRow(Find(t, u.key), product, u)
    case None => t
    case Some(row) => t[u.key := row]
  }

  function Expire(t: Table, now: int): Table {
    map k | k in t :: ExpireRow(t[k], now)
  }

  function Apply(t: Table, e: Event): Table {
    match e
    case Arrived(product, u) => Upsert(t, product, u)
    case Expiry(now) => Expire(t, now)
  }

  function Run(t: Table, es: seq<Event>): Table {
    if es == [] then t else Apply(Run(t, es[..|es| - 1]), es[|es| - 1])
  }

  // ---------- the table as its operations change it ----------

  function Arrivals(product: int, updates: seq<Update>): seq<Event> {
    seq(|updates|, i requires 0 <= i < |updates| => Arrived(product, updates[i]))
  }

  class Incidents {
    var rows: Table

    constructor ()
      ensures rows == map[]
    {
      rows := map[];
    }

    /** The updates of one product, in order. */
    method UpsertIncidents(product: int, updates: seq<Update>)
      modifies this
      ensures rows == Run(old(rows), Arrivals(product, updates))
    {
      ghost var all := Arrivals(product, updates);
      for i := 0 to |updates|
        invariant rows == Run(old(rows), all[..i])
      {
        var u := updates[i];
        var existing := if u.key in rows then rows[u.key].status else None;
        var offered := if u.status.Some? then u.status else existing;
        ghost var before := rows;
        if offered.Some? {
          if u.key !in rows {
            rows := rows[u.key := FromUpdate(product, u, offered, product)];
          } else if u.timestamp >= rows[u.key].latestTimestamp {
            rows := rows[u.key := FromUpdate(product, u, offered, rows[u.key].firstProduct)];
          }
        }
        assert rows == Upsert(before, product, u);
        assert all[..i + 1][..i] == all[..i] && all[..i + 1][i] == Arrived(product, u);
      }
      assert all[..|updates|] == all;
    }

    /** Expires what is due and reports how many rows that changed. */
    method ExpireActiveIncidents(now: int) returns (expiredCount: nat)
      modifies this
      ensures rows == Run(old(rows), [Expiry(now)])
      ensures rows.Keys == old(rows).Keys
      ensures expiredCount == |set k | k in old(rows) && rows[k] != old(rows)[k]|
    {
      var due := set k | k in rows && Due(rows[k], now);
      expiredCount := |due|;
      rows := map k | k in rows :: if k in due then rows[k].(status := Some("expired")) else rows[k];
      assert rows == Expire(old(rows), now);
      assert due == set k | k in old(rows) && rows[k] != old(rows)[k];
      assert [Expiry(now)][..0] == [] && Run(old(rows), []) == old(rows);
    }
  }

  // ---------- one row at a time ----------

  function RowStep(was: Option<Incident>, k: Key, e: Event): Option<Incident> {
    match e
    case Arrived(product, u) => if u.key == k then UpsertRow(was, product, u) else was
    case Expiry(now) => if was.Some? then Some(ExpireRow(was.value, now)) else None
  }

  function RowRun(was: Option<Incident>, k: Key, es: seq<Event>): Option<Incident> {
    if es == [] then was else RowStep(RowRun(was, k, es[..|es| - 1]), k, es[|es| - 1])
  }

  /** Keys do not interact: each row evolves by the events of its own key and the sweeps. */
  lemma {:induction false} RowsAreIndependent(t: Table, es: seq<Event>, k: Key)
    ensures Find(Run(t, es), k) == RowRun(Find(t, k), k, es)
  {
    if es != [] {
      RowsAreIndependent(t, es[..|es| - 1], k);
    }
  }

  // ---------- what every run keeps ----------

  predicate LawfulStatus(status: Option<string>) {
    status.Some? && status.value in STATUSES
  }

  ghost predicate Lawful(t: Table) {
    forall k :: k in t ==> LawfulStatus(t[k].status)
  }

  predicate LawfulEvent(e: Event) {
    e.Arrived? && e.update.status.Some? ==> LawfulStatus(e.update.status)
  }

  ghost predicate LawfulEvents(es: seq<Event>) {
    forall i :: 0 <= i < |es| ==> LawfulEvent(es[i])
  }

  /** The updates a product prepares satisfy the check constraint. */
  lemma PreparedUpdatesAreLawful(updates: seq<Update>, rows: seq<VtecRow>, issuedAt: int, product: int)
    requires IsSummaryOf(updates, rows, issuedAt)
    ensures LawfulEvents(Arrivals(product, updates))
  {
    forall i | 0 <= i < |updates| && updates[i].status.Some? ensures LawfulStatus(updates[i].status) {
      var u := updates[i];
      assert Summarizes(Summary(u.status, u.action, u.start, u.end), RowsOf(rows, u.key));
    }
  }

  ghost predicate Grows(before: Table, after: Table) {
    forall k :: k in before ==>
      && k in after && after[k].firstProduct == before[k].firstProduct
      && after[k].latestTimestamp >= before[k].latestTimestamp
  }

  /** No run breaks the status constraints, drops a row, renames a first product or goes back in time. */
  lemma {:induction false} RunKeeps(t: Table, es: seq<Event>)
    requires Lawful(t) && LawfulEvents(es)
    ensures Lawful(Run(t, es)) && Grows(t, Run(t, es))
  {
    if es != [] {
      RunKeeps(t, es[..|es| - 1]);
    }
  }

  // ---------- replays ----------

  ghost predicate DistinctKeys(updates: seq<Update>) {
    forall i, j :: 0 <= i < j < |updates| ==> updates[i].key != updates[j].key
  }

  lemma {:induction false} ForeignUpdates(was: Option<Incident>, k: Key, product: int, updates: seq<Update>)
    requires forall i :: 0 <= i < |updates| ==> updates[i].key != k
    ensures RowRun(was, k, Arrivals(product, updates)) == was
  {
    if updates != [] {
      var n := |updates| - 1;
      ForeignUpdates(was, k, product, updates[..n]);
      assert Arrivals(product, updates)[..n] == Arrivals(product, updates[..n]);
    }
  }

  lemma {:induction false} OwnUpdate(was: Option<Incident>, product: int, updates: seq<Update>, i: nat)
    requires DistinctKeys(updates) && i < |updates|
    ensures RowRun(was, updates[i].key, Arrivals(product, updates)) == UpsertRow(was, product, updates[i])
  {
    var n := |updates| - 1;
    assert Arrivals(product, updates)[..n] == Arrivals(product, updates[..n]);
    if i < n {
      OwnUpdate(was, product, updates[..n], i);
      assert updates[n].key != updates[i].key;
    } else {
      ForeignUpdates(was, updates[i].key, product, updates[..n]);
    }
  }

  /** A product persisted again right away, as a retry does, leaves the table as it was. */
  lemma {:induction false} ReplayIsIdempotent(t: Table, product: int, updates: seq<Update>)
    requires DistinctKeys(updates)
    ensures var once := Run(t, Arrivals(product, updates)); Run(once, Arrivals(product, updates)) == once
  {
    var es := Arrivals(product, updates);
    var once := Run(t, es);
    forall k ensures Find(Run(once, es), k) == Find(once, k) {
      RowsAreIndependent(t, es, k);
      RowsAreIndependent(once, es, k);
      if i :| 0 <= i < |updates| && updates[i].key == k {
        OwnUpdate(Find(t, k), product, updates, i);
        OwnUpdate(Find(once, k), product, updates, i);
      } else {
        ForeignUpdates(Find(once, k), k, product, updates);
      }
    }
    SameRows(Run(once, es), once);
  }

  lemma SameRows(a: Table, b: Table)
    requires forall k :: Find(a, k) == Find(b, k)
    ensures a == b
  {
    forall k ensures k in a <==> k in b {
      assert Find(a, k) == Find(b, k);
    }
    forall k | k in a ensures a[k] == b[k] {
      assert Find(a, k) == Find(b, k);
    }
  }

  // ---------- sweeps ----------

  /** The run without its sweeps. */
  function Updates(es: seq<Event>): seq<Event> {
    if es == [] then []
    else Updates(es[..|es| - 1]) + (if es[|es| - 1].Arrived? then [es[|es| - 1]] else [])
  }

  /** Equal but for a status that a sweep may have turned from active to expired. */
  predicate Swept(row: Option<Incident>, unswept: Option<Incident>) {
    && row.Some? == unswept.Some?
    && (row.Some? ==>
          && row.value.(status := None) == unswept.value.(status := None)
          && (row.value.status == unswept.value.status
              || (unswept.value.status == Some("active") && row.value.status == Some("expired"))))
  }

  lemma {:induction false} RowRunPush(was: Option<Incident>, k: Key, es: seq<Event>, e: Event)
    ensures RowRun(was, k, es + [e]) == RowStep(RowRun(was, k, es), k, e)
  {
    assert (es + [e])[..|es|] == es;
  }

  /** Sweeps decide nothing but active or expired: not which rows exist nor any other column. */
  lemma {:induction false} SweepsOnlyExpire(t: Table, es: seq<Event>, k: Key)
    ensures Swept(Find(Run(t, es), k), Find(Run(t, Updates(es)), k))
  {
    RowsAreIndependent(t, es, k);
    RowsAreIndependent(t, Updates(es), k);
    if es != [] {
      var prefix, last := es[..|es| - 1], es[|es| - 1];
      SweepsOnlyExpire(t, prefix, k);
      RowsAreIndependent(t, prefix, k);
      RowsAreIndependent(t, Updates(prefix), k);
      if last.Arrived? {
        RowRunPush(Find(t, k), k, Updates(prefix), last);
      } else {
        assert Updates(prefix) + [] == Updates(prefix);
      }
    }
  }

  ghost predicate SweptBy(es: seq<Event>, now: int) {
    forall i :: 0 <= i < |es| && es[i].Expiry? ==> es[i].now <= now
  }

  ghost predicate KnownStatuses(es: seq<Event>) {
    forall i :: 0 <= i < |es| && es[i].Arrived? ==> es[i].update.status.Some?
  }

  function Sweep(row: Option<Incident>, now: int): Option<Incident> {
    if row.Some? then Some(ExpireRow(row.value, now)) else None
  }

  lemma SameUnswept(a: Option<Incident>, b: Option<Incident>, now: int)
    requires Sweep(a, now) == Sweep(b, now)
    ensures a.Some? == b.Some?
    ensures a.Some? ==> a.value.(status := None) == b.value.(status := None)
  {
    if a.Some? {
      assert Sweep(a, now).value.(status := None) == a.value.(status := None);
      assert Sweep(b, now).value.(status := None) == b.value.(status := None);
    }
  }

  /** An update with a status leaves rows that a sweep makes equal, equal after a sweep. */
  lemma SweepAfterUpdate(a: Option<Incident>, b: Option<Incident>, product: int, u: Update, now: int)
    requires Sweep(a, now) == Sweep(b, now) && u.status.Some?
    ensures Sweep(UpsertRow(a, product, u), now) == Sweep(UpsertRow(b, product, u), now)
  {
    SameUnswept(a, b, now);
    if a.None? || u.timestamp >= a.value.latestTimestamp {
      assert UpsertRow(a, product, u) == UpsertRow(b, product, u);
    }
  }

  lemma SweepAgain(a: Option<Incident>, early: int, now: int)
    requires early <= now
    ensures Sweep(Sweep(a, early), now) == Sweep(a, now)
  {
  }

  lemma {:induction false} LastSweepAbsorbsRow(was: Option<Incident>, k: Key, es: seq<Event>, now: int)
    requires SweptBy(es, now) && KnownStatuses(es)
    ensures Sweep(RowRun(was, k, es), now) == Sweep(RowRun(was, k, Updates(es)), now)
  {
    if es != [] {
      var prefix, last := es[..|es| - 1], es[|es| - 1];
      LastSweepAbsorbsRow(was, k, prefix, now);
      match last
      case Arrived(product, u) =>
        RowRunPush(was, k, Updates(prefix), last);
        SweepAfterUpdate(RowRun(was, k, prefix), RowRun(was, k, Updates(prefix)), product, u, now);
      case Expiry(early) =>
        assert Updates(prefix) + [] == Updates(prefix);
        SweepAgain(RowRun(was, k, prefix), early, now);
    }
  }

  /** With known statuses, one sweep at the end does all that any earlier sweeps did. */
  lemma {:induction false} LastSweepAbsorbs(t: Table, es: seq<Event>, now: int)
    requires SweptBy(es, now) && KnownStatuses(es)
    ensures Expire(Run(t, es), now) == Expire(Run(t, Updates(es)), now)
  {
    forall k ensures Find(Expire(Run(t, es), now), k) == Find(Expire(Run(t, Updates(es)), now), k) {
      RowsAreIndependent(t, es, k);
      RowsAreIndependent(t, Updates(es), k);
      LastSweepAbsorbsRow(Find(t, k), k, es, now);
    }
    SameRows(Expire(Run(t, es), now), Expire(Run(t, Updates(es)), now));
  }

  /** Two sweeps are one sweep at the later time. */
  lemma SweepTwice(t: Table, a: int, b: int)
    ensures Expire(Expire(t, a), b) == Expire(t, if a <= b then b else a)
  {
  }

  // ---------- order of arrival ----------

  /** The latest arrival for a key: none later, and the last of those at its time. */
  ghost predicate IsLatest(es: seq<Event>, k: Key, i: int) {
    && 0 <= i < |es| && es[i].Arrived? && es[i].update.key == k
    && (forall j :: 0 <= j < |es| && es[j].Arrived? && es[j].update.key == k ==>
          es[j].update.timestamp <= es[i].update.timestamp)
    && (forall j :: i < j < |es| && es[j].Arrived? && es[j].update.key == k ==>
          es[j].update.timestamp < es[i].update.timestamp)
  }

  ghost predicate IsFirst(es: seq<Event>, k: Key, i: int) {
    && 0 <= i < |es| && es[i].Arrived? && es[i].update.key == k
    && (forall j :: 0 <= j < i && es[j].Arrived? ==> es[j].update.key != k)
  }

  /** Nothing arrived that the old row does not outdate. */
  ghost predicate Outdated(was: Option<Incident>, es: seq<Event>, k: Key) {
    forall j :: 0 <= j < |es| && es[j].Arrived? && es[j].update.key == k ==>
      was.Some? && es[j].update.timestamp < was.value.latestTimestamp
  }

  /** The row comes from the latest arrival, with the first product that opened the incident. */
  ghost predicate FromLatest(was: Option<Incident>, es: seq<Event>, k: Key, row: Option<Incident>, i: int, f: int) {
    && IsLatest(es, k, i) && IsFirst(es, k, f)
    && (was.Some? ==> was.value.latestTimestamp <= es[i].update.timestamp)
    && row == Some(FromUpdate(es[i].product, es[i].update, es[i].update.status,
                              if was.Some? then was.value.firstProduct else es[f].product))
  }

  ghost predicate LastWriterWins(was: Option<Incident>, es: seq<Event>, k: Key, row: Option<Incident>) {
    || (Outdated(was, es, k) && row == was)
    || exists i, f :: FromLatest(was, es, k, row, i, f)
  }

  ghost predicate AllArrived(es: seq<Event>) {
    forall i :: 0 <= i < |es| ==> es[i].Arrived?
  }

  lemma FromLatestPush(was: Option<Incident>, es: seq<Event>, k: Key, row: Option<Incident>, i: int, f: int, e: Event)
    requires FromLatest(was, es, k, row, i, f) && e.Arrived? && e.update.status.Some?
    ensures LastWriterWins(was, es + [e], k, RowStep(row, k, e))
  {
    var all := es + [e];
    assert all[|es|] == e && forall j :: 0 <= j < |es| ==> all[j] == es[j];
    var latest := if e.update.key == k && e.update.timestamp >= es[i].update.timestamp then |es| else i;
    assert FromLatest(was, all, k, RowStep(row, k, e), latest, f);
  }

  lemma {:induction false} FirstOf(es: seq<Event>, k: Key, i: int) returns (f: int)
    requires 0 <= i < |es| && es[i].Arrived? && es[i].update.key == k
    ensures IsFirst(es, k, f)
    decreases i
  {
    f := i;
    if j :| 0 <= j < i && es[j].Arrived? && es[j].update.key == k {
      f := FirstOf(es, k, j);
    }
  }

  lemma OutdatedPush(was: Option<Incident>, es: seq<Event>, k: Key, e: Event)
    requires Outdated(was, es, k) && e.Arrived? && e.update.status.Some?
    ensures LastWriterWins(was, es + [e], k, RowStep(was, k, e))
  {
    var all := es + [e];
    assert all[|es|] == e && forall j :: 0 <= j < |es| ==> all[j] == es[j];
    if e.update.key == k && (was.None? || e.update.timestamp >= was.value.latestTimestamp) {
      forall j | 0 <= j < |es| && es[j].Arrived? && es[j].update.key == k
        ensures was.Some? && es[j].update.timestamp < e.update.timestamp {}
      assert IsLatest(all, k, |es|);
      var f := FirstOf(all, k, |es|);
      assert FromLatest(was, all, k, RowStep(was, k, e), |es|, f);
    } else {
      assert Outdated(was, all, k);
    }
  }

  lemma {:induction false} RowIsLatest(was: Option<Incident>, es: seq<Event>, k: Key)
    requires AllArrived(es) && KnownStatuses(es)
    ensures LastWriterWins(was, es, k, RowRun(was, k, es))
  {
    if es != [] {
      var prefix, last := es[..|es| - 1], es[|es| - 1];
      RowIsLatest(was, prefix, k);
      assert prefix + [last] == es;
      var row := RowRun(was, k, prefix);
      if i, f :| FromLatest(was, prefix, k, row, i, f) {
        FromLatestPush(was, prefix, k, row, i, f, last);
      } else {
        OutdatedPush(was, prefix, k, last);
      }
    }
  }
}
