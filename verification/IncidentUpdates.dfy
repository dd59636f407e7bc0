/**
 * Grouping the VTEC rows of one product into one update per incident.
 */
module IncidentUpdates {
  import opened Prelude
  import opened OrderedMap

  datatype Key = Key(office: string, phenomena: string, significance: string, etn: int)

  datatype VtecRow = VtecRow(status: string, action: string, key: Key, begin: Option<int>, end: Option<int>)

  /** Status is absent when no action of the incident maps to one. */
  datatype Update = Update(key: Key, status: Option<string>, action: string, issuedAt: int,
                           start: Option<int>, end: Option<int>, timestamp: int)

  /** The summary of one incident while rows are read. */
  datatype Summary = Summary(status: Option<string>, action: string, start: Option<int>, end: Option<int>)

  /** Field by field, in declaration order. */
  predicate KeyLess(a: Key, b: Key) {
    if a.office != b.office then StringLess(a.office, b.office)
    else if a.phenomena != b.phenomena then StringLess(a.phenomena, b.phenomena)
    else if a.significance != b.significance then StringLess(a.significance, b.significance)
    else a.etn < b.etn
  }

  lemma KeyOrder()
    ensures IsOrder(KeyLess)
  {
    StringOrder();
  }

  function MapStatus(action: string): Option<string> {
    if action in {"NEW", "CON", "EXT", "EXA", "EXB"} then Some("active")
    else if action == "CAN" then Some("cancelled")
    else if action == "EXP" then Some("expired")
    else if action == "UPG" then Some("upgraded")
    else None
  }

  function MinOption(a: Option<int>, b: Option<int>): Option<int> {
    match (a, b)
    case (Some(x), Some(y)) => Some(if x <= y then x else y)
    case (Some(_), None) => a
    case (None, _) => b
  }

  function MaxOption(a: Option<int>, b: Option<int>): Option<int> {
    match (a, b)
    case (Some(x), Some(y)) => Some(if x <= y then y else x)
    case (Some(_), None) => a
    case (None, _) => b
  }

  function First(r: VtecRow): Summary {
    Summary(MapStatus(r.action), r.action, r.begin, r.end)
  }

  function Merge(s: Summary, r: VtecRow): Summary {
    Summary(if MapStatus(r.action).Some? then MapStatus(r.action) else s.status, r.action,
            MinOption(s.start, r.begin), MaxOption(s.end, r.end))
  }

  /** The operational rows of one incident, in order. */
  function RowsOf(rows: seq<VtecRow>, k: Key): seq<VtecRow> {
    if rows == [] then []
    else (
      var last := rows[|rows| - 1];
      RowsOf(rows[..|rows| - 1], k) + (if last.status == "O" && last.key == k then [last] else [])
    )
  }

  // ---------- what an update says about its rows ----------

  /** The earliest begin present, if any is. */
  ghost predicate IsStart(start: Option<int>, rs: seq<VtecRow>) {
    match start
    case None => forall i :: 0 <= i < |rs| ==> rs[i].begin.None?
    case Some(t) =>
      && (exists i :: 0 <= i < |rs| && rs[i].begin == start)
      && forall i :: 0 <= i < |rs| && rs[i].begin.Some? ==> t <= rs[i].begin.value
  }

  /** The latest end present, if any is. */
  ghost predicate IsEnd(end: Option<int>, rs: seq<VtecRow>) {
    match end
    case None => forall i :: 0 <= i < |rs| ==> rs[i].end.None?
    case Some(t) =>
      && (exists i :: 0 <= i < |rs| && rs[i].end == end)
      && forall i :: 0 <= i < |rs| && rs[i].end.Some? ==> rs[i].end.value <= t
  }

  /** The status of the last row whose action maps to one, if any does. */
  ghost predicate IsStatus(status: Option<string>, rs: seq<VtecRow>) {
    match status
    case None => forall i :: 0 <= i < |rs| ==> MapStatus(rs[i].action).None?
    case Some(_) =>
      exists i :: 0 <= i < |rs| && MapStatus(rs[i].action) == status
                  && forall j :: i < j < |rs| ==> MapStatus(rs[j].action).None?
  }

  ghost predicate Summarizes(s: Summary, rs: seq<VtecRow>) {
    rs != [] && s.action == rs[|rs| - 1].action && IsStart(s.start, rs) && IsEnd(s.end, rs) && IsStatus(s.status, rs)
  }

  lemma FirstSummarizes(r: VtecRow)
    ensures Summarizes(First(r), [r])
  {
    assert [r][0] == r;
  }

  lemma MergeStart(start: Option<int>, rs: seq<VtecRow>, r: VtecRow)
    requires IsStart(start, rs)
    ensures IsStart(MinOption(start, r.begin), rs + [r])
  {
    var all := rs + [r];
    assert all[|rs|] == r && forall i :: 0 <= i < |rs| ==> all[i] == rs[i];
    if start.Some? {
      var i :| 0 <= i < |rs| && rs[i].begin == start;
      assert all[i].begin == start;
    }
  }

  lemma MergeEnd(end: Option<int>, rs: seq<VtecRow>, r: VtecRow)
    requires IsEnd(end, rs)
    ensures IsEnd(MaxOption(end, r.end), rs + [r])
  {
    var all := rs + [r];
    assert all[|rs|] == r && forall i :: 0 <= i < |rs| ==> all[i] == rs[i];
    if end.Some? {
      var i :| 0 <= i < |rs| && rs[i].end == end;
      assert all[i].end == end;
    }
  }

  lemma MergeStatus(status: Option<string>, rs: seq<VtecRow>, r: VtecRow)
    requires IsStatus(status, rs)
    ensures IsStatus(if MapStatus(r.action).Some? then MapStatus(r.action) else status, rs + [r])
  {
    var all := rs + [r];
    assert all[|rs|] == r && forall i :: 0 <= i < |rs| ==> all[i] == rs[i];
    if MapStatus(r.action).None? && status.Some? {
      var i :| 0 <= i < |rs| && MapStatus(rs[i].action) == status
               && forall j :: i < j < |rs| ==> MapStatus(rs[j].action).None?;
      assert MapStatus(all[i].action) == status;
    }
  }

  lemma MergeSummarizes(s: Summary, rs: seq<VtecRow>, r: VtecRow)
    requires Summarizes(s, rs)
    ensures Summarizes(Merge(s, r), rs + [r])
  {
    MergeStart(s.start, rs, r);
    MergeEnd(s.end, rs, r);
    MergeStatus(s.status, rs, r);
  }

  // ---------- the fold ----------

  /** The map describes the incident: absent without rows, and a summary of them otherwise. */
  ghost predicate Describes(grouped: seq<(Key, Summary)>, rows: seq<VtecRow>, k: Key) {
    match Lookup(grouped, k)
    case None => RowsOf(rows, k) == []
    case Some(s) => Summarizes(s, RowsOf(rows, k))
  }

  ghost predicate Grouped(grouped: seq<(Key, Summary)>, rows: seq<VtecRow>) {
    Sorted(KeyLess, grouped) && forall k :: Describes(grouped, rows, k)
  }

  lemma {:induction false} RowsPush(rows: seq<VtecRow>, r: VtecRow, k: Key)
    ensures RowsOf(rows + [r], k) == if r.status == "O" && r.key == k then RowsOf(rows, k) + [r] else RowsOf(rows, k)
  {
    assert (rows + [r])[..|rows|] == rows;
    assert RowsOf(rows, k) + [] == RowsOf(rows, k);
  }

  lemma {:induction false} GroupedPush(grouped: seq<(Key, Summary)>, rows: seq<VtecRow>, r: VtecRow, merged: Summary)
    requires Grouped(grouped, rows) && r.status == "O"
    requires Describes(grouped, rows, r.key)
    requires merged == match Lookup(grouped, r.key) case None => First(r) case Some(s) => Merge(s, r)
    ensures Grouped(Put(KeyLess, grouped, r.key, merged), rows + [r])
  {
    KeyOrder();
    PutKeepsOrder(KeyLess, grouped, r.key, merged);
    var after := Put(KeyLess, grouped, r.key, merged);
    forall k ensures Describes(after, rows + [r], k) {
      RowsPush(rows, r, k);
      LookupPut(KeyLess, grouped, r.key, merged, k);
      assert Describes(grouped, rows, k);
      if k == r.key {
        match Lookup(grouped, k)
        case None => FirstSummarizes(r); assert [] + [r] == [r];
        case Some(s) => MergeSummarizes(s, RowsOf(rows, k), r);
      }
    }
  }

  lemma GroupedSkip(grouped: seq<(Key, Summary)>, rows: seq<VtecRow>, r: VtecRow)
    requires Grouped(grouped, rows) && r.status != "O"
    ensures Grouped(grouped, rows + [r])
  {
    forall k ensures Describes(grouped, rows + [r], k) {
      RowsPush(rows, r, k);
      assert Describes(grouped, rows, k);
    }
  }

  function ToUpdate(k: Key, s: Summary, issuedAt: int): Update {
    Update(k, s.status, s.action, issuedAt, s.start, s.end, issuedAt)
  }

  /** One update per incident with an operational row, in key order, each a summary of its rows. */
  ghost predicate IsSummaryOf(updates: seq<Update>, rows: seq<VtecRow>, issuedAt: int) {
    && (forall i, j :: 0 <= i < j < |updates| ==> KeyLess(updates[i].key, updates[j].key))
    && (forall k :: RowsOf(rows, k) != [] <==> exists i :: 0 <= i < |updates| && updates[i].key == k)
    && (forall i :: 0 <= i < |updates| ==>
          var u := updates[i];
          && Summarizes(Summary(u.status, u.action, u.start, u.end), RowsOf(rows, u.key))
          && u.issuedAt == issuedAt && u.timestamp == issuedAt)
  }

  function Updates(grouped: seq<(Key, Summary)>, issuedAt: int): seq<Update> {
    seq(|grouped|, i requires 0 <= i < |grouped| => ToUpdate(grouped[i].0, grouped[i].1, issuedAt))
  }

  lemma {:induction false} FoundAt(grouped: seq<(Key, Summary)>, i: nat)
    requires Sorted(KeyLess, grouped) && i < |grouped|
    ensures Lookup(grouped, grouped[i].0) == Some(grouped[i].1)
  {
    KeyOrder();
    if i > 0 {
      assert KeyLess(grouped[0].0, grouped[i].0);
      FoundAt(grouped[1..], i - 1);
    }
  }

  lemma GroupedSummary(grouped: seq<(Key, Summary)>, rows: seq<VtecRow>, issuedAt: int)
    requires Grouped(grouped, rows)
    ensures IsSummaryOf(Updates(grouped, issuedAt), rows, issuedAt)
  {
    var updates := Updates(grouped, issuedAt);
    forall i | 0 <= i < |updates|
      ensures Lookup(grouped, updates[i].key) == Some(grouped[i].1) && Describes(grouped, rows, updates[i].key) {
      FoundAt(grouped, i);
    }
    forall k ensures RowsOf(rows, k) != [] <==> exists i :: 0 <= i < |updates| && updates[i].key == k {
      assert Describes(grouped, rows, k);
      LookupMember(grouped, k);
      if i :| 0 <= i < |grouped| && grouped[i].0 == k {
        assert updates[i].key == k;
      }
    }
  }

  /** `issuedAt` is the product's timestamp as an instant, absent when it is out of range. */
  method PrepareIncidentUpdates(issuedAt: Option<int>, rows: seq<VtecRow>) returns (r: Result<seq<Update>, ()>)
    ensures r.Ok? <==> issuedAt.Some?
    ensures r.Ok? ==> IsSummaryOf(r.value, rows, issuedAt.value)
  {
    if issuedAt.None? {
      return Err(());
    }
    var grouped: seq<(Key, Summary)> := [];
    assert rows[..0] == [];
    for i := 0 to |rows|
      invariant Grouped(grouped, rows[..i])
    {
      var row := rows[i];
      assert rows[..i + 1] == rows[..i] + [row];
      if row.status == "O" {
        var entry := Lookup(grouped, row.key);
        var merged := if entry.Some? then Merge(entry.value, row) else First(row);
        assert Describes(grouped, rows[..i], row.key);
        GroupedPush(grouped, rows[..i], row, merged);
        grouped := Put(KeyLess, grouped, row.key, merged);
      } else {
        GroupedSkip(grouped, rows[..i], row);
      }
    }
    assert rows[..|rows|] == rows;
    GroupedSummary(grouped, rows, issuedAt.value);
    return Ok(Updates(grouped, issuedAt.value));
  }
}
