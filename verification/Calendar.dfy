/**
 * Resolution of `DDHHMM` and `HHMM` stamps against a reference instant.
 * Instants are whole seconds in the proleptic Gregorian calendar; months are
 * numbered consecutively, twelve to a year.
 */
module Calendar {
  import opened Prelude

  const DAY: int := 86400

  predicate IsLeap(year: int) {
    year % 4 == 0 && (year % 100 != 0 || year % 400 == 0)
  }

  function MonthLength(year: int, month: int): int
    requires 1 <= month <= 12
  {
    if month == 2 then (if IsLeap(year) then 29 else 28)
    else if month == 4 || month == 6 || month == 9 || month == 11 then 30
    else 31
  }

  function DaysBeforeYear(year: int): int {
    365 * (year - 1) + (year - 1) / 4 - (year - 1) / 100 + (year - 1) / 400
  }

  /** Days from the start of the year to the start of the month. */
  function DaysBeforeMonth(year: int, month: int): int
    requires 1 <= month <= 13
    decreases month
  {
    if month == 1 then 0 else DaysBeforeMonth(year, month - 1) + MonthLength(year, month - 1)
  }

  /** A broken-down instant; `second` counts within the day. */
  datatype DateTime = DateTime(year: int, month: int, day: int, second: int)

  ghost predicate IsDateTime(d: DateTime) {
    1 <= d.month <= 12 && 1 <= d.day <= MonthLength(d.year, d.month) && 0 <= d.second < DAY
  }

  /** Days from the epoch to the date. */
  function DayNumber(d: DateTime): int
    requires 1 <= d.month <= 12
  {
    DaysBeforeYear(d.year) + DaysBeforeMonth(d.year, d.month) + d.day - 1
  }

  function Instant(d: DateTime): int
    requires 1 <= d.month <= 12
  {
    DayNumber(d) * DAY + d.second
  }

  // ---------- the code ----------

  predicate ValidFields(day: nat, hour: nat, minute: nat) {
    1 <= day <= 31 && hour <= 23 && minute <= 59
  }

  function SecondOfDay(hour: nat, minute: nat): nat {
    hour * 3600 + minute * 60
  }

  function SurroundingMonths(year: int, month: int): seq<(int, int)>
    requires 1 <= month <= 12
    ensures |SurroundingMonths(year, month)| == 3
    ensures forall i :: 0 <= i < 3 ==> 1 <= SurroundingMonths(year, month)[i].1 <= 12
  {
    [if month == 1 then (year - 1, 12) else (year, month - 1),
     (year, month),
     if month == 12 then (year + 1, 1) else (year, month + 1)]
  }

  function BuildCandidate(year: int, month: int, day: nat, hour: nat, minute: nat): Option<int>
    requires 1 <= month <= 12
  {
    if 1 <= day <= MonthLength(year, month) && hour <= 23 && minute <= 59
    then Some(Instant(DateTime(year, month, day, SecondOfDay(hour, minute))))
    else None
  }

  /** The candidate built for one month, if the month has such a day. */
  function CandidateIn(month: (int, int), day: nat, hour: nat, minute: nat): seq<int>
    requires 1 <= month.1 <= 12
  {
    var c := BuildCandidate(month.0, month.1, day, hour, minute);
    if c.Some? then [c.value] else []
  }

  method CandidateDatetimes(reference: DateTime, day: nat, hour: nat, minute: nat) returns (r: Option<seq<int>>)
    requires IsDateTime(reference)
    ensures !ValidFields(day, hour, minute) ==> r.None?
    ensures ValidFields(day, hour, minute) ==>
      var ms := SurroundingMonths(reference.year, reference.month);
      var all := CandidateIn(ms[0], day, hour, minute) + CandidateIn(ms[1], day, hour, minute)
               + CandidateIn(ms[2], day, hour, minute);
      r == if all == [] then None else Some(all)
  {
    if !ValidFields(day, hour, minute) {
      return None;
    }
    var ms := SurroundingMonths(reference.year, reference.month);
    var candidates: seq<int> := [];
    for i := 0 to 3
      invariant candidates == (if i > 0 then CandidateIn(ms[0], day, hour, minute) else [])
                            + (if i > 1 then CandidateIn(ms[1], day, hour, minute) else [])
                            + (if i > 2 then CandidateIn(ms[2], day, hour, minute) else [])
    {
      var c := BuildCandidate(ms[i].0, ms[i].1, day, hour, minute);
      if c.Some? {
        candidates := candidates + [c.value];
      }
    }
    return if candidates == [] then None else Some(candidates);
  }

  function Distance(a: int, b: int): nat {
    if a < b then b - a else a - b
  }

  /** The first of the closest elements. */
  function FirstClosest(c: seq<int>, reference: int): (r: int)
    requires c != []
    ensures r in c && forall x :: x in c ==> Distance(r, reference) <= Distance(x, reference)
  {
    var last := c[|c| - 1];
    assert c == c[..|c| - 1] + [last];
    if |c| == 1 then last
    else (
      var best := FirstClosest(c[..|c| - 1], reference);
      if Distance(last, reference) < Distance(best, reference) then last else best
    )
  }

  function Minimum(c: seq<int>): (r: int)
    requires c != []
    ensures r in c && forall x :: x in c ==> r <= x
  {
    var last := c[|c| - 1];
    assert c == c[..|c| - 1] + [last];
    if |c| == 1 then last
    else (var best := Minimum(c[..|c| - 1]); if last < best then last else best)
  }

  function Maximum(c: seq<int>): (r: int)
    requires c != []
    ensures r in c && forall x :: x in c ==> x <= r
  {
    var last := c[|c| - 1];
    assert c == c[..|c| - 1] + [last];
    if |c| == 1 then last
    else (var best := Maximum(c[..|c| - 1]); if best <= last then last else best)
  }

  // ---------- every occurrence of a day and time ----------

  /** Months numbered consecutively: where each starts, in seconds, and its length in days. */
  datatype Months = Months(start: int -> int, length: int -> int)

  /** Months touch, have 28 to 31 days, and no two neighbours are both shorter than 31. */
  ghost predicate IsCalendar(c: Months) {
    forall m ::
      && c.start(m + 1) == c.start(m) + c.length(m) * DAY
      && 28 <= c.length(m) <= 31
      && (c.length(m) == 31 || c.length(m + 1) == 31)
  }

  predicate Has(c: Months, m: int, day: int) {
    1 <= day <= c.length(m)
  }

  /** The instant of the given day and time of day in month `m`. */
  function Occurrence(c: Months, m: int, day: int, sod: int): int {
    c.start(m) + (day - 1) * DAY + sod
  }

  ghost predicate IsOccurrence(c: Months, x: int, day: int, sod: int) {
    exists m :: Has(c, m, day) && x == Occurrence(c, m, day, sod)
  }

  /** The first occurrence, over all months of all years, not before the reference. */
  ghost predicate EarliestNotBefore(c: Months, x: int, reference: int, day: int, sod: int) {
    && IsOccurrence(c, x, day, sod) && reference <= x
    && forall m :: Has(c, m, day) && reference <= Occurrence(c, m, day, sod) ==> x <= Occurrence(c, m, day, sod)
  }

  ghost predicate LatestBefore(c: Months, x: int, reference: int, day: int, sod: int) {
    && IsOccurrence(c, x, day, sod) && x < reference
    && forall m :: Has(c, m, day) && Occurrence(c, m, day, sod) < reference ==> Occurrence(c, m, day, sod) <= x
  }

  /** Closer to the reference, or equally close and earlier. */
  predicate AtLeastAsNear(x: int, y: int, reference: int) {
    Distance(x, reference) < Distance(y, reference) || (Distance(x, reference) == Distance(y, reference) && x <= y)
  }

  /** The closest occurrence over all months of all years; of two equally close, the earlier. */
  ghost predicate Nearest(c: Months, x: int, reference: int, day: int, sod: int) {
    && IsOccurrence(c, x, day, sod)
    && forall m :: Has(c, m, day) ==> AtLeastAsNear(x, Occurrence(c, m, day, sod), reference)
  }

  function CandidateAt(c: Months, m: int, day: int, sod: int): seq<int> {
    if Has(c, m, day) then [Occurrence(c, m, day, sod)] else []
  }

  /** The candidates of the reference month and its neighbours, in order. */
  function Around(c: Months, r: int, day: int, sod: int): seq<int> {
    CandidateAt(c, r - 1, day, sod) + CandidateAt(c, r, day, sod) + CandidateAt(c, r + 1, day, sod)
  }

  // ---------- the search among three months, in any calendar ----------

  lemma {:induction false} StartsGrow(c: Months, a: int, b: int)
    requires IsCalendar(c) && a <= b
    ensures c.start(a) + 28 * DAY * (b - a) <= c.start(b)
    decreases b - a
  {
    if a < b {
      StartsGrow(c, a, b - 1);
      assert c.start(b - 1 + 1) == c.start(b - 1) + c.length(b - 1) * DAY;
    }
  }

  /** An occurrence lies in its own month. */
  lemma InItsMonth(c: Months, m: int, day: int, sod: int)
    requires IsCalendar(c) && Has(c, m, day) && 0 <= sod < DAY
    ensures c.start(m) <= Occurrence(c, m, day, sod) < c.start(m + 1)
  {
  }

  lemma NeverEmpty(c: Months, r: int, day: int, sod: int)
    requires IsCalendar(c) && 1 <= day <= 31
    ensures Around(c, r, day, sod) != []
  {
    assert c.length(r) == 31 || c.length(r + 1) == 31;
  }

  /** Where the occurrence of any month lies relative to the reference month `r`. */
  lemma Placed(c: Months, r: int, m: int, day: int, sod: int)
    requires IsCalendar(c) && Has(c, m, day) && 0 <= sod < DAY
    ensures m < r ==> Occurrence(c, m, day, sod) < c.start(r)
    ensures m == r ==> c.start(r) <= Occurrence(c, m, day, sod) < c.start(r + 1)
    ensures m > r ==> c.start(r + 1) <= Occurrence(c, m, day, sod)
  {
    InItsMonth(c, m, day, sod);
    if m < r {
      StartsGrow(c, m + 1, r);
    } else if m > r {
      StartsGrow(c, r + 1, m);
    }
  }

  /** The elements not before the reference. */
  function Later(candidates: seq<int>, reference: int): (r: seq<int>)
    ensures forall x :: x in r <==> x in candidates && reference <= x
  {
    if candidates == [] then []
    else (
      var last := candidates[|candidates| - 1];
      assert candidates == candidates[..|candidates| - 1] + [last];
      Later(candidates[..|candidates| - 1], reference) + (if reference <= last then [last] else [])
    )
  }

  /** The earliest candidate not before the reference, or else the latest candidate. */
  function NotBefore(candidates: seq<int>, reference: int): int
    requires candidates != []
  {
    if Later(candidates, reference) != [] then Minimum(Later(candidates, reference)) else Maximum(candidates)
  }

  /** Whether the reference month still has the day ahead of it, or the next month has it at all. */
  predicate StillAhead(c: Months, r: int, reference: int, day: int, sod: int) {
    (Has(c, r, day) && reference <= Occurrence(c, r, day, sod)) || Has(c, r + 1, day)
  }

  lemma InAround(c: Months, r: int, day: int, sod: int, x: int)
    ensures x in Around(c, r, day, sod) <==>
      exists m :: r - 1 <= m <= r + 1 && Has(c, m, day) && x == Occurrence(c, m, day, sod)
  {
    if x in Around(c, r, day, sod) {
      if x in CandidateAt(c, r - 1, day, sod) {
        assert Has(c, r - 1, day);
      } else if x in CandidateAt(c, r, day, sod) {
        assert Has(c, r, day);
      } else {
        assert Has(c, r + 1, day);
      }
    }
  }

  /** The months before the reference month lie before it, those after it lie after it. */
  lemma SidesOfReference(c: Months, r: int, reference: int, day: int, sod: int)
    requires IsCalendar(c) && 0 <= sod < DAY && c.start(r) <= reference < c.start(r + 1)
    ensures forall m :: Has(c, m, day) && m < r ==> Occurrence(c, m, day, sod) < reference
    ensures forall m :: Has(c, m, day) && m > r ==> reference < Occurrence(c, m, day, sod)
  {
    forall m | Has(c, m, day)
      ensures m < r ==> Occurrence(c, m, day, sod) < reference
      ensures m > r ==> reference < Occurrence(c, m, day, sod) {
      Placed(c, r, m, day, sod);
    }
  }

  /** The choice is an occurrence in reach, the earliest ahead if one is, and otherwise the latest. */
  lemma ChosenInReach(c: Months, r: int, reference: int, day: int, sod: int)
    requires Around(c, r, day, sod) != []
    ensures var x := NotBefore(Around(c, r, day, sod), reference);
      && (exists m :: r - 1 <= m <= r + 1 && Has(c, m, day) && x == Occurrence(c, m, day, sod))
      && (forall m :: r - 1 <= m <= r + 1 && Has(c, m, day) && reference <= Occurrence(c, m, day, sod) ==>
            reference <= x <= Occurrence(c, m, day, sod))
      && (x < reference ==> forall m :: r - 1 <= m <= r + 1 && Has(c, m, day) ==> Occurrence(c, m, day, sod) <= x)
  {
    var all := Around(c, r, day, sod);
    InAround(c, r, day, sod, NotBefore(all, reference));
    forall m | r - 1 <= m <= r + 1 && Has(c, m, day) ensures Occurrence(c, m, day, sod) in all {
      InAround(c, r, day, sod, Occurrence(c, m, day, sod));
    }
  }

  lemma AheadIsEarliest(c: Months, r: int, reference: int, day: int, sod: int)
    requires IsCalendar(c) && 1 <= day <= 31 && 0 <= sod < DAY && c.start(r) <= reference < c.start(r + 1)
    requires Around(c, r, day, sod) != [] && StillAhead(c, r, reference, day, sod)
    ensures EarliestNotBefore(c, NotBefore(Around(c, r, day, sod), reference), reference, day, sod)
  {
    SidesOfReference(c, r, reference, day, sod);
    ChosenInReach(c, r, reference, day, sod);
    var x := NotBefore(Around(c, r, day, sod), reference);
    forall m | Has(c, m, day) && reference <= Occurrence(c, m, day, sod) ensures x <= Occurrence(c, m, day, sod) {
      if m > r + 1 {
        NotFarAhead(c, r, m, day, sod);
      }
    }
  }

  lemma NothingAhead(c: Months, r: int, reference: int, day: int, sod: int)
    requires IsCalendar(c) && 1 <= day <= 31 && 0 <= sod < DAY && c.start(r) <= reference < c.start(r + 1)
    requires Around(c, r, day, sod) != [] && !StillAhead(c, r, reference, day, sod)
    ensures var x := NotBefore(Around(c, r, day, sod), reference);
      LatestBefore(c, x, reference, day, sod) && !EarliestNotBefore(c, x, reference, day, sod)
  {
    SidesOfReference(c, r, reference, day, sod);
    ChosenInReach(c, r, reference, day, sod);
    var x := NotBefore(Around(c, r, day, sod), reference);
    forall m | Has(c, m, day) && Occurrence(c, m, day, sod) < reference ensures Occurrence(c, m, day, sod) <= x {
      if m < r - 1 {
        NotFarBehind(c, r, m, day, sod);
      }
    }
  }

  /**
   * The three months suffice exactly when the day is still ahead in the reference
   * month or exists in the next one; otherwise the answer is the latest past occurrence.
   */
  lemma NotBeforeExact(c: Months, r: int, reference: int, day: int, sod: int)
    requires IsCalendar(c) && 1 <= day <= 31 && 0 <= sod < DAY && c.start(r) <= reference < c.start(r + 1)
    ensures Around(c, r, day, sod) != []
    ensures var x := NotBefore(Around(c, r, day, sod), reference);
      && (EarliestNotBefore(c, x, reference, day, sod) <==> StillAhead(c, r, reference, day, sod))
      && (!StillAhead(c, r, reference, day, sod) ==> LatestBefore(c, x, reference, day, sod))
  {
    NeverEmpty(c, r, day, sod);
    ChosenInReach(c, r, reference, day, sod);
    if StillAhead(c, r, reference, day, sod) {
      AheadIsEarliest(c, r, reference, day, sod);
    } else {
      NothingAhead(c, r, reference, day, sod);
    }
  }

  lemma Spread(c: Months, a: int, b: int, day: int, sod: int)
    requires IsCalendar(c) && a < b
    ensures Occurrence(c, a, day, sod) < Occurrence(c, b, day, sod)
  {
    StartsGrow(c, a, b);
  }

  /** A month two or more ahead is beyond the occurrence of the reference month or the next. */
  lemma NotFarAhead(c: Months, r: int, m: int, day: int, sod: int)
    requires IsCalendar(c) && m > r + 1
    ensures Occurrence(c, r, day, sod) < Occurrence(c, m, day, sod)
    ensures Occurrence(c, r + 1, day, sod) < Occurrence(c, m, day, sod)
  {
    Spread(c, r, m, day, sod);
    Spread(c, r + 1, m, day, sod);
  }

  lemma NotFarBehind(c: Months, r: int, m: int, day: int, sod: int)
    requires IsCalendar(c) && m < r - 1
    ensures Occurrence(c, m, day, sod) < Occurrence(c, r, day, sod)
    ensures Occurrence(c, m, day, sod) < Occurrence(c, r - 1, day, sod)
  {
    Spread(c, m, r, day, sod);
    Spread(c, m, r - 1, day, sod);
  }

  ghost predicate Increasing(s: seq<int>) {
    forall i, j :: 0 <= i < j < |s| ==> s[i] < s[j]
  }

  lemma {:induction false} FirstClosestInOrder(s: seq<int>, reference: int)
    requires s != [] && Increasing(s)
    ensures forall x :: x in s ==> AtLeastAsNear(FirstClosest(s, reference), x, reference)
  {
    var n := |s| - 1;
    assert s == s[..n] + [s[n]];
    if n > 0 {
      FirstClosestInOrder(s[..n], reference);
    }
  }

  lemma AroundIncreases(c: Months, r: int, day: int, sod: int)
    requires IsCalendar(c)
    ensures Increasing(Around(c, r, day, sod))
  {
    Spread(c, r - 1, r, day, sod);
    Spread(c, r, r + 1, day, sod);
    Spread(c, r - 1, r + 1, day, sod);
  }

  /**
   * The reference is so early in its month that the day two months back, which
   * the code does not consider because the month between lacks it, is at least as near.
   */
  predicate SkippedIsAsNear(c: Months, r: int, reference: int, day: int, sod: int) {
    && day > c.length(r - 1)
    && 2 * (reference - c.start(r)) <= (2 * (day - 1) - c.length(r - 1) - c.length(r - 2)) * DAY + 2 * sod
  }

  /** It is even nearer than the day of the reference month. */
  predicate SkippedIsNearer(c: Months, r: int, reference: int, day: int, sod: int) {
    && day > c.length(r - 1)
    && 2 * (reference - c.start(r)) < (2 * (day - 1) - c.length(r - 1) - c.length(r - 2)) * DAY + 2 * sod
  }

  lemma TwoMonthsBack(c: Months, r: int, day: int, sod: int)
    requires IsCalendar(c) && 1 <= day <= 31 && day > c.length(r - 1)
    ensures c.length(r) == 31 && c.length(r - 2) == 31 && Has(c, r, day) && Has(c, r - 2, day)
    ensures Occurrence(c, r - 2, day, sod)
         == c.start(r) - (c.length(r - 1) + c.length(r - 2)) * DAY + (day - 1) * DAY + sod
  {
    assert c.start(r - 1 + 1) == c.start(r - 1) + c.length(r - 1) * DAY;
    assert c.start(r - 2 + 1) == c.start(r - 2) + c.length(r - 2) * DAY;
    assert c.length(r - 2) == 31 || c.length(r - 2 + 1) == 31;
    assert c.length(r - 1) == 31 || c.length(r - 1 + 1) == 31;
  }

  /** Months the code does not look at lose to one it does, except the one two months back. */
  lemma MonthsAheadLose(c: Months, r: int, reference: int, day: int, sod: int, x: int, m: int)
    requires IsCalendar(c) && 1 <= day <= 31 && 0 <= sod < DAY && c.start(r) <= reference < c.start(r + 1)
    requires forall k :: r - 1 <= k <= r + 1 && Has(c, k, day) ==>
      AtLeastAsNear(x, Occurrence(c, k, day, sod), reference)
    requires Has(c, m, day) && m > r + 1
    ensures AtLeastAsNear(x, Occurrence(c, m, day, sod), reference)
  {
    Placed(c, r, m, day, sod);
    NotFarAhead(c, r, m, day, sod);
    if Has(c, r + 1, day) {
      Placed(c, r, r + 1, day, sod);
    } else {
      Placed(c, r, r, day, sod);
      StartsGrow(c, r + 2, m);
      assert c.start(r + 1 + 1) == c.start(r + 1) + c.length(r + 1) * DAY;
    }
  }

  lemma MonthsBehindLose(c: Months, r: int, reference: int, day: int, sod: int, x: int, m: int)
    requires IsCalendar(c) && 1 <= day <= 31 && 0 <= sod < DAY && c.start(r) <= reference < c.start(r + 1)
    requires forall k :: r - 1 <= k <= r + 1 && Has(c, k, day) ==>
      AtLeastAsNear(x, Occurrence(c, k, day, sod), reference)
    requires Has(c, m, day) && m < r - 1 && Has(c, r - 1, day)
    ensures AtLeastAsNear(x, Occurrence(c, m, day, sod), reference)
  {
    Placed(c, r, m, day, sod);
    Placed(c, r, r - 1, day, sod);
    NotFarBehind(c, r, m, day, sod);
  }

  lemma MonthsBeyondShortLose(c: Months, r: int, reference: int, day: int, sod: int, x: int, m: int)
    requires IsCalendar(c) && 1 <= day <= 31 && 0 <= sod < DAY && c.start(r) <= reference < c.start(r + 1)
    requires forall k :: r - 1 <= k <= r + 1 && Has(c, k, day) ==>
      AtLeastAsNear(x, Occurrence(c, k, day, sod), reference)
    requires Has(c, m, day) && m < r - 1 && !Has(c, r - 1, day)
    requires !SkippedIsAsNear(c, r, reference, day, sod)
    ensures AtLeastAsNear(x, Occurrence(c, m, day, sod), reference)
  {
    Placed(c, r, m, day, sod);
    TwoMonthsBack(c, r, day, sod);
    Placed(c, r, r, day, sod);
    if m < r - 2 {
      Spread(c, m, r - 2, day, sod);
    }
  }

  lemma OtherMonthsLose(c: Months, r: int, reference: int, day: int, sod: int, x: int, m: int)
    requires IsCalendar(c) && 1 <= day <= 31 && 0 <= sod < DAY && c.start(r) <= reference < c.start(r + 1)
    requires forall k :: r - 1 <= k <= r + 1 && Has(c, k, day) ==>
      AtLeastAsNear(x, Occurrence(c, k, day, sod), reference)
    requires Has(c, m, day) && (m < r - 1 || m > r + 1)
    requires !SkippedIsAsNear(c, r, reference, day, sod)
    ensures AtLeastAsNear(x, Occurrence(c, m, day, sod), reference)
  {
    if m > r + 1 {
      MonthsAheadLose(c, r, reference, day, sod, x, m);
    } else if Has(c, r - 1, day) {
      MonthsBehindLose(c, r, reference, day, sod, x, m);
    } else {
      MonthsBeyondShortLose(c, r, reference, day, sod, x, m);
    }
  }

  /** An occurrence in the three months, as near as any other there. */
  ghost predicate NearestInReach(c: Months, r: int, x: int, reference: int, day: int, sod: int) {
    && (exists m :: r - 1 <= m <= r + 1 && Has(c, m, day) && x == Occurrence(c, m, day, sod))
    && forall m :: r - 1 <= m <= r + 1 && Has(c, m, day) ==> AtLeastAsNear(x, Occurrence(c, m, day, sod), reference)
  }

  /** The first closest candidate is nearest in reach. */
  lemma {:induction false} ChosenIsNearest(c: Months, r: int, reference: int, day: int, sod: int)
    requires IsCalendar(c) && Around(c, r, day, sod) != []
    ensures NearestInReach(c, r, FirstClosest(Around(c, r, day, sod), reference), reference, day, sod)
  {
    var all := Around(c, r, day, sod);
    var x := FirstClosest(all, reference);
    AroundIncreases(c, r, day, sod);
    FirstClosestInOrder(all, reference);
    InAround(c, r, day, sod, x);
    forall k | r - 1 <= k <= r + 1 && Has(c, k, day) ensures AtLeastAsNear(x, Occurrence(c, k, day, sod), reference) {
      InAround(c, r, day, sod, Occurrence(c, k, day, sod));
    }
  }

  /**
   * The choice among three months is the nearest of all, ties going to the
   * earlier, exactly when the skipped one is not as near.
   */
  lemma {:induction false} NearestExact(c: Months, r: int, reference: int, day: int, sod: int)
    requires IsCalendar(c) && 1 <= day <= 31 && 0 <= sod < DAY && c.start(r) <= reference < c.start(r + 1)
    ensures Around(c, r, day, sod) != []
    ensures Nearest(c, FirstClosest(Around(c, r, day, sod), reference), reference, day, sod)
      <==> !SkippedIsAsNear(c, r, reference, day, sod)
  {
    NeverEmpty(c, r, day, sod);
    var all := Around(c, r, day, sod);
    var x := FirstClosest(all, reference);
    ChosenIsNearest(c, r, reference, day, sod);
    InAround(c, r, day, sod, x);
    if SkippedIsAsNear(c, r, reference, day, sod) {
      TwoMonthsBack(c, r, day, sod);
      SkippedWins(c, r, reference, day, sod, x);
    } else {
      forall m | Has(c, m, day) ensures AtLeastAsNear(x, Occurrence(c, m, day, sod), reference) {
        if m < r - 1 || m > r + 1 {
          OtherMonthsLose(c, r, reference, day, sod, x, m);
        }
      }
    }
  }

  lemma SkippedWins(c: Months, r: int, reference: int, day: int, sod: int, x: int)
    requires IsCalendar(c) && 1 <= day <= 31 && 0 <= sod < DAY && c.start(r) <= reference < c.start(r + 1)
    requires SkippedIsAsNear(c, r, reference, day, sod) && x in Around(c, r, day, sod)
    ensures !Nearest(c, x, reference, day, sod)
  {
    TwoMonthsBack(c, r, day, sod);
    InAround(c, r, day, sod, x);
    var k :| r - 1 <= k <= r + 1 && Has(c, k, day) && x == Occurrence(c, k, day, sod);
    Placed(c, r, k, day, sod);
    Placed(c, r, r - 2, day, sod);
    if k == r + 1 {
      Spread(c, r, r + 1, day, sod);
    }
  }

  /** No occurrence at all is strictly nearer; one as near may come before. */
  ghost predicate NoneNearer(c: Months, x: int, reference: int, day: int, sod: int) {
    forall m :: Has(c, m, day) ==> Distance(x, reference) <= Distance(Occurrence(c, m, day, sod), reference)
  }

  lemma SkippedTies(c: Months, r: int, reference: int, day: int, sod: int, x: int, m: int)
    requires IsCalendar(c) && 1 <= day <= 31 && 0 <= sod < DAY && c.start(r) <= reference < c.start(r + 1)
    requires NearestInReach(c, r, x, reference, day, sod) && Has(c, m, day)
    requires SkippedIsAsNear(c, r, reference, day, sod) && !SkippedIsNearer(c, r, reference, day, sod)
    ensures Distance(x, reference) <= Distance(Occurrence(c, m, day, sod), reference)
  {
    TwoMonthsBack(c, r, day, sod);
    if m > r + 1 {
      MonthsAheadLose(c, r, reference, day, sod, x, m);
    } else if m < r - 1 {
      Placed(c, r, r, day, sod);
      Placed(c, r, m, day, sod);
      if m < r - 2 {
        Spread(c, m, r - 2, day, sod);
      }
    }
  }

  /** Ties aside, the choice is as near as any occurrence exactly when the skipped one is not nearer. */
  lemma {:induction false} NoneNearerExact(c: Months, r: int, reference: int, day: int, sod: int)
    requires IsCalendar(c) && 1 <= day <= 31 && 0 <= sod < DAY && c.start(r) <= reference < c.start(r + 1)
    ensures Around(c, r, day, sod) != []
    ensures NoneNearer(c, FirstClosest(Around(c, r, day, sod), reference), reference, day, sod)
      <==> !SkippedIsNearer(c, r, reference, day, sod)
  {
    NearestExact(c, r, reference, day, sod);
    ChosenIsNearest(c, r, reference, day, sod);
    var x := FirstClosest(Around(c, r, day, sod), reference);
    if SkippedIsNearer(c, r, reference, day, sod) {
      SkippedIsMissed(c, r, reference, day, sod, x);
    } else if SkippedIsAsNear(c, r, reference, day, sod) {
      forall m | Has(c, m, day) ensures Distance(x, reference) <= Distance(Occurrence(c, m, day, sod), reference) {
        SkippedTies(c, r, reference, day, sod, x, m);
      }
    }
  }

  lemma SkippedIsMissed(c: Months, r: int, reference: int, day: int, sod: int, x: int)
    requires IsCalendar(c) && 1 <= day <= 31 && 0 <= sod < DAY && c.start(r) <= reference < c.start(r + 1)
    requires SkippedIsNearer(c, r, reference, day, sod) && NearestInReach(c, r, x, reference, day, sod)
    ensures !NoneNearer(c, x, reference, day, sod)
  {
    TwoMonthsBack(c, r, day, sod);
    var k :| r - 1 <= k <= r + 1 && Has(c, k, day) && x == Occurrence(c, k, day, sod);
    Placed(c, r, k, day, sod);
    Placed(c, r, r - 2, day, sod);
    if k == r + 1 {
      Spread(c, r, r + 1, day, sod);
    }
  }

  // ---------- calendar arithmetic ----------

  lemma FourthYears(year: int)
    ensures year / 4 == (year - 1) / 4 + (if year % 4 == 0 then 1 else 0)
  {
  }

  lemma Centuries(year: int)
    ensures year / 100 == (year - 1) / 100 + (if year % 100 == 0 then 1 else 0)
  {
  }

  lemma FourthCenturies(year: int)
    ensures year / 400 == (year - 1) / 400 + (if year % 400 == 0 then 1 else 0)
  {
  }

  lemma YearLength(year: int)
    ensures DaysBeforeYear(year + 1) == DaysBeforeYear(year) + (if IsLeap(year) then 366 else 365)
  {
    FourthYears(year);
    Centuries(year);
    FourthCenturies(year);
    assert year % 400 == 0 ==> year % 100 == 0;
    assert year % 100 == 0 ==> year % 4 == 0;
  }

  lemma {:induction false} YearSum(year: int)
    ensures DaysBeforeMonth(year, 13) == if IsLeap(year) then 366 else 365
  {
    assert DaysBeforeMonth(year, 4) == 90 + (if IsLeap(year) then 1 else 0);
    assert DaysBeforeMonth(year, 7) == 181 + (if IsLeap(year) then 1 else 0);
    assert DaysBeforeMonth(year, 10) == 273 + (if IsLeap(year) then 1 else 0);
  }

  lemma NextMonth(m: int)
    ensures if m % 12 == 11 then (m + 1) / 12 == m / 12 + 1 && (m + 1) % 12 == 0
            else (m + 1) / 12 == m / 12 && (m + 1) % 12 == m % 12 + 1
  {
  }

  /** Days before the month after month `k` of a year. */
  lemma MonthsTouch(year: int, k: int)
    requires 0 <= k < 12
    ensures DaysBeforeYear(year) + DaysBeforeMonth(year, k + 1) + MonthLength(year, k + 1)
         == if k == 11 then DaysBeforeYear(year + 1) + DaysBeforeMonth(year + 1, 1)
            else DaysBeforeYear(year) + DaysBeforeMonth(year, k + 2)
  {
    if k == 11 {
      YearLength(year);
      YearSum(year);
    }
  }

  function LengthOf(m: int): int {
    MonthLength(m / 12, m % 12 + 1)
  }

  function StartOf(m: int): int {
    (DaysBeforeYear(m / 12) + DaysBeforeMonth(m / 12, m % 12 + 1)) * DAY
  }

  function MonthIndex(d: DateTime): int {
    12 * d.year + d.month - 1
  }

  lemma MonthLengths(m: int)
    ensures 28 <= LengthOf(m) <= 31
    ensures LengthOf(m) == 31 || LengthOf(m + 1) == 31
  {
    NextMonth(m);
  }

  const GREGORIAN: Months := Months(m => StartOf(m), m => LengthOf(m))

  lemma MonthStep(m: int)
    ensures StartOf(m + 1) == StartOf(m) + LengthOf(m) * DAY
  {
    NextMonth(m);
    MonthsTouch(m / 12, m % 12);
  }

  lemma GregorianMonth(m: int)
    ensures GREGORIAN.start(m + 1) == GREGORIAN.start(m) + GREGORIAN.length(m) * DAY
    ensures 28 <= GREGORIAN.length(m) <= 31 && (GREGORIAN.length(m) == 31 || GREGORIAN.length(m + 1) == 31)
  {
    MonthStep(m);
    MonthLengths(m);
  }

  lemma GregorianIsCalendar()
    ensures IsCalendar(GREGORIAN)
  {
    forall m
      ensures GREGORIAN.start(m + 1) == GREGORIAN.start(m) + GREGORIAN.length(m) * DAY
      ensures 28 <= GREGORIAN.length(m) <= 31 && (GREGORIAN.length(m) == 31 || GREGORIAN.length(m + 1) == 31)
    {
      GregorianMonth(m);
    }
  }

  lemma Split(year: int, month: int)
    requires 1 <= month <= 12
    ensures (12 * year + month - 1) / 12 == year && (12 * year + month - 1) % 12 == month - 1
  {
  }

  lemma InstantFromMonth(d: DateTime)
    requires 1 <= d.month <= 12
    ensures Instant(d) == StartOf(MonthIndex(d)) + (d.day - 1) * DAY + d.second
    ensures LengthOf(MonthIndex(d)) == MonthLength(d.year, d.month)
  {
    Split(d.year, d.month);
  }

  /** A reference lies in its own month. */
  lemma ReferenceInMonth(d: DateTime)
    requires IsDateTime(d)
    ensures StartOf(MonthIndex(d)) <= Instant(d) < StartOf(MonthIndex(d) + 1)
  {
    InstantFromMonth(d);
    MonthStep(MonthIndex(d));
  }

  /** The three months the code looks at are the neighbours of the reference month. */
  lemma GregorianAt(m: int)
    ensures GREGORIAN.start(m) == StartOf(m) && GREGORIAN.length(m) == LengthOf(m)
  {
  }

  lemma CandidateIsOccurrence(year: int, month: int, day: nat, hour: nat, minute: nat, m: int)
    requires 1 <= month <= 12 && ValidFields(day, hour, minute) && m == 12 * year + month - 1
    ensures CandidateIn((year, month), day, hour, minute) == CandidateAt(GREGORIAN, m, day, SecondOfDay(hour, minute))
  {
    var d := DateTime(year, month, day, SecondOfDay(hour, minute));
    InstantFromMonth(d);
    GregorianAt(m);
    assert MonthIndex(d) == m && Has(GREGORIAN, m, day) == (1 <= day <= MonthLength(year, month));
    assert Instant(d) == Occurrence(GREGORIAN, m, day, SecondOfDay(hour, minute));
  }

  /** The three months are consecutive. */
  lemma MonthsAround(d: DateTime)
    requires IsDateTime(d)
    ensures var ms := SurroundingMonths(d.year, d.month);
      && 12 * ms[0].0 + ms[0].1 - 1 == MonthIndex(d) - 1
      && 12 * ms[1].0 + ms[1].1 - 1 == MonthIndex(d)
      && 12 * ms[2].0 + ms[2].1 - 1 == MonthIndex(d) + 1
  {
  }

  // ---------- the three resolvers ----------

  lemma TimeOfDay(hour: nat, minute: nat)
    requires hour <= 23 && minute <= 59
    ensures SecondOfDay(hour, minute) < DAY
  {
  }

  /** The candidate list the code builds is the abstract one of the reference month. */
  lemma CandidatesAround(d: DateTime, day: nat, hour: nat, minute: nat, ms: seq<(int, int)>)
    requires IsDateTime(d) && ValidFields(day, hour, minute) && ms == SurroundingMonths(d.year, d.month)
    ensures CandidateIn(ms[0], day, hour, minute) + CandidateIn(ms[1], day, hour, minute)
        + CandidateIn(ms[2], day, hour, minute)
         == Around(GREGORIAN, MonthIndex(d), day, SecondOfDay(hour, minute))
  {
    MonthsAround(d);
    CandidateIsOccurrence(ms[0].0, ms[0].1, day, hour, minute, MonthIndex(d) - 1);
    CandidateIsOccurrence(ms[1].0, ms[1].1, day, hour, minute, MonthIndex(d));
    CandidateIsOccurrence(ms[2].0, ms[2].1, day, hour, minute, MonthIndex(d) + 1);
  }

  method ResolveDayTimeNearest(reference: DateTime, day: nat, hour: nat, minute: nat) returns (r: Option<int>)
    requires IsDateTime(reference)
    ensures r.None? <==> !ValidFields(day, hour, minute)
    ensures r.Some? ==>
      (Nearest(GREGORIAN, r.value, Instant(reference), day, SecondOfDay(hour, minute))
       <==> !SkippedIsAsNear(GREGORIAN, MonthIndex(reference), Instant(reference), day, SecondOfDay(hour, minute)))
    ensures r.Some? ==>
      (NoneNearer(GREGORIAN, r.value, Instant(reference), day, SecondOfDay(hour, minute))
       <==> !SkippedIsNearer(GREGORIAN, MonthIndex(reference), Instant(reference), day, SecondOfDay(hour, minute)))
    ensures r.Some? ==>
      NearestInReach(GREGORIAN, MonthIndex(reference), r.value, Instant(reference), day, SecondOfDay(hour, minute))
  {
    var candidates := CandidateDatetimes(reference, day, hour, minute);
    if ValidFields(day, hour, minute) {
      CandidatesAround(reference, day, hour, minute, SurroundingMonths(reference.year, reference.month));
      TimeOfDay(hour, minute);
      GregorianIsCalendar();
      ReferenceInMonth(reference);
      NearestExact(GREGORIAN, MonthIndex(reference), Instant(reference), day, SecondOfDay(hour, minute));
      NoneNearerExact(GREGORIAN, MonthIndex(reference), Instant(reference), day, SecondOfDay(hour, minute));
      ChosenIsNearest(GREGORIAN, MonthIndex(reference), Instant(reference), day, SecondOfDay(hour, minute));
    }
    if candidates.None? {
      return None;
    }
    return Some(FirstClosest(candidates.value, Instant(reference)));
  }

  method ResolveDayTimeNotBefore(reference: DateTime, day: nat, hour: nat, minute: nat) returns (r: Option<int>)
    requires IsDateTime(reference)
    ensures r.None? <==> !ValidFields(day, hour, minute)
    ensures r.Some? ==>
      var sod := SecondOfDay(hour, minute);
      var ahead := StillAhead(GREGORIAN, MonthIndex(reference), Instant(reference), day, sod);
      && (EarliestNotBefore(GREGORIAN, r.value, Instant(reference), day, sod) <==> ahead)
      && (!ahead ==> LatestBefore(GREGORIAN, r.value, Instant(reference), day, sod))
  {
    var candidates := CandidateDatetimes(reference, day, hour, minute);
    if ValidFields(day, hour, minute) {
      CandidatesAround(reference, day, hour, minute, SurroundingMonths(reference.year, reference.month));
      TimeOfDay(hour, minute);
      GregorianIsCalendar();
      ReferenceInMonth(reference);
      NotBeforeExact(GREGORIAN, MonthIndex(reference), Instant(reference), day, SecondOfDay(hour, minute));
    }
    if candidates.None? {
      return None;
    }
    return Some(NotBefore(candidates.value, Instant(reference)));
  }

  /** Up to the 28th both searches are exact, whatever the reference. */
  lemma EarlyDaysAlwaysExact(reference: int, r: int, day: int, sod: int)
    requires 1 <= day <= 28
    ensures StillAhead(GREGORIAN, r, reference, day, sod) && !SkippedIsAsNear(GREGORIAN, r, reference, day, sod)
  {
    MonthLengths(r + 1);
    MonthLengths(r - 1);
  }

  /** At noon of 1 March 2023 the 31st at midnight is as near in January as in March, and earlier. */
  lemma MarchNoonTies()
    ensures var d := DateTime(2023, 3, 1, 43200);
      && IsDateTime(d) && SkippedIsAsNear(GREGORIAN, MonthIndex(d), Instant(d), 31, 0)
      && !SkippedIsNearer(GREGORIAN, MonthIndex(d), Instant(d), 31, 0)
  {
    var d := DateTime(2023, 3, 1, 43200);
    InstantFromMonth(d);
    assert LengthOf(MonthIndex(d) - 1) == 28 && LengthOf(MonthIndex(d) - 2) == 31;
  }

  /** On 1 March 2023 the 31st at midnight is nearest in January, which the code skips. */
  lemma MarchFirstSkipsJanuary()
    ensures var d := DateTime(2023, 3, 1, 0);
      IsDateTime(d) && SkippedIsNearer(GREGORIAN, MonthIndex(d), Instant(d), 31, 0)
  {
    var d := DateTime(2023, 3, 1, 0);
    InstantFromMonth(d);
    assert LengthOf(MonthIndex(d) - 1) == 28 && LengthOf(MonthIndex(d) - 2) == 31;
  }

  /** Late on 31 January the next 31st is in March, which the code does not reach. */
  lemma JanuaryEndHasNothingAhead()
    ensures var d := DateTime(2023, 1, 31, 36000);
      IsDateTime(d) && !StillAhead(GREGORIAN, MonthIndex(d), Instant(d), 31, 3600)
  {
    var d := DateTime(2023, 1, 31, 36000);
    InstantFromMonth(d);
    assert LengthOf(MonthIndex(d) + 1) == 28;
  }

  // ---------- clock readings without a day ----------

  ghost predicate NearestDaily(x: int, reference: int, sod: int) {
    && (exists k: int :: x == k * DAY + sod)
    && forall k: int :: AtLeastAsNear(x, k * DAY + sod, reference)
  }

  /** The loop over yesterday, today and tomorrow, from the day number of the reference. */
  method DailyCandidates(base: int, sod: int) returns (candidates: seq<int>)
    ensures candidates == [(base - 1) * DAY + sod, base * DAY + sod, (base + 1) * DAY + sod]
  {
    candidates := [];
    for offset := -1 to 2
      invariant candidates == (if offset > -1 then [(base - 1) * DAY + sod] else [])
                            + (if offset > 0 then [base * DAY + sod] else [])
                            + (if offset > 1 then [(base + 1) * DAY + sod] else [])
    {
      candidates := candidates + [(base + offset) * DAY + sod];
    }
  }

  lemma NearTransitive(x: int, y: int, z: int, reference: int)
    requires AtLeastAsNear(x, y, reference) && AtLeastAsNear(y, z, reference)
    ensures AtLeastAsNear(x, z, reference)
  {
  }

  /** Two days or more before the reference day, yesterday is nearer. */
  lemma LongBefore(reference: int, yesterday: int, x: int)
    requires yesterday <= reference && x <= yesterday
    ensures AtLeastAsNear(yesterday, x, reference)
  {
  }

  /** Two days or more after it, tomorrow is nearer. */
  lemma LongAfter(reference: int, tomorrow: int, x: int)
    requires reference <= tomorrow && tomorrow <= x
    ensures AtLeastAsNear(tomorrow, x, reference)
  {
  }

  lemma DaysOrdered(a: int, b: int, sod: int)
    requires a <= b
    ensures a * DAY + sod <= b * DAY + sod
  {
  }

  /** Yesterday, today and tomorrow are enough. */
  lemma ClosestDay(base: int, second: int, sod: int, x: int)
    requires 0 <= second < DAY && 0 <= sod < DAY
    requires x == (base - 1) * DAY + sod || x == base * DAY + sod || x == (base + 1) * DAY + sod
    requires AtLeastAsNear(x, (base - 1) * DAY + sod, base * DAY + second)
    requires AtLeastAsNear(x, base * DAY + sod, base * DAY + second)
    requires AtLeastAsNear(x, (base + 1) * DAY + sod, base * DAY + second)
    ensures NearestDaily(x, base * DAY + second, sod)
  {
    var reference, yesterday, tomorrow := base * DAY + second, (base - 1) * DAY + sod, (base + 1) * DAY + sod;
    assert yesterday <= reference <= tomorrow;
    forall k: int ensures AtLeastAsNear(x, k * DAY + sod, reference) {
      if k < base - 1 {
        DaysOrdered(k, base - 1, sod);
        LongBefore(reference, yesterday, k * DAY + sod);
        NearTransitive(x, yesterday, k * DAY + sod, reference);
      } else if k > base + 1 {
        DaysOrdered(base + 1, k, sod);
        LongAfter(reference, tomorrow, k * DAY + sod);
        NearTransitive(x, tomorrow, k * DAY + sod, reference);
      }
    }
  }

  lemma ClosestCandidate(base: int, second: int, sod: int, candidates: seq<int>)
    requires 0 <= second < DAY && 0 <= sod < DAY
    requires candidates == [(base - 1) * DAY + sod, base * DAY + sod, (base + 1) * DAY + sod]
    ensures NearestDaily(FirstClosest(candidates, base * DAY + second), base * DAY + second, sod)
  {
    var x := FirstClosest(candidates, base * DAY + second);
    FirstClosestInOrder(candidates, base * DAY + second);
    assert candidates[0] in candidates && candidates[1] in candidates && candidates[2] in candidates;
    ClosestDay(base, second, sod, x);
  }

  /** The nearest of the three candidates around a day is the nearest over all days. */
  method NearestOfThree(base: int, second: int, sod: int) returns (r: int)
    requires 0 <= second < DAY && 0 <= sod < DAY
    ensures NearestDaily(r, base * DAY + second, sod)
  {
    var candidates := DailyCandidates(base, sod);
    ClosestCandidate(base, second, sod, candidates);
    return FirstClosest(candidates, base * DAY + second);
  }

  method ResolveClockTimeNearest(reference: DateTime, hour: nat, minute: nat) returns (r: Option<int>)
    requires IsDateTime(reference)
    ensures r.None? <==> hour > 23 || minute > 59
    ensures r.Some? ==> NearestDaily(r.value, Instant(reference), SecondOfDay(hour, minute))
  {
    if hour > 23 || minute > 59 {
      return None;
    }
    TimeOfDay(hour, minute);
    var nearest := NearestOfThree(DayNumber(reference), reference.second, SecondOfDay(hour, minute));
    return Some(nearest);
  }
}
