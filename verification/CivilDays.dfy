/**
 * Dates by the closed formula for days since 1 March of the year 0, and the
 * resolvers said of dates alone.
 */
module CivilDays {
  import opened Prelude
  import opened Calendar

  /** Days from 1 March of the year 0 to the date; the year begins in March. */
  function Days(year: int, month: int, day: int): int {
    var y := if month <= 2 then year - 1 else year;
    365 * y + y / 4 - y / 100 + y / 400 + (153 * ((month + 9) % 12) + 2) / 5 + day - 1
  }

  function FirstOfNext(year: int, month: int): int {
    if month == 12 then Days(year + 1, 1, 1) else Days(year, month + 1, 1)
  }

  /** The month has such a day: it comes before the first of the next month. */
  ghost predicate IsDate(year: int, month: int, day: int) {
    1 <= month <= 12 && 1 <= day && Days(year, month, day) < FirstOfNext(year, month)
  }

  const EPOCH := 306

  /** The instant of a date and time of day, counted from 1 January of the year 1. */
  function At(year: int, month: int, day: int, hour: int, minute: int): int {
    ((Days(year, month, day) - EPOCH) * 24 + hour) * 3600 + minute * 60
  }

  // ---------- the calendar of the model is this one ----------

  lemma YearByQuarters(year: int)
    ensures DaysBeforeYear(year) + (if IsLeap(year) then 366 else 365)
         == 365 * year + year / 4 - year / 100 + year / 400
  {
    YearLength(year);
  }

  lemma {:induction false} MonthByFifths(year: int, month: int)
    requires 1 <= month <= 12
    ensures month > 2 ==>
      DaysBeforeMonth(year, month)
      == (if IsLeap(year) then 60 else 59) + (153 * ((month + 9) % 12) + 2) / 5
    ensures month <= 2 ==> DaysBeforeMonth(year, month) == (153 * ((month + 9) % 12) + 2) / 5 - 306
  {
    assert DaysBeforeMonth(year, 4) == 90 + (if IsLeap(year) then 1 else 0);
    assert DaysBeforeMonth(year, 7) == 181 + (if IsLeap(year) then 1 else 0);
    assert DaysBeforeMonth(year, 10) == 273 + (if IsLeap(year) then 1 else 0);
  }

  lemma DayNumberIsDays(d: DateTime)
    requires 1 <= d.month <= 12
    ensures DayNumber(d) == Days(d.year, d.month, d.day) - EPOCH
  {
    MonthByFifths(d.year, d.month);
    if d.month > 2 {
      YearByQuarters(d.year);
    }
  }

  lemma InstantIsDays(d: DateTime)
    requires 1 <= d.month <= 12
    ensures Instant(d) == (Days(d.year, d.month, d.day) - EPOCH) * DAY + d.second
  {
    DayNumberIsDays(d);
  }

  /** Months from March on run 31, 30, 31, 30, 31 over and over; the year ends 306 days after 1 March. */
  lemma MonthLaw(year: int, month: int)
    requires 3 <= month <= 12
    ensures Instant(DateTime(year, month, 1, 0)) == Instant(DateTime(year, 3, 1, 0)) + (153 * (month - 3) + 2) / 5 * DAY
  {
    InstantIsDays(DateTime(year, month, 1, 0));
    InstantIsDays(DateTime(year, 3, 1, 0));
    DaysFromMarch(year, month);
  }

  lemma DaysFromMarch(year: int, month: int)
    requires 3 <= month <= 12
    ensures Days(year, month, 1) == Days(year, 3, 1) + (153 * (month - 3) + 2) / 5
  {
    assert (month + 9) % 12 == month - 3;
  }

  lemma YearEndLaw(year: int)
    ensures Instant(DateTime(year + 1, 1, 1, 0)) == Instant(DateTime(year, 3, 1, 0)) + 306 * DAY
    ensures Instant(DateTime(year, 2, 1, 0)) == Instant(DateTime(year, 1, 1, 0)) + 31 * DAY
  {
    InstantIsDays(DateTime(year, 3, 1, 0));
    InstantIsDays(DateTime(year + 1, 1, 1, 0));
    assert Days(year + 1, 1, 1) == Days(year, 3, 1) + 306;
    InstantIsDays(DateTime(year, 2, 1, 0));
    InstantIsDays(DateTime(year, 1, 1, 0));
    assert Days(year, 2, 1) == Days(year, 1, 1) + 31;
  }

  /** The calendar repeats after 146097 days. */
  lemma FourCenturiesLaw(year: int, month: int)
    requires 1 <= month <= 12
    ensures Instant(DateTime(year + 400, month, 1, 0)) == Instant(DateTime(year, month, 1, 0)) + 146097 * DAY
  {
    InstantIsDays(DateTime(year, month, 1, 0));
    InstantIsDays(DateTime(year + 400, month, 1, 0));
    FourCenturies(if month <= 2 then year - 1 else year);
    assert Days(year + 400, month, 1) == Days(year, month, 1) + 146097;
  }

  lemma FourCenturies(y: int)
    ensures (y + 400) / 4 == y / 4 + 100 && (y + 400) / 100 == y / 100 + 4 && (y + 400) / 400 == y / 400 + 1
  {
  }

  lemma NextInYear(year: int, month: int)
    requires 1 <= month <= 11
    ensures Days(year, month + 1, 1) == Days(year, month, 1) + MonthLength(year, month)
  {
    var first, next := DateTime(year, month, 1, 0), DateTime(year, month + 1, 1, 0);
    DayNumberIsDays(first);
    DayNumberIsDays(next);
    assert DayNumber(next) == DayNumber(first) + MonthLength(year, month);
  }

  lemma NextIsFirst(year: int, month: int)
    requires 1 <= month <= 12
    ensures FirstOfNext(year, month) == Days(year, month, 1) + MonthLength(year, month)
  {
    if month < 12 {
      NextInYear(year, month);
    } else {
      assert (12 + 9) % 12 == 9 && (1 + 9) % 12 == 10;
    }
  }

  /** The day exists in the month exactly when the calendar of the model has it. */
  lemma DateIff(year: int, month: int, day: int)
    requires 1 <= month <= 12
    ensures IsDate(year, month, day) <==> 1 <= day <= MonthLength(year, month)
  {
    NextIsFirst(year, month);
    assert Days(year, month, day) == Days(year, month, 1) + day - 1;
  }

  /** Which months have the days that not all have. */
  lemma LateDays(year: int, month: int)
    requires 1 <= month <= 12
    ensures IsDate(year, month, 31) <==>
      month == 1 || month == 3 || month == 5 || month == 7 || month == 8 || month == 10 || month == 12
    ensures IsDate(year, month, 30) <==> month != 2
    ensures IsDate(year, month, 28) && !IsDate(year, month, 32)
  {
    DateIff(year, month, 31);
    DateIff(year, month, 30);
    DateIff(year, month, 28);
    DateIff(year, month, 32);
  }

  lemma LeapDay(year: int)
    ensures IsDate(year, 2, 29) <==> year % 400 == 0 || (year % 4 == 0 && year % 100 != 0)
  {
    DateIff(year, 2, 29);
    assert year % 400 == 0 ==> year % 4 == 0;
  }

  // ---------- stamps ----------

  /** The instant reads as that day of some month, at that time. */
  ghost predicate Reads(x: int, day: int, hour: int, minute: int) {
    exists year, month :: IsDate(year, month, day) && x == At(year, month, day, hour, minute)
  }

  lemma LengthIs(year: int, month: int, m: int)
    requires 1 <= month <= 12 && m == 12 * year + month - 1
    ensures GREGORIAN.length(m) == MonthLength(year, month)
  {
    Split(year, month);
    GregorianAt(m);
  }

  lemma HasIs(year: int, month: int, m: int, day: int)
    requires 1 <= month <= 12 && m == 12 * year + month - 1
    ensures Has(GREGORIAN, m, day) <==> IsDate(year, month, day)
  {
    LengthIs(year, month, m);
    DateIff(year, month, day);
  }

  lemma OccurrenceIsAt(year: int, month: int, m: int, day: int, hour: nat, minute: nat)
    requires 1 <= month <= 12 && m == 12 * year + month - 1
    ensures Occurrence(GREGORIAN, m, day, SecondOfDay(hour, minute)) == At(year, month, day, hour, minute)
  {
    var d := DateTime(year, month, day, SecondOfDay(hour, minute));
    InstantFromMonth(d);
    GregorianAt(m);
    InstantIsDays(d);
  }

  lemma MonthOf(m: int) returns (year: int, month: int)
    ensures 1 <= month <= 12 && m == 12 * year + month - 1
  {
    year, month := m / 12, m % 12 + 1;
  }

  lemma OccurrenceAtDate(m: int, day: int, hour: nat, minute: nat)
    ensures Has(GREGORIAN, m, day)
        ==> Reads(Occurrence(GREGORIAN, m, day, SecondOfDay(hour, minute)), day, hour, minute)
  {
    var year, month := MonthOf(m);
    HasIs(year, month, m, day);
    OccurrenceIsAt(year, month, m, day, hour, minute);
  }

  lemma DateIsOccurrence(year: int, month: int, day: int, hour: nat, minute: nat)
    requires IsDate(year, month, day)
    ensures IsOccurrence(GREGORIAN, At(year, month, day, hour, minute), day, SecondOfDay(hour, minute))
  {
    var m := 12 * year + month - 1;
    HasIs(year, month, m, day);
    OccurrenceIsAt(year, month, m, day, hour, minute);
  }

  /** What the model calls an occurrence is an instant that reads so. */
  lemma OccurrenceReads(x: int, day: int, hour: nat, minute: nat)
    ensures IsOccurrence(GREGORIAN, x, day, SecondOfDay(hour, minute)) <==> Reads(x, day, hour, minute)
  {
    if IsOccurrence(GREGORIAN, x, day, SecondOfDay(hour, minute)) {
      var m :| Has(GREGORIAN, m, day) && x == Occurrence(GREGORIAN, m, day, SecondOfDay(hour, minute));
      OccurrenceAtDate(m, day, hour, minute);
    }
    if Reads(x, day, hour, minute) {
      var year, month :| IsDate(year, month, day) && x == At(year, month, day, hour, minute);
      DateIsOccurrence(year, month, day, hour, minute);
    }
  }

  ghost predicate FirstFrom(x: int, now: int, day: int, hour: int, minute: int) {
    && Reads(x, day, hour, minute) && now <= x
    && forall y :: Reads(y, day, hour, minute) && now <= y ==> x <= y
  }

  ghost predicate LastTo(x: int, now: int, day: int, hour: int, minute: int) {
    && Reads(x, day, hour, minute) && x < now
    && forall y :: Reads(y, day, hour, minute) && y < now ==> y <= x
  }

  /** As near to `now` as any other instant that reads so, and before any that is equally near. */
  ghost predicate ClosestTo(x: int, now: int, day: int, hour: int, minute: int) {
    && Reads(x, day, hour, minute)
    && forall y :: Reads(y, day, hour, minute) ==> Nearer(x, y, now)
  }

  ghost predicate Nearer(x: int, y: int, now: int) {
    || (now - y < x - now < y - now) || (now - y < now - x < y - now) || (y - now < x - now < now - y)
    || (y - now < now - x < now - y) || x == y || (x < y && now - x == y - now)
  }

  lemma NearerIs(x: int, y: int, now: int)
    ensures AtLeastAsNear(x, y, now) <==> Nearer(x, y, now)
  {
  }

  lemma FirstFromIs(x: int, now: int, day: int, hour: nat, minute: nat)
    ensures EarliestNotBefore(GREGORIAN, x, now, day, SecondOfDay(hour, minute))
       <==> FirstFrom(x, now, day, hour, minute)
  {
    var sod := SecondOfDay(hour, minute);
    OccurrenceReads(x, day, hour, minute);
    if EarliestNotBefore(GREGORIAN, x, now, day, sod) {
      forall y | Reads(y, day, hour, minute) && now <= y ensures x <= y {
        OccurrenceReads(y, day, hour, minute);
      }
    }
    if FirstFrom(x, now, day, hour, minute) {
      forall m | Has(GREGORIAN, m, day) && now <= Occurrence(GREGORIAN, m, day, sod)
        ensures x <= Occurrence(GREGORIAN, m, day, sod)
      {
        OccurrenceReads(Occurrence(GREGORIAN, m, day, sod), day, hour, minute);
      }
    }
  }

  lemma LastToIs(x: int, now: int, day: int, hour: nat, minute: nat)
    ensures LatestBefore(GREGORIAN, x, now, day, SecondOfDay(hour, minute)) <==> LastTo(x, now, day, hour, minute)
  {
    var sod := SecondOfDay(hour, minute);
    OccurrenceReads(x, day, hour, minute);
    if LatestBefore(GREGORIAN, x, now, day, sod) {
      forall y | Reads(y, day, hour, minute) && y < now ensures y <= x {
        OccurrenceReads(y, day, hour, minute);
      }
    }
    if LastTo(x, now, day, hour, minute) {
      forall m | Has(GREGORIAN, m, day) && Occurrence(GREGORIAN, m, day, sod) < now
        ensures Occurrence(GREGORIAN, m, day, sod) <= x
      {
        OccurrenceReads(Occurrence(GREGORIAN, m, day, sod), day, hour, minute);
      }
    }
  }

  lemma ClosestToIs(x: int, now: int, day: int, hour: nat, minute: nat)
    ensures Nearest(GREGORIAN, x, now, day, SecondOfDay(hour, minute)) <==> ClosestTo(x, now, day, hour, minute)
  {
    var sod := SecondOfDay(hour, minute);
    OccurrenceReads(x, day, hour, minute);
    if Nearest(GREGORIAN, x, now, day, sod) {
      forall y | Reads(y, day, hour, minute) ensures Nearer(x, y, now) {
        OccurrenceReads(y, day, hour, minute);
        NearerIs(x, y, now);
      }
    }
    if ClosestTo(x, now, day, hour, minute) {
      forall m | Has(GREGORIAN, m, day) ensures AtLeastAsNear(x, Occurrence(GREGORIAN, m, day, sod), now) {
        OccurrenceReads(Occurrence(GREGORIAN, m, day, sod), day, hour, minute);
        NearerIs(x, Occurrence(GREGORIAN, m, day, sod), now);
      }
    }
  }

  // ---------- the resolvers ----------

  /** The day is still to come in the month of `now`, or exists in the next. */
  ghost predicate Ahead(year: int, month: int, now: int, day: int, hour: int, minute: int) {
    || (IsDate(year, month, day) && now <= At(year, month, day, hour, minute))
    || IsDate(Following(year, month).0, Following(year, month).1, day)
  }

  /** Year and month of the next month. */
  function Following(year: int, month: int): (int, int) {
    if month == 12 then (year + 1, 1) else (year, month + 1)
  }

  lemma FollowingIs(year: int, month: int, m: int, y: int, next: int)
    requires 1 <= month <= 12 && m == 12 * year + month - 1 && (y, next) == Following(year, month)
    ensures 1 <= next <= 12 && m + 1 == 12 * y + next - 1
  {
  }

  lemma AheadIs(year: int, month: int, m: int, now: int, day: int, hour: nat, minute: nat)
    requires 1 <= month <= 12 && m == 12 * year + month - 1
    ensures StillAhead(GREGORIAN, m, now, day, SecondOfDay(hour, minute))
       <==> Ahead(year, month, now, day, hour, minute)
  {
    HasIs(year, month, m, day);
    OccurrenceIsAt(year, month, m, day, hour, minute);
    var (y, next) := Following(year, month);
    FollowingIs(year, month, m, y, next);
    HasIs(y, next, m + 1, day);
  }

  lemma NowIs(year: int, month: int, date: int, second: int, d: DateTime)
    requires IsDate(year, month, date) && 0 <= second < 86400 && d == DateTime(year, month, date, second)
    ensures IsDateTime(d)
    ensures Instant(d) == At(year, month, date, 0, 0) + second && MonthIndex(d) == 12 * year + month - 1
  {
    DateIff(year, month, date);
    InstantIsDays(d);
  }

  /** The first such day and time from `now` on if one is ahead, and otherwise the last one before. */
  ghost predicate NotBeforeAnswer(year: int, month: int, now: int, day: int, hour: int, minute: int, x: int) {
    if Ahead(year, month, now, day, hour, minute) then FirstFrom(x, now, day, hour, minute)
    else LastTo(x, now, day, hour, minute)
  }

  /** What the model says of a not-before resolution, said of dates. */
  lemma NotBeforeReads(year: int, month: int, m: int, now: int, day: nat, hour: nat, minute: nat, x: int)
    requires 1 <= month <= 12 && m == 12 * year + month - 1
    requires EarliestNotBefore(GREGORIAN, x, now, day, SecondOfDay(hour, minute))
         <==> StillAhead(GREGORIAN, m, now, day, SecondOfDay(hour, minute))
    requires !StillAhead(GREGORIAN, m, now, day, SecondOfDay(hour, minute)) ==>
      LatestBefore(GREGORIAN, x, now, day, SecondOfDay(hour, minute))
    ensures NotBeforeAnswer(year, month, now, day, hour, minute, x)
  {
    AheadIs(year, month, m, now, day, hour, minute);
    FirstFromIs(x, now, day, hour, minute);
    LastToIs(x, now, day, hour, minute);
  }

  /** The same for a choice already made between the two. */
  lemma NotBeforeChosen(year: int, month: int, m: int, now: int, day: nat, hour: nat, minute: nat, x: int)
    requires 1 <= month <= 12 && m == 12 * year + month - 1
    requires if StillAhead(GREGORIAN, m, now, day, SecondOfDay(hour, minute))
             then EarliestNotBefore(GREGORIAN, x, now, day, SecondOfDay(hour, minute))
             else LatestBefore(GREGORIAN, x, now, day, SecondOfDay(hour, minute))
    ensures NotBeforeAnswer(year, month, now, day, hour, minute, x)
  {
    AheadIs(year, month, m, now, day, hour, minute);
    FirstFromIs(x, now, day, hour, minute);
    LastToIs(x, now, day, hour, minute);
  }

  /** A stamp resolved against a product's time, said of dates. */
  method ResolveNotBefore(year: int, month: int, date: int, second: int, day: nat, hour: nat, minute: nat)
    returns (r: Option<int>)
    requires IsDate(year, month, date) && 0 <= second < 86400
    ensures r.None? <==> day == 0 || day > 31 || hour > 23 || minute > 59
    ensures r.Some? ==>
      NotBeforeAnswer(year, month, At(year, month, date, 0, 0) + second, day, hour, minute, r.value)
  {
    var d := DateTime(year, month, date, second);
    NowIs(year, month, date, second, d);
    r := ResolveDayTimeNotBefore(d, day, hour, minute);
    if r.Some? {
      NotBeforeReads(year, month, MonthIndex(d), Instant(d), day, hour, minute, r.value);
    }
  }

  function Preceding(year: int, month: int): (int, int) {
    if month == 1 then (year - 1, 12) else (year, month - 1)
  }

  lemma PrecedingIs(year: int, month: int, m: int, y: int, before: int)
    requires 1 <= month <= 12 && m == 12 * year + month - 1 && (y, before) == Preceding(year, month)
    ensures 1 <= before <= 12 && m - 1 == 12 * y + before - 1
  {
  }

  /** The day is missing in the month before and, two months before, at least as near as in this one. */
  ghost predicate Skipped(year: int, month: int, now: int, day: int, hour: int, minute: int) {
    var (y, before) := Preceding(year, month);
    var (z, earlier) := Preceding(y, before);
    !IsDate(y, before, day) && now - At(z, earlier, day, hour, minute) <= At(year, month, day, hour, minute) - now
  }

  lemma SkippedIs(year: int, month: int, m: int, now: int, day: nat, hour: nat, minute: nat)
    requires 1 <= month <= 12 && m == 12 * year + month - 1 && ValidFields(day, hour, minute)
    ensures SkippedIsAsNear(GREGORIAN, m, now, day, SecondOfDay(hour, minute))
       <==> Skipped(year, month, now, day, hour, minute)
  {
    var sod := SecondOfDay(hour, minute);
    var (y, before) := Preceding(year, month);
    PrecedingIs(year, month, m, y, before);
    var (z, earlier) := Preceding(y, before);
    PrecedingIs(y, before, m - 1, z, earlier);
    HasIs(y, before, m - 1, day);
    OccurrenceIsAt(year, month, m, day, hour, minute);
    OccurrenceIsAt(z, earlier, m - 2, day, hour, minute);
    if !Has(GREGORIAN, m - 1, day) {
      GregorianIsCalendar();
      TwoMonthsBack(GREGORIAN, m, day, sod);
      NearBySums(m, now, day, sod);
    }
  }

  lemma NearBySums(m: int, now: int, day: int, sod: int)
    requires var c := GREGORIAN;
      Occurrence(c, m - 2, day, sod)
      == c.start(m) - (c.length(m - 1) + c.length(m - 2)) * DAY + (day - 1) * DAY + sod
    ensures var c := GREGORIAN;
      now - Occurrence(c, m - 2, day, sod) <= Occurrence(c, m, day, sod) - now
      <==> 2 * (now - c.start(m)) <= (2 * (day - 1) - c.length(m - 1) - c.length(m - 2)) * DAY + 2 * sod
  {
  }

  lemma ReachReads(m: int, now: int, day: int, hour: nat, minute: nat, x: int)
    requires NearestInReach(GREGORIAN, m, x, now, day, SecondOfDay(hour, minute))
    ensures Reads(x, day, hour, minute)
  {
    var k :| m - 1 <= k <= m + 1 && Has(GREGORIAN, k, day)
        && x == Occurrence(GREGORIAN, k, day, SecondOfDay(hour, minute));
    OccurrenceAtDate(k, day, hour, minute);
  }

  /** A day and time as asked, and the closest such one exactly when none was skipped. */
  ghost predicate NearestAnswer(year: int, month: int, now: int, day: int, hour: int, minute: int, x: int) {
    && Reads(x, day, hour, minute)
    && (ClosestTo(x, now, day, hour, minute) <==> !Skipped(year, month, now, day, hour, minute))
  }

  lemma NearestReads(year: int, month: int, m: int, now: int, day: nat, hour: nat, minute: nat, x: int)
    requires 1 <= month <= 12 && m == 12 * year + month - 1 && ValidFields(day, hour, minute)
    requires NearestInReach(GREGORIAN, m, x, now, day, SecondOfDay(hour, minute))
    requires Nearest(GREGORIAN, x, now, day, SecondOfDay(hour, minute))
         <==> !SkippedIsAsNear(GREGORIAN, m, now, day, SecondOfDay(hour, minute))
    ensures NearestAnswer(year, month, now, day, hour, minute, x)
  {
    ReachReads(m, now, day, hour, minute, x);
    ClosestToIs(x, now, day, hour, minute);
    SkippedIs(year, month, m, now, day, hour, minute);
  }

  /** The nearest resolution said of dates, with its exact condition. */
  method ResolveNearest(year: int, month: int, date: int, second: int, day: nat, hour: nat, minute: nat)
    returns (r: Option<int>)
    requires IsDate(year, month, date) && 0 <= second < 86400
    ensures r.None? <==> day == 0 || day > 31 || hour > 23 || minute > 59
    ensures r.Some? ==>
      NearestAnswer(year, month, At(year, month, date, 0, 0) + second, day, hour, minute, r.value)
  {
    var d := DateTime(year, month, date, second);
    NowIs(year, month, date, second, d);
    r := NearestOf(d, day, hour, minute);
  }

  method NearestOf(d: DateTime, day: nat, hour: nat, minute: nat) returns (r: Option<int>)
    requires IsDateTime(d)
    ensures r.None? <==> day == 0 || day > 31 || hour > 23 || minute > 59
    ensures r.Some? ==> NearestAnswer(d.year, d.month, Instant(d), day, hour, minute, r.value)
  {
    r := ResolveDayTimeNearest(d, day, hour, minute);
    if r.Some? {
      NearestReads(d.year, d.month, MonthIndex(d), Instant(d), day, hour, minute, r.value);
    }
  }

  lemma WholeDays(k: int)
    ensures (k * 86400) % 86400 == 0
  {
  }

  lemma MidnightIsWhole(x: int, day: int)
    requires Reads(x, day, 0, 0)
    ensures x % 86400 == 0
  {
    var year, month :| IsDate(year, month, day) && x == At(year, month, day, 0, 0);
    var k := Days(year, month, day) - EPOCH;
    assert x == k * 86400;
    WholeDays(k);
  }

  lemma JulyAhead()
    ensures IsDate(2025, 7, 30) && IsDate(2025, 7, 31)
    ensures At(2025, 7, 31, 0, 0) == At(2025, 7, 30, 0, 0) + 86400
    ensures At(2025, 7, 31, 0, 0) % 86400 == 0
  {
    WholeDays(Days(2025, 7, 31) - EPOCH);
  }

  lemma OnlyMidnight(x: int, noon: int, midnight: int)
    requires x % 86400 == 0 && midnight % 86400 == 0 && noon == midnight - 43200 && noon <= x <= midnight
    ensures x == midnight
  {
  }

  lemma JulyAnswer(x: int)
    requires NotBeforeAnswer(2025, 7, At(2025, 7, 30, 0, 0) + 43200, 31, 0, 0, x)
    ensures x == At(2025, 7, 31, 0, 0)
  {
    var noon, midnight := At(2025, 7, 30, 0, 0) + 43200, At(2025, 7, 31, 0, 0);
    JulyAhead();
    assert Reads(midnight, 31, 0, 0);
    assert FirstFrom(x, noon, 31, 0, 0);
    MidnightIsWhole(x, 31);
    OnlyMidnight(x, noon, midnight);
  }

  /** At noon of 30 July 2025 an expiration on the 31st at midnight is half a day ahead. */
  method ExpirationInJuly() returns (r: Option<int>)
    ensures r == Some(At(2025, 7, 31, 0, 0))
  {
    JulyAhead();
    r := ResolveNotBefore(2025, 7, 30, 43200, 31, 0, 0);
    JulyAnswer(r.value);
  }

  // ---------- clock readings ----------

  /** The clock shows that time. */
  ghost predicate Shows(x: int, hour: int, minute: int) {
    x % 86400 == hour * 3600 + minute * 60
  }

  lemma ShowsIff(x: int, hour: nat, minute: nat)
    requires hour <= 23 && minute <= 59
    ensures Shows(x, hour, minute) <==> exists k: int :: x == k * DAY + SecondOfDay(hour, minute)
  {
    if Shows(x, hour, minute) {
      assert x == (x / 86400) * DAY + SecondOfDay(hour, minute);
    }
    if k: int :| x == k * DAY + SecondOfDay(hour, minute) {
      DayRest(k, SecondOfDay(hour, minute));
    }
  }

  lemma DayRest(k: int, s: nat)
    requires s < 86400
    ensures (k * 86400 + s) % 86400 == s
  {
  }

  /** A clock reading without a day: the closest instant that shows it. */
  method ResolveClock(now: DateTime, hour: nat, minute: nat) returns (r: Option<int>)
    requires IsDateTime(now)
    ensures r.None? <==> hour > 23 || minute > 59
    ensures r.Some? ==>
      Shows(r.value, hour, minute) && forall y :: Shows(y, hour, minute) ==> Nearer(r.value, y, Instant(now))
  {
    r := ResolveClockTimeNearest(now, hour, minute);
    if r.Some? {
      ClosestShown(r.value, Instant(now), hour, minute);
    }
  }

  lemma ClosestShown(x: int, now: int, hour: nat, minute: nat)
    requires hour <= 23 && minute <= 59 && NearestDaily(x, now, SecondOfDay(hour, minute))
    ensures Shows(x, hour, minute) && forall y :: Shows(y, hour, minute) ==> Nearer(x, y, now)
  {
    ShowsIff(x, hour, minute);
    forall y | Shows(y, hour, minute) ensures Nearer(x, y, now) {
      ShowsIff(y, hour, minute);
      NearerIs(x, y, now);
    }
  }
}
