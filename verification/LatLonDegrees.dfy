/**
 * What coordinate tokens of each width mean in degrees, which tokens are taken
 * apart, and which points a list of coordinates gives.
 */
module LatLonDegrees {
  import opened Prelude
  import opened Digits
  import opened Geo
  import opened LatLonTokens

  const DIGITS := "0123456789"

  /** A number below a hundred in two digits. */
  function TwoDigits(n: nat): string
    requires n < 100
  {
    [DIGITS[n / 10], DIGITS[n % 10]]
  }

  lemma DigitAt(n: nat)
    requires n < 10
    ensures DIGITS[n] as int == 48 + n
  {
  }

  lemma TwoValue(n: nat)
    requires n < 100
    ensures AllDigits(TwoDigits(n)) && Value(TwoDigits(n)) == n
  {
    DigitAt(n / 10);
    DigitAt(n % 10);
    var s := TwoDigits(n);
    assert s[..1] == [s[0]] && s[..1][..0] == "";
    assert Value(s[..1]) == n / 10;
  }

  // ---------- widths ----------

  /** Four or five digits are hundredths of a degree. */
  lemma {:induction false} Hundredths(s: string)
    requires (|s| == 4 || |s| == 5) && AllDigits(s)
    ensures var r := ParseCoordinate(s, true); r.Some? && 100.0 * r.value == Value(s) as real
  {
    assert !Negative(s);
  }

  /** Six digits are degrees, minutes and seconds. */
  lemma MinutesAndSeconds(d: nat, m: nat, s: nat)
    requires d < 100 && m < 100 && s < 100
    ensures var r := ParseCoordinate(TwoDigits(d) + TwoDigits(m) + TwoDigits(s), true);
      r.Some? && 3600.0 * r.value == (3600 * d + 60 * m + s) as real
  {
    var t := TwoDigits(d) + TwoDigits(m) + TwoDigits(s);
    TwoValue(d);
    TwoValue(m);
    TwoValue(s);
    assert t[0..2] == TwoDigits(d) && t[2..4] == TwoDigits(m) && t[4..6] == TwoDigits(s);
    assert IsDigit(t[0]) && !Negative(t);
    assert 3600.0 * (d as real + m as real / 60.0 + s as real / 3600.0)
         == 3600.0 * d as real + 60.0 * m as real + s as real;
  }

  /** Seven digits are degrees and a fraction in five digits. */
  lemma {:induction false} FiveDecimals(d: nat, f: string)
    requires d < 100 && |f| == 5 && AllDigits(f)
    ensures var r := ParseCoordinate(TwoDigits(d) + f, true);
      r.Some? && 100000.0 * r.value == (100000 * d + Value(f)) as real
  {
    var t := TwoDigits(d) + f;
    TwoValue(d);
    assert t[0..2] == TwoDigits(d) && t[2..7] == f;
    assert IsDigit(t[0]) && !Negative(t);
  }

  /** Eight digits are degrees, minutes, seconds and hundredths of a second. */
  lemma HundredthsOfSeconds(d: nat, m: nat, s: nat, h: nat)
    requires d < 100 && m < 100 && s < 100 && h < 100
    ensures var r := ParseCoordinate(TwoDigits(d) + TwoDigits(m) + TwoDigits(s) + TwoDigits(h), true);
      r.Some? && 360000.0 * r.value == (360000 * d + 6000 * m + 100 * s + h) as real
  {
    var t := TwoDigits(d) + TwoDigits(m) + TwoDigits(s) + TwoDigits(h);
    TwoValue(d);
    TwoValue(m);
    TwoValue(s);
    TwoValue(h);
    assert t[0..2] == TwoDigits(d) && t[2..4] == TwoDigits(m);
    assert t[4..6] == TwoDigits(s) && t[6..8] == TwoDigits(h);
    assert IsDigit(t[0]) && !Negative(t);
    var x := d as real + m as real / 60.0 + (s as real + h as real / 100.0) / 3600.0;
    assert 360000.0 * x == 360000.0 * d as real + 6000.0 * m as real + 100.0 * s as real + h as real;
  }

  /** A longitude is the western one of that many degrees, a hundred more when fewer than forty are written. */
  lemma Westward(s: string)
    requires s != "" && AllDigits(s)
    ensures var lat, lon := ParseCoordinate(s, true), ParseCoordinate(s, false);
      lat.Some? && lon == Some(if lat.value < 40.0 then -(lat.value + 100.0) else -lat.value)
  {
    assert !Negative(s);
  }

  /** A sign makes the token a plain number; anything but digits behind it is no coordinate. */
  lemma {:induction false} SignedOrNot(s: string, isLatitude: bool)
    ensures s != "" && AllDigits(s) ==> ParseCoordinate("-" + s, isLatitude) == Some(-(Value(s) as real))
    ensures !AllDigits(s) ==> ParseCoordinate("-" + s, isLatitude).None?
    ensures !AllDigits(s) && (s != "" ==> s[0] != '-') ==> ParseCoordinate(s, isLatitude).None?
    ensures ParseCoordinate("", isLatitude).None? && ParseCoordinate("-", isLatitude).None?
  {
    assert ("-" + s)[1..] == s && ("-" + s)[0] == '-';
    assert "-"[0] == '-' && |"-"| == 1;
  }

  // ---------- tokens taken apart ----------

  /** A token of eight digits is a pair; where a longitude is due it is one only among narrow unsigned tokens. */
  lemma PairsTakenApart(normalized: seq<string>, token: string)
    requires |token| == 8 && AllDigits(token) && forall i :: 0 <= i < |normalized| ==> normalized[i] != ""
    requires forall i :: 0 <= i < |normalized| && normalized[i][0] != '-' ==> AllDigits(normalized[i])
    ensures |normalized| % 2 == 0 ==> Contribution(normalized, token) == ([token[..4], token[4..]], false)
    ensures |normalized| % 2 == 1
        && (forall i :: 0 <= i < |normalized| ==> AllDigits(normalized[i]) && |normalized[i]| <= 5)
      ==> Contribution(normalized, token) == ([token[..4], token[4..]], true)
    ensures |normalized| % 2 == 1
        && (exists i :: 0 <= i < |normalized| && (normalized[i][0] == '-' || |normalized[i]| > 5))
      ==> Contribution(normalized, token) == ([token], false)
  {
    assert !Negative(token) && !Negative(token[..4]) && !Negative(token[4..]);
    assert AllDigits(token[..4]) && AllDigits(token[4..]);
  }

  /** Every other token stands for itself. */
  lemma OthersStand(normalized: seq<string>, token: string)
    requires |token| != 8 || (token != "" && token[0] == '-')
    ensures Contribution(normalized, token) == ([token], false)
  {
  }

  // ---------- lists of coordinates ----------

  /** Latitudes and longitudes by turns, no pair run together: their points, in order. */
  lemma {:induction false} PointsByTurns(coords: seq<string>, points: seq<Point>)
    requires |coords| == 2 * |points| && forall i :: 0 <= i < |coords| ==> |coords[i]| != 8
    requires forall i :: 0 <= i < |points| ==>
      && ParseCoordinate(coords[2 * i], true) == Some(points[i].lat)
      && ParseCoordinate(coords[2 * i + 1], false) == Some(points[i].lon)
    ensures Collect(coords, None) == Ok(points)
    ensures |points| >= 3 ==> Points(coords) == Ok(points)
    ensures |points| < 3 ==> Points(coords) == Err(InvalidCount)
  {
    if points != [] {
      var later := coords[1..][1..];
      assert later == coords[2..];
      forall i | 0 <= i < |points[1..]|
        ensures ParseCoordinate(later[2 * i], true) == Some(points[1..][i].lat)
        ensures ParseCoordinate(later[2 * i + 1], false) == Some(points[1..][i].lon)
      {
        assert later[2 * i] == coords[2 * (i + 1)] && later[2 * i + 1] == coords[2 * (i + 1) + 1];
      }
      PointsByTurns(later, points[1..]);
      assert points == [points[0]] + points[1..];
    }
  }
}
