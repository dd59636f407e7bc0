/**
 * The UGC parser said of texts: what white space and headlines are, where a
 * block ends, what its expiration reads as, what a shortened range end stands
 * for, and which bucket and catalog a code goes to.
 */
module UgcLaws {
  import opened Prelude
  import opened Ascii
  import opened Digits
  import opened Ugc
  import opened TextLines
  import opened UgcSection
  import CivilDays
  import Calendar

  // ---------- white space ----------

  /** Squeezing drops exactly the white space, byte by byte. */
  lemma {:induction false} SqueezeLaw(s: string, t: string, c: char)
    ensures Compact("") == "" && Compact([c]) == if Blank(c) then "" else [c]
    ensures Compact(s + t) == Compact(s) + Compact(t)
  {
    WhiteIsBlank(c);
    assert [c][1..] == "";
    if s == "" {
      assert s + t == t;
    } else {
      assert (s + t)[1..] == s[1..] + t;
      SqueezeLaw(s[1..], t, c);
    }
  }

  /** A text between white space. */
  ghost predicate Core(line: string, a: nat, b: nat) {
    && a < b <= |line| && !Blank(line[a]) && !Blank(line[b - 1])
    && (forall i :: 0 <= i < a ==> Blank(line[i])) && forall i :: b <= i < |line| ==> Blank(line[i])
  }

  lemma TrimIsCore(line: string)
    ensures Trim(line) == "" <==> forall i :: 0 <= i < |line| ==> Blank(line[i])
    ensures Trim(line) != "" ==> exists a: nat, b: nat :: Core(line, a, b) && Trim(line) == line[a..b]
  {
    var w := TrimStartAt(line);
    var t := line[w..];
    TrimEndIs(t);
    var u := TrimEnd(t);
    assert u == t[..|u|];
    if u == "" {
      forall i | 0 <= i < |line| ensures Blank(line[i]) {
      }
    } else {
      assert line[w..w + |u|] == u;
      assert u[|u| - 1] == line[w + |u| - 1];
      forall i | w + |u| <= i < |line| ensures Blank(line[i]) {
        assert t[i - w] == line[i];
      }
      assert Core(line, w, w + |u|);
    }
  }

  // ---------- headlines ----------

  ghost predicate HoldsAt(t: string, part: string, i: nat) {
    i + |part| <= |t| && t[i..i + |part|] == part
  }

  lemma {:induction false} AtContains(t: string, part: string, i: nat)
    requires HoldsAt(t, part, i)
    ensures Contains(t, part)
  {
    if i > 0 && t != "" {
      assert t[1..][i - 1..i - 1 + |part|] == t[i..i + |part|];
      AtContains(t[1..], part, i - 1);
    }
  }

  lemma {:induction false} ContainsAt(t: string, part: string) returns (i: nat)
    requires Contains(t, part)
    ensures HoldsAt(t, part, i)
  {
    if part <= t {
      i := 0;
    } else {
      var j := ContainsAt(t[1..], part);
      assert t[1..][j..j + |part|] == t[j + 1..j + 1 + |part|];
      i := j + 1;
    }
  }

  /** The first word: up to white space or the end. */
  ghost predicate FirstWord(t: string, n: nat) {
    n <= |t| && (forall i :: 0 <= i < n ==> !Blank(t[i])) && (n < |t| ==> Blank(t[n]))
  }

  lemma LongerWord(t: string, m: nat)
    requires t != "" && !Blank(t[0]) && FirstWord(t[1..], m)
    ensures FirstWord(t, m + 1) && [t[0]] + t[1..][..m] == t[..m + 1]
  {
    forall i | 0 <= i < m + 1 ensures !Blank(t[i]) {
      assert i > 0 ==> t[i] == t[1..][i - 1];
    }
  }

  lemma {:induction false} FirstTokenIs(t: string) returns (n: nat)
    ensures FirstWord(t, n) && FirstToken(t) == t[..n]
  {
    if t == "" {
      n := 0;
    } else {
      WhiteIsBlank(t[0]);
      if IsWhite(t[0]) {
        n := 0;
      } else {
        var m := FirstTokenIs(t[1..]);
        n := m + 1;
        LongerWord(t, m);
      }
    }
  }

  ghost predicate HeadlineByte(c: char) {
    Capital(c) || Digit(c) || c == '/' || c == '-'
  }

  /** It ends in a colon, holds three dots, or begins with a long word in capitals that is no UGC code. */
  ghost predicate Headline(t: string)
    requires t != ""
  {
    || t[|t| - 1] == ':' || (exists i: nat :: HoldsAt(t, "...", i))
    || (!UgcLine(t) && exists n: nat :: LongCapitals(t, n))
  }

  /** The first word is long, begins with a capital and holds capitals, digits, slashes and dashes only. */
  ghost predicate LongCapitals(t: string, n: nat) {
    FirstWord(t, n) && n >= 4 && Capital(t[0]) && forall i :: 0 <= i < n ==> HeadlineByte(t[i])
  }

  /** The code's own test of a byte. */
  predicate TestedByte(c: char) {
    IsUpper(c) || IsDigit(c) || c == '/' || c == '-'
  }

  lemma HeadlineBytes(first: string)
    ensures (forall i :: 0 <= i < |first| ==> TestedByte(first[i]))
       <==> forall i :: 0 <= i < |first| ==> HeadlineByte(first[i])
  {
    forall i | 0 <= i < |first|
      ensures IsUpper(first[i]) || IsDigit(first[i]) <==> Capital(first[i]) || Digit(first[i]) {
      UpperIsCapital(first[i]);
      DigitIsDigit(first[i]);
    }
  }

  lemma OneFirstWord(t: string, n: nat, m: nat)
    requires FirstWord(t, n) && FirstWord(t, m)
    ensures n == m
  {
  }

  lemma {:induction false} LongWordAt(t: string, n: nat)
    requires t != "" && FirstWord(t, n) && FirstToken(t) == t[..n]
    ensures var first := FirstToken(t);
      |first| >= 4 && IsUpper(first[0])
      && (forall i :: 0 <= i < |first| ==> TestedByte(first[i]))
      <==> LongCapitals(t, n)
  {
    var first := t[..n];
    HeadlineBytes(first);
    UpperIsCapital(t[0]);
    assert forall i :: 0 <= i < n ==> first[i] == t[i];
  }

  lemma {:induction false} LongWord(t: string)
    requires t != ""
    ensures var first := FirstToken(t);
      |first| >= 4 && IsUpper(first[0])
      && (forall i :: 0 <= i < |first| ==> TestedByte(first[i]))
      <==> exists n: nat :: LongCapitals(t, n)
  {
    var n := FirstTokenIs(t);
    LongWordAt(t, n);
    if m: nat :| LongCapitals(t, m) {
      OneFirstWord(t, n, m);
    }
  }

  /** A line that ends a block: blank, or a headline. */
  lemma NewSectionIs(line: string)
    ensures StartsNewSection(line) <==> Trim(line) != "" && Headline(Trim(line))
  {
    var w := TrimStartAt(line);
    var t := Trim(line);
    if t != "" {
      if Contains(t, "...") {
        var i := ContainsAt(t, "...");
      } else {
        forall i: nat ensures !HoldsAt(t, "...", i) {
          if HoldsAt(t, "...", i) {
            AtContains(t, "...", i);
          }
        }
      }
      LongWord(t);
      UgcStartIs(t);
    }
  }

  // ---------- where a block ends ----------

  /** The text ends in a dash, six digits and a dash. */
  ghost predicate Expires(text: string, block: string, stamp: string) {
    && |stamp| == 6 && (forall i :: 0 <= i < 6 ==> Digit(stamp[i]))
    && text == block + "-" + stamp + "-"
  }

  lemma ExpiresIs(text: string)
    ensures HasExpiration(text) <==> exists block, stamp :: Expires(text, block, stamp)
  {
    var n := |text|;
    if HasExpiration(text) {
      var block, stamp := text[..n - 8], text[n - 7..n - 1];
      forall i | 0 <= i < 6 ensures Digit(stamp[i]) {
        DigitIsDigit(stamp[i]);
      }
      assert text == block + "-" + stamp + "-";
      assert Expires(text, block, stamp);
    }
    if block, stamp :| Expires(text, block, stamp) {
      SplitAt(text, block, stamp);
    }
  }

  lemma SplitAt(text: string, block: string, stamp: string)
    requires Expires(text, block, stamp)
    ensures HasExpiration(text) && ExtractExpiration(text) == Some((block, stamp))
  {
    var n := |text|;
    assert text[n - 7..n - 1] == stamp && text[..n - 8] == block;
    forall i | 0 <= i < 6 ensures IsDigit(stamp[i]) {
      DigitIsDigit(stamp[i]);
    }
  }

  /** The bytes of some lines without their white space, one after the other. */
  function Squeezed(lines: seq<string>): string {
    if lines == [] then "" else Squeezed(lines[..|lines| - 1]) + Compact(lines[|lines| - 1])
  }

  ghost predicate AllBlank(line: string) {
    forall i :: 0 <= i < |line| ==> Blank(line[i])
  }

  /** The line, without the white space around it, is a headline. */
  ghost predicate HeadlineLine(line: string) {
    exists a: nat, b: nat :: Core(line, a, b) && Headline(line[a..b])
  }

  lemma CoreUnique(line: string, a: nat, b: nat, c: nat, d: nat)
    requires Core(line, a, b) && Core(line, c, d)
    ensures a == c && b == d
  {
  }

  lemma CoreOfCore(line: string, a: nat, b: nat)
    requires Core(line, a, b)
    ensures Core(line[a..b], 0, b - a)
  {
    var t := line[a..b];
    assert t[0] == line[a] && t[|t| - 1] == line[b - 1];
  }

  lemma TrimOfCore(t: string)
    requires t != "" && Core(t, 0, |t|)
    ensures Trim(t) == t
  {
    TrimIsCore(t);
    assert !Blank(t[0]);
    var c: nat, d: nat :| Core(t, c, d) && Trim(t) == t[c..d];
    CoreUnique(t, c, d, 0, |t|);
    assert t[0..|t|] == t;
  }

  lemma TrimTwice(line: string)
    ensures Trim(Trim(line)) == Trim(line)
  {
    var t := Trim(line);
    TrimIsCore(line);
    if t != "" {
      var a: nat, b: nat :| Core(line, a, b) && t == line[a..b];
      CoreOfCore(line, a, b);
      TrimOfCore(t);
    } else {
      assert TrimStart("") == "" && TrimEnd("") == "";
    }
  }

  /** The lines that end a block. */
  lemma StopsIs(line: string)
    ensures Trim(line) == "" || StartsNewSection(Trim(line)) <==> AllBlank(line) || HeadlineLine(line)
  {
    var t := Trim(line);
    TrimIsCore(line);
    TrimTwice(line);
    NewSectionIs(t);
    if t != "" {
      var a: nat, b: nat :| Core(line, a, b) && t == line[a..b];
      if c: nat, d: nat :| Core(line, c, d) && Headline(line[c..d]) {
        CoreUnique(line, a, b, c, d);
      }
    }
  }

  lemma {:induction false} SqueezeThree(a: string, b: string, c: string)
    ensures Compact(a + b + c) == Compact(a) + Compact(b) + Compact(c)
  {
    SqueezeLaw(a + b, c, ' ');
    SqueezeLaw(a, b, ' ');
  }

  lemma {:induction false} SqueezeCore(line: string, a: nat, b: nat)
    requires Core(line, a, b)
    ensures Compact(line[a..b]) == Compact(line)
  {
    BlankSqueezes(line[..a]);
    BlankSqueezes(line[b..]);
    SqueezeThree(line[..a], line[a..b], line[b..]);
    assert line == line[..a] + line[a..b] + line[b..];
  }

  /** Trimming first makes no difference to squeezing. */
  lemma {:induction false} SqueezeTrimmed(line: string)
    ensures Compact(Trim(line)) == Compact(line)
  {
    TrimIsCore(line);
    if Trim(line) == "" {
      BlankSqueezes(line);
    } else {
      var a: nat, b: nat :| Core(line, a, b) && Trim(line) == line[a..b];
      SqueezeCore(line, a, b);
    }
  }

  lemma {:induction false} BlankSqueezes(s: string)
    requires AllBlank(s)
    ensures Compact(s) == ""
  {
    if s != "" {
      WhiteIsBlank(s[0]);
      BlankSqueezes(s[1..]);
    }
  }

  /** The first `k` lines behind the first one belong to its block: none ends it, and it has not expired before. */
  ghost predicate BlockRuns(first: string, lines: seq<string>, k: nat) {
    k <= |lines| && forall j :: 0 <= j < k ==>
      && !AllBlank(lines[j]) && !HeadlineLine(lines[j])
      && forall block, stamp :: !Expires(Squeezed([first] + lines[..j]), block, stamp)
  }

  ghost predicate BlockEnds(first: string, lines: seq<string>, k: nat)
    requires k <= |lines|
  {
    || (exists block, stamp :: Expires(Squeezed([first] + lines[..k]), block, stamp))
    || k == |lines| || AllBlank(lines[k]) || HeadlineLine(lines[k])
  }

  lemma SqueezedPush(first: string, lines: seq<string>, j: nat)
    requires j < |lines|
    ensures Squeezed([first] + lines[..j + 1]) == Squeezed([first] + lines[..j]) + Compact(lines[j])
  {
    var all := [first] + lines[..j + 1];
    assert all[..|all| - 1] == [first] + lines[..j] && all[|all| - 1] == lines[j];
  }

  lemma {:induction false} CollectFrom(first: string, lines: seq<string>, j: nat, k: nat)
    requires j <= k && BlockRuns(first, lines, k) && BlockEnds(first, lines, k)
    ensures Collect(Squeezed([first] + lines[..j]), lines[j..]) == (Squeezed([first] + lines[..k]), lines[k..])
    decreases k - j
  {
    var text := Squeezed([first] + lines[..j]);
    ExpiresIs(text);
    if j < |lines| {
      StopsIs(lines[j]);
      assert lines[j..][0] == lines[j] && lines[j..][1..] == lines[j + 1..];
      if j < k {
        SqueezeTrimmed(lines[j]);
        SqueezedPush(first, lines, j);
        CollectFrom(first, lines, j + 1, k);
      }
    }
  }

  /**
   * A block is its first line and those behind it up to the one that brings the
   * expiration, or to a blank line, a headline or the end, squeezed together.
   */
  lemma {:induction false} CollectLaw(first: string, lines: seq<string>, k: nat)
    requires BlockRuns(first, lines, k) && BlockEnds(first, lines, k)
    ensures Collect(Compact(first), lines) == (Squeezed([first] + lines[..k]), lines[k..])
  {
    assert [first] + lines[..0] == [first] && [first][..0] == [];
    assert Squeezed([first]) == Squeezed([]) + Compact(first) == Compact(first);
    assert lines[0..] == lines;
    CollectFrom(first, lines, 0, k);
  }

  /** Candidates are looked for from UGC lines on; what a block does not use up is searched further. */
  lemma {:induction false} CandidatesLaw(lines: seq<string>, k: nat)
    requires lines != []
    ensures !UgcLine(lines[0]) ==> Candidates(lines) == Candidates(lines[1..])
    ensures UgcLine(lines[0]) && BlockRuns(lines[0], lines[1..], k) && BlockEnds(lines[0], lines[1..], k) ==>
      var text := Squeezed([lines[0]] + lines[1..][..k]);
      Candidates(lines)
      == (if exists block, stamp :: Expires(text, block, stamp) then [text] else []) + Candidates(lines[1..][k..])
  {
    UgcStartIs(lines[0]);
    if UgcLine(lines[0]) && BlockRuns(lines[0], lines[1..], k) && BlockEnds(lines[0], lines[1..], k) {
      CollectLaw(lines[0], lines[1..], k);
      ExpiresIs(Squeezed([lines[0]] + lines[1..][..k]));
    }
  }

  // ---------- what a candidate says ----------

  lemma {:induction false} StampFields(stamp: string, day: string, hour: string, minute: string)
    requires |day| == |hour| == |minute| == 2 && stamp == day + hour + minute
    requires AllDigits(day) && AllDigits(hour) && AllDigits(minute)
    ensures |stamp| == 6 && AllDigits(stamp) && ExpirationFields(stamp) == (Value(day), Value(hour), Value(minute))
  {
    assert stamp[0..2] == day && stamp[2..4] == hour && stamp[4..6] == minute;
  }

  /** The three failures of a candidate, and the reading of its stamp as day, hour and minute. */
  method ParseBlock(block: string, day: string, hour: string, minute: string,
                    year: int, month: int, date: int, second: int)
    returns (r: Result<(seq<Code>, int), UgcError>)
    requires |day| == |hour| == |minute| == 2 && AllDigits(day) && AllDigits(hour) && AllDigits(minute)
    requires CivilDays.IsDate(year, month, date) && 0 <= second < 86400
    ensures r == Err(InvalidCodes) <==> ExpandBlock(block).None?
    ensures r == Err(InvalidExpiration) <==>
      ExpandBlock(block).Some? && (Value(day) == 0 || Value(day) > 31 || Value(hour) > 23 || Value(minute) > 59)
    ensures r != Err(InvalidFormat)
    ensures r.Ok? ==>
      && Some(r.value.0) == ExpandBlock(block)
      && CivilDays.NotBeforeAnswer(year, month, CivilDays.At(year, month, date, 0, 0) + second,
                                   Value(day), Value(hour), Value(minute), r.value.1)
  {
    var stamp := day + hour + minute;
    var text := block + "-" + stamp + "-";
    StampFields(stamp, day, hour, minute);
    DigitsAre(stamp);
    SplitAt(text, block, stamp);
    var now := Calendar.DateTime(year, month, date, second);
    CivilDays.NowIs(year, month, date, second, now);
    r := ParseCapture(text, now);
    if r.Ok? {
      CivilDays.NotBeforeChosen(year, month, Calendar.MonthIndex(now), Calendar.Instant(now),
                                Value(day), Value(hour), Value(minute), r.value.1);
    }
  }

  lemma DigitsAre(s: string)
    requires AllDigits(s)
    ensures forall i :: 0 <= i < |s| ==> Digit(s[i])
  {
    forall i | 0 <= i < |s| ensures Digit(s[i]) {
      DigitIsDigit(s[i]);
    }
  }

  /** Anything that does not end in a stamp is no candidate at all. */
  method ParseNoStamp(text: string, now: Calendar.DateTime) returns (r: Result<(seq<Code>, int), UgcError>)
    requires Calendar.IsDateTime(now)
    requires !exists block, stamp :: Expires(text, block, stamp)
    ensures r == Err(InvalidFormat)
  {
    ExpiresIs(text);
    r := ParseCapture(text, now);
  }

  // ---------- ranges ----------

  /** A range ends at the number written; a shorter one keeps the leading digits of the start. */
  lemma {:induction false} RangeEnd(start: nat, t: string, e: nat)
    ensures AllDigits(t) && |t| == 3 ==> (ParseRangeEnd(start, t) == Some(e) <==> e == Value(t) && start <= e)
    ensures AllDigits(t) && |t| == 2 ==>
      (ParseRangeEnd(start, t) == Some(e) <==> e / 100 == start / 100 && e % 100 == Value(t) && start <= e)
    ensures AllDigits(t) && |t| == 1 ==>
      (ParseRangeEnd(start, t) == Some(e) <==> e / 10 == start / 10 && e % 10 == Value(t) && start <= e)
    ensures !AllDigits(t) || |t| == 0 || |t| > 3 ==> ParseRangeEnd(start, t).None?
  {
    if AllDigits(t) {
      ShortValue(t);
    }
  }

  lemma {:induction false} ShortValue(t: string)
    requires AllDigits(t)
    ensures |t| == 1 ==> Value(t) < 10
    ensures |t| == 2 ==> Value(t) < 100
  {
    if |t| == 1 {
      assert Value(t[..0]) == 0;
    }
    if |t| == 2 {
      assert Value(t[..1][..0]) == 0 && Value(t[..1]) < 10;
    }
  }

  // ---------- buckets and catalogs ----------

  /** The states that stand for coastal waters and the Great Lakes. */
  ghost predicate Waters(state: string) {
    || state == "AM" || state == "AN" || state == "GM" || state == "LC" || state == "LE" || state == "LH"
    || state == "LM" || state == "LO" || state == "LS" || state == "PH" || state == "PK" || state == "PM"
    || state == "PS" || state == "PZ" || state == "SL"
  }

  lemma BucketLaw(c: Code)
    ensures KindOf(c) == Counties <==> c.geoclass.County?
    ensures KindOf(c) == FireZones <==> c.geoclass.FireZone?
    ensures KindOf(c) == MarineZones <==>
      c.geoclass.Marine? || ((c.geoclass.Zone? || c.geoclass.Unknown?) && Waters(c.state))
    ensures KindOf(c) == Zones <==> (c.geoclass.Zone? || c.geoclass.Unknown?) && !Waters(c.state)
  {
  }

  /** The class letter names the class. */
  lemma ClassLaw(letter: char)
    ensures ClassOf(letter) == County <==> letter == 'C'
    ensures ClassOf(letter) == Zone <==> letter == 'Z'
    ensures ClassOf(letter) == FireZone <==> letter == 'F'
    ensures ClassOf(letter) == Marine <==> letter == 'M'
  {
  }

  /** The area stands where the catalog has it: the county catalog for counties, the zone catalog for zones. */
  ghost predicate PlacedBy(a: Area, entry: Option<Entry>) {
    && (entry.None? ==> a.name.None? && a.lat.None? && a.lon.None?)
    && (entry.Some? ==>
          a.name == Some(entry.value.name) && a.lat == Some(entry.value.latitude)
              && a.lon == Some(entry.value.longitude))
  }

  lemma AreaLaw(c: Code, catalogs: Catalogs)
    ensures BuildArea(c, catalogs).id == c.number
    ensures c.geoclass.County? ==> exists digits ::
      Decimal(digits, c.number) && PlacedBy(BuildArea(c, catalogs), catalogs.county(c.state + "C" + digits))
    ensures c.geoclass.Zone? || c.geoclass.Unknown? ==> exists digits ::
      Decimal(digits, c.number) && PlacedBy(BuildArea(c, catalogs), catalogs.zone(c.state + "Z" + digits))
    ensures c.geoclass.FireZone? || c.geoclass.Marine? ==> PlacedBy(BuildArea(c, catalogs), None)
  {
    var digits := Padded(c.number);
    PaddedIsDecimal(c.number);
    assert Canonical(c) == c.state + [ClassLetter(c.geoclass)] + digits;
    if c.geoclass.County? {
      assert PlacedBy(BuildArea(c, catalogs), catalogs.county(c.state + "C" + digits));
    } else if c.geoclass.Zone? || c.geoclass.Unknown? {
      assert PlacedBy(BuildArea(c, catalogs), catalogs.zone(c.state + "Z" + digits));
    }
  }
}
