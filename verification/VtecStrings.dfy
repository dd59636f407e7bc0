/**
 * The segment splitter seen from outside, on texts alone: splitting the emitted
 * segments at line breaks gives back the input's VTEC lines.
 */
module VtecStrings {
  import opened Prelude
  import opened Ascii
  import opened Digits
  import opened Ugc
  import opened TextLines
  import opened UgcRoundTrip
  import opened SlashScan
  import opened VtecSegments
  import opened VtecReading

  /** The texts that hold a VTEC code, in order. */
  function WithVtec(p: Parsers, texts: seq<string>): seq<string> {
    if texts == [] then [] else (if HasVtec(p, texts[0]) then [texts[0]] else []) + WithVtec(p, texts[1..])
  }

  /** The VTEC lines of some segments, each split at its line breaks. */
  function VtecLinesOf(p: Parsers, segments: seq<string>): seq<string> {
    if segments == [] then [] else WithVtec(p, Split(segments[0], {'\n'})) + VtecLinesOf(p, segments[1..])
  }

  function Trimmed(lines: seq<string>): seq<string> {
    seq(|lines|, i requires 0 <= i < |lines| => TrimEnd(lines[i]))
  }

  ghost predicate OneLine(s: string) {
    Free(s, {'\n'})
  }

  ghost predicate Faithful(p: Parsers, ls: seq<Line>) {
    forall i :: 0 <= i < |ls| ==> OneLine(ls[i].text) && ls[i].vtec == HasVtec(p, ls[i].text)
  }

  /** A joined run of lines splits back into their texts. */
  lemma {:induction false} RunSplitsBack(p: Parsers, run: seq<Line>)
    requires run != [] && Faithful(p, run)
    ensures Split(RunText(run), {'\n'}) == TextsOf(run)
  {
    TextsLength(run);
    SplitJoin(TextsOf(run), '\n', {'\n'});
  }

  lemma {:induction false} VtecTexts(p: Parsers, ls: seq<Line>)
    requires Faithful(p, ls)
    ensures TextsOf(VtecLines(ls)) == WithVtec(p, TextsOf(ls))
  {
    if ls != [] {
      VtecTexts(p, ls[1..]);
      assert ls[0].vtec == HasVtec(p, ls[0].text);
      assert TextsOf(ls)[1..] == TextsOf(ls[1..]);
      if ls[0].vtec {
        assert ([ls[0]] + VtecLines(ls[1..]))[1..] == VtecLines(ls[1..]);
      } else {
        assert [] + VtecLines(ls[1..]) == VtecLines(ls[1..]);
      }
    }
  }

  lemma {:induction false} TextsAppend(a: seq<Line>, b: seq<Line>)
    ensures TextsOf(a + b) == TextsOf(a) + TextsOf(b)
  {
    if a == [] {
      assert a + b == b;
    } else {
      assert (a + b)[1..] == a[1..] + b;
      TextsAppend(a[1..], b);
    }
  }

  ghost predicate FaithfulRuns(p: Parsers, runs: seq<seq<Line>>) {
    forall i :: 0 <= i < |runs| ==> runs[i] != [] && Faithful(p, runs[i])
  }

  lemma {:induction false} RunsAreFaithful(p: Parsers, ls: seq<Line>, from: nat, cuts: seq<Cut>)
    requires Segmentation(ls, from, cuts) && Faithful(p, ls)
    ensures FaithfulRuns(p, RunsOf(ls, from, cuts))
    decreases |cuts|
  {
    if cuts != [] {
      RunsAreFaithful(p, ls, cuts[0].hi, cuts[1..]);
    }
  }

  function Emitter(p: Parsers): Emit {
    s => SegmentText(p, s)
  }

  lemma {:induction false} EmittedTexts(p: Parsers, runs: seq<seq<Line>>)
    requires FaithfulRuns(p, runs)
    ensures VtecLinesOf(p, Emitted(Emitter(p), runs)) == TextsOf(KeptVtecLines(Emitter(p), runs))
  {
    if runs != [] {
      EmittedTexts(p, runs[1..]);
      var run, rest := runs[0], Emitted(Emitter(p), runs[1..]);
      var kept := KeptVtecLines(Emitter(p), runs[1..]);
      if Emitter(p)(run).Some? {
        RunSplitsBack(p, run);
        VtecTexts(p, run);
        assert ([RunText(run)] + rest)[1..] == rest;
        TextsAppend(VtecLines(run), kept);
      } else {
        assert [] + rest == rest && [] + kept == kept;
      }
    }
  }

  lemma {:induction false} TrimEndKeepsOneLine(s: string)
    requires OneLine(s)
    ensures OneLine(TrimEnd(s))
  {
    if s != "" && IsWhite(s[|s| - 1]) {
      TrimEndKeepsOneLine(s[..|s| - 1]);
    }
  }

  lemma DescribedTexts(p: Parsers, lines: seq<string>)
    ensures TextsOf(DescribeAll(p, lines)) == Trimmed(lines)
  {
    TextsLength(DescribeAll(p, lines));
  }

  /** The VTEC lines of the emitted segments are those of the input, each once and in order. */
  lemma {:induction false} SegmentsHoldVtecLines(p: Parsers, lines: seq<string>, segments: seq<string>)
    requires forall i :: 0 <= i < |lines| ==> OneLine(lines[i])
    requires segments == ToEmit(Emitter(p), DescribeAll(p, lines), 0, [], false, false)
    ensures VtecLinesOf(p, segments) == WithVtec(p, Trimmed(lines))
  {
    var ls := DescribeAll(p, lines);
    assert Faithful(p, ls) by {
      forall i | 0 <= i < |ls| ensures OneLine(ls[i].text) && ls[i].vtec == HasVtec(p, ls[i].text) {
        TrimEndKeepsOneLine(lines[i]);
      }
    }
    var cuts := SplitIsSegmentation(p, lines);
    VtecLinesKept(p, lines, cuts);
    RunsAreFaithful(p, ls, 0, cuts);
    EmittedTexts(p, RunsOf(ls, 0, cuts));
    VtecTexts(p, ls);
    DescribedTexts(p, lines);
  }

  // ---------- the lines of each emitted segment ----------

  lemma {:induction false} KeptFrom(p: Parsers, texts: seq<string>, from: nat, cuts: seq<Cut>, segment: string)
    returns (start: nat, c: Cut)
    requires Segments(p, texts, from, cuts) && forall i :: 0 <= i < |cuts| ==> cuts[i].lo <= cuts[i].hi <= |texts|
    requires segment in Kept(p, texts, cuts)
    ensures SegmentAt(p, texts, start, c) && segment == Join(texts[c.lo..c.hi], '\n')
    decreases |cuts|
  {
    start, c := from, cuts[0];
    if segment != Join(texts[c.lo..c.hi], '\n') {
      start, c := KeptFrom(p, texts, c.hi, cuts[1..], segment);
    }
  }

  /** The line belongs to the event of those before it. */
  ghost predicate Continues(p: Parsers, ts: seq<string>, j: nat)
    requires j < |ts|
  {
    && !EndMark(ts[j])
    && (forall i :: 0 <= i < j && HoldsVtec(p, ts[i]) ==> !UgcLine(ts[j]))
    && (forall i, k :: 0 <= i < j && 0 <= k < j && HoldsVtec(p, ts[i]) && Geographic(ts[k]) ==> !HoldsVtec(p, ts[j]))
  }

  /** The first line opens a segment and all others belong to its event. */
  ghost predicate OneEvent(p: Parsers, ts: seq<string>) {
    ts != [] && Opening(p, ts[0]) && forall j :: 0 <= j < |ts| ==> Continues(p, ts, j)
  }

  /** Behind a VTEC line, or VTEC and geography, `CutsAt` says what cannot come. */
  lemma NotCut(p: Parsers, texts: seq<string>, lo: nat, j: nat)
    requires lo < j < |texts| && !CutsAt(p, texts, lo, j)
    ensures !EndMark(texts[j])
    ensures VtecIn(p, texts, lo, j) ==> !UgcLine(texts[j])
    ensures VtecIn(p, texts, lo, j) && GeographyIn(texts, lo, j) ==> !HoldsVtec(p, texts[j])
  {
  }

  lemma SeenVtec(p: Parsers, texts: seq<string>, lo: nat, j: nat, i: nat)
    requires i < j && lo + j <= |texts| && HoldsVtec(p, texts[lo + i])
    ensures VtecIn(p, texts, lo, lo + j)
  {
  }

  lemma SeenGeography(texts: seq<string>, lo: nat, j: nat, k: nat)
    requires k < j && lo + j <= |texts| && Geographic(texts[lo + k])
    ensures GeographyIn(texts, lo, lo + j)
  {
  }

  lemma ContinuesUncut(p: Parsers, texts: seq<string>, ts: seq<string>, lo: nat, j: nat)
    requires lo + |ts| <= |texts| && 0 < j < |ts| && !CutsAt(p, texts, lo, lo + j)
    requires forall i :: 0 <= i < |ts| ==> ts[i] == texts[lo + i]
    ensures Continues(p, ts, j)
  {
    NotCut(p, texts, lo, lo + j);
    forall i | 0 <= i < j && HoldsVtec(p, ts[i]) ensures VtecIn(p, texts, lo, lo + j) {
      SeenVtec(p, texts, lo, j, i);
    }
    forall k | 0 <= k < j && Geographic(ts[k]) ensures GeographyIn(texts, lo, lo + j) {
      SeenGeography(texts, lo, j, k);
    }
  }

  lemma NoCutInside(p: Parsers, texts: seq<string>, from: nat, c: Cut, j: nat)
    requires SegmentAt(p, texts, from, c) && j < c.hi - c.lo
    ensures j == 0 ==> !EndMark(texts[c.lo])
    ensures j > 0 ==> !CutsAt(p, texts, c.lo, c.lo + j)
  {
  }

  lemma RunIsOneEvent(p: Parsers, texts: seq<string>, from: nat, c: Cut)
    requires SegmentAt(p, texts, from, c)
    ensures OneEvent(p, texts[c.lo..c.hi])
  {
    var ts := texts[c.lo..c.hi];
    assert forall i :: 0 <= i < |ts| ==> ts[i] == texts[c.lo + i];
    forall j | 0 <= j < |ts| ensures Continues(p, ts, j) {
      NoCutInside(p, texts, from, c, j);
      if j > 0 {
        ContinuesUncut(p, texts, ts, c.lo, j);
      }
    }
  }

  lemma LinesComeBack(lines: seq<string>, texts: seq<string>, lo: nat, hi: nat)
    requires AllTrimmed(lines, texts) && lo < hi <= |texts|
    requires forall i :: 0 <= i < |lines| ==> OneLine(lines[i])
    ensures Split(Join(texts[lo..hi], '\n'), {'\n'}) == texts[lo..hi]
  {
    var ts := texts[lo..hi];
    forall i | 0 <= i < |ts| ensures OneLine(ts[i]) {
      assert ts[i] == texts[lo + i] && IsTrimmed(lines[lo + i], texts[lo + i]);
    }
    SplitJoin(ts, '\n', {'\n'});
  }

  /**
   * Each emitted segment begins with a line that opens one, holds no end mark,
   * no UGC start behind a VTEC line, and no VTEC line behind VTEC and geography.
   */
  lemma {:induction false} SegmentLines(p: Parsers, lines: seq<string>, texts: seq<string>, cuts: seq<Cut>,
                                        segment: string)
    requires AllTrimmed(lines, texts) && forall i :: 0 <= i < |lines| ==> OneLine(lines[i])
    requires Segments(p, texts, 0, cuts) && forall i :: 0 <= i < |cuts| ==> cuts[i].lo <= cuts[i].hi <= |texts|
    requires segment in Kept(p, texts, cuts)
    ensures OneEvent(p, Split(segment, {'\n'}))
  {
    var from, c := KeptFrom(p, texts, 0, cuts, segment);
    SegmentLinesAt(p, lines, texts, from, c);
  }

  lemma SegmentLinesAt(p: Parsers, lines: seq<string>, texts: seq<string>, from: nat, c: Cut)
    requires AllTrimmed(lines, texts) && forall i :: 0 <= i < |lines| ==> OneLine(lines[i])
    requires SegmentAt(p, texts, from, c)
    ensures OneEvent(p, Split(Join(texts[c.lo..c.hi], '\n'), {'\n'}))
  {
    LinesComeBack(lines, texts, c.lo, c.hi);
    RunIsOneEvent(p, texts, from, c);
  }

  // ---------- two events parted by geography only ----------

  /** A record whose text between the slashes is `body`. */
  function Record(body: string): string {
    "/" + body + "/"
  }

  lemma RecordHolds(p: Parsers, body: string)
    requires '/' !in body && p.vtec(Record(body))
    ensures HoldsVtec(p, Record(body))
  {
    var text := Record(body);
    assert text[0..|text| - 1 + 1] == text;
    assert SlashPair(text, 0, |text| - 1);
  }

  lemma FirstDecides(text: string)
    requires text != "" && !Blank(text[0])
    ensures UgcLine(text) <==> UgcLineAt(text, 0)
    ensures EndMark(text) <==> EndMarkAt(text, 0)
    ensures Geographic(text) ==> SameByte(text[0], 'L') || SameByte(text[0], 'T')
  {
    if Geographic(text) {
      var marker := if Begins(text, "LAT...LON") then "LAT...LON" else "TIME...MOT...LOC";
      var w: nat :| BeginsAt(text, marker, w);
      assert SameByte(text[w..w + |marker|][0], marker[0]);
    }
  }

  lemma RecordText(p: Parsers, body: string)
    requires '/' !in body && p.vtec(Record(body))
    ensures var t := Record(body);
      && IsTrimmed(t, t) && !EndMark(t) && HoldsVtec(p, t) && !UgcLine(t) && !Geographic(t)
  {
    var t := Record(body);
    RecordHolds(p, body);
    FirstDecides(t);
    SameByteAre(t[0], 'L');
    SameByteAre(t[0], 'T');
    SlashIsNoCapital();
  }

  lemma SlashIsNoCapital()
    ensures !Capital('/')
  {
    UpperIsCapital('/');
  }

  lemma AreaText(p: Parsers, coordinates: string)
    requires '/' !in coordinates && coordinates != "" && Digit(coordinates[|coordinates| - 1])
    ensures var t := "LAT...LON" + coordinates;
      && IsTrimmed(t, t) && !EndMark(t) && !HoldsVtec(p, t) && !UgcLine(t) && Geographic(t)
  {
    var t := "LAT...LON" + coordinates;
    assert t[0] == 'L' && t[2] == 'T' && t[|t| - 1] == coordinates[|coordinates| - 1];
    FirstDecides(t);
    assert t[0..9] == "LAT...LON";
    assert BeginsAt(t, "LAT...LON", 0);
    assert '/' !in t;
  }

  /** A UGC start is never taken for geography: a digit stands where the markers go on. */
  lemma HeaderIsNoArea(t: string)
    requires UgcLine(t)
    ensures !EndMark(t) && !Geographic(t)
  {
    var v: nat :| UgcLineAt(t, v);
    CapitalNotBlank(t[v]);
    UpperIsCapital(t[v]);
    DigitIsDigit(t[v + 3]);
    if Begins(t, "LAT...LON") {
      var w: nat :| BeginsAt(t, "LAT...LON", w);
      MarkerByte(t, "LAT...LON", w, v);
      SameByteAre(t[v + 3], '.');
      assert false;
    }
    if Begins(t, "TIME...MOT...LOC") {
      var w: nat :| BeginsAt(t, "TIME...MOT...LOC", w);
      MarkerByte(t, "TIME...MOT...LOC", w, v);
      SameByteAre(t[v + 3], 'E');
      assert false;
    }
  }

  /** The fourth byte behind the white space is that of the marker. */
  lemma MarkerByte(t: string, marker: string, w: nat, v: nat)
    requires |marker| > 3 && 'A' <= marker[0] <= 'Z'
    requires BeginsAt(t, marker, w) && Indented(t, v) && v < |t| && !Blank(t[v])
    ensures v + 3 < |t| && SameByte(t[v + 3], marker[3])
  {
    MarkerPlace(t, marker, w, v);
    MarkerAt(t, marker, w);
  }

  lemma MarkerAt(t: string, marker: string, w: nat)
    requires |marker| > 3 && BeginsAt(t, marker, w)
    ensures SameByte(t[w + 3], marker[3])
  {
    var part := t[w..w + |marker|];
    assert SameText(part, marker) && part[3] == t[w + 3];
  }

  lemma MarkerPlace(t: string, marker: string, w: nat, v: nat)
    requires marker != "" && 'A' <= marker[0] <= 'Z' && BeginsAt(t, marker, w)
    requires Indented(t, v) && v < |t| && !Blank(t[v])
    ensures v == w
  {
    var c := t[w];
    assert c == t[w..w + |marker|][0] && SameByte(c, marker[0]);
    SameByteAre(c, marker[0]);
    assert !Blank(c);
  }

  ghost predicate IsHeader(p: Parsers, t: string) {
    IsTrimmed(t, t) && UgcLine(t) && !HoldsVtec(p, t)
  }

  ghost predicate IsRecord(p: Parsers, t: string) {
    IsTrimmed(t, t) && !EndMark(t) && HoldsVtec(p, t) && !UgcLine(t) && !Geographic(t)
  }

  ghost predicate IsArea(p: Parsers, t: string) {
    IsTrimmed(t, t) && !EndMark(t) && !HoldsVtec(p, t) && !UgcLine(t) && Geographic(t)
  }

  /** Joining lines loses no record. */
  lemma {:induction false} JoinedHoldsVtec(p: Parsers, ts: seq<string>, k: nat)
    requires k < |ts| && HoldsVtec(p, ts[k])
    ensures HoldsVtec(p, Join(ts, '\n'))
  {
    var a, b := JoinHolds(ts, '\n', k);
    HasVtecIs(p, ts[k]);
    var found := Scan(ts[k], p.vtec);
    PartIsFound(Join(ts, '\n'), p.vtec, a, b, found[0]);
    HasVtecIs(p, Join(ts, '\n'));
  }

  /** A warning with its area and another with its own, under one UGC line: two segments come out. */
  lemma {:induction false} NewEventAfterArea(p: Parsers, header: string, first: string, second: string, here: string,
                                             there: string)
    requires IsHeader(p, header)
    requires '/' !in first && '/' !in second && p.vtec(Record(first)) && p.vtec(Record(second))
    requires '/' !in here && here != "" && Digit(here[|here| - 1])
    requires '/' !in there && there != "" && Digit(there[|there| - 1])
    ensures var texts := [header, Record(first), "LAT...LON" + here, Record(second), "LAT...LON" + there];
      && AllTrimmed(texts, texts) && Segments(p, texts, 0, [Cut(0, 3), Cut(3, 5)])
      && Kept(p, texts, [Cut(0, 3), Cut(3, 5)]) == [Join(texts[..3], '\n'), Join(texts[3..], '\n')]
  {
    assert IsRecord(p, Record(first)) && IsRecord(p, Record(second)) by {
      RecordText(p, first);
      RecordText(p, second);
    }
    assert IsArea(p, "LAT...LON" + here) && IsArea(p, "LAT...LON" + there) by {
      AreaText(p, here);
      AreaText(p, there);
    }
    var texts := [header, Record(first), "LAT...LON" + here, Record(second), "LAT...LON" + there];
    TwoCuts(p, texts);
    TwoKept(p, texts);
  }

  lemma {:induction false} TwoKept(p: Parsers, texts: seq<string>)
    requires |texts| == 5 && HoldsVtec(p, texts[1]) && HoldsVtec(p, texts[3])
    ensures Kept(p, texts, [Cut(0, 3), Cut(3, 5)]) == [Join(texts[..3], '\n'), Join(texts[3..], '\n')]
  {
    var cuts := [Cut(0, 3), Cut(3, 5)];
    JoinedHoldsVtec(p, texts[..3], 1);
    JoinedHoldsVtec(p, texts[3..], 0);
    assert texts[0..3] == texts[..3] && texts[3..5] == texts[3..];
    assert cuts[1..] == [Cut(3, 5)] && cuts[1..][1..] == [];
    assert Kept(p, texts, cuts[1..]) == [Join(texts[3..], '\n')] + Kept(p, texts, []);
  }

  lemma {:induction false} TwoCuts(p: Parsers, texts: seq<string>)
    requires |texts| == 5 && IsHeader(p, texts[0]) && IsRecord(p, texts[1]) && IsArea(p, texts[2])
    requires IsRecord(p, texts[3]) && IsArea(p, texts[4])
    ensures AllTrimmed(texts, texts) && Segments(p, texts, 0, [Cut(0, 3), Cut(3, 5)])
  {
    OpeningLines(p, texts);
    FirstCut(p, texts);
    SecondCut(p, texts);
    var cuts := [Cut(0, 3), Cut(3, 5)];
    assert cuts[1..] == [Cut(3, 5)] && cuts[1..][1..] == [];
    assert Segments(p, texts, 5, []);
    assert Segments(p, texts, 3, [Cut(3, 5)]);
  }

  lemma FirstCut(p: Parsers, texts: seq<string>)
    requires |texts| == 5 && IsHeader(p, texts[0]) && IsRecord(p, texts[1]) && IsArea(p, texts[2])
    requires IsRecord(p, texts[3]) && Opening(p, texts[0])
    ensures SegmentAt(p, texts, 0, Cut(0, 3))
  {
    assert CutsAt(p, texts, 0, 3) by {
      assert VtecIn(p, texts, 0, 3) && GeographyIn(texts, 0, 3);
    }
    assert !CutsAt(p, texts, 0, 1) && !CutsAt(p, texts, 0, 2) by {
      NoGeographyYet(p, texts);
    }
  }

  lemma NoGeographyYet(p: Parsers, texts: seq<string>)
    requires |texts| == 5 && IsHeader(p, texts[0]) && IsRecord(p, texts[1]) && IsArea(p, texts[2])
    ensures !CutsAt(p, texts, 0, 1) && !CutsAt(p, texts, 0, 2)
  {
    HeaderIsNoArea(texts[0]);
  }

  lemma SecondCut(p: Parsers, texts: seq<string>)
    requires |texts| == 5 && IsRecord(p, texts[3]) && IsArea(p, texts[4]) && Opening(p, texts[3])
    ensures SegmentAt(p, texts, 3, Cut(3, 5))
  {
    assert !CutsAt(p, texts, 3, 4);
  }

  lemma OpeningLines(p: Parsers, texts: seq<string>)
    requires |texts| == 5 && IsHeader(p, texts[0]) && IsRecord(p, texts[3])
    ensures Opening(p, texts[0]) && Opening(p, texts[3])
  {
    HeaderIsNoArea(texts[0]);
  }
}
