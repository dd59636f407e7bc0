/**
 * The segment splitter said of texts alone: which lines open a segment, which
 * cut one, and that nothing else does.
 */
module VtecReading {
  import opened Prelude
  import opened Ascii
  import opened Ugc
  import opened SlashScan
  import opened TextLines
  import opened VtecSegments

  // ---------- what lines are ----------

  /** Between two neighbouring slashes stands a record that parses. */
  ghost predicate HoldsVtec(p: Parsers, text: string) {
    exists i: nat, j: nat :: SlashPair(text, i, j) && p.vtec(text[i..j + 1])
  }

  ghost predicate Geographic(text: string) {
    Begins(text, "LAT...LON") || Begins(text, "TIME...MOT...LOC")
  }

  ghost predicate WindOrHail(text: string) {
    || Begins(text, "HAILTHREAT") || Begins(text, "MAXHAILSIZE")
    || Begins(text, "WINDTHREAT") || Begins(text, "MAXWINDGUST")
  }

  /** A line that may open a segment. */
  ghost predicate Opening(p: Parsers, text: string) {
    && text != "" && !EndMark(text)
    && (UgcLine(text) || HoldsVtec(p, text) || Geographic(text) || WindOrHail(text) || p.hvtec(text))
  }

  // ---------- what a segmentation of texts is ----------

  ghost predicate VtecIn(p: Parsers, texts: seq<string>, lo: nat, hi: nat) {
    exists k :: lo <= k < hi && k < |texts| && HoldsVtec(p, texts[k])
  }

  ghost predicate GeographyIn(texts: seq<string>, lo: nat, hi: nat) {
    exists k :: lo <= k < hi && k < |texts| && Geographic(texts[k])
  }

  /**
   * Line `i` cuts a segment that starts at `lo`: an end mark, or behind a VTEC
   * line a UGC start, or behind VTEC and geography a VTEC line.
   */
  ghost predicate CutsAt(p: Parsers, texts: seq<string>, lo: nat, i: nat)
    requires i < |texts|
  {
    || EndMark(texts[i])
    || (VtecIn(p, texts, lo, i)
        && (UgcLine(texts[i]) || (HoldsVtec(p, texts[i]) && GeographyIn(texts, lo, i))))
  }

  /** The segment starts at the first opening line and ends at the first line that cuts it, or at the end. */
  ghost predicate SegmentAt(p: Parsers, texts: seq<string>, from: nat, c: Cut) {
    && from <= c.lo < c.hi <= |texts|
    && (forall i :: from <= i < c.lo ==> !Opening(p, texts[i])) && Opening(p, texts[c.lo])
    && (forall i :: c.lo < i < c.hi ==> !CutsAt(p, texts, c.lo, i))
    && (c.hi == |texts| || CutsAt(p, texts, c.lo, c.hi))
  }

  ghost predicate Segments(p: Parsers, texts: seq<string>, from: nat, cuts: seq<Cut>)
    decreases |cuts|
  {
    if cuts == [] then from <= |texts| && forall i :: from <= i < |texts| ==> !Opening(p, texts[i])
    else SegmentAt(p, texts, from, cuts[0]) && Segments(p, texts, cuts[0].hi, cuts[1..])
  }

  /** The segments that hold a VTEC record, each joined by line breaks. */
  ghost function Kept(p: Parsers, texts: seq<string>, cuts: seq<Cut>): seq<string>
    requires forall i :: 0 <= i < |cuts| ==> cuts[i].lo <= cuts[i].hi <= |texts|
  {
    if cuts == [] then []
    else (
      var text := Join(texts[cuts[0].lo..cuts[0].hi], '\n');
      (if HoldsVtec(p, text) then [text] else []) + Kept(p, texts, cuts[1..])
    )
  }

  ghost predicate AllTrimmed(lines: seq<string>, texts: seq<string>) {
    |texts| == |lines| && forall i :: 0 <= i < |lines| ==> IsTrimmed(lines[i], texts[i])
  }

  // ---------- the code's own tests ----------

  lemma HasVtecIs(p: Parsers, text: string)
    ensures HasVtec(p, text) <==> HoldsVtec(p, text)
  {
    var found := Scan(text, p.vtec);
    if found != [] {
      ScanFromFinds(text, p.vtec, 0, found[0]);
      assert found[0] in found;
    }
    if HoldsVtec(p, text) {
      var i: nat, j: nat :| SlashPair(text, i, j) && p.vtec(text[i..j + 1]);
      assert RecordAt(text, i, j, text[i..j + 1]);
      ScanFromFinds(text, p.vtec, 0, text[i..j + 1]);
    }
  }

  ghost predicate PlainMarker(marker: string) {
    && marker != ""
    && forall i :: 0 <= i < |marker| ==> 'A' <= marker[i] <= 'Z' || marker[i] == '.'
  }

  lemma UpperIs(c: char, m: char)
    requires 'A' <= m <= 'Z' || m == '.'
    ensures UpperChar(c) == m <==> SameByte(c, m)
    ensures UpperChar(c) == m ==> !Blank(c)
  {
    SameByteAre(c, m);
  }

  lemma UpperTextIs(t: string, marker: string)
    requires PlainMarker(marker)
    ensures marker <= Upper(t) <==> |marker| <= |t| && SameText(t[..|marker|], marker)
  {
    if |marker| <= |t| {
      forall i | 0 <= i < |marker| ensures Upper(t)[i] == marker[i] <==> SameByte(t[..|marker|][i], marker[i]) {
        UpperIs(t[i], marker[i]);
      }
      assert marker <= Upper(t) <==> forall i :: 0 <= i < |marker| ==> Upper(t)[i] == marker[i];
    }
  }

  lemma {:induction false} BeginsIs(line: string, marker: string)
    requires PlainMarker(marker)
    ensures marker <= Upper(TrimStart(line)) <==> Begins(line, marker)
  {
    var w := TrimStartAt(line);
    var t := line[w..];
    UpperTextIs(t, marker);
    if |marker| <= |t| {
      assert t[..|marker|] == line[w..w + |marker|];
    }
    assert marker <= Upper(TrimStart(line)) <==> BeginsAt(line, marker, w);
    if Begins(line, marker) {
      var v: nat :| BeginsAt(line, marker, v);
      assert SameByte(line[v..v + |marker|][0], marker[0]);
      UpperIs(line[v], marker[0]);
      assert v == w;
    }
  }

  lemma GeographyIs(line: string)
    ensures HasGeography(line) <==> Geographic(line)
  {
    assert PlainMarker("LAT...LON") && PlainMarker("TIME...MOT...LOC");
    BeginsIs(line, "LAT...LON");
    BeginsIs(line, "TIME...MOT...LOC");
  }

  lemma WindHailIs(line: string)
    ensures HasWindHail(line) <==> WindOrHail(line)
  {
    assert PlainMarker("HAILTHREAT") && PlainMarker("MAXHAILSIZE");
    assert PlainMarker("WINDTHREAT") && PlainMarker("MAXWINDGUST");
    BeginsIs(line, "HAILTHREAT");
    BeginsIs(line, "MAXHAILSIZE");
    BeginsIs(line, "WINDTHREAT");
    BeginsIs(line, "MAXWINDGUST");
  }

  /** A trimmed line is empty exactly when nothing but white space is in it. */
  lemma EmptyIs(line: string, t: string)
    requires IsTrimmed(line, t)
    ensures Trim(t) == "" <==> t == ""
  {
    var w := TrimStartAt(t);
    TrimEndIs(t[w..]);
    if t != "" {
      assert w < |t|;
      assert t[w..][|t| - w - 1] == t[|t| - 1];
    }
  }

  lemma DescribeIs(p: Parsers, line: string)
    ensures var d := Describe(p, line);
      && IsTrimmed(line, d.text)
      && (d.ends <==> EndMark(d.text)) && (d.opens <==> Opening(p, d.text))
      && (d.ugc <==> UgcLine(d.text)) && (d.vtec <==> HoldsVtec(p, d.text))
      && (d.geography <==> Geographic(d.text))
  {
    var t := TrimEnd(line);
    TrimEndIs(line);
    EndMarkIs(t);
    UgcStartIs(t);
    HasVtecIs(p, t);
    GeographyIs(t);
    WindHailIs(t);
    EmptyIs(line, t);
  }

  // ---------- the splitter's segments are those of the texts ----------

  /** The described lines say of each text what it is. */
  ghost predicate Reads(p: Parsers, ls: seq<Line>, texts: seq<string>) {
    && |ls| == |texts|
    && forall i :: 0 <= i < |ls| ==>
      && ls[i].text == texts[i]
      && (ls[i].ends <==> EndMark(texts[i])) && (ls[i].opens <==> Opening(p, texts[i]))
      && (ls[i].ugc <==> UgcLine(texts[i])) && (ls[i].vtec <==> HoldsVtec(p, texts[i]))
      && (ls[i].geography <==> Geographic(texts[i]))
  }

  lemma DescribedRead(p: Parsers, lines: seq<string>, texts: seq<string>)
    requires AllTrimmed(lines, texts)
    ensures Reads(p, DescribeAll(p, lines), texts)
  {
    var ls := DescribeAll(p, lines);
    forall i | 0 <= i < |ls|
      ensures ls[i].text == texts[i] && ls[i] == Describe(p, lines[i])
    {
      DescribeIs(p, lines[i]);
      TrimmedUnique(lines[i], texts[i], ls[i].text);
    }
    forall i | 0 <= i < |ls|
      ensures (ls[i].ends <==> EndMark(texts[i])) && (ls[i].opens <==> Opening(p, texts[i]))
      ensures (ls[i].ugc <==> UgcLine(texts[i])) && (ls[i].vtec <==> HoldsVtec(p, texts[i]))
      ensures ls[i].geography <==> Geographic(texts[i])
    {
      DescribeIs(p, lines[i]);
    }
  }

  lemma VtecFlags(p: Parsers, ls: seq<Line>, texts: seq<string>, lo: nat, i: nat)
    requires Reads(p, ls, texts) && lo <= i <= |ls|
    ensures AnyVtec(ls[lo..i]) <==> VtecIn(p, texts, lo, i)
  {
    var s := ls[lo..i];
    if AnyVtec(s) {
      var k :| 0 <= k < |s| && s[k].vtec;
      assert HoldsVtec(p, texts[lo + k]);
    }
    if VtecIn(p, texts, lo, i) {
      var k :| lo <= k < i && k < |texts| && HoldsVtec(p, texts[k]);
      assert s[k - lo].vtec;
    }
  }

  lemma GeographyFlags(p: Parsers, ls: seq<Line>, texts: seq<string>, lo: nat, i: nat)
    requires Reads(p, ls, texts) && lo <= i <= |ls|
    ensures AnyGeography(ls[lo..i]) <==> GeographyIn(texts, lo, i)
  {
    var s := ls[lo..i];
    if AnyGeography(s) {
      var k :| 0 <= k < |s| && s[k].geography;
      assert Geographic(texts[lo + k]);
    }
    if GeographyIn(texts, lo, i) {
      var k :| lo <= k < i && k < |texts| && Geographic(texts[k]);
      assert s[k - lo].geography;
    }
  }

  lemma CutsIff(p: Parsers, ls: seq<Line>, texts: seq<string>, lo: nat, i: nat)
    requires Reads(p, ls, texts) && lo <= i < |ls|
    ensures CutsAt(p, texts, lo, i) <==> ls[i].ends || Boundary(ls[lo..i], ls[i])
  {
    VtecFlags(p, ls, texts, lo, i);
    GeographyFlags(p, ls, texts, lo, i);
  }

  lemma SegmentIff(p: Parsers, ls: seq<Line>, texts: seq<string>, from: nat, c: Cut)
    requires Reads(p, ls, texts)
    ensures MaximalRun(ls, from, c) <==> SegmentAt(p, texts, from, c)
  {
    if c.lo < c.hi <= |ls| {
      forall i | c.lo < i <= c.hi && i < |ls|
        ensures CutsAt(p, texts, c.lo, i) <==> ls[i].ends || Boundary(ls[c.lo..i], ls[i])
      {
        CutsIff(p, ls, texts, c.lo, i);
      }
    }
  }

  lemma {:induction false} SegmentsIff(p: Parsers, ls: seq<Line>, texts: seq<string>, from: nat, cuts: seq<Cut>)
    requires Reads(p, ls, texts)
    ensures Segmentation(ls, from, cuts) <==> Segments(p, texts, from, cuts)
    decreases |cuts|
  {
    if cuts != [] {
      SegmentIff(p, ls, texts, from, cuts[0]);
      SegmentsIff(p, ls, texts, cuts[0].hi, cuts[1..]);
    }
  }

  /** Any two readings of a text give the same segments. */
  lemma {:induction false} OneReading(p: Parsers, lines: seq<string>, texts: seq<string>, a: seq<Cut>, b: seq<Cut>)
    requires AllTrimmed(lines, texts) && Segments(p, texts, 0, a) && Segments(p, texts, 0, b)
    ensures a == b
  {
    var ls := DescribeAll(p, lines);
    DescribedRead(p, lines, texts);
    SegmentsIff(p, ls, texts, 0, a);
    SegmentsIff(p, ls, texts, 0, b);
    SegmentationUnique(ls, 0, a, b);
  }

  lemma {:induction false} SegmentsInBounds(p: Parsers, texts: seq<string>, from: nat, cuts: seq<Cut>)
    requires Segments(p, texts, from, cuts)
    ensures forall i :: 0 <= i < |cuts| ==> cuts[i].lo <= cuts[i].hi <= |texts|
    decreases |cuts|
  {
    if cuts != [] {
      SegmentsInBounds(p, texts, cuts[0].hi, cuts[1..]);
      forall i | 0 < i < |cuts| ensures cuts[i].lo <= cuts[i].hi <= |texts| {
        assert cuts[i] == cuts[1..][i - 1];
      }
    }
  }

  lemma RunTextIs(p: Parsers, ls: seq<Line>, texts: seq<string>, lo: nat, hi: nat)
    requires Reads(p, ls, texts) && lo <= hi <= |ls|
    ensures RunText(ls[lo..hi]) == Join(texts[lo..hi], '\n')
  {
    TextsLength(ls[lo..hi]);
    assert TextsOf(ls[lo..hi]) == texts[lo..hi];
  }

  lemma {:induction false} KeptIs(p: Parsers, ls: seq<Line>, texts: seq<string>, from: nat, cuts: seq<Cut>)
    requires Reads(p, ls, texts) && Segmentation(ls, from, cuts)
    requires forall i :: 0 <= i < |cuts| ==> cuts[i].lo <= cuts[i].hi <= |texts|
    ensures Emitted(s => SegmentText(p, s), RunsOf(ls, from, cuts)) == Kept(p, texts, cuts)
    decreases |cuts|
  {
    if cuts != [] {
      var c, runs := cuts[0], RunsOf(ls, from, cuts);
      KeptIs(p, ls, texts, c.hi, cuts[1..]);
      RunTextIs(p, ls, texts, c.lo, c.hi);
      HasVtecIs(p, Join(texts[c.lo..c.hi], '\n'));
      assert runs[0] == ls[c.lo..c.hi] && runs[1..] == RunsOf(ls, c.hi, cuts[1..]);
    }
  }

  /**
   * The splitter, for every text: its segments run from the first line that
   * opens one to the first that cuts it, and those with a VTEC record come out.
   */
  method SplitTexts(p: Parsers, lines: seq<string>)
    returns (segments: seq<string>, ghost texts: seq<string>, ghost cuts: seq<Cut>)
    ensures AllTrimmed(lines, texts) && Segments(p, texts, 0, cuts)
    ensures forall i :: 0 <= i < |cuts| ==> cuts[i].lo <= cuts[i].hi <= |texts|
    ensures segments == Kept(p, texts, cuts)
  {
    segments := SplitVtecSegments(p, lines);
    texts, cuts := SplitIsOfTexts(p, lines);
  }

  lemma SplitIsOfTexts(p: Parsers, lines: seq<string>) returns (texts: seq<string>, cuts: seq<Cut>)
    ensures AllTrimmed(lines, texts) && Segments(p, texts, 0, cuts)
    ensures forall i :: 0 <= i < |cuts| ==> cuts[i].lo <= cuts[i].hi <= |texts|
    ensures ToEmit(s => SegmentText(p, s), DescribeAll(p, lines), 0, [], false, false) == Kept(p, texts, cuts)
  {
    texts := seq(|lines|, i requires 0 <= i < |lines| => TrimEnd(lines[i]));
    forall i | 0 <= i < |lines| ensures IsTrimmed(lines[i], texts[i]) {
      TrimEndIs(lines[i]);
    }
    var ls := DescribeAll(p, lines);
    DescribedRead(p, lines, texts);
    cuts := SplitIsSegmentation(p, lines);
    SegmentsIff(p, ls, texts, 0, cuts);
    SegmentsInBounds(p, texts, 0, cuts);
    KeptIs(p, ls, texts, 0, cuts);
  }
}
