/**
 * Splitting a bulletin into VTEC event segments. Lines are the lines of the
 * text after carriage returns are removed; which records parse as VTEC and
 * which lines hold H-VTEC is left open.
 */
module VtecSegments {
  import opened Prelude
  import opened Ugc
  import opened SlashScan

  // ---------- what the splitter sees of a line ----------

  /** Whether a slash-delimited record parses as a VTEC code, and whether a line holds an H-VTEC code. */
  datatype Parsers = Parsers(vtec: string -> bool, hvtec: string -> bool)

  /**
   * A line with what matters for splitting: whether it ends a segment, may open
   * one, starts a UGC block, holds a VTEC code, holds geography.
   */
  datatype Line = Line(text: string, ends: bool, opens: bool, ugc: bool, vtec: bool, geography: bool)

  function UpperChar(c: char): char {
    if 'a' <= c <= 'z' then (c as int - 32) as char else c
  }

  function Upper(s: string): string {
    seq(|s|, i requires 0 <= i < |s| => UpperChar(s[i]))
  }

  predicate HasVtec(p: Parsers, text: string) {
    Scan(text, p.vtec) != []
  }

  predicate HasGeography(line: string) {
    var t := Upper(TrimStart(line));
    "LAT...LON" <= t || "TIME...MOT...LOC" <= t
  }

  predicate HasWindHail(line: string) {
    var t := Upper(TrimStart(line));
    "HAILTHREAT" <= t || "MAXHAILSIZE" <= t || "WINDTHREAT" <= t || "MAXWINDGUST" <= t
  }

  predicate LooksLikeEvent(p: Parsers, line: string) {
    IsUgcStart(line) || HasVtec(p, line) || HasGeography(line) || HasWindHail(line) || p.hvtec(line)
  }

  function Describe(p: Parsers, line: string): Line {
    var t := TrimEnd(line);
    var ends := Trim(t) == "$$";
    Line(t, ends, !ends && LooksLikeEvent(p, t) && Trim(t) != "", IsUgcStart(t), HasVtec(p, t), HasGeography(t))
  }

  function DescribeAll(p: Parsers, lines: seq<string>): seq<Line> {
    seq(|lines|, i requires 0 <= i < |lines| => Describe(p, lines[i]))
  }

  // ---------- what a segmentation is ----------

  ghost predicate AnyVtec(s: seq<Line>) {
    exists k :: 0 <= k < |s| && s[k].vtec
  }

  ghost predicate AnyGeography(s: seq<Line>) {
    exists k :: 0 <= k < |s| && s[k].geography
  }

  /** The line starts a new event after the given ones. */
  ghost predicate Boundary(s: seq<Line>, line: Line) {
    AnyVtec(s) && (line.ugc || (line.vtec && AnyGeography(s)))
  }

  /** Lines `lo` to `hi`: a segment before it is checked for VTEC. */
  datatype Cut = Cut(lo: nat, hi: nat)

  /** The cut starts at an opening line and meets no end mark and no boundary on the way. */
  ghost predicate IsRun(ls: seq<Line>, c: Cut) {
    && c.lo < c.hi <= |ls|
    && ls[c.lo].opens
    && forall i :: c.lo < i < c.hi ==> !ls[i].ends && !Boundary(ls[c.lo..i], ls[i])
  }

  /** The cut cannot go on. */
  ghost predicate Stops(ls: seq<Line>, c: Cut)
    requires c.lo <= c.hi <= |ls|
  {
    c.hi == |ls| || ls[c.hi].ends || Boundary(ls[c.lo..c.hi], ls[c.hi])
  }

  /** No line from `a` to `b` opens a segment. */
  ghost predicate Gap(ls: seq<Line>, a: nat, b: nat) {
    b <= |ls| && forall i :: a <= i < b ==> !ls[i].opens
  }

  ghost predicate MaximalRun(ls: seq<Line>, from: nat, c: Cut) {
    from <= c.lo && Gap(ls, from, c.lo) && IsRun(ls, c) && Stops(ls, c)
  }

  /** The lines from `from` on: maximal runs separated by lines that open nothing. */
  ghost predicate Segmentation(ls: seq<Line>, from: nat, cuts: seq<Cut>)
    decreases |cuts|
  {
    if cuts == [] then from <= |ls| && Gap(ls, from, |ls|)
    else MaximalRun(ls, from, cuts[0]) && Segmentation(ls, cuts[0].hi, cuts[1..])
  }

  lemma SameCut(ls: seq<Line>, from: nat, a: Cut, b: Cut)
    requires MaximalRun(ls, from, a) && MaximalRun(ls, from, b)
    ensures a == b
  {
  }

  /** A text has only one segmentation. */
  lemma {:induction false} SegmentationUnique(ls: seq<Line>, from: nat, a: seq<Cut>, b: seq<Cut>)
    requires Segmentation(ls, from, a) && Segmentation(ls, from, b)
    ensures a == b
    decreases |a|
  {
    if a != [] && b != [] {
      SameCut(ls, from, a[0], b[0]);
      SegmentationUnique(ls, a[0].hi, a[1..], b[1..]);
      assert a == [a[0]] + a[1..] && b == [b[0]] + b[1..];
    }
  }

  // ---------- the emitted segments ----------

  function TextsOf(ls: seq<Line>): seq<string> {
    if ls == [] then [] else [ls[0].text] + TextsOf(ls[1..])
  }

  /** The lines of a run, joined by line breaks. */
  function RunText(run: seq<Line>): string {
    Join(TextsOf(run), '\n')
  }

  /** A segment is emitted, joined, when the joined text holds a VTEC code. */
  function SegmentText(p: Parsers, segment: seq<Line>): Option<string> {
    if HasVtec(p, RunText(segment)) then Some(RunText(segment)) else None
  }

  /** How runs of lines become emitted texts. */
  type Emit = seq<Line> -> Option<string>

  function EmitOne(emit: Emit, run: seq<Line>): seq<string> {
    if emit(run).Some? then [emit(run).value] else []
  }

  /** The segments emitted for the given runs, in order. */
  function Emitted(emit: Emit, runs: seq<seq<Line>>): seq<string> {
    if runs == [] then [] else EmitOne(emit, runs[0]) + Emitted(emit, runs[1..])
  }

  ghost function RunsOf(ls: seq<Line>, from: nat, cuts: seq<Cut>): seq<seq<Line>>
    requires Segmentation(ls, from, cuts)
    decreases |cuts|
  {
    if cuts == [] then [] else [ls[cuts[0].lo..cuts[0].hi]] + RunsOf(ls, cuts[0].hi, cuts[1..])
  }

  // ---------- the splitter ----------

  /** Whether a line closes the lines collected before it. */
  predicate Closes(line: Line, current: seq<Line>, v: bool, g: bool) {
    current != [] && (line.ends || (v && (line.ugc || (line.vtec && g))))
  }

  /** The runs the splitter completes from line `i` on, with the one in progress. */
  function Remaining(ls: seq<Line>, i: nat, current: seq<Line>, v: bool, g: bool): seq<seq<Line>>
    requires i <= |ls|
    decreases |ls| - i, |current|
  {
    if i == |ls| then (if current == [] then [] else [current])
    else if Closes(ls[i], current, v, g) then [current] + Remaining(ls, i, [], false, false)
    else if current == [] && !ls[i].opens then Remaining(ls, i + 1, [], false, false)
    else Remaining(ls, i + 1, current + [ls[i]], v || ls[i].vtec, g || ls[i].geography)
  }

  /** An end mark never opens a segment. */
  ghost predicate Described(ls: seq<Line>) {
    forall i :: 0 <= i < |ls| ==> ls[i].ends ==> !ls[i].opens
  }

  /** The run in progress after the lines from `from`, and what is known of it. */
  ghost predicate InProgress(ls: seq<Line>, from: nat, lo: nat, i: nat, v: bool, g: bool) {
    && from <= lo <= i <= |ls| && Gap(ls, from, lo)
    && (lo < i ==> IsRun(ls, Cut(lo, i)))
    && v == AnyVtec(ls[lo..i]) && g == AnyGeography(ls[lo..i])
  }

  lemma NothingInProgress(ls: seq<Line>, from: nat, i: nat)
    requires i <= |ls| && from <= i && Gap(ls, from, i)
    ensures InProgress(ls, from, i, i, false, false)
  {
  }

  /** Taking one more line into the run, or starting one with it. */
  lemma Extend(ls: seq<Line>, from: nat, lo: nat, i: nat, v: bool, g: bool)
    requires i < |ls| && InProgress(ls, from, lo, i, v, g) && !ls[i].ends
    requires if lo == i then ls[i].opens else !Boundary(ls[lo..i], ls[i])
    ensures InProgress(ls, from, lo, i + 1, v || ls[i].vtec, g || ls[i].geography)
    ensures ls[lo..i] + [ls[i]] == ls[lo..i + 1]
  {
    var s, t := ls[lo..i], ls[lo..i + 1];
    assert t == s + [ls[i]];
    assert t[|s|] == ls[i];
    assert forall k :: 0 <= k < |s| ==> t[k] == s[k];
  }

  lemma StopsIffCloses(ls: seq<Line>, from: nat, lo: nat, i: nat, v: bool, g: bool)
    requires InProgress(ls, from, lo, i, v, g) && lo < i < |ls|
    ensures Stops(ls, Cut(lo, i)) <==> Closes(ls[i], ls[lo..i], v, g)
  {
  }

  /** A run that stops at line `i` comes first, whatever follows. */
  lemma {:induction false} CloseRun(ls: seq<Line>, from: nat, lo: nat, i: nat, v: bool, g: bool, rest: seq<Cut>)
    requires InProgress(ls, from, lo, i, v, g) && lo < i && Stops(ls, Cut(lo, i))
    requires Segmentation(ls, i, rest) && Remaining(ls, i, [], false, false) == RunsOf(ls, i, rest)
    ensures Segmentation(ls, from, [Cut(lo, i)] + rest)
    ensures Remaining(ls, i, ls[lo..i], v, g) == RunsOf(ls, from, [Cut(lo, i)] + rest)
  {
    assert ([Cut(lo, i)] + rest)[1..] == rest;
    if i < |ls| {
      StopsIffCloses(ls, from, lo, i, v, g);
    }
  }

  /** A line that opens nothing, with nothing collected, is passed over. */
  lemma PassedOver(ls: seq<Line>, i: nat, runs: seq<seq<Line>>)
    requires i < |ls| && !ls[i].opens && Remaining(ls, i + 1, ls[i + 1..i + 1], false, false) == runs
    ensures Remaining(ls, i, ls[i..i], false, false) == runs
  {
    assert ls[i..i] == ls[i + 1..i + 1] == [];
  }

  /** A line that closes nothing is collected. */
  lemma Collected(ls: seq<Line>, lo: nat, i: nat, v: bool, g: bool, runs: seq<seq<Line>>)
    requires lo <= i < |ls| && !ls[i].ends && !Closes(ls[i], ls[lo..i], v, g) && (lo == i ==> ls[i].opens)
    requires Remaining(ls, i + 1, ls[lo..i + 1], v || ls[i].vtec, g || ls[i].geography) == runs
    ensures Remaining(ls, i, ls[lo..i], v, g) == runs
  {
    assert ls[lo..i] + [ls[i]] == ls[lo..i + 1];
  }

  /** The runs completed from here on are those of a segmentation. */
  lemma {:induction false} RemainingIsSegmentation(ls: seq<Line>, from: nat, lo: nat, i: nat, v: bool, g: bool)
    returns (cuts: seq<Cut>)
    requires Described(ls) && InProgress(ls, from, lo, i, v, g)
    ensures Segmentation(ls, from, cuts)
    ensures Remaining(ls, i, ls[lo..i], v, g) == RunsOf(ls, from, cuts)
    decreases |ls| - i, i - lo
  {
    if lo < i && Stops(ls, Cut(lo, i)) {
      NothingInProgress(ls, i, i);
      cuts := RemainingIsSegmentation(ls, i, i, i, false, false);
      assert ls[i..i] == [];
      CloseRun(ls, from, lo, i, v, g, cuts);
      cuts := [Cut(lo, i)] + cuts;
    } else if i == |ls| {
      cuts := [];
    } else if lo == i && !ls[i].opens {
      NothingInProgress(ls, from, i + 1);
      cuts := RemainingIsSegmentation(ls, from, i + 1, i + 1, false, false);
      PassedOver(ls, i, RunsOf(ls, from, cuts));
    } else {
      if lo < i {
        StopsIffCloses(ls, from, lo, i, v, g);
      }
      Extend(ls, from, lo, i, v, g);
      cuts := RemainingIsSegmentation(ls, from, lo, i + 1, v || ls[i].vtec, g || ls[i].geography);
      Collected(ls, lo, i, v, g, RunsOf(ls, from, cuts));
    }
  }

  /** Appends the collected lines as a segment if they hold a VTEC code. */
  method PushSegment(emit: Emit, segments: seq<string>, current: seq<Line>) returns (r: seq<string>)
    ensures current == [] ==> r == segments
    ensures current != [] ==> r == segments + EmitOne(emit, current)
  {
    r := segments;
    if current == [] {
      return;
    }
    var text := emit(current);
    if text.Some? {
      r := r + [text.value];
    }
  }

  /** What the loop will still append. */
  function ToEmit(emit: Emit, ls: seq<Line>, i: nat, current: seq<Line>, v: bool, g: bool): seq<string>
    requires i <= |ls|
  {
    Emitted(emit, Remaining(ls, i, current, v, g))
  }

  /** The loop invariant: what is emitted and what remains make up the goal. */
  ghost predicate OnTrack(emit: Emit, ls: seq<Line>, i: nat, current: seq<Line>, v: bool, g: bool,
                          segments: seq<string>, goal: seq<string>) {
    && i <= |ls| && (current == [] ==> !v && !g)
    && segments + ToEmit(emit, ls, i, current, v, g) == goal
  }

  lemma CloseStep(emit: Emit, ls: seq<Line>, i: nat, current: seq<Line>, v: bool, g: bool,
                  segments: seq<string>, goal: seq<string>)
    requires i < |ls| && OnTrack(emit, ls, i, current, v, g, segments, goal) && Closes(ls[i], current, v, g)
    ensures OnTrack(emit, ls, i, [], false, false, segments + EmitOne(emit, current), goal)
  {
    var later := Remaining(ls, i, [], false, false);
    assert ([current] + later)[1..] == later;
    assert segments + (EmitOne(emit, current) + Emitted(emit, later))
         == segments + EmitOne(emit, current) + Emitted(emit, later);
  }

  lemma LineStep(emit: Emit, ls: seq<Line>, i: nat, current: seq<Line>, v: bool, g: bool,
                 segments: seq<string>, goal: seq<string>)
    requires i < |ls| && OnTrack(emit, ls, i, current, v, g, segments, goal) && !Closes(ls[i], current, v, g)
    ensures if current == [] && !ls[i].opens then OnTrack(emit, ls, i + 1, [], false, false, segments, goal)
            else OnTrack(emit, ls, i + 1, current + [ls[i]], v || ls[i].vtec, g || ls[i].geography, segments, goal)
  {
  }

  lemma LastStep(emit: Emit, ls: seq<Line>, current: seq<Line>, v: bool, g: bool, segments: seq<string>,
                 goal: seq<string>)
    requires OnTrack(emit, ls, |ls|, current, v, g, segments, goal)
    ensures goal == segments + if current == [] then [] else EmitOne(emit, current)
  {
    if current != [] {
      assert [current][1..] == [];
      assert Emitted(emit, [current]) == EmitOne(emit, current) + Emitted(emit, []);
    }
  }

  /** The loop over described lines. */
  method SplitLines(emit: Emit, ls: seq<Line>) returns (segments: seq<string>)
    requires Described(ls)
    ensures segments == ToEmit(emit, ls, 0, [], false, false)
  {
    segments := [];
    var current: seq<Line> := [];
    var hasVtec, hasGeography := false, false;
    ghost var goal := ToEmit(emit, ls, 0, [], false, false);
    assert [] + goal == goal;
    for i := 0 to |ls|
      invariant OnTrack(emit, ls, i, current, hasVtec, hasGeography, segments, goal)
    {
      var line := ls[i];
      var boundary := current != [] && hasVtec && (line.ugc || (line.vtec && hasGeography));
      if line.ends || boundary {
        if current != [] {
          CloseStep(emit, ls, i, current, hasVtec, hasGeography, segments, goal);
        }
        segments := PushSegment(emit, segments, current);
        current, hasVtec, hasGeography := [], false, false;
      }
      LineStep(emit, ls, i, current, hasVtec, hasGeography, segments, goal);
      if line.ends || (current == [] && !line.opens) {
        continue;
      }
      current := current + [line];
      hasVtec := hasVtec || line.vtec;
      hasGeography := hasGeography || line.geography;
    }
    LastStep(emit, ls, current, hasVtec, hasGeography, segments, goal);
    segments := PushSegment(emit, segments, current);
  }

  method SplitVtecSegments(p: Parsers, lines: seq<string>) returns (segments: seq<string>)
    ensures segments == ToEmit(s => SegmentText(p, s), DescribeAll(p, lines), 0, [], false, false)
  {
    segments := SplitLines(s => SegmentText(p, s), DescribeAll(p, lines));
  }

  // ---------- what every split text satisfies ----------

  /** The emitted segments are those runs of the one segmentation whose text holds a VTEC code. */
  lemma SplitIsSegmentation(p: Parsers, lines: seq<string>) returns (cuts: seq<Cut>)
    ensures Segmentation(DescribeAll(p, lines), 0, cuts)
    ensures ToEmit(s => SegmentText(p, s), DescribeAll(p, lines), 0, [], false, false)
         == Emitted(s => SegmentText(p, s), RunsOf(DescribeAll(p, lines), 0, cuts))
  {
    var ls := DescribeAll(p, lines);
    NothingInProgress(ls, 0, 0);
    cuts := RemainingIsSegmentation(ls, 0, 0, 0, false, false);
    assert ls[0..0] == [];
  }

  /** Inside a segment no UGC block starts after a VTEC line, and no VTEC line follows both VTEC and geography. */
  lemma OneEventPerSegment(ls: seq<Line>, c: Cut, i: nat, j: nat)
    requires IsRun(ls, c) && c.lo <= i < j < c.hi && ls[i].vtec
    ensures !ls[j].ends && !ls[j].ugc
    ensures ls[j].vtec ==> forall k :: c.lo <= k < j ==> !ls[k].geography
  {
    var s := ls[c.lo..j];
    assert s[i - c.lo] == ls[i];
    forall k | c.lo <= k < j && ls[k].geography ensures !ls[j].vtec {
      assert s[k - c.lo] == ls[k];
    }
  }

  function VtecLines(ls: seq<Line>): seq<Line> {
    if ls == [] then [] else (if ls[0].vtec then [ls[0]] else []) + VtecLines(ls[1..])
  }

  lemma {:induction false} VtecLinesAppend(a: seq<Line>, b: seq<Line>)
    ensures VtecLines(a + b) == VtecLines(a) + VtecLines(b)
  {
    if a == [] {
      assert a + b == b;
    } else {
      var head := if a[0].vtec then [a[0]] else [];
      assert (a + b)[1..] == a[1..] + b && (a + b)[0] == a[0];
      VtecLinesAppend(a[1..], b);
      assert head + (VtecLines(a[1..]) + VtecLines(b)) == head + VtecLines(a[1..]) + VtecLines(b);
    }
  }

  lemma {:induction false} NoVtecLines(ls: seq<Line>)
    requires forall i :: 0 <= i < |ls| ==> !ls[i].vtec
    ensures VtecLines(ls) == []
  {
    if ls != [] {
      NoVtecLines(ls[1..]);
    }
  }

  /** The VTEC lines of the runs that are emitted. */
  function KeptVtecLines(emit: Emit, runs: seq<seq<Line>>): seq<Line> {
    if runs == [] then []
    else (if emit(runs[0]).Some? then VtecLines(runs[0]) else []) + KeptVtecLines(emit, runs[1..])
  }

  lemma {:induction false} TrimStartKeepsSlash(s: string)
    requires '/' in s
    ensures '/' in TrimStart(s)
  {
    if IsWhite(s[0]) {
      assert s == [s[0]] + s[1..];
      TrimStartKeepsSlash(s[1..]);
    }
  }

  lemma {:induction false} TrimEndKeepsSlash(s: string)
    requires '/' in s
    ensures '/' in TrimEnd(s)
  {
    var n := |s| - 1;
    if IsWhite(s[n]) {
      assert s == s[..n] + [s[n]];
      TrimEndKeepsSlash(s[..n]);
    }
  }

  /** A line with a VTEC code opens a segment when nothing is in progress. */
  lemma VtecLineOpens(p: Parsers, line: string)
    requires Describe(p, line).vtec
    ensures Describe(p, line).opens
  {
    var t := TrimEnd(line);
    if '/' in t {
      TrimStartKeepsSlash(t);
      TrimEndKeepsSlash(TrimStart(t));
      assert "$$"[0] != '/' && "$$"[1] != '/';
    } else {
      NoSlashNothingFound(t, p.vtec, 0);
    }
  }

  lemma {:induction false} TextsLength(ls: seq<Line>)
    ensures |TextsOf(ls)| == |ls|
    ensures forall i :: 0 <= i < |ls| ==> TextsOf(ls)[i] == ls[i].text
  {
    if ls != [] {
      TextsLength(ls[1..]);
    }
  }

  lemma {:induction false} JoinHolds(texts: seq<string>, sep: char, k: nat) returns (a: nat, b: nat)
    requires k < |texts|
    ensures a <= b <= |Join(texts, sep)| && Join(texts, sep)[a..b] == texts[k]
  {
    var all := Join(texts, sep);
    if k == 0 {
      a, b := 0, |texts[0]|;
      assert |texts| > 1 ==> all == texts[0] + ([sep] + Join(texts[1..], sep));
    } else {
      a, b := JoinHolds(texts[1..], sep, k - 1);
      var shift := |texts[0]| + 1;
      assert all == (texts[0] + [sep]) + Join(texts[1..], sep);
      assert all[shift..] == Join(texts[1..], sep);
      SliceOfSlice(all, shift, |all|, a, b);
      a, b := a + shift, b + shift;
    }
  }

  /** A run with a VTEC line is emitted: joining lines loses no record. */
  lemma VtecRunIsKept(p: Parsers, lines: seq<string>, lo: nat, hi: nat, k: nat)
    requires lo <= k < hi <= |lines| && DescribeAll(p, lines)[k].vtec
    ensures SegmentText(p, DescribeAll(p, lines)[lo..hi]).Some?
  {
    var s := DescribeAll(p, lines)[lo..hi];
    TextsLength(s);
    var a, b := JoinHolds(TextsOf(s), '\n', k - lo);
    var t := s[k - lo].text;
    assert t == TrimEnd(lines[k]) && HasVtec(p, t);
    PartIsFound(RunText(s), p.vtec, a, b, Scan(t, p.vtec)[0]);
  }

  /** VTEC lines open segments, and runs that hold one are emitted. */
  ghost predicate EmitsVtec(emit: Emit, ls: seq<Line>) {
    && (forall i :: 0 <= i < |ls| && ls[i].vtec ==> ls[i].opens)
    && (forall lo, hi, k :: 0 <= lo <= k < hi <= |ls| && ls[k].vtec ==> emit(ls[lo..hi]).Some?)
  }

  lemma DroppedRunHasNone(emit: Emit, ls: seq<Line>, lo: nat, hi: nat)
    requires EmitsVtec(emit, ls) && lo <= hi <= |ls| && emit(ls[lo..hi]).None?
    ensures VtecLines(ls[lo..hi]) == []
  {
    var run := ls[lo..hi];
    forall k | 0 <= k < |run| ensures !run[k].vtec {
      assert run[k] == ls[lo + k];
    }
    NoVtecLines(run);
  }

  lemma GapHasNone(emit: Emit, ls: seq<Line>, a: nat, b: nat)
    requires EmitsVtec(emit, ls) && a <= b && Gap(ls, a, b)
    ensures VtecLines(ls[a..b]) == []
  {
    NoVtecLines(ls[a..b]);
  }

  lemma SplitThree(ls: seq<Line>, a: nat, b: nat, c: nat)
    requires a <= b <= c <= |ls|
    ensures VtecLines(ls[a..]) == VtecLines(ls[a..b]) + (VtecLines(ls[b..c]) + VtecLines(ls[c..]))
  {
    assert ls[b..] == ls[b..c] + ls[c..];
    assert ls[a..] == ls[a..b] + ls[b..];
    VtecLinesAppend(ls[a..b], ls[b..]);
    VtecLinesAppend(ls[b..c], ls[c..]);
  }

  lemma {:induction false} KeptIn(emit: Emit, ls: seq<Line>, from: nat, cuts: seq<Cut>)
    requires from <= |ls| && Segmentation(ls, from, cuts) && EmitsVtec(emit, ls)
    ensures KeptVtecLines(emit, RunsOf(ls, from, cuts)) == VtecLines(ls[from..])
    decreases |cuts|
  {
    if cuts == [] {
      GapHasNone(emit, ls, from, |ls|);
      assert ls[from..] == ls[from..|ls|];
    } else {
      var c := cuts[0];
      KeptIn(emit, ls, c.hi, cuts[1..]);
      SplitThree(ls, from, c.lo, c.hi);
      GapHasNone(emit, ls, from, c.lo);
      if emit(ls[c.lo..c.hi]).None? {
        DroppedRunHasNone(emit, ls, c.lo, c.hi);
      }
    }
  }

  /** No VTEC line is lost, repeated or reordered: the emitted segments hold exactly those of the text. */
  lemma {:induction false} VtecLinesKept(p: Parsers, lines: seq<string>, cuts: seq<Cut>)
    requires Segmentation(DescribeAll(p, lines), 0, cuts)
    ensures KeptVtecLines(s => SegmentText(p, s), RunsOf(DescribeAll(p, lines), 0, cuts))
         == VtecLines(DescribeAll(p, lines))
  {
    var ls := DescribeAll(p, lines);
    forall i | 0 <= i < |ls| && ls[i].vtec ensures ls[i].opens {
      VtecLineOpens(p, lines[i]);
    }
    var emit: Emit := s => SegmentText(p, s);
    forall lo, hi, k | 0 <= lo <= k < hi <= |ls| && ls[k].vtec ensures emit(ls[lo..hi]).Some? {
      VtecRunIsKept(p, lines, lo, hi, k);
    }
    KeptIn(emit, ls, 0, cuts);
    assert ls[0..] == ls;
  }
}
