/**
 * The scanner for slash-delimited records.
 */
module SlashScan {
  import opened Prelude

  /** The first slash at or after `from`. */
  function NextSlash(text: string, from: nat): (r: Option<nat>)
    requires from <= |text|
    ensures r.Some? ==>
      from <= r.value < |text| && text[r.value] == '/' && forall k :: from <= k < r.value ==> text[k] != '/'
    ensures r.None? ==> forall k :: from <= k < |text| ==> text[k] != '/'
    decreases |text| - from
  {
    if from == |text| then None else if text[from] == '/' then Some(from) else NextSlash(text, from + 1)
  }

  /** Two slashes with none between them. */
  ghost predicate SlashPair(text: string, i: nat, j: nat) {
    i < j < |text| && text[i] == '/' && text[j] == '/' && forall k :: i < k < j ==> text[k] != '/'
  }

  ghost predicate RecordAt(text: string, i: nat, j: nat, c: string) {
    SlashPair(text, i, j) && c == text[i..j + 1]
  }

  /** The accepted records whose opening slash is at or after `from`, in order. */
  function ScanFrom(text: string, accept: string -> bool, from: nat): seq<string>
    requires from <= |text|
    decreases |text| - from
  {
    if from == |text| then []
    else if text[from] != '/' || NextSlash(text, from + 1).None? then ScanFrom(text, accept, from + 1)
    else (
      var candidate := text[from..NextSlash(text, from + 1).value + 1];
      (if accept(candidate) then [candidate] else []) + ScanFrom(text, accept, from + 1)
    )
  }

  function Scan(text: string, accept: string -> bool): seq<string> {
    ScanFrom(text, accept, 0)
  }

  /** The record that opens at `start`, if there is one and it is accepted. */
  function RecordFrom(text: string, accept: string -> bool, start: nat): seq<string>
    requires start < |text|
  {
    var next := NextSlash(text, start + 1);
    if text[start] == '/' && next.Some? && accept(text[start..next.value + 1])
    then [text[start..next.value + 1]]
    else []
  }

  /** The loop over the bytes after an opening slash; a line break does not stop it. */
  method FindSlash(text: string, from: nat) returns (end: Option<nat>)
    requires from <= |text|
    ensures end == NextSlash(text, from)
  {
    var i := from;
    while i < |text| && text[i] != '/'
      invariant from <= i <= |text| && NextSlash(text, from) == NextSlash(text, i)
    {
      i := i + 1;
    }
    return if i < |text| then Some(i) else None;
  }

  lemma ScanStep(text: string, accept: string -> bool, start: nat)
    requires start < |text|
    ensures ScanFrom(text, accept, start) == RecordFrom(text, accept, start) + ScanFrom(text, accept, start + 1)
  {
  }

  method CandidateFrom(text: string, accept: string -> bool, start: nat) returns (found: seq<string>)
    requires start < |text|
    ensures found == RecordFrom(text, accept, start)
  {
    if text[start] != '/' {
      return [];
    }
    var end := FindSlash(text, start + 1);
    if end.None? || !accept(text[start..end.value + 1]) {
      return [];
    }
    return [text[start..end.value + 1]];
  }

  lemma Regroup(a: seq<string>, b: seq<string>, c: seq<string>)
    ensures (a + b) + c == a + (b + c)
  {
  }

  method ScanSlashDelimited(text: string, accept: string -> bool) returns (candidates: seq<string>)
    ensures candidates == Scan(text, accept)
  {
    candidates := [];
    for start := 0 to |text|
      invariant candidates + ScanFrom(text, accept, start) == Scan(text, accept)
    {
      var found := CandidateFrom(text, accept, start);
      ScanStep(text, accept, start);
      Regroup(candidates, found, ScanFrom(text, accept, start + 1));
      candidates := candidates + found;
    }
  }

  /** A record is found exactly when it stands between two neighbouring slashes and is accepted. */
  lemma {:induction false} ScanFromFinds(text: string, accept: string -> bool, from: nat, c: string)
    requires from <= |text|
    ensures c in ScanFrom(text, accept, from) <==>
      accept(c) && exists i: nat, j: nat :: from <= i && RecordAt(text, i, j, c)
    decreases |text| - from
  {
    if from < |text| {
      ScanFromFinds(text, accept, from + 1, c);
      var next := NextSlash(text, from + 1);
      if text[from] == '/' && next.Some? {
        assert RecordAt(text, from, next.value, text[from..next.value + 1]);
        forall j: nat | RecordAt(text, from, j, c) ensures j == next.value {
        }
      }
    }
  }

  lemma SliceOfSlice(s: string, a: nat, b: nat, i: nat, j: nat)
    requires a <= b <= |s| && i <= j <= b - a
    ensures s[a..b][i..j] == s[a + i..a + j]
  {
    var x, y := s[a..b][i..j], s[a + i..a + j];
    forall k | 0 <= k < |x| ensures x[k] == y[k] {
      assert x[k] == s[a..b][i + k];
    }
  }

  lemma PairInPart(text: string, a: nat, b: nat, i: nat, j: nat)
    requires a <= b <= |text| && SlashPair(text[a..b], i, j)
    ensures SlashPair(text, a + i, a + j) && text[a..b][i..j + 1] == text[a + i..a + j + 1]
  {
    var part := text[a..b];
    forall k | a + i < k < a + j ensures text[k] != '/' {
      assert part[k - a] != '/';
    }
    SliceOfSlice(text, a, b, i, j + 1);
  }

  /** Whatever stands in a part of the text is found in the whole. */
  lemma PartIsFound(text: string, accept: string -> bool, a: nat, b: nat, c: string)
    requires a <= b <= |text| && c in Scan(text[a..b], accept)
    ensures c in Scan(text, accept)
  {
    var part := text[a..b];
    ScanFromFinds(part, accept, 0, c);
    var i: nat, j: nat :| RecordAt(part, i, j, c);
    PairInPart(text, a, b, i, j);
    ScanFromFinds(text, accept, 0, c);
    assert RecordAt(text, a + i, a + j, c);
  }

  lemma {:induction false} NoSlashNothingFound(text: string, accept: string -> bool, from: nat)
    requires from <= |text| && forall k :: 0 <= k < |text| ==> text[k] != '/'
    ensures ScanFrom(text, accept, from) == []
    decreases |text| - from
  {
    if from < |text| {
      NoSlashNothingFound(text, accept, from + 1);
    }
  }

  predicate AnyRecord(c: string) {
    true
  }

  predicate IsBreak(c: char) {
    c == '\r' || c == '\n'
  }

  /** A line break with a slash somewhere before it and a slash somewhere after it. */
  ghost predicate BreakBetweenSlashes(text: string) {
    exists i: nat, n: nat, j: nat :: i < n < j < |text| && text[i] == '/' && IsBreak(text[n]) && text[j] == '/'
  }

  ghost predicate CrossesLine(c: string) {
    exists k :: 0 <= k < |c| && IsBreak(c[k])
  }

  /** The slashes around a break can be taken nearest to it. */
  lemma NearestSlashes(text: string, i: nat, n: nat, j: nat) returns (a: nat, b: nat)
    requires i < n < j < |text| && text[i] == '/' && IsBreak(text[n]) && text[j] == '/'
    ensures a < n < b && SlashPair(text, a, b)
  {
    a, b := n - 1, n + 1;
    while text[a] != '/'
      invariant i <= a < n && forall k :: a < k < n ==> text[k] != '/'
      decreases a
    {
      a := a - 1;
    }
    while text[b] != '/'
      invariant n < b <= j && forall k :: n < k < b ==> text[k] != '/'
      decreases j - b
    {
      b := b + 1;
    }
  }

  lemma BreakMakesRecord(text: string) returns (c: string)
    requires BreakBetweenSlashes(text)
    ensures c in Scan(text, AnyRecord) && CrossesLine(c)
  {
    var i: nat, n: nat, j: nat :| i < n < j < |text| && text[i] == '/' && IsBreak(text[n]) && text[j] == '/';
    var a, b := NearestSlashes(text, i, n, j);
    c := text[a..b + 1];
    ScanFromFinds(text, AnyRecord, 0, c);
    assert RecordAt(text, a, b, c);
    assert IsBreak(c[n - a]);
  }

  lemma BreakInside(text: string, i: nat, j: nat) returns (n: nat)
    requires SlashPair(text, i, j) && CrossesLine(text[i..j + 1])
    ensures i < n < j && IsBreak(text[n])
  {
    var c := text[i..j + 1];
    var k: nat :| k < |c| && IsBreak(c[k]);
    n := i + k;
    assert text[n] == c[k] && text[i] == c[0] && text[j] == c[j - i];
  }

  lemma RecordHasBreak(text: string, c: string)
    requires c in Scan(text, AnyRecord) && CrossesLine(c)
    ensures BreakBetweenSlashes(text)
  {
    ScanFromFinds(text, AnyRecord, 0, c);
    var i: nat, j: nat :| RecordAt(text, i, j, c);
    var n := BreakInside(text, i, j);
  }

  /**
   * The records stay within lines, as the scanner's comment says, exactly when
   * no line break has a slash on both sides; a break does not end the search.
   */
  lemma RecordsStayInLinesIff(text: string)
    ensures (forall c :: c in Scan(text, AnyRecord) ==> !CrossesLine(c)) <==> !BreakBetweenSlashes(text)
  {
    if BreakBetweenSlashes(text) {
      var c := BreakMakesRecord(text);
    } else {
      forall c | c in Scan(text, AnyRecord) ensures !CrossesLine(c) {
        if CrossesLine(c) {
          RecordHasBreak(text, c);
        }
      }
    }
  }

  // ---------- the acceptors in use ----------

  /** Whatever is accepted, records stay within lines when no break has slashes on both sides. */
  lemma RecordsStayInLines(text: string, accept: string -> bool)
    requires !BreakBetweenSlashes(text)
    ensures forall c :: c in Scan(text, accept) ==> !CrossesLine(c)
  {
    forall c | c in Scan(text, accept) ensures !CrossesLine(c) {
      ScanFromFinds(text, accept, 0, c);
      ScanFromFinds(text, AnyRecord, 0, c);
      if CrossesLine(c) {
        RecordHasBreak(text, c);
      }
    }
  }

  /** Neighbouring slashes with a break between them, around text that is accepted. */
  ghost predicate BreakInShape(text: string, accept: string -> bool) {
    exists i: nat, j: nat :: AcceptedWithBreak(text, accept, i, j)
  }

  ghost predicate AcceptedWithBreak(text: string, accept: string -> bool, i: nat, j: nat) {
    SlashPair(text, i, j) && accept(text[i..j + 1]) && CrossesLine(text[i..j + 1])
  }

  /** For any acceptor the records stay within lines exactly when no accepted text holds a break. */
  lemma RecordsOfShapeStayInLinesIff(text: string, accept: string -> bool)
    ensures (forall c :: c in Scan(text, accept) ==> !CrossesLine(c)) <==> !BreakInShape(text, accept)
  {
    forall c | c in Scan(text, accept) && CrossesLine(c) ensures BreakInShape(text, accept) {
      ScanFromFinds(text, accept, 0, c);
      var i: nat, j: nat :| RecordAt(text, i, j, c);
      assert AcceptedWithBreak(text, accept, i, j);
    }
    if BreakInShape(text, accept) {
      var i: nat, j: nat :| AcceptedWithBreak(text, accept, i, j);
      ScanFromFinds(text, accept, 0, text[i..j + 1]);
      assert RecordAt(text, i, j, text[i..j + 1]);
    }
  }

  /** The acceptor for VTEC records: a capital and a dot after the slash. */
  predicate VtecShape(c: string) {
    |c| > 2 && 'A' <= c[1] <= 'Z' && c[2] == '.'
  }

  /** Neighbouring slashes around a capital, a dot and, further on, a line break. */
  ghost predicate BreakInVtecShape(text: string) {
    exists i: nat, n: nat, j: nat :: BreaksVtec(text, i, n, j)
  }

  ghost predicate BreaksVtec(text: string, i: nat, n: nat, j: nat) {
    && SlashPair(text, i, j) && i + 2 < n < j && IsBreak(text[n])
    && 'A' <= text[i + 1] <= 'Z' && text[i + 2] == '.'
  }

  lemma VtecShapeSeen(text: string, i: nat, j: nat)
    requires SlashPair(text, i, j)
    ensures VtecShape(text[i..j + 1]) <==> i + 2 < j && 'A' <= text[i + 1] <= 'Z' && text[i + 2] == '.'
  {
    var c := text[i..j + 1];
    assert c[j - i] == text[j];
    if |c| > 2 {
      assert c[1] == text[i + 1] && c[2] == text[i + 2];
    }
  }

  lemma BreakIsCrossed(text: string, i: nat, n: nat, j: nat)
    requires i <= n <= j < |text| && IsBreak(text[n])
    ensures CrossesLine(text[i..j + 1])
  {
    assert text[i..j + 1][n - i] == text[n];
  }

  lemma VtecBreakIff(text: string)
    ensures BreakInShape(text, VtecShape) <==> BreakInVtecShape(text)
  {
    if BreakInShape(text, VtecShape) {
      var i: nat, j: nat :| AcceptedWithBreak(text, VtecShape, i, j);
      var n := BreakInside(text, i, j);
      VtecShapeSeen(text, i, j);
      assert BreaksVtec(text, i, n, j);
    }
    if BreakInVtecShape(text) {
      var i: nat, n: nat, j: nat :| BreaksVtec(text, i, n, j);
      VtecShapeSeen(text, i, j);
      BreakIsCrossed(text, i, n, j);
      assert AcceptedWithBreak(text, VtecShape, i, j);
    }
  }

  /** VTEC records stay within lines exactly when no break lies in text of their shape. */
  lemma VtecRecordsStayInLinesIff(text: string)
    ensures (forall c :: c in Scan(text, VtecShape) ==> !CrossesLine(c)) <==> !BreakInVtecShape(text)
  {
    RecordsOfShapeStayInLinesIff(text, VtecShape);
    VtecBreakIff(text);
  }

  /** A record broken over two lines is found. */
  lemma BrokenRecordIsFound()
    ensures "/O.\n/" in Scan("/O.\n/", VtecShape) && CrossesLine("/O.\n/")
  {
    var c := "/O.\n/";
    assert |c| == 5 && c[1] == 'O' && c[2] == '.' && IsBreak(c[3]);
    assert RecordAt(c, 0, 4, c);
    ScanFromFinds(c, VtecShape, 0, c);
  }
}
