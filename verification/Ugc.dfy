/**
 * Universal Geographic Code blocks: collecting a block from its lines,
 * splitting off the expiration, expanding ranges and sorting codes into buckets.
 */
module Ugc {
  import opened Prelude
  import opened Digits
  import Calendar

  // ---------- strings ----------

  predicate IsWhite(c: char) {
    c == ' ' || 9 as char <= c <= 13 as char
  }

  predicate IsUpper(c: char) {
    'A' <= c <= 'Z'
  }

  function TrimStart(s: string): string {
    if s != "" && IsWhite(s[0]) then TrimStart(s[1..]) else s
  }

  function TrimEnd(s: string): string {
    if s != "" && IsWhite(s[|s| - 1]) then TrimEnd(s[..|s| - 1]) else s
  }

  function Trim(s: string): string {
    TrimEnd(TrimStart(s))
  }

  /** The text without its white space. */
  function Compact(s: string): string {
    if s == "" then "" else (if IsWhite(s[0]) then "" else [s[0]]) + Compact(s[1..])
  }

  predicate Contains(s: string, part: string) {
    part <= s || (s != "" && Contains(s[1..], part))
  }

  /** The text before the first white space. */
  function FirstToken(s: string): string {
    if s == "" || IsWhite(s[0]) then "" else [s[0]] + FirstToken(s[1..])
  }

  /** The pieces between separators, empty ones included. */
  function Split(s: string, seps: set<char>): (r: seq<string>)
    ensures r != []
  {
    if s == "" then [""]
    else (
      var rest := Split(s[1..], seps);
      if s[0] in seps then [""] + rest else [[s[0]] + rest[0]] + rest[1..]
    )
  }

  // ---------- recognizing lines ----------

  predicate IsClass(c: char) {
    c == 'C' || c == 'Z' || c == 'F' || c == 'M'
  }

  predicate IsUgcStart(line: string) {
    var t := TrimStart(line);
    && |t| >= 6
    && IsUpper(t[0]) && IsUpper(t[1]) && IsClass(t[2]) && IsDigit(t[3]) && IsDigit(t[4]) && IsDigit(t[5])
    && (|t| > 6 ==> t[6] == '-' || t[6] == '>' || t[6] == ',' || t[6] == ' ' || t[6] == 9 as char)
  }

  /** A text that ends in a dash, six digits and a dash. */
  predicate HasExpiration(s: string) {
    var n := |s|;
    n >= 8 && s[n - 1] == '-' && s[n - 8] == '-' && AllDigits(s[n - 7..n - 1])
  }

  predicate StartsNewSection(line: string) {
    var t := Trim(line);
    if t == "" then false
    else if t[|t| - 1] == ':' || Contains(t, "...") then true
    else (
      var first := FirstToken(t);
      && !IsUgcStart(t) && |first| >= 4 && IsUpper(first[0])
      && forall i :: 0 <= i < |first| ==> IsUpper(first[i]) || IsDigit(first[i]) || first[i] == '/' || first[i] == '-'
    )
  }

  // ---------- collecting candidates ----------

  /** Joins lines to `combined` until it ends in an expiration; returns the lines left over. */
  function Collect(combined: string, lines: seq<string>): (string, seq<string>)
    decreases |lines|
  {
    if HasExpiration(combined) || lines == [] || Trim(lines[0]) == "" || StartsNewSection(Trim(lines[0]))
    then (combined, lines)
    else Collect(combined + Compact(Trim(lines[0])), lines[1..])
  }

  lemma {:induction false} CollectShrinks(combined: string, lines: seq<string>)
    ensures |Collect(combined, lines).1| <= |lines|
    decreases |lines|
  {
    if !(HasExpiration(combined) || lines == [] || Trim(lines[0]) == "" || StartsNewSection(Trim(lines[0]))) {
      CollectShrinks(combined + Compact(Trim(lines[0])), lines[1..]);
    }
  }

  function Candidates(lines: seq<string>): seq<string>
    decreases |lines|
  {
    if lines == [] then []
    else if !IsUgcStart(lines[0]) then Candidates(lines[1..])
    else (
      CollectShrinks(Compact(lines[0]), lines[1..]);
      var (text, rest) := Collect(Compact(lines[0]), lines[1..]);
      (if HasExpiration(text) then [text] else []) + Candidates(rest)
    )
  }

  method CollectCandidate(first: string, lines: seq<string>, from: nat) returns (candidate: Option<string>, next: nat)
    requires from <= |lines|
    ensures from <= next <= |lines|
    ensures var (text, rest) := Collect(Compact(first), lines[from..]);
      rest == lines[next..] && candidate == if HasExpiration(text) then Some(text) else None
  {
    var combined := Compact(first);
    next := from;
    while !HasExpiration(combined)
      invariant from <= next <= |lines|
      invariant Collect(Compact(first), lines[from..]) == Collect(combined, lines[next..])
      decreases |lines| - next
    {
      if next == |lines| {
        break;
      }
      var line := Trim(lines[next]);
      if line == "" || StartsNewSection(line) {
        break;
      }
      assert lines[next..][1..] == lines[next + 1..];
      combined := combined + Compact(line);
      next := next + 1;
    }
    candidate := if HasExpiration(combined) then Some(combined) else None;
  }

  lemma CandidatesSkip(lines: seq<string>, i: nat)
    requires i < |lines| && !IsUgcStart(lines[i])
    ensures Candidates(lines[i..]) == Candidates(lines[i + 1..])
  {
    assert lines[i..][1..] == lines[i + 1..];
  }

  lemma CandidatesTake(lines: seq<string>, i: nat, candidate: Option<string>, next: nat)
    requires i < next <= |lines| && IsUgcStart(lines[i])
    requires var (text, rest) := Collect(Compact(lines[i]), lines[i + 1..]);
      rest == lines[next..] && candidate == if HasExpiration(text) then Some(text) else None
    ensures Candidates(lines[i..]) == (if candidate.Some? then [candidate.value] else []) + Candidates(lines[next..])
  {
    assert lines[i..][1..] == lines[i + 1..];
  }

  method ExtractCandidates(lines: seq<string>) returns (candidates: seq<string>)
    ensures candidates == Candidates(lines)
  {
    candidates := [];
    var i := 0;
    assert lines[0..] == lines;
    while i < |lines|
      invariant i <= |lines|
      invariant Candidates(lines) == candidates + Candidates(lines[i..])
      decreases |lines| - i
    {
      if IsUgcStart(lines[i]) {
        var candidate, next := CollectCandidate(lines[i], lines, i + 1);
        CandidatesTake(lines, i, candidate, next);
        if candidate.Some? {
          candidates := candidates + [candidate.value];
        }
        i := next;
      } else {
        CandidatesSkip(lines, i);
        i := i + 1;
      }
    }
  }

  // ---------- expanding a block ----------

  datatype GeoClass = County | Zone | FireZone | Marine | Unknown

  datatype Code = Code(state: string, geoclass: GeoClass, number: nat)

  /** State and class in force for shorthand segments. */
  datatype Prefix = Prefix(state: string, geoclass: GeoClass)

  function ClassLetter(g: GeoClass): char {
    match g
    case County => 'C'
    case Zone => 'Z'
    case FireZone => 'F'
    case Marine => 'M'
    case Unknown => 'Z'
  }

  function ClassOf(c: char): GeoClass {
    match c
    case 'C' => County
    case 'Z' => Zone
    case 'F' => FireZone
    case 'M' => Marine
    case _ => Unknown
  }

  predicate IsThreeDigits(t: string) {
    |t| == 3 && AllDigits(t)
  }

  predicate IsOneToThreeDigits(t: string) {
    1 <= |t| <= 3 && AllDigits(t)
  }

  predicate IsNumericSequence(s: string) {
    var tokens := Split(s, {'>'});
    && IsThreeDigits(tokens[0])
    && (|tokens| == 1
        || (|tokens| % 2 == 0 && forall i :: 1 <= i < |tokens| ==> IsOneToThreeDigits(tokens[i])))
  }

  function ParseNumber(t: string): Option<nat> {
    if IsThreeDigits(t) then Some(Value(t)) else None
  }

  /** A shortened range end keeps the leading digits of the start. */
  function ParseRangeEnd(start: nat, t: string): Option<nat> {
    if !IsOneToThreeDigits(t) then None
    else (
      var scale := if |t| == 1 then 10 else 100;
      var end := if |t| == 3 then Value(t) else start / scale * scale + Value(t);
      if end >= start then Some(end) else None
    )
  }

  /** Pairs of start and end tokens. */
  function ParsePairs(tokens: seq<string>): Option<seq<(nat, nat)>> {
    if |tokens| < 2 then Some([])
    else (
      var start := ParseNumber(tokens[0]);
      if start.None? then None
      else (
        var end := ParseRangeEnd(start.value, tokens[1]);
        if end.None? then None
        else (
          var rest := ParsePairs(tokens[2..]);
          if rest.None? then None else Some([(start.value, end.value)] + rest.value)
        )
      )
    )
  }

  function NumericRanges(s: string): Option<seq<(nat, nat)>> {
    var tokens := Split(s, {'>'});
    if |tokens| == 1 then
      var n := ParseNumber(tokens[0]);
      if n.None? then None else Some([(n.value, n.value)])
    else if |tokens| % 2 != 0 then None
    else ParsePairs(tokens)
  }

  /** Every code from start to end. */
  function Dense(p: Prefix, start: nat, end: nat): seq<Code>
    decreases end + 1 - start
  {
    if start > end then [] else [Code(p.state, p.geoclass, start)] + Dense(p, start + 1, end)
  }

  function DenseAll(p: Prefix, ranges: seq<(nat, nat)>): seq<Code> {
    if ranges == [] then [] else Dense(p, ranges[0].0, ranges[0].1) + DenseAll(p, ranges[1..])
  }

  /** The prefix a full segment announces, with its numeric part. */
  function ParseFull(s: string): Option<(Prefix, string)> {
    if |s| >= 6 && IsUpper(s[0]) && IsUpper(s[1]) && IsClass(s[2]) && IsNumericSequence(s[3..])
    then Some((Prefix(s[..2], ClassOf(s[2])), s[3..])) else None
  }

  /** The prefix that applies to a segment, full or shorthand, and its numeric part. */
  function Resolve(s: string, current: Option<Prefix>): Option<(Prefix, string)> {
    var full := ParseFull(s);
    if full.Some? then full
    else if IsNumericSequence(s) && current.Some? then Some((current.value, s))
    else None
  }

  function Expand(segments: seq<string>, current: Option<Prefix>): Option<seq<Code>> {
    if segments == [] then Some([])
    else if segments[0] == "" then Expand(segments[1..], current)
    else (
      var r := Resolve(Trim(segments[0]), current);
      if r.None? then None
      else (
        var ranges := NumericRanges(r.value.1);
        if ranges.None? then None
        else (
          var rest := Expand(segments[1..], Some(r.value.0));
          if rest.None? then None else Some(DenseAll(r.value.0, ranges.value) + rest.value)
        )
      )
    )
  }

  function ExpandBlock(block: string): Option<seq<Code>> {
    var codes := Expand(Split(block, {',', '-'}), None);
    if codes == Some([]) then None else codes
  }

  method ParseNumericRanges(s: string) returns (r: Option<seq<(nat, nat)>>)
    ensures r == NumericRanges(s)
  {
    var tokens := Split(s, {'>'});
    var first := ParseNumber(tokens[0]);
    if first.None? {
      return None;
    }
    if |tokens| == 1 {
      return Some([(first.value, first.value)]);
    }
    if |tokens| == 2 {
      var end := ParseRangeEnd(first.value, tokens[1]);
      assert tokens[2..] == [] && ParsePairs(tokens[2..]) == Some([]);
      assert end.Some? ==> [(first.value, end.value)] + [] == [(first.value, end.value)];
      return if end.Some? then Some([(first.value, end.value)]) else None;
    }
    if |tokens| % 2 != 0 {
      return None;
    }
    var ranges: seq<(nat, nat)> := [];
    var i := 0;
    assert tokens[0..] == tokens;
    OntoNothing(ParsePairs(tokens));
    while i + 1 < |tokens|
      invariant 0 <= i <= |tokens|
      invariant ParsePairs(tokens) == Onto(ranges, ParsePairs(tokens[i..]))
    {
      assert tokens[i..][2..] == tokens[i + 2..];
      var start := ParseNumber(tokens[i]);
      if start.None? {
        return None;
      }
      var end := ParseRangeEnd(start.value, tokens[i + 1]);
      if end.None? {
        return None;
      }
      OntoStep(ranges, (start.value, end.value), ParsePairs(tokens[i + 2..]));
      ranges := ranges + [(start.value, end.value)];
      i := i + 2;
    }
    assert ranges + [] == ranges;
    return Some(ranges);
  }

  /** A result continued after what is already collected. */
  function Onto<T>(done: seq<T>, more: Option<seq<T>>): Option<seq<T>> {
    if more.None? then None else Some(done + more.value)
  }

  lemma OntoNothing<T>(more: Option<seq<T>>)
    ensures Onto([], more) == more
  {
    if more.Some? {
      assert [] + more.value == more.value;
    }
  }

  lemma OntoStep<T>(done: seq<T>, x: T, more: Option<seq<T>>)
    ensures Onto(done, Onto([x], more)) == Onto(done + [x], more)
  {
    if more.Some? {
      assert done + ([x] + more.value) == done + [x] + more.value;
    }
  }

  lemma OntoMany<T>(done: seq<T>, xs: seq<T>, more: Option<seq<T>>)
    ensures Onto(done, Onto(xs, more)) == Onto(done + xs, more)
  {
    if more.Some? {
      assert done + (xs + more.value) == done + xs + more.value;
    }
  }

  method ParseSegment(s: string, current: Option<Prefix>) returns (codes: Option<seq<Code>>, prefix: Option<Prefix>)
    ensures var r := Resolve(s, current);
      if r.None? || NumericRanges(r.value.1).None? then codes.None?
      else codes == Some(DenseAll(r.value.0, NumericRanges(r.value.1).value)) && prefix == Some(r.value.0)
  {
    prefix := current;
    var numeric := s;
    var full := ParseFull(s);
    if full.Some? {
      prefix := Some(full.value.0);
      numeric := full.value.1;
    } else if !IsNumericSequence(s) || current.None? {
      return None, prefix;
    }
    var ranges := ParseNumericRanges(numeric);
    if ranges.None? {
      return None, prefix;
    }
    RangesBounded(numeric);
    var out := ExpandRanges(prefix.value, ranges.value);
    return Some(out), prefix;
  }

  /** The dense expansion loops. */
  method ExpandRanges(p: Prefix, ranges: seq<(nat, nat)>) returns (out: seq<Code>)
    requires forall i :: 0 <= i < |ranges| ==> ranges[i].0 <= ranges[i].1
    ensures out == DenseAll(p, ranges)
  {
    out := [];
    assert ranges[0..] == ranges;
    for i := 0 to |ranges|
      invariant DenseAll(p, ranges) == out + DenseAll(p, ranges[i..])
    {
      var (start, end) := ranges[i];
      var later := ranges[i + 1..];
      assert ranges[i..] == [(start, end)] + later;
      ghost var before := out;
      for number := start to end + 1
        invariant before + Dense(p, start, end) == out + Dense(p, number, end)
      {
        out := out + [Code(p.state, p.geoclass, number)];
      }
      assert out == before + Dense(p, start, end);
      assert out + DenseAll(p, later) == before + (Dense(p, start, end) + DenseAll(p, later));
    }
    assert out + [] == out;
  }

  // ---------- what every accepted block satisfies ----------

  lemma {:induction false} ThreeDigitBound(t: string)
    requires AllDigits(t) && |t| <= 3
    ensures Value(t) <= (if |t| == 3 then 999 else if |t| == 2 then 99 else 9)
  {
    if |t| > 0 {
      ThreeDigitBound(t[..|t| - 1]);
    }
  }

  lemma {:induction false} PairsBounded(tokens: seq<string>)
    ensures ParsePairs(tokens).Some? ==>
      forall i :: 0 <= i < |ParsePairs(tokens).value| ==>
        ParsePairs(tokens).value[i].0 <= ParsePairs(tokens).value[i].1 <= 999
    decreases |tokens|
  {
    if |tokens| >= 2 && ParsePairs(tokens).Some? {
      ThreeDigitBound(tokens[0]);
      ThreeDigitBound(tokens[1]);
      PairsBounded(tokens[2..]);
    }
  }

  /** Ranges never run backwards and never leave the three-digit numbers. */
  lemma RangesBounded(s: string)
    ensures NumericRanges(s).Some? ==>
      forall i :: 0 <= i < |NumericRanges(s).value| ==>
        NumericRanges(s).value[i].0 <= NumericRanges(s).value[i].1 <= 999
  {
    var tokens := Split(s, {'>'});
    if AllDigits(tokens[0]) && |tokens[0]| == 3 {
      ThreeDigitBound(tokens[0]);
    }
    PairsBounded(tokens);
  }

  method ExpandUgcBlock(block: string) returns (r: Option<seq<Code>>)
    ensures r == ExpandBlock(block)
  {
    var segments := Split(block, {',', '-'});
    var codes: seq<Code> := [];
    var current: Option<Prefix> := None;
    assert segments[0..] == segments;
    OntoNothing(Expand(segments, None));
    for i := 0 to |segments|
      invariant Onto(codes, Expand(segments[i..], current)) == Expand(segments, None)
    {
      assert segments[i..][1..] == segments[i + 1..];
      if segments[i] == "" {
        continue;
      }
      var parsed, next := ParseSegment(Trim(segments[i]), current);
      if parsed.None? {
        return None;
      }
      OntoMany(codes, parsed.value, Expand(segments[i + 1..], next));
      codes := codes + parsed.value;
      current := next;
    }
    assert codes + [] == codes;
    return if codes == [] then None else Some(codes);
  }

  // ---------- a whole candidate ----------

  datatype UgcError = InvalidFormat | InvalidCodes | InvalidExpiration

  /** The code block and the six expiration digits of a candidate. */
  function ExtractExpiration(text: string): Option<(string, string)> {
    if HasExpiration(text) then Some((text[..|text| - 8], text[|text| - 7..|text| - 1])) else None
  }

  /** Day, hour and minute of an expiration. */
  function ExpirationFields(digits: string): (nat, nat, nat)
    requires |digits| == 6 && AllDigits(digits)
  {
    (Value(digits[0..2]), Value(digits[2..4]), Value(digits[4..6]))
  }

  /**
   * The codes of a candidate and its expiration: the earliest instant at or
   * after the product's time when one is in reach, and otherwise the latest before it.
   */
  method ParseCapture(text: string, validTime: Calendar.DateTime) returns (r: Result<(seq<Code>, int), UgcError>)
    requires Calendar.IsDateTime(validTime)
    ensures r == Err(InvalidFormat) <==> !HasExpiration(text)
    ensures HasExpiration(text) ==>
      var (block, digits) := ExtractExpiration(text).value;
      var (day, hour, minute) := ExpirationFields(digits);
      && (r == Err(InvalidCodes) <==> ExpandBlock(block).None?)
      && (r == Err(InvalidExpiration) <==> ExpandBlock(block).Some? && !Calendar.ValidFields(day, hour, minute))
      && (r.Ok? ==>
            var sod := Calendar.SecondOfDay(hour, minute);
            var now := Calendar.Instant(validTime);
            && Some(r.value.0) == ExpandBlock(block)
            && (if Calendar.StillAhead(Calendar.GREGORIAN, Calendar.MonthIndex(validTime), now, day, sod)
                then Calendar.EarliestNotBefore(Calendar.GREGORIAN, r.value.1, now, day, sod)
                else Calendar.LatestBefore(Calendar.GREGORIAN, r.value.1, now, day, sod)))
  {
    var split := ExtractExpiration(text);
    if split.None? {
      return Err(InvalidFormat);
    }
    var codes := ExpandUgcBlock(split.value.0);
    if codes.None? {
      return Err(InvalidCodes);
    }
    var (day, hour, minute) := ExpirationFields(split.value.1);
    var expires := Calendar.ResolveDayTimeNotBefore(validTime, day, hour, minute);
    if expires.None? {
      return Err(InvalidExpiration);
    }
    return Ok((codes.value, expires.value));
  }
}
