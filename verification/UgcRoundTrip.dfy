/**
 * Printing a list of ranges as a UGC block, wrapped over lines, and reading it back.
 */
module UgcRoundTrip {
  import opened Prelude
  import opened Digits
  import opened Ugc

  /** A range as printed: a three-digit start and an end of one to three digits. */
  datatype PrintedRange = PrintedRange(start: nat, end: nat, startToken: string, endToken: string)

  /** One number, or one or more ranges run together. */
  datatype Body = Single(number: nat, token: string) | Ranges(ranges: seq<PrintedRange>)

  /** A segment with its full prefix, or in shorthand under the prefix of the one before. */
  datatype Segment = Segment(full: bool, prefix: Prefix, body: Body)

  /** The token spells the number; a shortened end drops the digits it shares with the start. */
  ghost predicate IsRange(r: PrintedRange) {
    && IsThreeDigits(r.startToken) && Value(r.startToken) == r.start <= r.end
    && IsOneToThreeDigits(r.endToken)
    && match |r.endToken|
       case 3 => Value(r.endToken) == r.end
       case 2 => r.end == r.start / 100 * 100 + Value(r.endToken)
       case _ => r.end == r.start / 10 * 10 + Value(r.endToken)
  }

  ghost predicate IsBody(b: Body) {
    match b
    case Single(n, t) => IsThreeDigits(t) && Value(t) == n
    case Ranges(rs) => rs != [] && forall i :: 0 <= i < |rs| ==> IsRange(rs[i])
  }

  ghost predicate IsSegment(s: Segment) {
    && IsBody(s.body) && |s.prefix.state| == 2 && IsUpper(s.prefix.state[0]) && IsUpper(s.prefix.state[1])
    && !s.prefix.geoclass.Unknown?
  }

  /** Every segment is full or in shorthand under the prefix in force; at the start none is. */
  ghost predicate IsBlock(segments: seq<Segment>, current: Option<Prefix>) {
    segments != [] ==>
      && IsSegment(segments[0])
      && (segments[0].full || current == Some(segments[0].prefix))
      && IsBlock(segments[1..], Some(segments[0].prefix))
  }

  // ---------- printing ----------

  function PairTokens(rs: seq<PrintedRange>): seq<string> {
    if rs == [] then [] else [rs[0].startToken, rs[0].endToken] + PairTokens(rs[1..])
  }

  function BodyTokens(b: Body): seq<string> {
    match b
    case Single(_, t) => [t]
    case Ranges(rs) => PairTokens(rs)
  }

  function Numeric(b: Body): string {
    Join(BodyTokens(b), '>')
  }

  function Text(s: Segment): string {
    (if s.full then s.prefix.state + [ClassLetter(s.prefix.geoclass)] else "") + Numeric(s.body)
  }

  // ---------- the codes a block stands for ----------

  function BodyCodes(p: Prefix, b: Body): seq<Code> {
    match b
    case Single(n, _) => Dense(p, n, n)
    case Ranges(rs) => DenseAll(p, Bounds(rs))
  }

  function Bounds(rs: seq<PrintedRange>): seq<(nat, nat)> {
    if rs == [] then [] else [(rs[0].start, rs[0].end)] + Bounds(rs[1..])
  }

  function AllCodes(segments: seq<Segment>): seq<Code> {
    if segments == [] then [] else BodyCodes(segments[0].prefix, segments[0].body) + AllCodes(segments[1..])
  }

  // ---------- splitting what was joined ----------

  ghost predicate Free(s: string, seps: set<char>) {
    forall i :: 0 <= i < |s| ==> s[i] !in seps
  }

  lemma {:induction false} SplitFree(s: string, seps: set<char>)
    requires Free(s, seps)
    ensures Split(s, seps) == [s]
  {
    if s != "" {
      SplitFree(s[1..], seps);
      assert [s[0]] + s[1..] == s;
    }
  }

  lemma {:induction false} SplitAtSeparator(a: string, sep: char, b: string, seps: set<char>)
    requires Free(a, seps) && sep in seps
    ensures Split(a + [sep] + b, seps) == [a] + Split(b, seps)
  {
    var s := a + [sep] + b;
    if a == "" {
      assert s[1..] == b;
    } else {
      assert s[1..] == a[1..] + [sep] + b;
      SplitAtSeparator(a[1..], sep, b, seps);
      assert [a[0]] + a[1..] == a;
    }
  }

  lemma {:induction false} SplitJoin(tokens: seq<string>, sep: char, seps: set<char>)
    requires tokens != [] && sep in seps && forall i :: 0 <= i < |tokens| ==> Free(tokens[i], seps)
    ensures Split(Join(tokens, sep), seps) == tokens
  {
    if |tokens| == 1 {
      SplitFree(tokens[0], seps);
    } else {
      SplitJoin(tokens[1..], sep, seps);
      SplitAtSeparator(tokens[0], sep, Join(tokens[1..], sep), seps);
      assert [tokens[0]] + tokens[1..] == tokens;
    }
  }

  // ---------- numeric parts ----------

  lemma {:induction false} PairTokensShape(rs: seq<PrintedRange>)
    requires forall i :: 0 <= i < |rs| ==> IsRange(rs[i])
    ensures |PairTokens(rs)| == 2 * |rs|
    ensures forall i :: 0 <= i < |PairTokens(rs)| ==> IsOneToThreeDigits(PairTokens(rs)[i])
    ensures ParsePairs(PairTokens(rs)) == Some(Bounds(rs))
  {
    if rs != [] {
      PairTokensShape(rs[1..]);
      assert PairTokens(rs)[2..] == PairTokens(rs[1..]);
    }
  }

  lemma BodyParses(b: Body)
    requires IsBody(b)
    ensures BodyTokens(b) != []
    ensures IsNumericSequence(Numeric(b))
    ensures NumericRanges(Numeric(b)) == Some(if b.Single? then [(b.number, b.number)] else Bounds(b.ranges))
  {
    if b.Ranges? {
      PairTokensShape(b.ranges);
      assert BodyTokens(b)[0] == b.ranges[0].startToken;
    }
    var tokens := BodyTokens(b);
    forall i | 0 <= i < |tokens| ensures Free(tokens[i], {'>'}) {
      assert AllDigits(tokens[i]);
    }
    SplitJoin(tokens, '>', {'>'});
  }

  /** A numeric part starts with three digits, followed by nothing or by a range mark. */
  lemma NumericHead(b: Body)
    requires IsBody(b)
    ensures var n := Numeric(b);
      && |n| >= 3 && IsDigit(n[0]) && IsDigit(n[1]) && IsDigit(n[2])
      && (|n| > 3 ==> n[3] == '>')
      && (forall i :: 0 <= i < |n| ==> IsDigit(n[i]) || n[i] == '>')
  {
    if b.Ranges? {
      PairTokensShape(b.ranges);
      assert BodyTokens(b)[0] == b.ranges[0].startToken;
    }
    JoinChars(BodyTokens(b));
  }

  lemma {:induction false} JoinChars(tokens: seq<string>)
    requires tokens != [] && forall i :: 0 <= i < |tokens| ==> IsOneToThreeDigits(tokens[i])
    ensures var n := Join(tokens, '>');
      && tokens[0] <= n && (|n| > |tokens[0]| ==> n[|tokens[0]|] == '>')
      && (forall i :: 0 <= i < |n| ==> IsDigit(n[i]) || n[i] == '>')
  {
    if |tokens| > 1 {
      JoinChars(tokens[1..]);
      var rest := Join(tokens[1..], '>');
      assert forall i :: 0 <= i < |tokens[0]| ==> IsDigit(tokens[0][i]);
      var n := Join(tokens, '>');
      assert n == tokens[0] + ['>'] + rest;
      assert forall i :: |tokens[0]| < i < |n| ==> n[i] == rest[i - |tokens[0]| - 1];
    }
  }

  // ---------- segments ----------

  predicate UgcChar(c: char) {
    IsUpper(c) || IsDigit(c) || c == '>'
  }

  /** Two capitals, a class letter and three digits, followed by nothing or a range mark. */
  ghost predicate StartsFull(a: string) {
    && |a| >= 6 && IsUpper(a[0]) && IsUpper(a[1]) && IsClass(a[2])
    && IsDigit(a[3]) && IsDigit(a[4]) && IsDigit(a[5]) && (|a| > 6 ==> a[6] == '>')
  }

  /** What is printed between two dashes. */
  ghost predicate IsAtom(a: string) {
    && a != "" && (forall i :: 0 <= i < |a| ==> UgcChar(a[i]))
    && (IsDigit(a[0]) || StartsFull(a))
  }

  lemma TextIsAtom(s: Segment)
    requires IsSegment(s)
    ensures IsAtom(Text(s)) && (s.full ==> StartsFull(Text(s)))
    ensures |Text(s)| == 6 ==> !AllDigits(Text(s))
  {
    BodyParses(s.body);
    NumericHead(s.body);
    var n, t := Numeric(s.body), Text(s);
    if s.full {
      assert t == s.prefix.state + [ClassLetter(s.prefix.geoclass)] + n;
      assert forall i :: 3 <= i < |t| ==> t[i] == n[i - 3];
      assert IsUpper(t[0]);
    } else {
      assert t == n;
    }
  }

  lemma TrimNothing(s: string)
    requires s == "" || (!IsWhite(s[0]) && !IsWhite(s[|s| - 1]))
    ensures Trim(s) == s
  {
  }

  lemma SegmentResolves(s: Segment, current: Option<Prefix>)
    requires IsSegment(s) && (s.full || current == Some(s.prefix))
    ensures Text(s) != "" && Resolve(Trim(Text(s)), current) == Some((s.prefix, Numeric(s.body)))
  {
    TextIsAtom(s);
    var t := Text(s);
    assert UgcChar(t[0]) && UgcChar(t[|t| - 1]);
    TrimNothing(t);
    BodyParses(s.body);
    NumericHead(s.body);
    if s.full {
      assert t[..2] == s.prefix.state && t[3..] == Numeric(s.body);
      assert ClassOf(t[2]) == s.prefix.geoclass;
    } else {
      assert t == Numeric(s.body) && !IsUpper(t[0]);
    }
  }

  function Texts(segments: seq<Segment>): (r: seq<string>)
    ensures |r| == |segments|
  {
    if segments == [] then [] else [Text(segments[0])] + Texts(segments[1..])
  }

  lemma {:induction false} TextsAreAtoms(segments: seq<Segment>, current: Option<Prefix>)
    requires IsBlock(segments, current)
    ensures forall i :: 0 <= i < |segments| ==> IsAtom(Texts(segments)[i])
    ensures forall i :: 0 <= i < |segments| && |Texts(segments)[i]| == 6 ==> !AllDigits(Texts(segments)[i])
  {
    if segments != [] {
      TextIsAtom(segments[0]);
      TextsAreAtoms(segments[1..], Some(segments[0].prefix));
      assert forall i :: 1 <= i < |segments| ==> Texts(segments)[i] == Texts(segments[1..])[i - 1];
    }
  }

  lemma {:induction false} ExpandPrinted(segments: seq<Segment>, current: Option<Prefix>)
    requires IsBlock(segments, current)
    ensures Expand(Texts(segments), current) == Some(AllCodes(segments))
  {
    if segments != [] {
      var s := segments[0];
      SegmentResolves(s, current);
      BodyParses(s.body);
      ExpandPrinted(segments[1..], Some(s.prefix));
      assert Texts(segments)[1..] == Texts(segments[1..]);
      if s.body.Single? {
        assert DenseAll(s.prefix, [(s.body.number, s.body.number)]) == Dense(s.prefix, s.body.number, s.body.number);
      }
    }
  }

  /** A printed block expands to the dense concatenation of its ranges, in order. */
  lemma {:induction false} BlockRoundTrip(segments: seq<Segment>)
    requires segments != [] && IsBlock(segments, None)
    ensures ExpandBlock(Join(Texts(segments), '-')) == Some(AllCodes(segments))
  {
    TextsAreAtoms(segments, None);
    forall i | 0 <= i < |segments| ensures Free(Texts(segments)[i], {',', '-'}) {
      assert IsAtom(Texts(segments)[i]);
    }
    SplitJoin(Texts(segments), '-', {',', '-'});
    ExpandPrinted(segments, None);
    var b := segments[0].body;
    if b.Ranges? {
      assert IsRange(b.ranges[0]);
    }
    assert AllCodes(segments) != [];
  }

  // ---------- lines ----------

  /** Atoms, each followed by a dash. */
  function Dashed(atoms: seq<string>): string {
    if atoms == [] then "" else atoms[0] + "-" + Dashed(atoms[1..])
  }

  lemma {:induction false} DashedAppend(a: seq<string>, b: seq<string>)
    ensures Dashed(a + b) == Dashed(a) + Dashed(b)
  {
    if a == [] {
      assert a + b == b;
    } else {
      assert (a + b)[1..] == a[1..] + b;
      DashedAppend(a[1..], b);
    }
  }

  lemma {:induction false} DashedIsJoin(atoms: seq<string>)
    requires atoms != []
    ensures Dashed(atoms) == Join(atoms, '-') + "-"
  {
    if |atoms| > 1 {
      DashedIsJoin(atoms[1..]);
    }
  }

  lemma {:induction false} DashedChars(atoms: seq<string>)
    requires forall i :: 0 <= i < |atoms| ==> IsAtom(atoms[i])
    ensures var t := Dashed(atoms);
      && (forall i :: 0 <= i < |t| ==> UgcChar(t[i]) || t[i] == '-')
      && (atoms != [] ==> t != "" && t[|t| - 1] == '-' && atoms[0] + "-" <= t)
  {
    if atoms != [] {
      DashedChars(atoms[1..]);
      var t, rest := Dashed(atoms), Dashed(atoms[1..]);
      assert forall i :: 0 <= i < |atoms[0]| ==> UgcChar(atoms[0][i]);
      assert forall i :: |atoms[0]| < i < |t| ==> t[i] == rest[i - |atoms[0]| - 1];
    }
  }

  lemma {:induction false} CompactNothing(s: string)
    requires forall i :: 0 <= i < |s| ==> !IsWhite(s[i])
    ensures Compact(s) == s
  {
    if s != "" {
      CompactNothing(s[1..]);
    }
  }

  lemma {:induction false} NoDots(s: string)
    requires forall i :: 0 <= i < |s| ==> s[i] != '.'
    ensures !Contains(s, "...")
  {
    if s != "" {
      NoDots(s[1..]);
      assert "..."[0] == '.';
    }
  }

  /** What matters about a printed line. */
  ghost predicate IsPrintedLine(t: string) {
    && t != "" && t[|t| - 1] == '-'
    && (forall i :: 0 <= i < |t| ==> UgcChar(t[i]) || t[i] == '-')
    && (IsDigit(t[0]) || StartsBlock(t))
  }

  ghost predicate StartsBlock(t: string) {
    && |t| >= 7 && IsUpper(t[0]) && IsUpper(t[1]) && IsClass(t[2])
    && IsDigit(t[3]) && IsDigit(t[4]) && IsDigit(t[5]) && (t[6] == '>' || t[6] == '-')
  }

  lemma LineHead(a: string, t: string)
    requires IsAtom(a) && a + "-" <= t
    ensures t != "" && (IsDigit(t[0]) || StartsBlock(t))
    ensures StartsFull(a) ==> StartsBlock(t)
  {
    var head := a + "-";
    assert forall i :: 0 <= i < |head| ==> t[i] == head[i];
    assert head[|a|] == '-';
  }

  lemma {:induction false} LineShape(atoms: seq<string>)
    requires atoms != [] && forall i :: 0 <= i < |atoms| ==> IsAtom(atoms[i])
    ensures IsPrintedLine(Dashed(atoms))
    ensures StartsFull(atoms[0]) ==> StartsBlock(Dashed(atoms))
  {
    DashedChars(atoms);
    LineHead(atoms[0], Dashed(atoms));
  }

  /** A printed line reads as itself. */
  lemma {:induction false} LineReadsAsItself(t: string)
    requires IsPrintedLine(t)
    ensures TrimStart(t) == t && Trim(t) == t && Compact(t) == t
    ensures StartsBlock(t) ==> IsUgcStart(t)
  {
    assert UgcChar(t[0]);
    TrimNothing(t);
    CompactNothing(t);
  }

  /** A printed line is never mistaken for a section header. */
  lemma LineIsNoHeader(t: string)
    requires IsPrintedLine(t)
    ensures !StartsNewSection(t)
  {
    LineReadsAsItself(t);
    NoDots(t);
    if IsDigit(t[0]) {
      assert FirstToken(t)[0] == t[0];
    }
  }

  /** No text that ends in a segment looks expired. */
  lemma NoEarlyExpiration(before: string, atom: string)
    requires before == "" || before[|before| - 1] == '-'
    requires IsAtom(atom) && (|atom| == 6 ==> !AllDigits(atom))
    ensures !HasExpiration(before + atom + "-")
  {
    var t := before + atom + "-";
    var n := |t|;
    if n >= 8 {
      if |atom| > 6 {
        assert t[n - 8] == atom[|atom| - 7];
        assert UgcChar(atom[|atom| - 7]);
      } else if |atom| == 6 {
        assert t[n - 7..n - 1] == atom;
      } else {
        assert t[n - 2 - |atom|] == '-';
        assert t[n - 7..n - 1][5 - |atom|] == '-';
      }
    }
  }

  /** A line of a printed block: at least one atom. */
  function Lines(groups: seq<seq<string>>): seq<string> {
    if groups == [] then [] else [Dashed(groups[0])] + Lines(groups[1..])
  }

  function Group(g: seq<string>): seq<string> { g }

  /** The atoms of all lines. */
  function Atoms(groups: seq<seq<string>>): seq<string> {
    Flatten(Group, groups)
  }

  ghost predicate NoEmptyLine(groups: seq<seq<string>>) {
    forall i :: 0 <= i < |groups| ==> groups[i] != []
  }

  /** Segment atoms followed by the six digits of the expiration. */
  ghost predicate IsAtomList(all: seq<string>) {
    && |all| >= 2
    && (forall i :: 0 <= i < |all| ==> IsAtom(all[i]))
    && (forall i :: 0 <= i < |all| - 1 && |all[i]| == 6 ==> !AllDigits(all[i]))
    && |all[|all| - 1]| == 6 && AllDigits(all[|all| - 1])
  }

  lemma ExpirationAtEnd(block: string, exp: string)
    requires |exp| == 6 && AllDigits(exp)
    ensures HasExpiration(block + "-" + exp + "-")
    ensures ExtractExpiration(block + "-" + exp + "-") == Some((block, exp))
  {
    var t := block + "-" + exp + "-";
    var n := |t|;
    assert t[n - 7..n - 1] == exp && t[n - 8] == '-' && t[..n - 8] == block;
  }

  lemma {:induction false} WholeTextExpires(init: seq<string>, exp: string)
    requires init != [] && |exp| == 6 && AllDigits(exp)
    ensures HasExpiration(Dashed(init + [exp]))
    ensures ExtractExpiration(Dashed(init + [exp])) == Some((Join(init, '-'), exp))
  {
    DashedAppend(init, [exp]);
    DashedIsJoin(init);
    assert Dashed([exp]) == exp + "-";
    var block := Join(init, '-');
    assert (block + "-") + (exp + "-") == block + "-" + exp + "-";
    ExpirationAtEnd(block, exp);
  }

  lemma {:induction false} PartialTextOpen(done: seq<string>, rest: seq<string>)
    requires IsAtomList(done + rest) && done != [] && rest != []
    ensures !HasExpiration(Dashed(done))
  {
    var n := |done| - 1;
    var init, atom := done[..n], done[n];
    assert (done + rest)[n] == atom;
    assert done == init + [atom];
    forall i | 0 <= i < n ensures IsAtom(init[i]) {
      assert init[i] == (done + rest)[i];
    }
    DashedAppend(init, [atom]);
    DashedChars(init);
    assert Dashed([atom]) == atom + "-";
    assert Dashed(done) == Dashed(init) + atom + "-";
    NoEarlyExpiration(Dashed(init), atom);
  }

  lemma {:induction false} CollectLine(combined: string, line: string, more: seq<string>)
    requires !HasExpiration(combined) && IsPrintedLine(line)
    ensures Collect(combined, [line] + more) == Collect(combined + line, more)
  {
    LineReadsAsItself(line);
    LineIsNoHeader(line);
    assert ([line] + more)[1..] == more;
  }

  lemma {:induction false} LinesStep(groups: seq<seq<string>>, tail: seq<string>)
    requires groups != []
    ensures Lines(groups) + tail == [Dashed(groups[0])] + (Lines(groups[1..]) + tail)
  {
  }

  /** Collecting goes on exactly until the expiration, wherever the lines were broken. */
  lemma {:induction false} CollectWrapped(done: seq<string>, groups: seq<seq<string>>, tail: seq<string>)
    requires done != [] && NoEmptyLine(groups) && IsAtomList(done + Atoms(groups))
    ensures Collect(Dashed(done), Lines(groups) + tail) == (Dashed(done + Atoms(groups)), tail)
    decreases |groups|
  {
    var all := done + Atoms(groups);
    if groups == [] {
      assert all == done && Lines(groups) + tail == tail;
      assert all == all[..|all| - 1] + [all[|all| - 1]];
      WholeTextExpires(all[..|all| - 1], all[|all| - 1]);
    } else {
      FlattenFront(Group, groups);
      var g, rest := groups[0], Atoms(groups[1..]);
      PartialTextOpen(done, Atoms(groups));
      assert all == (done + g) + rest;
      forall i | 0 <= i < |g| ensures IsAtom(g[i]) {
        assert g[i] == all[|done| + i];
      }
      LineShape(g);
      LinesStep(groups, tail);
      DashedAppend(done, g);
      CollectLine(Dashed(done), Dashed(g), Lines(groups[1..]) + tail);
      CollectWrapped(done + g, groups[1..], tail);
    }
  }

  lemma {:induction false} CandidateFirst(line: string, lines: seq<string>, text: string, tail: seq<string>)
    requires IsPrintedLine(line) && StartsBlock(line) && Collect(line, lines) == (text, tail) && HasExpiration(text)
    ensures Candidates([line] + lines) == [text] + Candidates(tail)
  {
    LineReadsAsItself(line);
    assert ([line] + lines)[1..] == lines;
  }

  lemma {:induction false} FirstLine(g: seq<string>, all: seq<string>)
    requires g != [] && g <= all && (forall i :: 0 <= i < |all| ==> IsAtom(all[i])) && StartsFull(all[0])
    ensures IsPrintedLine(Dashed(g)) && StartsBlock(Dashed(g))
  {
    forall i | 0 <= i < |g| ensures IsAtom(g[i]) && g[i] == all[i] {
      assert IsAtom(all[i]);
    }
    LineShape(g);
  }

  lemma {:induction false} ListExpires(all: seq<string>)
    requires |all| >= 2 && |all[|all| - 1]| == 6 && AllDigits(all[|all| - 1])
    ensures HasExpiration(Dashed(all))
  {
    assert all == all[..|all| - 1] + [all[|all| - 1]];
    WholeTextExpires(all[..|all| - 1], all[|all| - 1]);
  }

  /**
   * However a printed block is wrapped after its dashes, scanning the lines
   * yields it whole, and goes on with the lines that follow.
   */
  lemma {:induction false} WrappingIsTransparent(groups: seq<seq<string>>, tail: seq<string>)
    requires NoEmptyLine(groups) && IsAtomList(Atoms(groups)) && StartsFull(Atoms(groups)[0])
    ensures Candidates(Lines(groups) + tail) == [Dashed(Atoms(groups))] + Candidates(tail)
  {
    FlattenFront(Group, groups);
    var g, all := groups[0], Atoms(groups);
    FirstLine(g, all);
    LinesStep(groups, tail);
    CollectWrapped(g, groups[1..], tail);
    ListExpires(all);
    CandidateFirst(Dashed(g), Lines(groups[1..]) + tail, Dashed(all), tail);
  }

  /**
   * The round trip: any block of full and shorthand segments with full or
   * shortened range ends, with any expiration and any wrapping, is found as one
   * candidate whose codes are the dense concatenation of its ranges.
   */
  lemma {:induction false} UgcTextRoundTrip(segments: seq<Segment>, expiration: string, groups: seq<seq<string>>,
                                            tail: seq<string>)
    requires segments != [] && IsBlock(segments, None)
    requires |expiration| == 6 && AllDigits(expiration)
    requires NoEmptyLine(groups) && Atoms(groups) == Texts(segments) + [expiration]
    ensures Candidates(Lines(groups) + tail) == [Dashed(Atoms(groups))] + Candidates(tail)
    ensures ExtractExpiration(Dashed(Atoms(groups))) == Some((Join(Texts(segments), '-'), expiration))
    ensures ExpandBlock(Join(Texts(segments), '-')) == Some(AllCodes(segments))
  {
    var all := Texts(segments) + [expiration];
    TextsAreAtoms(segments, None);
    TextIsAtom(segments[0]);
    assert all[0] == Text(segments[0]);
    assert IsAtom(expiration);
    WrappingIsTransparent(groups, tail);
    WholeTextExpires(Texts(segments), expiration);
    BlockRoundTrip(segments);
  }
}
