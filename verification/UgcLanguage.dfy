/**
 * Exactly which blocks the UGC parser accepts, and which codes it reads: the
 * converse of the round trip.
 */
module UgcLanguage {
  import opened Prelude
  import opened Digits
  import opened Ugc
  import opened UgcRoundTrip

  /** The block is these pieces with a comma or a dash between any two. */
  ghost predicate Separated(block: string, ps: seq<string>)
    decreases |ps|
  {
    && ps != [] && (forall i :: 0 <= i < |ps[0]| ==> ps[0][i] != ',' && ps[0][i] != '-')
    && if |ps| == 1 then block == ps[0]
       else
         && |ps[0]| < |block| && ps[0] <= block && (block[|ps[0]|] == ',' || block[|ps[0]|] == '-')
         && Separated(block[|ps[0]| + 1..], ps[1..])
  }

  /** The pieces that are not empty spell the segments, in order, with white space around them at most. */
  ghost predicate Spelt(ps: seq<string>, segments: seq<Segment>) {
    if ps == [] then segments == []
    else if ps[0] == "" then Spelt(ps[1..], segments)
    else segments != [] && Trim(ps[0]) == Text(segments[0]) && Spelt(ps[1..], segments[1..])
  }

  // ---------- separators ----------

  lemma SeparatedHead(block: string, ps: seq<string>) returns (sep: char, rest: string)
    requires Separated(block, ps) && |ps| > 1
    ensures block == ps[0] + [sep] + rest && (sep == ',' || sep == '-') && Separated(rest, ps[1..])
  {
    var n := |ps[0]|;
    sep, rest := block[n], block[n + 1..];
    assert block == block[..n] + [sep] + rest;
  }

  lemma HeadIsFree(block: string, ps: seq<string>)
    requires Separated(block, ps)
    ensures Free(ps[0], {',', '-'})
  {
  }

  lemma {:induction false} SplitSeparated(block: string, ps: seq<string>)
    requires Separated(block, ps)
    ensures Split(block, {',', '-'}) == ps
    decreases |ps|
  {
    HeadIsFree(block, ps);
    if |ps| == 1 {
      SplitFree(block, {',', '-'});
    } else {
      var sep, rest := SeparatedHead(block, ps);
      SplitSeparated(rest, ps[1..]);
      SplitAtSeparator(ps[0], sep, rest, {',', '-'});
    }
  }

  lemma {:induction false} SeparatedSplit(block: string)
    ensures Separated(block, Split(block, {',', '-'}))
  {
    if block != "" {
      SeparatedSplit(block[1..]);
      var ps, rest := Split(block, {',', '-'}), Split(block[1..], {',', '-'});
      if block[0] == ',' || block[0] == '-' {
        assert ps == [""] + rest && ps[1..] == rest;
        assert block[0 + 1..] == block[1..];
      } else {
        assert ps[0] == [block[0]] + rest[0] && ps[1..] == rest[1..];
        LongerFirst(block, rest);
      }
    }
  }

  lemma {:induction false} LongerFirst(block: string, rest: seq<string>)
    requires block != "" && block[0] != ',' && block[0] != '-' && Separated(block[1..], rest)
    ensures Separated(block, [[block[0]] + rest[0]] + rest[1..])
  {
    var ps := [[block[0]] + rest[0]] + rest[1..];
    assert ps[1..] == rest[1..] && |ps| == |rest|;
    if |rest| == 1 {
      assert block == [block[0]] + block[1..];
    } else {
      var n := |rest[0]|;
      assert block[1..][n + 1..] == block[n + 2..] && block[1..][n] == block[n + 1];
      assert block[..n + 1] == [block[0]] + block[1..][..n];
    }
  }

  // ---------- from a piece to its segment ----------

  lemma {:induction false} JoinSplit(s: string)
    ensures Join(Split(s, {'>'}), '>') == s
  {
    if s != "" {
      JoinSplit(s[1..]);
      var rest := Split(s[1..], {'>'});
      var all := Split(s, {'>'});
      if s[0] == '>' {
        assert all[1..] == rest;
      } else {
        assert all[1..] == rest[1..];
      }
      assert s == [s[0]] + s[1..];
    }
  }

  lemma {:induction false} PairsSpell(tokens: seq<string>) returns (rs: seq<PrintedRange>)
    requires |tokens| % 2 == 0 && ParsePairs(tokens).Some?
    ensures PairTokens(rs) == tokens && Bounds(rs) == ParsePairs(tokens).value && 2 * |rs| == |tokens|
    ensures forall i :: 0 <= i < |rs| ==> IsRange(rs[i])
    decreases |tokens|
  {
    if tokens == [] {
      rs := [];
    } else {
      var more := PairsSpell(tokens[2..]);
      var start := ParseNumber(tokens[0]).value;
      var end := ParseRangeEnd(start, tokens[1]).value;
      var first := PrintedRange(start, end, tokens[0], tokens[1]);
      RangeSpelt(first);
      rs := [first] + more;
      assert rs[1..] == more;
      assert tokens == [tokens[0], tokens[1]] + tokens[2..];
    }
  }

  lemma RangeSpelt(r: PrintedRange)
    requires ParseNumber(r.startToken) == Some(r.start) && ParseRangeEnd(r.start, r.endToken) == Some(r.end)
    ensures IsRange(r)
  {
  }

  /** A numeric part with its ranges is that of some body. */
  lemma BodySpelt(numeric: string) returns (b: Body)
    requires IsNumericSequence(numeric) && NumericRanges(numeric).Some?
    ensures IsBody(b) && Numeric(b) == numeric
    ensures forall p :: BodyCodes(p, b) == DenseAll(p, NumericRanges(numeric).value)
  {
    var tokens := Split(numeric, {'>'});
    JoinSplit(numeric);
    if |tokens| == 1 {
      b := Single(Value(tokens[0]), tokens[0]);
      assert tokens == [tokens[0]];
      forall p ensures BodyCodes(p, b) == DenseAll(p, NumericRanges(numeric).value) {
        OneNumber(p, Value(tokens[0]));
      }
    } else {
      var rs := PairsSpell(tokens);
      b := Ranges(rs);
    }
  }

  lemma {:induction false} OneNumber(p: Prefix, n: nat)
    ensures DenseAll(p, [(n, n)]) == Dense(p, n, n)
  {
    assert [(n, n)][1..] == [];
    assert Dense(p, n, n) + [] == Dense(p, n, n);
  }

  /** State and class of a prefix in force. */
  ghost predicate GoodPrefix(current: Option<Prefix>) {
    current.Some? ==>
      && |current.value.state| == 2 && IsUpper(current.value.state[0]) && IsUpper(current.value.state[1])
      && !current.value.geoclass.Unknown?
  }

  lemma SegmentSpelt(t: string, current: Option<Prefix>) returns (s: Segment)
    requires GoodPrefix(current) && Resolve(t, current).Some?
    requires NumericRanges(Resolve(t, current).value.1).Some?
    ensures IsSegment(s) && Text(s) == t && (s.full || current == Some(s.prefix))
    ensures s.prefix == Resolve(t, current).value.0
    ensures BodyCodes(s.prefix, s.body) == DenseAll(s.prefix, NumericRanges(Resolve(t, current).value.1).value)
  {
    var (prefix, numeric) := Resolve(t, current).value;
    var b := BodySpelt(numeric);
    s := Segment(ParseFull(t).Some?, prefix, b);
    if ParseFull(t).Some? {
      FullSpelt(t, s);
    } else {
      assert "" + numeric == numeric;
    }
  }

  lemma FullSpelt(t: string, s: Segment)
    requires ParseFull(t) == Some((s.prefix, Numeric(s.body))) && s.full
    ensures Text(s) == t
    ensures |s.prefix.state| == 2 && IsUpper(s.prefix.state[0]) && IsUpper(s.prefix.state[1])
    ensures !s.prefix.geoclass.Unknown?
  {
    assert ClassLetter(ClassOf(t[2])) == t[2];
    assert t == t[..2] + [t[2]] + t[3..];
  }

  lemma {:induction false} PiecesSpelt(ps: seq<string>, current: Option<Prefix>) returns (segments: seq<Segment>)
    requires GoodPrefix(current) && Expand(ps, current).Some?
    ensures Spelt(ps, segments) && IsBlock(segments, current) && AllCodes(segments) == Expand(ps, current).value
    decreases |ps|
  {
    if ps == [] {
      segments := [];
    } else if ps[0] == "" {
      segments := PiecesSpelt(ps[1..], current);
    } else {
      var s := SegmentSpelt(Trim(ps[0]), current);
      var more := PiecesSpelt(ps[1..], Some(s.prefix));
      segments := [s] + more;
      assert segments[1..] == more;
    }
  }

  lemma {:induction false} SpeltExpands(ps: seq<string>, segments: seq<Segment>, current: Option<Prefix>)
    requires Spelt(ps, segments) && IsBlock(segments, current)
    ensures Expand(ps, current) == Some(AllCodes(segments))
    decreases |ps|
  {
    if ps != [] {
      if ps[0] == "" {
        SpeltExpands(ps[1..], segments, current);
      } else {
        var s := segments[0];
        SegmentResolves(s, current);
        TextIsAtom(s);
        TextTrimmed(s);
        BodyParses(s.body);
        SpeltExpands(ps[1..], segments[1..], Some(s.prefix));
        if s.body.Single? {
          OneNumber(s.prefix, s.body.number);
        }
      }
    }
  }

  lemma TextTrimmed(s: Segment)
    requires IsSegment(s)
    ensures Trim(Text(s)) == Text(s)
  {
    TextIsAtom(s);
    var t := Text(s);
    assert UgcChar(t[0]) && UgcChar(t[|t| - 1]);
    TrimNothing(t);
  }

  lemma {:induction false} CodesOfSegment(segments: seq<Segment>, current: Option<Prefix>)
    requires segments != [] && IsBlock(segments, current)
    ensures AllCodes(segments) != []
  {
    var b := segments[0].body;
    if b.Ranges? {
      assert IsRange(b.ranges[0]);
    }
  }

  /** The block, in these pieces, spells these segments. */
  ghost predicate Says(block: string, ps: seq<string>, segments: seq<Segment>) {
    Separated(block, ps) && Spelt(ps, segments) && segments != [] && IsBlock(segments, None)
  }

  lemma Accepted(block: string) returns (ps: seq<string>, segments: seq<Segment>)
    requires ExpandBlock(block).Some?
    ensures Says(block, ps, segments) && ExpandBlock(block) == Some(AllCodes(segments))
  {
    ps := Split(block, {',', '-'});
    SeparatedSplit(block);
    segments := PiecesSpelt(ps, None);
    assert AllCodes([]) == [];
  }

  lemma {:induction false} Reads(block: string, ps: seq<string>, segments: seq<Segment>)
    requires Says(block, ps, segments)
    ensures ExpandBlock(block) == Some(AllCodes(segments))
  {
    SplitSeparated(block, ps);
    SpeltExpands(ps, segments, None);
    CodesOfSegment(segments, None);
  }

  /**
   * The language of UGC blocks: a block reads as these codes exactly when it
   * spells segments, full or shorthand, that stand for them.
   */
  lemma BlockLanguage(block: string, codes: seq<Code>)
    ensures ExpandBlock(block) == Some(codes)
       <==> exists ps, segments :: Says(block, ps, segments) && codes == AllCodes(segments)
  {
    if ExpandBlock(block) == Some(codes) {
      var ps, segments := Accepted(block);
    }
    if ps, segments :| Says(block, ps, segments) && codes == AllCodes(segments) {
      Reads(block, ps, segments);
    }
  }
}
