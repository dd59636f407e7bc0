/**
 * The filename matcher of the live server: a greedy `*` matcher with one
 * remembered star. Strings stand for byte sequences.
 */
module Wildcard {
  import opened Prelude
  import opened Ascii

  function LowerChar(c: char): char {
    if 'A' <= c <= 'Z' then (c as int + 32) as char else c
  }

  function Lower(s: string): (r: string)
    ensures |r| == |s|
  {
    if s == [] then [] else [LowerChar(s[0])] + Lower(s[1..])
  }

  /** What a glob promises: `*` stands for any byte string, every other byte for itself. */
  ghost predicate Glob(p: string, t: string)
    decreases |p|
  {
    if p == [] then t == []
    else if p[0] == '*' then exists k :: 0 <= k <= |t| && Glob(p[1..], t[k..])
    else t != [] && p[0] == t[0] && Glob(p[1..], t[1..])
  }

  /**
   * What the matcher decides: as `Glob`, except that a star that faces a
   * literal `*` byte stands for exactly that byte, because the byte test
   * comes before the star test.
   */
  ghost predicate LiteralStarGlob(p: string, t: string)
    decreases |p|, 0
  {
    if p == [] then t == []
    else if t != [] && p[0] == t[0] then LiteralStarGlob(p[1..], t[1..])
    else p[0] == '*' && SomeSuffix(p[1..], t)
  }

  /** Some suffix of `t` is matched by `p`. */
  ghost predicate SomeSuffix(p: string, t: string)
    decreases |p|, 1
  {
    exists k :: 0 <= k <= |t| && LiteralStarGlob(p, t[k..])
  }

  /** The number of bytes of `s` that are not `*`. */
  function Letters(s: string): nat {
    if s == [] then 0 else (if s[0] == '*' then 0 else 1) + Letters(s[1..])
  }

  lemma {:induction false} LettersAppend(a: string, b: string)
    ensures Letters(a + b) == Letters(a) + Letters(b)
  {
    if a == [] {
      assert a + b == b;
    } else {
      assert (a + b)[1..] == a[1..] + b;
      LettersAppend(a[1..], b);
    }
  }

  /** Matching `u + v` consumes at least the letters of `u` before it reaches `v`. */
  lemma {:induction false} PrefixConsumes(u: string, v: string, t: string) returns (j: nat)
    requires LiteralStarGlob(u + v, t)
    ensures j <= |t| && Letters(u) <= Letters(t[..j]) && LiteralStarGlob(v, t[j..])
    decreases |u|
  {
    if u == [] {
      assert u + v == v && t[0..] == t;
      return 0;
    }
    assert (u + v)[1..] == u[1..] + v;
    if t != [] && u[0] == t[0] {
      var i := PrefixConsumes(u[1..], v, t[1..]);
      j := i + 1;
      assert t[..j] == [t[0]] + t[1..][..i] && t[1..][i..] == t[j..];
      assert u == [u[0]] + u[1..];
      LettersAppend([t[0]], t[1..][..i]);
      LettersAppend([u[0]], u[1..]);
    } else {
      var k :| 0 <= k <= |t| && LiteralStarGlob(u[1..] + v, t[k..]);
      var i := PrefixConsumes(u[1..], v, t[k..]);
      j := k + i;
      assert t[..j] == t[..k] + t[k..][..i] && t[k..][i..] == t[j..];
      LettersAppend(t[..k], t[k..][..i]);
    }
  }

  /** A match of `*` + p at `t` leaves `p` matching some suffix of `t`. */
  lemma {:induction false} StarLeavesSuffix(p: string, t: string)
    requires p != [] && p[0] == '*' && LiteralStarGlob(p, t)
    ensures SomeSuffix(p[1..], t)
  {
    if t != [] && t[0] == '*' {
      assert LiteralStarGlob(p[1..], t[1..]);
    }
  }

  /** The window t[m + 1..ti] holds one letter less than t[m..ti], so it cannot cover its letters. */
  lemma {:induction false} WindowReaches(u: string, t: string, m: nat, ti: nat, k: nat, end: nat)
    requires m < k <= end <= |t| && m <= ti <= |t| && u == t[m..ti] && (u != "" ==> u[0] != '*')
    requires Letters(u) <= Letters(t[k..end])
    ensures ti <= end
  {
    if end < ti {
      assert |u| == ti - m > 0;
      assert u == [u[0]] + u[1..];
      assert t[m + 1..ti] == u[1..];
      LettersAppend([u[0]], u[1..]);
      assert t[k..ti] == t[k..end] + t[end..ti];
      assert t[m + 1..ti] == t[m + 1..k] + t[k..ti];
      LettersAppend(t[m + 1..k], t[k..ti]);
      LettersAppend(t[k..end], t[end..ti]);
    }
  }

  /**
   * The greedy commitment is complete: once the bytes between two stars have
   * matched at `m`, any later alignment of those bytes reaches the second star
   * no earlier, so whatever it leads to is still reachable from there.
   */
  lemma Commit(p: string, t: string, star: nat, m: nat, pi: nat, ti: nat, k: nat)
    requires star < pi < |p| && m <= ti <= |t| && p[pi] == '*'
    requires p[star + 1..pi] == t[m..ti]
    requires star + 1 < pi ==> p[star + 1] != '*'
    requires m < k <= |t| && LiteralStarGlob(p[star + 1..], t[k..])
    ensures exists q :: ti <= q <= |t| && LiteralStarGlob(p[pi + 1..], t[q..])
  {
    var u := p[star + 1..pi];
    assert p[star + 1..] == u + p[pi..];
    var j := PrefixConsumes(u, p[pi..], t[k..]);
    assert t[k..][j..] == t[k + j..] && p[pi..][1..] == p[pi + 1..];
    StarLeavesSuffix(p[pi..], t[k + j..]);
    var i :| 0 <= i <= |t[k + j..]| && LiteralStarGlob(p[pi + 1..], t[k + j..][i..]);
    assert t[k + j..][i..] == t[k + j + i..];
    assert t[k..][..j] == t[k..k + j];
    WindowReaches(u, t, m, ti, k, k + j);
  }

  /**
   * What the loop keeps: the bytes between the remembered star and `pi` are
   * the bytes of the text between `m` and `ti`, and start with a letter.
   */
  ghost predicate Aligned(p: string, t: string, pi: nat, ti: nat, star: Option<nat>, m: nat) {
    && pi <= |p| && m <= ti <= |t|
    && (star.Some? ==> star.value < pi && p[star.value + 1..pi] == t[m..ti])
    && (star.Some? && star.value + 1 < pi ==> p[star.value + 1] != '*')
    && (star.Some? && star.value + 1 == pi < |p| && p[pi] == '*' && ti < |t| ==> t[ti] != '*')
  }

  /** The answers still reachable from a loop state: go on, or retry the remembered star later. */
  ghost predicate Reachable(p: string, t: string, pi: nat, ti: nat, star: Option<nat>, m: nat)
    requires pi <= |p| && ti <= |t| && (star.Some? ==> star.value < |p|)
  {
    || LiteralStarGlob(p[pi..], t[ti..])
    || (star.Some? && RetryLater(p[star.value + 1..], t, m))
  }

  ghost predicate RetryLater(p: string, t: string, m: nat) {
    exists k :: m < k <= |t| && MatchesFrom(p, t, k)
  }

  ghost predicate MatchesFrom(p: string, t: string, k: nat)
    requires k <= |t|
  {
    LiteralStarGlob(p, t[k..])
  }

  /** The loop invariant: aligned, and the answer not yet decided. */
  ghost predicate Undecided(p: string, t: string, pi: nat, ti: nat, star: Option<nat>, m: nat, goal: bool) {
    Aligned(p, t, pi, ti, star, m) && Reachable(p, t, pi, ti, star, m) == goal
  }

  lemma StepEqual(p: string, t: string, pi: nat, ti: nat, star: Option<nat>, m: nat, goal: bool)
    requires Undecided(p, t, pi, ti, star, m, goal) && pi < |p| && ti < |t| && p[pi] == t[ti]
    ensures Undecided(p, t, pi + 1, ti + 1, star, m, goal)
  {
    assert p[pi..][1..] == p[pi + 1..] && t[ti..][1..] == t[ti + 1..];
    if star.Some? {
      assert p[star.value + 1..pi + 1] == p[star.value + 1..pi] + [p[pi]];
      assert t[m..ti + 1] == t[m..ti] + [t[ti]];
    }
  }

  lemma {:induction false} StarFacing(p: string, t: string)
    requires p != "" && t != "" && p[0] == '*' && t[0] != '*'
    ensures LiteralStarGlob(p, t) == SomeSuffix(p[1..], t)
  {
  }

  lemma {:induction false} NowOrLater(p: string, t: string, i: nat)
    requires i <= |t|
    ensures SomeSuffix(p, t[i..]) <==> LiteralStarGlob(p, t[i..]) || RetryLater(p, t, i)
  {
    if SomeSuffix(p, t[i..]) {
      var k :| 0 <= k <= |t[i..]| && LiteralStarGlob(p, t[i..][k..]);
      assert t[i..][k..] == t[i + k..];
      assert k == 0 || MatchesFrom(p, t, i + k);
    }
    if LiteralStarGlob(p, t[i..]) {
      assert t[i..][0..] == t[i..];
    } else if RetryLater(p, t, i) {
      var k :| i < k <= |t| && MatchesFrom(p, t, k);
      assert t[i..][k - i..] == t[k..];
    }
  }

  lemma CommitLater(p: string, t: string, star: nat, m: nat, pi: nat, ti: nat)
    requires star < pi < |p| && ti < |t| && Aligned(p, t, pi, ti, Some(star), m) && p[pi] == '*' && t[ti] != '*'
    requires RetryLater(p[star + 1..], t, m)
    ensures LiteralStarGlob(p[pi + 1..], t[ti..]) || RetryLater(p[pi + 1..], t, ti)
  {
    var k :| m < k <= |t| && MatchesFrom(p[star + 1..], t, k);
    Commit(p, t, star, m, pi, ti, k);
    var q :| ti <= q <= |t| && LiteralStarGlob(p[pi + 1..], t[q..]);
    assert q == ti || MatchesFrom(p[pi + 1..], t, q);
  }

  lemma StepStar(p: string, t: string, pi: nat, ti: nat, star: Option<nat>, m: nat, goal: bool)
    requires Undecided(p, t, pi, ti, star, m, goal) && pi < |p| && ti < |t| && p[pi] == '*' && t[ti] != '*'
    ensures Undecided(p, t, pi + 1, ti, Some(pi), ti, goal)
  {
    assert p[pi..][1..] == p[pi + 1..];
    StarFacing(p[pi..], t[ti..]);
    NowOrLater(p[pi + 1..], t, ti);
    if star.Some? && RetryLater(p[star.value + 1..], t, m) {
      CommitLater(p, t, star.value, m, pi, ti);
    }
    assert Aligned(p, t, pi + 1, ti, Some(pi), ti);
  }

  lemma {:induction false} NoMatchHere(p: string, t: string)
    requires t != "" && (p == "" || (p[0] != t[0] && p[0] != '*'))
    ensures !LiteralStarGlob(p, t)
  {
  }

  lemma {:induction false} RetryNext(p: string, t: string, m: nat)
    requires m < |t|
    ensures RetryLater(p, t, m) <==> LiteralStarGlob(p, t[m + 1..]) || RetryLater(p, t, m + 1)
  {
    if RetryLater(p, t, m) {
      var k :| m < k <= |t| && MatchesFrom(p, t, k);
      if k > m + 1 {
        assert m + 1 < k <= |t| && MatchesFrom(p, t, k);
      }
    } else {
      assert !MatchesFrom(p, t, m + 1);
      forall k | m + 1 < k <= |t| ensures !MatchesFrom(p, t, k) {
      }
    }
  }

  lemma StepStuck(p: string, t: string, pi: nat, ti: nat, star: Option<nat>, m: nat, goal: bool)
    requires Undecided(p, t, pi, ti, star, m, goal) && ti < |t|
    requires pi < |p| ==> p[pi] != t[ti] && p[pi] != '*'
    ensures star.None? ==> !goal
    ensures star.Some? ==> Undecided(p, t, star.value + 1, m + 1, star, m + 1, goal)
  {
    NoMatchHere(p[pi..], t[ti..]);
    if star.Some? {
      RetryNext(p[star.value + 1..], t, m);
      assert Aligned(p, t, star.value + 1, m + 1, star, m + 1);
    }
  }

  lemma {:induction false} OnlyStarsMatchEmpty(p: string)
    ensures LiteralStarGlob(p, []) <==> forall i :: 0 <= i < |p| ==> p[i] == '*'
  {
    if p != [] {
      OnlyStarsMatchEmpty(p[1..]);
      if LiteralStarGlob(p, []) {
        assert SomeSuffix(p[1..], []);
        assert p == [p[0]] + p[1..];
      }
      if forall i :: 0 <= i < |p| ==> p[i] == '*' {
        assert LiteralStarGlob(p[1..], [][0..]) && SomeSuffix(p[1..], []);
      }
    }
  }

  lemma NoRetryAtEnd(p: string, t: string, pi: nat, star: nat, m: nat)
    requires star < pi && Aligned(p, t, pi, |t|, Some(star), m)
    ensures !RetryLater(p[star + 1..], t, m)
  {
    if RetryLater(p[star + 1..], t, m) {
      var k :| m < k <= |t| && MatchesFrom(p[star + 1..], t, k);
      var u := p[star + 1..pi];
      assert p[star + 1..] == u + p[pi..];
      var j := PrefixConsumes(u, p[pi..], t[k..]);
      assert t[m..|t|] == t[m..k] + (t[k..][..j] + t[k..][j..]);
      LettersAppend(t[m..k], t[k..][..j] + t[k..][j..]);
      LettersAppend(t[k..][..j], t[k..][j..]);
      assert false;
    }
  }

  lemma TextExhausted(p: string, t: string, pi: nat, star: Option<nat>, m: nat, goal: bool)
    requires Undecided(p, t, pi, |t|, star, m, goal)
    ensures goal <==> forall i :: pi <= i < |p| ==> p[i] == '*'
  {
    assert t[|t|..] == [];
    OnlyStarsMatchEmpty(p[pi..]);
    assert forall i :: pi <= i < |p| ==> p[pi..][i - pi] == p[i];
    if star.Some? {
      NoRetryAtEnd(p, t, pi, star.value, m);
    }
  }

  /** The loop over trailing stars. */
  method SkipStars(p: string, from: nat) returns (pi: nat)
    requires from <= |p|
    ensures from <= pi <= |p| && (pi < |p| ==> p[pi] != '*')
    ensures forall i :: from <= i < pi ==> p[i] == '*'
  {
    pi := from;
    while pi < |p| && p[pi] == '*'
      invariant from <= pi <= |p|
      invariant forall i :: from <= i < pi ==> p[i] == '*'
    {
      pi := pi + 1;
    }
  }

  /** The state of the matching loop stays within both strings, with the star behind the pattern index. */
  predicate InBounds(p: string, t: string, pi: nat, ti: nat, star: Option<nat>, m: nat) {
    pi <= |p| && m <= ti <= |t| && (star.Some? ==> star.value < pi)
  }

  /** What the matching loop answers from a state. */
  ghost predicate Answer(p: string, t: string, pi: nat, ti: nat, star: Option<nat>, m: nat)
    requires InBounds(p, t, pi, ti, star, m)
    decreases if star.Some? then |p| - star.value else |p| + 1, |t| - m, |t| - ti
  {
    if ti == |t| then forall i :: pi <= i < |p| ==> p[i] == '*'
    else if pi < |p| && p[pi] == t[ti] then Answer(p, t, pi + 1, ti + 1, star, m)
    else if pi < |p| && p[pi] == '*' then Answer(p, t, pi + 1, ti, Some(pi), ti)
    else star.Some? && Answer(p, t, star.value + 1, m + 1, star, m + 1)
  }

  lemma {:induction false} AnswerIsGoal(p: string, t: string, pi: nat, ti: nat, star: Option<nat>, m: nat, goal: bool)
    requires Undecided(p, t, pi, ti, star, m, goal)
    ensures Answer(p, t, pi, ti, star, m) == goal
    decreases if star.Some? then |p| - star.value else |p| + 1, |t| - m, |t| - ti, 1
  {
    if ti == |t| {
      TextExhausted(p, t, pi, star, m, goal);
    } else if pi < |p| && p[pi] == t[ti] {
      AnswerAfterEqual(p, t, pi, ti, star, m, goal);
    } else if pi < |p| && p[pi] == '*' {
      AnswerAfterStar(p, t, pi, ti, star, m, goal);
    } else {
      AnswerWhenStuck(p, t, pi, ti, star, m, goal);
    }
  }

  lemma {:induction false} AnswerAfterEqual(p: string, t: string, pi: nat, ti: nat, star: Option<nat>, m: nat,
                                            goal: bool)
    requires Undecided(p, t, pi, ti, star, m, goal) && pi < |p| && ti < |t| && p[pi] == t[ti]
    ensures Answer(p, t, pi, ti, star, m) == goal
    decreases if star.Some? then |p| - star.value else |p| + 1, |t| - m, |t| - ti, 0
  {
    StepEqual(p, t, pi, ti, star, m, goal);
    AnswerIsGoal(p, t, pi + 1, ti + 1, star, m, goal);
  }

  lemma {:induction false} AnswerAfterStar(p: string, t: string, pi: nat, ti: nat, star: Option<nat>, m: nat,
                                           goal: bool)
    requires Undecided(p, t, pi, ti, star, m, goal) && pi < |p| && ti < |t| && p[pi] == '*' && t[ti] != '*'
    ensures Answer(p, t, pi, ti, star, m) == goal
    decreases if star.Some? then |p| - star.value else |p| + 1, |t| - m, |t| - ti, 0
  {
    StepStar(p, t, pi, ti, star, m, goal);
    AnswerIsGoal(p, t, pi + 1, ti, Some(pi), ti, goal);
  }

  lemma {:induction false} AnswerWhenStuck(p: string, t: string, pi: nat, ti: nat, star: Option<nat>, m: nat,
                                           goal: bool)
    requires Undecided(p, t, pi, ti, star, m, goal) && ti < |t|
    requires pi < |p| ==> p[pi] != t[ti] && p[pi] != '*'
    ensures Answer(p, t, pi, ti, star, m) == goal
    decreases if star.Some? then |p| - star.value else |p| + 1, |t| - m, |t| - ti, 0
  {
    StepStuck(p, t, pi, ti, star, m, goal);
    if star.Some? {
      AnswerIsGoal(p, t, star.value + 1, m + 1, star, m + 1, goal);
    }
  }

  lemma {:induction false} AnswerFromStart(p: string, t: string)
    ensures Answer(p, t, 0, 0, None, 0) == LiteralStarGlob(p, t)
  {
    assert p[0..] == p && t[0..] == t;
    AnswerIsGoal(p, t, 0, 0, None, 0, LiteralStarGlob(p, t));
  }

  /** The matching loop on folded bytes. */
  method MatchBytes(p: string, t: string) returns (matched: bool)
    ensures matched == LiteralStarGlob(p, t)
  {
    var pi: nat, ti: nat, m: nat := 0, 0, 0;
    var star: Option<nat> := None;
    AnswerFromStart(p, t);
    while ti < |t|
      invariant InBounds(p, t, pi, ti, star, m)
      invariant Answer(p, t, pi, ti, star, m) == LiteralStarGlob(p, t)
      decreases if star.Some? then |p| - star.value else |p| + 1, |t| - m, |t| - ti
    {
      if pi < |p| && p[pi] == t[ti] {
        pi := pi + 1;
        ti := ti + 1;
      } else if pi < |p| && p[pi] == '*' {
        star := Some(pi);
        m := ti;
        pi := pi + 1;
      } else if star.Some? {
        pi := star.value + 1;
        m := m + 1;
        ti := m;
      } else {
        return false;
      }
    }
    pi := SkipStars(p, pi);
    return pi == |p|;
  }

  // ---------- letter case ----------

  /** `LiteralStarGlob` up to letter case, on the texts as they are. */
  ghost predicate CaselessMatch(p: string, t: string)
    decreases |p|, 0
  {
    if p == [] then t == []
    else if t != [] && SameByte(p[0], t[0]) then CaselessMatch(p[1..], t[1..])
    else p[0] == '*' && SomeCaseless(p[1..], t)
  }

  ghost predicate SomeCaseless(p: string, t: string)
    decreases |p|, 1
  {
    exists k :: 0 <= k <= |t| && CaselessMatch(p, t[k..])
  }

  /** A glob up to letter case. */
  ghost predicate CaselessGlob(p: string, t: string)
    decreases |p|
  {
    if p == [] then t == []
    else if p[0] == '*' then exists k :: 0 <= k <= |t| && CaselessGlob(p[1..], t[k..])
    else t != [] && SameByte(p[0], t[0]) && CaselessGlob(p[1..], t[1..])
  }

  lemma FoldedAlike(a: char, b: char)
    ensures LowerChar(a) == LowerChar(b) <==> SameByte(a, b)
    ensures LowerChar(a) == '*' <==> a == '*'
  {
    SameByteAre(a, b);
  }

  lemma {:induction false} LowerFrom(s: string, k: nat)
    requires k <= |s|
    ensures Lower(s)[k..] == Lower(s[k..])
  {
    if k > 0 {
      LowerFrom(s[1..], k - 1);
      assert Lower(s)[1..] == Lower(s[1..]) && s[1..][k - 1..] == s[k..];
    }
  }

  /** Folding both sides decides equality up to letter case. */
  lemma {:induction false} MatchOfFolded(p: string, t: string)
    ensures CaselessMatch(p, t) == LiteralStarGlob(Lower(p), Lower(t))
    decreases |p|
  {
    if p != [] {
      assert Lower(p)[0] == LowerChar(p[0]) && Lower(p)[1..] == Lower(p[1..]);
      FoldedAlike(p[0], '*');
      if t != [] {
        FoldedAlike(p[0], t[0]);
        assert Lower(t)[0] == LowerChar(t[0]) && Lower(t)[1..] == Lower(t[1..]);
        MatchOfFolded(p[1..], t[1..]);
      }
      forall k | 0 <= k <= |t| ensures CaselessMatch(p[1..], t[k..]) == LiteralStarGlob(Lower(p[1..]), Lower(t)[k..]) {
        LowerFrom(t, k);
        MatchOfFolded(p[1..], t[k..]);
      }
    }
  }

  lemma {:induction false} GlobOfFolded(p: string, t: string)
    ensures CaselessGlob(p, t) == Glob(Lower(p), Lower(t))
    decreases |p|
  {
    if p != [] {
      assert Lower(p)[0] == LowerChar(p[0]) && Lower(p)[1..] == Lower(p[1..]);
      FoldedAlike(p[0], '*');
      if t != [] {
        FoldedAlike(p[0], t[0]);
        assert Lower(t)[0] == LowerChar(t[0]) && Lower(t)[1..] == Lower(t[1..]);
        GlobOfFolded(p[1..], t[1..]);
      }
      forall k | 0 <= k <= |t| ensures CaselessGlob(p[1..], t[k..]) == Glob(Lower(p[1..]), Lower(t)[k..]) {
        LowerFrom(t, k);
        GlobOfFolded(p[1..], t[k..]);
      }
    }
  }

  /** The matcher, with its exact meaning on every pair of strings. */
  method WildcardMatch(pattern: string, text: string) returns (matched: bool)
    ensures matched == CaselessMatch(pattern, text)
  {
    MatchOfFolded(pattern, text);
    matched := MatchBytes(Lower(pattern), Lower(text));
  }

  lemma {:induction false} SameTextFolded(s: string, t: string)
    ensures SameText(s, t) <==> Lower(s) == Lower(t)
  {
    if s != [] && t != [] {
      SameTextFolded(s[1..], t[1..]);
      FoldedAlike(s[0], t[0]);
      assert s == [s[0]] + s[1..] && t == [t[0]] + t[1..];
      assert Lower(s)[1..] == Lower(s[1..]) && Lower(t)[1..] == Lower(t[1..]);
      if SameText(s, t) {
        forall i | 0 <= i < |s[1..]| ensures SameByte(s[1..][i], t[1..][i]) {
          assert SameByte(s[i + 1], t[i + 1]);
        }
      }
    }
  }

  /** The case of a letter, in pattern or text, never changes an answer. */
  lemma {:induction false} CaseNeverMatters(p: string, q: string, t: string, u: string)
    requires SameText(p, q) && SameText(t, u)
    ensures CaselessMatch(p, t) == CaselessMatch(q, u) && CaselessGlob(p, t) == CaselessGlob(q, u)
  {
    SameTextFolded(p, q);
    SameTextFolded(t, u);
    MatchOfFolded(p, t);
    MatchOfFolded(q, u);
    GlobOfFolded(p, t);
    GlobOfFolded(q, u);
  }

  /** Without a star a pattern matches its own spellings and nothing else: no other bytes are identified. */
  lemma {:induction false} OnlyCaseIsIgnored(p: string, t: string)
    requires '*' !in p
    ensures CaselessMatch(p, t) <==> SameText(p, t)
  {
    if p != [] && t != [] {
      OnlyCaseIsIgnored(p[1..], t[1..]);
      assert p == [p[0]] + p[1..] && t == [t[0]] + t[1..];
      if SameText(p, t) {
        forall i | 0 <= i < |p[1..]| ensures SameByte(p[1..][i], t[1..][i]) {
          assert SameByte(p[i + 1], t[i + 1]);
        }
      }
    }
  }

  /** A capital pattern finds a name in small letters. */
  lemma CapitalPatternMatches()
    ensures CaselessMatch("WARN*", "warn123.txt")
  {
    var p, t := "WARN", "warn";
    assert SameText(p, t) by {
      forall i | 0 <= i < 4 ensures SameByte(p[i], t[i]) {
        SameByteAre(p[i], t[i]);
      }
    }
    SameTextFolded(p, t);
    var rest := "123.txt";
    assert "WARN*" == p + "*" && "warn123.txt" == t + rest;
    LowerJoin(p, "*");
    LowerJoin(t, rest);
    StarOfLower(rest);
    CommonPrefix(Lower(p), Lower("*"), Lower(rest));
    MatchOfFolded("WARN*", "warn123.txt");
  }

  lemma {:induction false} LowerJoin(s: string, t: string)
    ensures Lower(s + t) == Lower(s) + Lower(t)
  {
    if s == [] {
      assert s + t == t;
    } else {
      assert (s + t)[1..] == s[1..] + t;
      LowerJoin(s[1..], t);
    }
  }

  /** A star alone matches what does not begin with one. */
  lemma {:induction false} StarOfLower(t: string)
    requires t != "" && t[0] != '*'
    ensures LiteralStarGlob(Lower("*"), Lower(t))
  {
    FoldedAlike(t[0], '*');
    assert Lower(t)[0] == LowerChar(t[0]);
    assert Lower("*") == "*" by {
      assert "*"[1..] == "";
    }
    assert "*"[1..] == "" && Lower(t)[|t|..] == "" && LiteralStarGlob("", Lower(t)[|t|..]);
  }

  // ---------- what the matcher is worth as a glob matcher ----------

  /** A match is always a glob match. */
  lemma {:induction false} MatchIsGlob(p: string, t: string)
    requires LiteralStarGlob(p, t)
    ensures Glob(p, t)
    decreases |p|
  {
    if p == [] {
    } else if t != [] && p[0] == t[0] {
      MatchIsGlob(p[1..], t[1..]);
      assert p[0] == '*' ==> Glob(p[1..], t[1..]);
    } else {
      assert SomeSuffix(p[1..], t);
      var k :| 0 <= k <= |t| && LiteralStarGlob(p[1..], t[k..]);
      MatchIsGlob(p[1..], t[k..]);
    }
  }

  /** A pattern that matches the one-byte text `*` matches the empty text too. */
  lemma {:induction false} GlobOfOneStar(p: string)
    requires Glob(p, "*")
    ensures Glob(p, "")
    decreases |p|
  {
    var k :| 0 <= k <= 1 && Glob(p[1..], "*"[k..]);
    assert "*"[0..] == "*" && "*"[1..] == "" && ""[0..] == "";
    if k == 0 {
      GlobOfOneStar(p[1..]);
    }
  }

  /** Byte `*` occurs in `t` at most as its last byte. */
  ghost predicate StarOnlyLast(t: string) {
    forall i :: 0 <= i < |t| - 1 ==> t[i] != '*'
  }

  /** On such a text every glob match is found. */
  lemma {:induction false} GlobIsMatch(p: string, t: string)
    requires StarOnlyLast(t) && Glob(p, t)
    ensures LiteralStarGlob(p, t)
    decreases |p|
  {
    if p == [] {
    } else if p[0] == '*' {
      var k :| 0 <= k <= |t| && Glob(p[1..], t[k..]);
      if t != [] && t[0] == '*' {
        assert t == "*";
        if k == 0 {
          assert t[0..] == "*";
          GlobOfOneStar(p[1..]);
        }
        assert t[1..] == "";
        GlobIsMatch(p[1..], "");
      } else {
        GlobIsMatch(p[1..], t[k..]);
        assert SomeSuffix(p[1..], t);
      }
    } else {
      GlobIsMatch(p[1..], t[1..]);
    }
  }

  /** The bytes before an early `*` of the text, followed by `*`, are a glob match that is missed. */
  lemma {:induction false} EarlyStarIsMissed(t: string, i: nat)
    requires i < |t| - 1 && t[i] == '*' && forall j :: 0 <= j < i ==> t[j] != '*'
    ensures Glob(t[..i] + "*", t) && !LiteralStarGlob(t[..i] + "*", t)
    decreases i
  {
    var p := t[..i] + "*";
    if i == 0 {
      assert p == "*" && p[1..] == "";
      assert t[|t|..] == "";
      assert Glob(p[1..], t[|t|..]);
    } else {
      EarlyStarIsMissed(t[1..], i - 1);
      assert t[1..][..i - 1] == t[..i][1..];
      assert p[1..] == t[1..][..i - 1] + "*";
    }
  }

  lemma {:induction false} LowerAt(s: string, i: nat)
    requires i < |s|
    ensures Lower(s)[i] == LowerChar(s[i])
  {
    if i > 0 {
      LowerAt(s[1..], i - 1);
    }
  }

  lemma {:induction false} LowerTakeStar(s: string, i: nat)
    requires i <= |s|
    ensures Lower(s[..i] + "*") == Lower(s)[..i] + "*"
  {
    var a := s[..i] + "*";
    forall j | 0 <= j < |a| ensures Lower(a)[j] == (Lower(s)[..i] + "*")[j] {
      LowerAt(a, j);
      if j < i {
        LowerAt(s, j);
      }
    }
  }

  /** The matcher answers as a glob matcher up to letter case would. */
  ghost predicate ReadAsGlob(pattern: string, text: string) {
    CaselessMatch(pattern, text) == CaselessGlob(pattern, text)
  }

  lemma {:induction false} ReadFolded(pattern: string, text: string)
    ensures ReadAsGlob(pattern, text)
       <==> LiteralStarGlob(Lower(pattern), Lower(text)) == Glob(Lower(pattern), Lower(text))
  {
    MatchOfFolded(pattern, text);
    GlobOfFolded(pattern, text);
  }

  /**
   * The matcher is a glob matcher for a text under every pattern exactly when
   * the text has no `*` before its last byte.
   */
  lemma CorrectForAllPatternsIff(text: string)
    ensures (forall pattern: string :: ReadAsGlob(pattern, text)) <==> StarOnlyLast(text)
  {
    var t := Lower(text);
    forall i | 0 <= i < |t| ensures t[i] == '*' <==> text[i] == '*' {
      LowerAt(text, i);
    }
    if StarOnlyLast(text) {
      forall pattern: string ensures ReadAsGlob(pattern, text) {
        ReadFolded(pattern, text);
        if LiteralStarGlob(Lower(pattern), t) {
          MatchIsGlob(Lower(pattern), t);
        }
        if Glob(Lower(pattern), t) {
          GlobIsMatch(Lower(pattern), t);
        }
      }
    } else {
      var i: nat := 0;
      while text[i] != '*'
        invariant i < |text| - 1 && forall j :: 0 <= j < i ==> text[j] != '*'
        decreases |text| - i
      {
        i := i + 1;
      }
      EarlyStarIsMissed(t, i);
      LowerTakeStar(text, i);
      ReadFolded(text[..i] + "*", text);
      assert !ReadAsGlob(text[..i] + "*", text);
    }
  }

  // ---------- the dual: one pattern, every text ----------

  lemma {:induction false} LowerAgain(s: string)
    ensures Lower(Lower(s)) == Lower(s)
  {
    if s != [] {
      LowerAgain(s[1..]);
    }
  }

  /** A pattern without a star matches itself only, in both readings. */
  lemma {:induction false} StarlessAgrees(p: string, t: string)
    requires '*' !in p
    ensures LiteralStarGlob(p, t) == Glob(p, t)
    decreases |p|
  {
    if p != [] && t != [] {
      StarlessAgrees(p[1..], t[1..]);
    }
  }

  /** The matcher consumes a common prefix byte by byte, stars included. */
  lemma {:induction false} CommonPrefix(u: string, p: string, t: string)
    ensures LiteralStarGlob(u + p, u + t) == LiteralStarGlob(p, t)
  {
    if u == [] {
      assert u + p == p && u + t == t;
    } else {
      assert (u + p)[1..] == u[1..] + p && (u + t)[1..] == u[1..] + t;
      CommonPrefix(u[1..], p, t);
    }
  }

  /** A glob match goes on matching behind a common prefix. */
  lemma {:induction false} GlobBehind(u: string, p: string, t: string)
    requires Glob(p, t)
    ensures Glob(u + p, u + t)
  {
    if u == [] {
      assert u + p == p && u + t == t;
    } else {
      assert (u + p)[1..] == u[1..] + p && (u + t)[1..] == u[1..] + t;
      GlobBehind(u[1..], p, t);
    }
  }

  /** A letter put behind a star run of the pattern itself makes a glob match that is missed. */
  lemma {:induction false} LetterAfterStarIsMissed(p: string, b: nat, x: char)
    requires 0 < b <= |p| && p[b - 1] == '*' && x != '*' && (b < |p| ==> p[b] != '*' && p[b] != x)
    ensures Glob(p, p[..b] + ([x] + p[b..])) && !LiteralStarGlob(p, p[..b] + ([x] + p[b..]))
  {
    var u, rest := p[..b - 1], p[b..];
    var t := "*" + [x] + rest;
    assert p == u + ("*" + rest) && p[..b] + ([x] + rest) == u + t;
    GlobBehind(rest, [], []);
    assert rest + [] == rest;
    assert ("*" + rest)[1..] == rest && t[2..] == rest;
    assert Glob("*" + rest, t);
    GlobBehind(u, "*" + rest, t);
    assert p == p[..b] + rest;
    CommonPrefix(p[..b], rest, [x] + rest);
  }

  /**
   * The matcher is a glob matcher for a pattern on every text exactly when the
   * pattern has no `*`: every pattern that needs a glob matcher is failed by some text.
   */
  lemma CorrectForAllTextsIff(pattern: string)
    ensures (forall text: string :: ReadAsGlob(pattern, text)) <==> '*' !in pattern
  {
    var p := Lower(pattern);
    forall i | 0 <= i < |p| ensures p[i] == '*' <==> pattern[i] == '*' {
      LowerAt(pattern, i);
    }
    if '*' !in pattern {
      forall text: string ensures ReadAsGlob(pattern, text) {
        ReadFolded(pattern, text);
        StarlessAgrees(p, Lower(text));
      }
    } else {
      var i :| 0 <= i < |pattern| && pattern[i] == '*';
      var b: nat := i + 1;
      while b < |p| && p[b] == '*'
        invariant 0 < b <= |p| && p[b - 1] == '*'
      {
        b := b + 1;
      }
      var x := if b < |p| && p[b] == 'a' then 'b' else 'a';
      LetterAfterStarIsMissed(p, b, x);
      var text := p[..b] + ([x] + p[b..]);
      LowerMissed(pattern, b, x);
      ReadFolded(pattern, text);
      assert !ReadAsGlob(pattern, text);
    }
  }

  /** That text is its own folding. */
  lemma {:induction false} LowerMissed(pattern: string, b: nat, x: char)
    requires b <= |pattern| && LowerChar(x) == x
    ensures var text := Lower(pattern)[..b] + ([x] + Lower(pattern)[b..]); Lower(text) == text
  {
    var p := Lower(pattern);
    var text := p[..b] + ([x] + p[b..]);
    LowerAgain(pattern);
    forall j | 0 <= j < |text| ensures Lower(text)[j] == text[j] {
      LowerAt(text, j);
      if j < b {
        LowerAt(p, j);
      } else if j > b {
        LowerAt(p, j - 1);
      }
    }
  }
}
