/**
 * What the store of retained files shows, said of the insertions alone: which
 * file under which name, how long, and how many others may come behind it.
 */
module RetainedHistory {
  import opened Prelude
  import opened RetainedFiles

  function InsertedName(op: Op): set<string> {
    if op.InsertOp? then {op.entry.name} else {}
  }

  /** The names inserted from operation `i` on. */
  ghost function NamesFrom(ops: seq<Op>, i: nat): set<string>
    decreases if i < |ops| then |ops| - i else 0
  {
    if i >= |ops| then {}
    else NamesFrom(ops, i + 1) + InsertedName(ops[i])
  }

  function NameSet(c: seq<Entry>): set<string> {
    if c == [] then {} else NameSet(c[..|c| - 1]) + {c[|c| - 1].name}
  }

  lemma {:induction false} NameSetIs(c: seq<Entry>, n: string)
    ensures n in NameSet(c) <==> exists i :: 0 <= i < |c| && c[i].name == n
  {
    if c != [] {
      NameSetIs(c[..|c| - 1], n);
    }
  }

  lemma {:induction false} NameSetSize(c: seq<Entry>)
    requires DistinctNames(c)
    ensures |NameSet(c)| == |c|
  {
    if c != [] {
      NameSetSize(c[..|c| - 1]);
      NameSetIs(c[..|c| - 1], c[|c| - 1].name);
    }
  }

  /** Operation `i` is the last insertion of its name. */
  ghost predicate LastInsertion(ops: seq<Op>, i: nat) {
    i < |ops| && ops[i].InsertOp? && ops[i].entry.name !in NamesFrom(ops, i + 1)
  }

  lemma {:induction false} NamesPush(ops: seq<Op>, op: Op, i: nat)
    requires i <= |ops|
    ensures NamesFrom(ops + [op], i) == NamesFrom(ops, i) + InsertedName(op)
    decreases |ops| - i
  {
    var all := ops + [op];
    if i < |ops| {
      NamesPush(ops, op, i + 1);
      assert all[i] == ops[i];
    } else {
      assert all[i] == op && NamesFrom(all, i + 1) == {};
    }
  }

  lemma {:induction false} NamesWithout(c: seq<Entry>, name: string)
    requires DistinctNames(c)
    ensures NameSet(Without(c, name)) == NameSet(c) - {name}
  {
    forall n ensures n in NameSet(Without(c, name)) <==> n in NameSet(c) - {name} {
      NameSetIs(c, n);
      NameSetIs(Without(c, name), n);
      if n in NameSet(Without(c, name)) {
        var i :| 0 <= i < |Without(c, name)| && Without(c, name)[i].name == n;
        var j := WithoutMember(c, name, i);
      }
      if n in NameSet(c) - {name} {
        var i :| 0 <= i < |c| && c[i].name == n;
        WithoutKeeps(c, name, i);
      }
    }
  }

  /** Entries of other names stay, with what stands behind them. */
  lemma {:induction false} WithoutKeeps(c: seq<Entry>, name: string, i: nat)
    requires i < |c| && c[i].name != name
    ensures var p := |Without(c[..i], name)|;
      p < |Without(c, name)| && Without(c, name)[p] == c[i] && Without(c, name)[p + 1..] == Without(c[i + 1..], name)
  {
    var a, x, b := c[..i], [c[i]], c[i + 1..];
    assert c == a + (x + b);
    WithoutAppend(a, x + b, name);
    WithoutAppend(x, b, name);
    assert x[..0] == [] && Without(x, name) == [] + x == x;
    assert Without(c, name) == Without(a, name) + (x + Without(b, name));
  }

  lemma DistinctTail(c: seq<Entry>, i: nat)
    requires DistinctNames(c) && i <= |c|
    ensures DistinctNames(c[i..])
  {
  }

  lemma {:induction false} NameSetPush(c: seq<Entry>, e: Entry)
    ensures NameSet(c + [e]) == NameSet(c) + {e.name}
  {
    assert (c + [e])[..|c|] == c;
  }

  /** The entry at `p` is that of operation `i`, and exactly the names inserted later stand behind it. */
  ghost predicate StandsAt(ops: seq<Op>, i: nat, p: nat) {
    && i < |ops| && ops[i].InsertOp? && p < |Latest(ops)| && Latest(ops)[p] == ops[i].entry
    && NameSet(Latest(ops)[p + 1..]) == NamesFrom(ops, i + 1)
  }

  lemma {:induction false} NewestStands(init: seq<Op>, op: Op)
    requires op.InsertOp?
    ensures StandsAt(init + [op], |init|, |Latest(init + [op])| - 1)
  {
    var ops := init + [op];
    assert ops[..|init|] == init && ops[|init|] == op;
    var p := |Latest(ops)| - 1;
    assert Latest(ops)[p + 1..] == [] && NamesFrom(ops, |init| + 1) == {};
  }

  lemma {:induction false} LatestPush(init: seq<Op>, op: Op)
    ensures Latest(init + [op]) == if op.InsertOp?
        then Without(Latest(init), op.entry.name) + [op.entry] else Latest(init)
  {
    assert (init + [op])[..|init|] == init;
  }

  lemma StandsOn(init: seq<Op>, op: Op, i: nat, q: nat) returns (p: nat)
    requires StandsAt(init, i, q) && (op.InsertOp? ==> op.entry.name != init[i].entry.name)
    ensures StandsAt(init + [op], i, p)
  {
    LatestPush(init, op);
    NamesPush(init, op, i + 1);
    if op.InsertOp? {
      p := PlaceAfter(init, q, op.entry);
    } else {
      p := q;
      assert NamesFrom(init, i + 1) + {} == NamesFrom(init, i + 1);
    }
    StandsBy(init, op, i, p);
  }

  lemma {:induction false} StandsBy(init: seq<Op>, op: Op, i: nat, p: nat)
    requires i < |init| && init[i].InsertOp?
    requires var ops := init + [op];
      p < |Latest(ops)| && Latest(ops)[p] == init[i].entry && NameSet(Latest(ops)[p + 1..]) == NamesFrom(ops, i + 1)
    ensures StandsAt(init + [op], i, p)
  {
    assert (init + [op])[i] == init[i];
  }

  /** The place of a last insertion among the latest entries. */
  lemma {:induction false} PlaceOf(ops: seq<Op>, i: nat) returns (p: nat)
    requires LastInsertion(ops, i)
    ensures StandsAt(ops, i, p)
    decreases |ops|
  {
    var n := |ops| - 1;
    assert ops == ops[..n] + [ops[n]];
    if i == n {
      NewestStands(ops[..n], ops[n]);
      p := |Latest(ops)| - 1;
    } else {
      NamesPush(ops[..n], ops[n], i + 1);
      var q := PlaceOf(ops[..n], i);
      p := StandsOn(ops[..n], ops[n], i, q);
    }
  }

  lemma PlaceAfter(init: seq<Op>, q: nat, e: Entry) returns (p: nat)
    requires q < |Latest(init)| && Latest(init)[q].name != e.name
    ensures var now := Without(Latest(init), e.name) + [e];
      && p < |now| && now[p] == Latest(init)[q]
      && NameSet(now[p + 1..]) == NameSet(Latest(init)[q + 1..]) + {e.name}
  {
    LatestDistinct(init, |init|);
    assert init[..|init|] == init;
    p := |Without(Latest(init)[..q], e.name)|;
    PlaceBehind(Latest(init), q, e);
  }

  lemma {:induction false} PlaceBehind(was: seq<Entry>, q: nat, e: Entry)
    requires DistinctNames(was) && q < |was| && was[q].name != e.name
    ensures var p, now := |Without(was[..q], e.name)|, Without(was, e.name) + [e];
      p < |now| - 1 && now[p] == was[q] && NameSet(now[p + 1..]) == NameSet(was[q + 1..]) + {e.name}
  {
    WithoutKeeps(was, e.name, q);
    var p, kept, rest := |Without(was[..q], e.name)|, Without(was, e.name), was[q + 1..];
    TailOfPush(kept, e, p + 1);
    DistinctTail(was, q + 1);
    NamesBehind(rest, e);
  }

  lemma TailOfPush(kept: seq<Entry>, e: Entry, i: nat)
    requires i <= |kept|
    ensures (kept + [e])[i..] == kept[i..] + [e]
  {
  }

  lemma {:induction false} NamesBehind(rest: seq<Entry>, e: Entry)
    requires DistinctNames(rest)
    ensures NameSet(Without(rest, e.name) + [e]) == NameSet(rest) + {e.name}
  {
    NameSetPush(Without(rest, e.name), e);
    NamesWithout(rest, e.name);
  }

  /** Every latest entry is some last insertion. */
  lemma {:induction false} InsertionOf(ops: seq<Op>, p: nat) returns (i: nat)
    requires p < |Latest(ops)|
    ensures LastInsertion(ops, i) && ops[i].entry == Latest(ops)[p]
    decreases |ops|
  {
    var n := |ops| - 1;
    var init, op := ops[..n], ops[n];
    assert ops == init + [op];
    if op.InsertOp? && p == |Latest(ops)| - 1 {
      i := n;
    } else if op.InsertOp? {
      var q := WithoutMember(Latest(init), op.entry.name, p);
      i := InsertionOf(init, q);
      NamesPush(init, op, i + 1);
    } else {
      i := InsertionOf(init, p);
      NamesPush(init, op, i + 1);
    }
  }

  /** The entry of operation `i` is shown at `now`. */
  ghost predicate Shown(ops: seq<Op>, i: nat, now: int, ttl: nat, max: nat) {
    && LastInsertion(ops, i)
    && |NamesFrom(ops, i + 1)| < max
    && now - ops[i].entry.file.completedAt <= ttl
  }

  lemma {:induction false} LiveMember(c: seq<Entry>, now: int, ttl: nat, e: Entry)
    ensures e in Live(c, now, ttl) <==> e in c && now - e.file.completedAt <= ttl
  {
    if c != [] {
      var n := |c| - 1;
      LiveMember(c[..n], now, ttl, e);
      assert c == c[..n] + [c[n]];
    }
  }

  /** How many latest entries stand behind a last insertion. */
  lemma Behind(ops: seq<Op>, i: nat) returns (p: nat)
    requires LastInsertion(ops, i)
    ensures p < |Latest(ops)| && Latest(ops)[p] == ops[i].entry
    ensures |NamesFrom(ops, i + 1)| == |Latest(ops)| - 1 - p
  {
    p := PlaceOf(ops, i);
    LatestDistinct(ops, |ops|);
    assert ops[..|ops|] == ops;
    DistinctTail(Latest(ops), p + 1);
    NameSetSize(Latest(ops)[p + 1..]);
  }

  /** The last `max` of the latest entries, said of insertions. */
  lemma {:induction false} LastIff(ops: seq<Op>, max: nat, e: Entry)
    ensures e in LastN(Latest(ops), max) <==>
      exists i: nat :: LastInsertion(ops, i) && |NamesFrom(ops, i + 1)| < max && ops[i].entry == e
  {
    if e in LastN(Latest(ops), max) {
      var p := PlaceInLast(Latest(ops), max, e);
      var i := InsertionOf(ops, p);
      var q := Behind(ops, i);
      LatestDistinct(ops, |ops|);
      assert ops[..|ops|] == ops;
      BehindCount(Latest(ops), p, q);
    }
    if i: nat :| LastInsertion(ops, i) && |NamesFrom(ops, i + 1)| < max && ops[i].entry == e {
      var p := Behind(ops, i);
      InLast(Latest(ops), max, p);
    }
  }

  /**
   * What an observation shows: an entry exactly when it is the last insertion of
   * its name, fewer than `max` other names were inserted since, and it was
   * completed no longer than the time to live ago.
   */
  lemma {:induction false} ShownIff(ops: seq<Op>, now: int, ttl: nat, max: nat, e: Entry)
    requires 1 <= max && Chronological(ops) && (ops != [] ==> ops[|ops| - 1].now <= now)
    ensures e in Live(After(ops, ttl, max), now, ttl)
       <==> exists i: nat :: Shown(ops, i, now, ttl, max) && ops[i].entry == e
  {
    ObservationIsHistory(ops, now, ttl, max);
    LiveMember(LastN(Latest(ops), max), now, ttl, e);
    LastIff(ops, max, e);
    if e in LastN(Latest(ops), max) && now - e.file.completedAt <= ttl {
      var i: nat :| LastInsertion(ops, i) && |NamesFrom(ops, i + 1)| < max && ops[i].entry == e;
      assert Shown(ops, i, now, ttl, max);
    }
  }

  lemma PlaceInLast(all: seq<Entry>, max: nat, e: Entry) returns (p: nat)
    requires e in LastN(all, max)
    ensures p < |all| && all[p] == e && |all| - 1 - p < max
  {
    var last := LastN(all, max);
    var k :| 0 <= k < |last| && last[k] == e;
    p := |all| - |last| + k;
  }

  lemma InLast(all: seq<Entry>, max: nat, p: nat)
    requires p < |all| && |all| - 1 - p < max
    ensures all[p] in LastN(all, max)
  {
    var last := LastN(all, max);
    assert last[p - (|all| - |last|)] == all[p];
  }

  lemma BehindCount(all: seq<Entry>, p: nat, q: nat)
    requires DistinctNames(all) && p < |all| && q < |all| && all[p] == all[q]
    ensures p == q
  {
  }
}
