/**
 * The in-memory store of completed files: a map for lookup and a queue of
 * names for age order, bounded by a time to live and by a number of entries.
 * Instants and ages are whole ticks of one clock.
 */
module RetainedFiles {
  import opened Prelude

  datatype File = File(data: string, completedAt: int, metadata: string)

  datatype Entry = Entry(name: string, file: File)

  function Age(now: int, completedAt: int): nat {
    if now >= completedAt then now - completedAt else 0
  }

  predicate IsLive(e: Entry, now: int, ttl: nat) {
    Age(now, e.file.completedAt) <= ttl
  }

  // ---------- the list a store stands for, oldest insertion first ----------

  function Live(c: seq<Entry>, now: int, ttl: nat): seq<Entry> {
    if c == [] then []
    else (
      var last := c[|c| - 1];
      Live(c[..|c| - 1], now, ttl) + (if IsLive(last, now, ttl) then [last] else [])
    )
  }

  function Without(c: seq<Entry>, name: string): seq<Entry> {
    if c == [] then []
    else (
      var last := c[|c| - 1];
      Without(c[..|c| - 1], name) + (if last.name != name then [last] else [])
    )
  }

  function LastN<T>(c: seq<T>, n: nat): seq<T> {
    if |c| <= n then c else c[|c| - n..]
  }

  /** The store after an insertion: drop what expired, move the name to the back, keep the newest. */
  function Inserted(c: seq<Entry>, e: Entry, now: int, ttl: nat, max: nat): seq<Entry> {
    LastN(Without(Live(c, now, ttl), e.name) + [e], max)
  }

  ghost predicate Distinct<T>(s: seq<T>) {
    forall i, j :: 0 <= i < j < |s| ==> s[i] != s[j]
  }

  ghost predicate Known(order: seq<string>, byName: map<string, File>) {
    forall i :: 0 <= i < |order| ==> order[i] in byName
  }

  ghost function Entries(order: seq<string>, byName: map<string, File>): seq<Entry>
    requires Known(order, byName)
  {
    seq(|order|, i requires 0 <= i < |order| => Entry(order[i], byName[order[i]]))
  }

  /** A queue without duplicates that names exactly the keys of the map. */
  ghost predicate Agree(order: seq<string>, byName: map<string, File>) {
    && Distinct(order)
    && Known(order, byName)
    && forall n :: n in byName ==> n in order
  }

  lemma EntriesPush(order: seq<string>, byName: map<string, File>, name: string)
    requires Known(order, byName) && name in byName
    ensures Known(order + [name], byName)
    ensures Entries(order + [name], byName) == Entries(order, byName) + [Entry(name, byName[name])]
  {
  }

  lemma TakePush<T>(c: seq<T>, i: nat)
    requires i < |c|
    ensures c[..i + 1][..i] == c[..i] && c[..i + 1][i] == c[i]
  {
  }

  /** Eviction has decided the first `i` names; the rest are still queued. */
  ghost predicate Evicting(names: seq<string>, was: map<string, File>, kept: seq<string>, m: map<string, File>,
                           i: nat, now: int, ttl: nat) {
    && i <= |names| && |kept| <= i
    && Agree(names, was) && Known(kept, was)
    && Distinct(kept) && (forall n :: n in kept ==> n in names[..i])
    && m == was - (set n | n in names[..i] && n !in kept)
    && Entries(kept, was) == Live(Entries(names, was)[..i], now, ttl)
  }

  lemma EvictStep(names: seq<string>, was: map<string, File>, kept: seq<string>, m: map<string, File>,
                  i: nat, now: int, ttl: nat)
    requires i < |names| && Evicting(names, was, kept, m, i, now, ttl)
    ensures names[i] in m && m[names[i]] == was[names[i]]
    ensures if Age(now, was[names[i]].completedAt) <= ttl
            then Evicting(names, was, kept + [names[i]], m, i + 1, now, ttl)
            else Evicting(names, was, kept, m - {names[i]}, i + 1, now, ttl)
  {
    var name := names[i];
    assert names[..i + 1] == names[..i] + [name];
    assert name !in names[..i];
    TakePush(Entries(names, was), i);
    EntriesPush(kept, was, name);
    var out := set n | n in names[..i] && n !in kept;
    if Age(now, was[name].completedAt) <= ttl {
      assert (set n | n in names[..i + 1] && n !in kept + [name]) == out;
    } else {
      assert (set n | n in names[..i + 1] && n !in kept) == out + {name};
    }
  }

  lemma {:induction false} EvictDone(names: seq<string>, was: map<string, File>, kept: seq<string>,
                                     m: map<string, File>, now: int, ttl: nat)
    requires Evicting(names, was, kept, m, |names|, now, ttl)
    ensures Agree(kept, m) && Entries(kept, m) == Live(Entries(names, was), now, ttl)
  {
    assert names[..|names|] == names;
    var all := Entries(names, was);
    assert all[..|names|] == all;
  }

  /** The names other than one, in order. */
  function Others(names: seq<string>, name: string): seq<string> {
    if names == [] then []
    else (
      var last := names[|names| - 1];
      Others(names[..|names| - 1], name) + (if last != name then [last] else [])
    )
  }

  method KeepOthers(names: seq<string>, name: string) returns (kept: seq<string>)
    ensures kept == Others(names, name)
  {
    kept := [];
    for i := 0 to |names|
      invariant kept == Others(names[..i], name)
    {
      assert names[..i + 1][..i] == names[..i];
      if names[i] != name {
        kept := kept + [names[i]];
      }
    }
    assert names[..|names|] == names;
  }

  lemma {:induction false} OthersNames(names: seq<string>, name: string)
    ensures forall n :: n in Others(names, name) <==> n in names && n != name
    ensures |Others(names, name)| <= |names| && (name in names ==> |Others(names, name)| < |names|)
  {
    if names != [] {
      OthersNames(names[..|names| - 1], name);
      assert names == names[..|names| - 1] + [names[|names| - 1]];
    }
  }

  lemma {:induction false} OthersDistinct(names: seq<string>, name: string)
    requires Distinct(names)
    ensures Distinct(Others(names, name))
  {
    if names != [] {
      var init := names[..|names| - 1];
      OthersDistinct(init, name);
      OthersNames(init, name);
      assert names[|names| - 1] !in init;
    }
  }

  lemma {:induction false} OthersEntries(names: seq<string>, byName: map<string, File>, name: string)
    requires Known(names, byName)
    ensures Known(Others(names, name), byName)
    ensures Entries(Others(names, name), byName) == Without(Entries(names, byName), name)
  {
    if names != [] {
      var n := |names| - 1;
      OthersEntries(names[..n], byName, name);
      assert Entries(names, byName)[..n] == Entries(names[..n], byName);
      if names[n] != name {
        EntriesPush(Others(names[..n], name), byName, names[n]);
      }
    }
  }

  class Store {
    var byName: map<string, File>
    var order: seq<string>
    const maxEntries: nat
    const ttl: nat

    ghost predicate Valid()
      reads this
    {
      1 <= maxEntries && 1 <= ttl && Agree(order, byName) && |order| <= maxEntries
    }

    /** The retained files, oldest insertion first. */
    ghost function Contents(): seq<Entry>
      requires Valid()
      reads this
    {
      Entries(order, byName)
    }

    constructor (maxEntries: nat, ttl: nat)
      ensures Valid() && Contents() == []
      ensures this.maxEntries == (if maxEntries == 0 then 1 else maxEntries)
          && this.ttl == (if ttl == 0 then 1 else ttl)
    {
      this.byName, this.order := map[], [];
      this.maxEntries := if maxEntries == 0 then 1 else maxEntries;
      this.ttl := if ttl == 0 then 1 else ttl;
    }

    /** Drops every expired name from the queue and from the map. */
    method EvictExpired(now: int)
      requires Valid()
      modifies this`order, this`byName
      ensures Valid()
      ensures Contents() == Live(old(Contents()), now, ttl)
    {
      ghost var names, was := order, byName;
      var kept: seq<string> := [];
      var i: nat := 0;
      while i < |order|
        invariant order == names && Evicting(names, was, kept, byName, i, now, ttl)
      {
        var name := order[i];
        EvictStep(names, was, kept, byName, i, now, ttl);
        if name in byName && Age(now, byName[name].completedAt) <= ttl {
          kept := kept + [name];
        } else {
          byName := byName - {name};
        }
        i := i + 1;
      }
      EvictDone(names, was, kept, byName, now, ttl);
      order := kept;
    }

    /** The first half of moving a name to the back. */
    method RetainOthers(name: string)
      requires Valid()
      modifies this`order
      ensures Distinct(order) && |order| <= |old(order)| && (name in old(order) ==> |order| < |old(order)|)
      ensures Known(order, byName) && forall n :: n in order <==> n in byName && n != name
      ensures Entries(order, byName) == Without(old(Contents()), name)
    {
      var kept := KeepOthers(order, name);
      OthersNames(order, name);
      OthersDistinct(order, name);
      OthersEntries(order, byName, name);
      order := kept;
    }

    /** Evicts the oldest entries beyond capacity. */
    method Trim()
      requires 1 <= maxEntries && 1 <= ttl && Agree(order, byName)
      modifies this`order, this`byName
      ensures Valid()
      ensures Contents() == LastN(old(Entries(order, byName)), maxEntries)
    {
      ghost var names, was := order, byName;
      TrimStart(order, byName);
      while |byName| > maxEntries
        invariant Trimming(names, was, order, byName, maxEntries)
        decreases |order|
      {
        var oldest := order[0];
        DropOldest(names, was, order, byName, maxEntries);
        order := order[1..];
        byName := byName - {oldest};
      }
      TrimDone(names, was, order, byName, maxEntries);
    }

    /** Stores a file under its name as the newest entry and evicts the oldest beyond capacity. */
    method Insert(name: string, file: File, now: int)
      requires Valid()
      modifies this`order, this`byName
      ensures Valid()
      ensures Contents() == Inserted(old(Contents()), Entry(name, file), now, ttl, maxEntries)
    {
      EvictExpired(now);
      ghost var live := Contents();
      if name in byName {
        RetainOthers(name);
      } else {
        WithoutAbsent(live, name);
      }
      PushNewest(order, byName, name, file);
      order := order + [name];
      byName := byName[name := file];
      Trim();
    }

    /** The metadata of the live files, newest first. */
    method List(now: int) returns (listed: seq<string>)
      requires Valid()
      modifies this`order, this`byName
      ensures Valid()
      ensures Contents() == Live(old(Contents()), now, ttl)
      ensures |listed| == |Contents()|
      ensures forall i :: 0 <= i < |listed| ==> listed[i] == Contents()[|listed| - 1 - i].file.metadata
    {
      EvictExpired(now);
      ghost var names, files := order, byName;
      listed := [];
      var i := |order|;
      while i > 0
        invariant order == names && byName == files && 0 <= i <= |names| && |listed| == |names| - i
        invariant forall k :: 0 <= k < |listed| ==> listed[k] == files[names[|names| - 1 - k]].metadata
      {
        i := i - 1;
        if order[i] in byName {
          listed := listed + [byName[order[i]].metadata];
        }
      }
    }

    method Get(name: string, now: int) returns (file: Option<File>)
      requires Valid()
      modifies this`order, this`byName
      ensures Valid()
      ensures Contents() == Live(old(Contents()), now, ttl)
      ensures forall f :: file == Some(f) <==> Entry(name, f) in Contents()
    {
      EvictExpired(now);
      file := if name in byName then Some(byName[name]) else None;
      if name in byName {
        var i :| 0 <= i < |order| && order[i] == name;
        assert Contents()[i] == Entry(name, byName[name]);
      }
    }

    method Len(now: int) returns (n: nat)
      requires Valid()
      modifies this`order, this`byName
      ensures Valid()
      ensures Contents() == Live(old(Contents()), now, ttl)
      ensures n == |Contents()|
    {
      EvictExpired(now);
      SameSize(order, byName);
      n := |byName|;
    }
  }

  lemma {:induction false} SameSize(order: seq<string>, byName: map<string, File>)
    requires Agree(order, byName)
    ensures |order| == |byName|
  {
    if order == [] {
      assert byName == map[];
    } else {
      var rest := byName - {order[0]};
      SameSize(order[1..], rest);
      assert byName.Keys == rest.Keys + {order[0]};
    }
  }

  /** The oldest entries of `was` are being evicted, never below `max`. */
  ghost predicate Trimming(names: seq<string>, was: map<string, File>, order: seq<string>, m: map<string, File>,
                           max: nat) {
    && Known(names, was) && Agree(order, m) && |order| == |m| <= |names|
    && Entries(order, m) == Entries(names, was)[|names| - |order|..]
    && (|order| >= max || |order| == |names|)
  }

  lemma TrimStart(names: seq<string>, was: map<string, File>)
    requires Agree(names, was)
    ensures forall max :: Trimming(names, was, names, was, max)
  {
    SameSize(names, was);
  }

  lemma TrimDone(names: seq<string>, was: map<string, File>, order: seq<string>, m: map<string, File>, max: nat)
    requires Trimming(names, was, order, m, max) && |m| <= max
    ensures Agree(order, m) && |order| <= max
    ensures Entries(order, m) == LastN(Entries(names, was), max)
  {
  }

  lemma AgreeTail(order: seq<string>, m: map<string, File>)
    requires Agree(order, m) && order != []
    ensures Agree(order[1..], m - {order[0]})
    ensures Entries(order[1..], m - {order[0]}) == Entries(order, m)[1..]
  {
    var rest := m - {order[0]};
    forall i | 0 <= i < |order[1..]| ensures order[1..][i] in rest {
      assert order[0] != order[i + 1];
    }
    forall n | n in rest ensures n in order[1..] {
      var i :| 0 <= i < |order| && order[i] == n;
      assert order[1..][i - 1] == n;
    }
  }

  lemma TailOfTail<T>(all: seq<T>, part: seq<T>, n: nat, k: nat)
    requires |all| == n && |part| == k && 0 < k <= n && part == all[n - k..]
    ensures part[1..] == all[n - (k - 1)..]
  {
  }

  /** The queue stays the tail of the old one. */
  lemma TailKept(names: seq<string>, was: map<string, File>, order: seq<string>, m: map<string, File>)
    requires Known(names, was) && Agree(order, m) && 0 < |order| <= |names|
    requires Entries(order, m) == Entries(names, was)[|names| - |order|..]
    ensures Agree(order[1..], m - {order[0]})
    ensures Entries(order[1..], m - {order[0]}) == Entries(names, was)[|names| - |order| + 1..]
  {
    AgreeTail(order, m);
    TailOfTail(Entries(names, was), Entries(order, m), |names|, |order|);
  }

  lemma DropOldest(names: seq<string>, was: map<string, File>, order: seq<string>, m: map<string, File>, max: nat)
    requires Trimming(names, was, order, m, max) && |m| > max
    ensures Trimming(names, was, order[1..], m - {order[0]}, max)
  {
    TailKept(names, was, order, m);
    SameSize(order[1..], m - {order[0]});
  }

  /** Adding a name the queue does not hold, whether or not the map still does. */
  lemma PushNewest(order: seq<string>, byName: map<string, File>, name: string, file: File)
    requires Distinct(order) && Known(order, byName) && forall n :: n in order <==> n in byName && n != name
    ensures Agree(order + [name], byName[name := file])
    ensures Entries(order + [name], byName[name := file]) == Entries(order, byName) + [Entry(name, file)]
  {
    forall n | n in byName[name := file] ensures n in order + [name] {
      assert n == name || n in order;
      assert (order + [name])[|order|] == name;
    }
  }

  lemma {:induction false} WithoutAbsent(c: seq<Entry>, name: string)
    requires forall i :: 0 <= i < |c| ==> c[i].name != name
    ensures Without(c, name) == c
  {
    if c != [] {
      WithoutAbsent(c[..|c| - 1], name);
    }
  }

  // ---------- the store as a function of the insertion history ----------

  /** An operation with the clock reading it saw; `list`, `get` and `len` all observe. */
  datatype Op = InsertOp(entry: Entry, now: int) | Observe(now: int)

  /** What the store holds after a run, by the contracts of its methods. */
  function After(ops: seq<Op>, ttl: nat, max: nat): seq<Entry> {
    if ops == [] then []
    else (
      var was := After(ops[..|ops| - 1], ttl, max);
      match ops[|ops| - 1]
      case InsertOp(e, now) => Inserted(was, e, now, ttl, max)
      case Observe(now) => Live(was, now, ttl)
    )
  }

  /** The last insertion of every name, in insertion order, with no regard to time or capacity. */
  function Latest(ops: seq<Op>): seq<Entry> {
    if ops == [] then []
    else (
      var was := Latest(ops[..|ops| - 1]);
      match ops[|ops| - 1]
      case InsertOp(e, _) => Without(was, e.name) + [e]
      case Observe(_) => was
    )
  }

  /** Clock readings never go back, and neither do the completion times of inserted files. */
  ghost predicate Chronological(ops: seq<Op>) {
    && (forall i, j :: 0 <= i < j < |ops| ==> ops[i].now <= ops[j].now)
    && (forall i, j :: 0 <= i < j < |ops| && ops[i].InsertOp? && ops[j].InsertOp? ==>
          ops[i].entry.file.completedAt <= ops[j].entry.file.completedAt)
  }

  ghost predicate Sorted(c: seq<Entry>) {
    forall i, j :: 0 <= i < j < |c| ==> c[i].file.completedAt <= c[j].file.completedAt
  }

  ghost predicate DistinctNames(c: seq<Entry>) {
    forall i, j :: 0 <= i < j < |c| ==> c[i].name != c[j].name
  }

  ghost predicate AllExpired(c: seq<Entry>, now: int, ttl: nat) {
    forall i :: 0 <= i < |c| ==> !IsLive(c[i], now, ttl)
  }

  lemma {:induction false} LiveAppend(a: seq<Entry>, b: seq<Entry>, now: int, ttl: nat)
    ensures Live(a + b, now, ttl) == Live(a, now, ttl) + Live(b, now, ttl)
  {
    if b == [] {
      assert a + b == a;
    } else {
      assert (a + b)[..|a + b| - 1] == a + b[..|b| - 1];
      LiveAppend(a, b[..|b| - 1], now, ttl);
    }
  }

  lemma {:induction false} LiveOfExpired(c: seq<Entry>, now: int, ttl: nat)
    requires AllExpired(c, now, ttl)
    ensures Live(c, now, ttl) == []
  {
    if c != [] {
      LiveOfExpired(c[..|c| - 1], now, ttl);
    }
  }

  lemma ExpiredUpTo(c: seq<Entry>, now: int, ttl: nat)
    requires Sorted(c) && c != [] && !IsLive(c[|c| - 1], now, ttl)
    ensures AllExpired(c, now, ttl)
  {
    forall i | 0 <= i < |c| ensures !IsLive(c[i], now, ttl) {
      assert i < |c| - 1 ==> c[i].file.completedAt <= c[|c| - 1].file.completedAt;
    }
  }

  /** In a list sorted by completion time, expiry removes a prefix. */
  lemma {:induction false} LiveIsSuffix(c: seq<Entry>, now: int, ttl: nat) returns (cut: nat)
    requires Sorted(c)
    ensures cut <= |c| && Live(c, now, ttl) == c[cut..] && AllExpired(c[..cut], now, ttl)
  {
    if c == [] {
      cut := 0;
    } else {
      var n := |c| - 1;
      if IsLive(c[n], now, ttl) {
        cut := LiveIsSuffix(c[..n], now, ttl);
        assert c[cut..] == c[..n][cut..] + [c[n]];
        assert c[..n][..cut] == c[..cut];
      } else {
        ExpiredUpTo(c, now, ttl);
        LiveOfExpired(c, now, ttl);
        cut := |c|;
        assert c[..cut] == c;
      }
    }
  }

  lemma {:induction false} WithoutAppend(a: seq<Entry>, b: seq<Entry>, name: string)
    ensures Without(a + b, name) == Without(a, name) + Without(b, name)
  {
    if b == [] {
      assert a + b == a;
    } else {
      assert (a + b)[..|a + b| - 1] == a + b[..|b| - 1];
      WithoutAppend(a, b[..|b| - 1], name);
    }
  }

  lemma {:induction false} WithoutMember(c: seq<Entry>, name: string, i: nat) returns (j: nat)
    requires i < |Without(c, name)|
    ensures i <= j < |c| && c[j] == Without(c, name)[i] && c[j].name != name
  {
    var n := |c| - 1;
    if i < |Without(c[..n], name)| {
      j := WithoutMember(c[..n], name, i);
    } else {
      j := n;
      WithoutNoLonger(c[..n], name);
    }
  }

  lemma {:induction false} WithoutNoLonger(c: seq<Entry>, name: string)
    ensures |Without(c, name)| <= |c|
  {
    if c != [] {
      WithoutNoLonger(c[..|c| - 1], name);
    }
  }

  /** Removing a name keeps the list sorted and free of duplicates. */
  lemma {:induction false} WithoutKeepsOrder(c: seq<Entry>, name: string)
    ensures DistinctNames(c) ==> DistinctNames(Without(c, name))
    ensures Sorted(c) ==> Sorted(Without(c, name))
  {
    if c != [] {
      var n := |c| - 1;
      WithoutKeepsOrder(c[..n], name);
      var w := Without(c[..n], name);
      forall i | 0 <= i < |w| ensures exists j :: 0 <= j < n && c[j] == w[i] {
        var j := WithoutMember(c[..n], name, i);
        assert c[j] == w[i];
      }
    }
  }

  ghost predicate Has(c: seq<Entry>, name: string) {
    exists i :: 0 <= i < |c| && c[i].name == name
  }

  /** A name that occurs once shortens the list by one. */
  lemma {:induction false} WithoutPresent(c: seq<Entry>, name: string)
    requires DistinctNames(c) && Has(c, name)
    ensures |Without(c, name)| == |c| - 1
  {
    var n := |c| - 1;
    if c[n].name == name {
      WithoutAbsent(c[..n], name);
    } else {
      var i :| 0 <= i < |c| && c[i].name == name;
      assert c[..n][i].name == name;
      WithoutPresent(c[..n], name);
    }
  }

  /** Where a retained entry came from. */
  lemma {:induction false} LatestComesFromOps(ops: seq<Op>, e: Entry) returns (i: nat)
    requires e in Latest(ops)
    ensures i < |ops| && ops[i].InsertOp? && ops[i].entry == e
  {
    var n := |ops| - 1;
    if ops[n].InsertOp? && ops[n].entry == e {
      i := n;
    } else {
      if ops[n].InsertOp? {
        var w := Without(Latest(ops[..n]), ops[n].entry.name);
        var k :| 0 <= k < |w + [ops[n].entry]| && (w + [ops[n].entry])[k] == e;
        var j := WithoutMember(Latest(ops[..n]), ops[n].entry.name, k);
      }
      i := LatestComesFromOps(ops[..n], e);
    }
  }

  lemma {:induction false} LatestDistinct(ops: seq<Op>, k: nat)
    requires k <= |ops|
    ensures DistinctNames(Latest(ops[..k]))
    decreases k
  {
    if k > 0 {
      LatestDistinct(ops, k - 1);
      assert ops[..k][..k - 1] == ops[..k - 1];
      if ops[k - 1].InsertOp? {
        var was, name := Latest(ops[..k - 1]), ops[k - 1].entry.name;
        WithoutKeepsOrder(was, name);
        forall i | 0 <= i < |Without(was, name)| ensures Without(was, name)[i].name != name {
          var j := WithoutMember(was, name, i);
        }
      }
    }
  }

  lemma {:induction false} LatestSorted(ops: seq<Op>)
    requires Chronological(ops)
    ensures Sorted(Latest(ops)) && DistinctNames(Latest(ops))
  {
    assert ops[..|ops|] == ops;
    LatestDistinct(ops, |ops|);
    if ops != [] {
      var n := |ops| - 1;
      var init := ops[..n];
      LatestSorted(init);
      if ops[n].InsertOp? {
        var w := Without(Latest(init), ops[n].entry.name);
        WithoutKeepsOrder(Latest(init), ops[n].entry.name);
        forall i | 0 <= i < |w| ensures w[i].file.completedAt <= ops[n].entry.file.completedAt {
          var k := WithoutMember(Latest(init), ops[n].entry.name, i);
          var j := LatestComesFromOps(init, w[i]);
        }
      }
    }
  }

  /** The part of `Latest` the store no longer holds is expired, unless the store is full. */
  ghost predicate Forgotten(a: seq<Entry>, b: seq<Entry>, now: int, ttl: nat, max: nat) {
    |b| <= max && (AllExpired(a, now, ttl) || |b| == max)
  }

  lemma SortedTail(a: seq<Entry>, b: seq<Entry>)
    requires Sorted(a + b)
    ensures Sorted(b)
  {
    assert forall i :: 0 <= i < |b| ==> (a + b)[|a| + i] == b[i];
  }

  lemma StillExpired(a: seq<Entry>, was: int, now: int, ttl: nat)
    requires was <= now
    ensures AllExpired(a, was, ttl) ==> AllExpired(a, now, ttl)
  {
  }

  /** What is older than an expired entry is expired. */
  lemma ExpiredBefore(a: seq<Entry>, b: seq<Entry>, now: int, ttl: nat)
    requires Sorted(a + b) && b != [] && !IsLive(b[0], now, ttl)
    ensures AllExpired(a, now, ttl)
  {
    forall i | 0 <= i < |a| ensures !IsLive(a[i], now, ttl) {
      assert (a + b)[i] == a[i] && (a + b)[|a|] == b[0];
    }
  }

  lemma ObserveKeeps(a: seq<Entry>, b: seq<Entry>, was: int, now: int, ttl: nat, max: nat) returns (a': seq<Entry>)
    requires Sorted(a + b) && Forgotten(a, b, was, ttl, max) && was <= now
    ensures a + b == a' + Live(b, now, ttl) && Forgotten(a', Live(b, now, ttl), now, ttl, max)
  {
    SortedTail(a, b);
    var cut := LiveIsSuffix(b, now, ttl);
    a' := a + b[..cut];
    assert b == b[..cut] + b[cut..];
    if cut > 0 {
      assert !IsLive(b[..cut][0], now, ttl);
      ExpiredBefore(a, b, now, ttl);
    } else {
      assert a' == a;
      StillExpired(a, was, now, ttl);
    }
  }

  lemma InsertKeeps(a: seq<Entry>, b: seq<Entry>, e: Entry, now: int, ttl: nat, max: nat) returns (a': seq<Entry>)
    requires 1 <= max && DistinctNames(a + b) && Forgotten(a, b, now, ttl, max)
    ensures var b' := LastN(Without(b, e.name) + [e], max);
      Without(a + b, e.name) + [e] == a' + b' && Forgotten(a', b', now, ttl, max)
  {
    WithoutAppend(a, b, e.name);
    var y := Without(b, e.name) + [e];
    var kept, cut := Without(a, e.name), |y| - |LastN(y, max)|;
    a' := kept + y[..cut];
    CutAfter(kept, Without(b, e.name), e, cut);
    if |y| < max {
      SizeAfterMove(a, b, e);
      assert y[..cut] == [] && a' == kept;
      WithoutExpired(a, e.name, now, ttl);
    }
  }

  lemma CutAfter<T>(a: seq<T>, b: seq<T>, x: T, cut: nat)
    requires cut <= |b| + 1
    ensures (a + b) + [x] == (a + (b + [x])[..cut]) + (b + [x])[cut..]
  {
    assert b + [x] == (b + [x])[..cut] + (b + [x])[cut..];
  }

  lemma {:induction false} WithoutExpired(a: seq<Entry>, name: string, now: int, ttl: nat)
    requires AllExpired(a, now, ttl)
    ensures AllExpired(Without(a, name), now, ttl)
  {
    forall i | 0 <= i < |Without(a, name)| ensures !IsLive(Without(a, name)[i], now, ttl) {
      var j := WithoutMember(a, name, i);
    }
  }

  /** Moving a name to the back of the retained part never shortens it. */
  lemma {:induction false} SizeAfterMove(a: seq<Entry>, b: seq<Entry>, e: Entry)
    requires DistinctNames(a + b)
    ensures |b| <= |Without(b, e.name) + [e]|
  {
    assert forall i :: 0 <= i < |b| ==> (a + b)[|a| + i] == b[i];
    if Has(b, e.name) {
      WithoutPresent(b, e.name);
    } else {
      WithoutAbsent(b, e.name);
    }
  }

  lemma {:induction false} StoreIsSuffixOfLatest(ops: seq<Op>, ttl: nat, max: nat) returns (a: seq<Entry>)
    requires 1 <= max && Chronological(ops)
    ensures Latest(ops) == a + After(ops, ttl, max)
    ensures Forgotten(a, After(ops, ttl, max), if ops == [] then 0 else ops[|ops| - 1].now, ttl, max)
  {
    a := [];
    if ops != [] {
      var n := |ops| - 1;
      var init, was := ops[..n], if n == 0 then ops[n].now else ops[n - 1].now;
      a := StoreIsSuffixOfLatest(init, ttl, max);
      LatestSorted(init);
      var b := After(init, ttl, max);
      a := ObserveKeeps(a, b, was, ops[n].now, ttl, max);
      if ops[n].InsertOp? {
        a := InsertKeeps(a, Live(b, ops[n].now, ttl), ops[n].entry, ops[n].now, ttl, max);
      }
    }
  }

  /**
   * With a clock that never goes back, what any observation shows is a pure
   * function of the insertion history: the last `max` distinct names by last
   * insertion, restricted to those still live.
   */
  lemma {:induction false} ObservationIsHistory(ops: seq<Op>, now: int, ttl: nat, max: nat)
    requires 1 <= max && Chronological(ops) && (ops != [] ==> ops[|ops| - 1].now <= now)
    ensures Live(After(ops, ttl, max), now, ttl) == Live(LastN(Latest(ops), max), now, ttl)
  {
    var a := StoreIsSuffixOfLatest(ops, ttl, max);
    var b := After(ops, ttl, max);
    if |b| == max {
      assert LastN(Latest(ops), max) == b;
    } else if ops != [] {
      var lost := |a + b| - |LastN(a + b, max)|;
      assert LastN(a + b, max) == a[lost..] + b;
      LiveOfExpired(a[lost..], now, ttl);
      LiveAppend(a[lost..], b, now, ttl);
    }
  }
}
