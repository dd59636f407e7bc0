/**
 * Maps iterated in key order, as association lists with strictly increasing keys.
 */
module OrderedMap {
  import opened Prelude

  type Less<!K> = (K, K) -> bool

  ghost predicate IsOrder<K(!new)>(less: Less<K>) {
    && (forall a :: !less(a, a))
    && (forall a, b, c :: less(a, b) && less(b, c) ==> less(a, c))
    && (forall a, b :: a == b || less(a, b) || less(b, a))
  }

  ghost predicate Sorted<K, V>(less: Less<K>, m: seq<(K, V)>) {
    forall i, j :: 0 <= i < j < |m| ==> less(m[i].0, m[j].0)
  }

  function Lookup<K(==), V>(m: seq<(K, V)>, k: K): Option<V> {
    if m == [] then None else if m[0].0 == k then Some(m[0].1) else Lookup(m[1..], k)
  }

  /** The map with `k` bound to `v`, in its place in the order. */
  function Put<K(==), V>(less: Less<K>, m: seq<(K, V)>, k: K, v: V): seq<(K, V)> {
    if m == [] then [(k, v)]
    else if m[0].0 == k then [(k, v)] + m[1..]
    else if less(k, m[0].0) then [(k, v)] + m
    else [m[0]] + Put(less, m[1..], k, v)
  }

  lemma {:induction false} PutKeys<K, V>(less: Less<K>, m: seq<(K, V)>, k: K, v: V, i: nat)
    requires i < |Put(less, m, k, v)|
    ensures var p := Put(less, m, k, v)[i];
      p == (k, v) || exists j :: 0 <= j < |m| && m[j] == p
  {
    if m != [] && m[0].0 != k && !less(k, m[0].0) && i > 0 {
      PutKeys(less, m[1..], k, v, i - 1);
      var p := Put(less, m[1..], k, v)[i - 1];
      if p != (k, v) {
        var j :| 0 <= j < |m[1..]| && m[1..][j] == p;
        assert m[j + 1] == p;
      }
    } else if m != [] && m[0].0 == k && i > 0 {
      assert m[i] == Put(less, m, k, v)[i];
    } else if m != [] && m[0].0 != k && less(k, m[0].0) && i > 0 {
      assert m[i - 1] == Put(less, m, k, v)[i];
    }
  }

  lemma {:induction false} PutKeepsOrder<K(!new), V>(less: Less<K>, m: seq<(K, V)>, k: K, v: V)
    requires IsOrder(less) && Sorted(less, m)
    ensures Sorted(less, Put(less, m, k, v))
  {
    if m != [] && m[0].0 != k && !less(k, m[0].0) {
      var rest := Put(less, m[1..], k, v);
      PutKeepsOrder(less, m[1..], k, v);
      forall i | 0 <= i < |rest| ensures less(m[0].0, rest[i].0) {
        PutKeys(less, m[1..], k, v, i);
        if rest[i] != (k, v) {
          var j :| 0 <= j < |m[1..]| && m[1..][j] == rest[i];
          assert m[j + 1] == rest[i];
        }
      }
    }
  }

  /** What is found after a put: the new value at its key, the old values elsewhere. */
  lemma {:induction false} LookupPut<K(!new), V>(less: Less<K>, m: seq<(K, V)>, k: K, v: V, j: K)
    requires IsOrder(less) && Sorted(less, m)
    ensures Lookup(Put(less, m, k, v), j) == if j == k then Some(v) else Lookup(m, j)
  {
    if m != [] && m[0].0 != k && !less(k, m[0].0) {
      LookupPut(less, m[1..], k, v, j);
      assert Put(less, m, k, v)[1..] == Put(less, m[1..], k, v);
    } else if m != [] && m[0].0 == k {
      assert Put(less, m, k, v)[1..] == m[1..];
    } else if m != [] {
      assert Put(less, m, k, v)[1..] == m;
    }
  }

  lemma {:induction false} LookupMember<K, V>(m: seq<(K, V)>, k: K)
    ensures Lookup(m, k).Some? <==> exists i :: 0 <= i < |m| && m[i].0 == k
    ensures Lookup(m, k).Some? ==> (k, Lookup(m, k).value) in m
  {
    if m != [] {
      LookupMember(m[1..], k);
      assert m == [m[0]] + m[1..];
      if exists i :: 0 <= i < |m| && m[i].0 == k {
        var i :| 0 <= i < |m| && m[i].0 == k;
        assert i == 0 || m[1..][i - 1].0 == k;
      }
    }
  }

  // ---------- strings in byte order ----------

  function StringLess(a: string, b: string): bool {
    if b == "" then false
    else if a == "" then true
    else a[0] < b[0] || (a[0] == b[0] && StringLess(a[1..], b[1..]))
  }

  lemma {:induction false} StringLessTotal(a: string, b: string)
    ensures !StringLess(a, a)
    ensures a == b || StringLess(a, b) || StringLess(b, a)
  {
    if a != "" {
      StringLessTotal(a[1..], if b == "" then "" else b[1..]);
      if b != "" && a[1..] == b[1..] && a[0] == b[0] {
        assert a == [a[0]] + a[1..] && b == [b[0]] + b[1..];
      }
    }
  }

  lemma {:induction false} StringLessTransitive(a: string, b: string, c: string)
    requires StringLess(a, b) && StringLess(b, c)
    ensures StringLess(a, c)
  {
    if a != "" && a[0] == b[0] == c[0] {
      StringLessTransitive(a[1..], b[1..], c[1..]);
    }
  }

  lemma StringOrder()
    ensures IsOrder(StringLess)
  {
    forall a: string, b: string ensures !StringLess(a, a) && (a == b || StringLess(a, b) || StringLess(b, a)) {
      StringLessTotal(a, b);
    }
    forall a, b, c | StringLess(a, b) && StringLess(b, c) ensures StringLess(a, c) {
      StringLessTransitive(a, b, c);
    }
  }
}
