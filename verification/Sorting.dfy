/** Sorting the keys of a finite map by a strict total order. */
module Sorting {

  ghost predicate IsStrictOrder<K(!new)>(less: (K, K) -> bool) {
    && (forall a :: !less(a, a))
    && (forall a, b, c :: less(a, b) && less(b, c) ==> less(a, c))
    && (forall a, b :: a != b ==> less(a, b) || less(b, a))
  }

  ghost predicate IsLeast<K>(less: (K, K) -> bool, k: K, keys: set<K>) {
    k in keys && forall j | j in keys && j != k :: less(k, j)
  }

  lemma LeastExists<K(!new)>(less: (K, K) -> bool, keys: set<K>)
    requires IsStrictOrder(less) && keys != {}
    ensures exists k :: IsLeast(less, k, keys)
  {
    var k :| k in keys;
    if keys == {k} {
      assert IsLeast(less, k, keys);
    } else {
      var rest := keys - {k};
      assert keys == rest + {k};
      LeastExists(less, rest);
      var m :| IsLeast(less, m, rest);
      if less(k, m) {
        assert IsLeast(less, k, keys);
      } else {
        assert IsLeast(less, m, keys);
      }
    }
  }

  ghost predicate Ascending<K>(less: (K, K) -> bool, keys: seq<K>) {
    forall i, j | 0 <= i < j < |keys| :: less(keys[i], keys[j])
  }

  /** The keys in ascending order. */
  function SortedKeys<K(!new)>(less: (K, K) -> bool, keys: set<K>): (r: seq<K>)
    requires IsStrictOrder(less)
    ensures Ascending(less, r) && forall k :: k in r <==> k in keys
  {
    if keys == {} then []
    else
      LeastExists(less, keys);
      var k :| k in keys && forall j | j in keys && j != k :: less(k, j);
      [k] + SortedKeys(less, keys - {k})
  }

  /** The entries of a map in ascending order of their keys. */
  function SortedEntries<K(!new), V>(less: (K, K) -> bool, m: map<K, V>): (r: seq<(K, V)>)
    requires IsStrictOrder(less)
  {
    var keys := SortedKeys(less, m.Keys);
    seq(|keys|, i requires 0 <= i < |keys| => (keys[i], m[keys[i]]))
  }

  /** The sorted entries determine the map. */
  lemma SortedEntriesInjective<K(!new), V>(less: (K, K) -> bool, m: map<K, V>, n: map<K, V>)
    requires IsStrictOrder(less)
    requires SortedEntries(less, m) == SortedEntries(less, n)
    ensures m == n
  {
    var a, b := SortedKeys(less, m.Keys), SortedKeys(less, n.Keys);
    assert |a| == |SortedEntries(less, m)| == |SortedEntries(less, n)| == |b|;
    forall i | 0 <= i < |a| ensures a[i] == b[i] && m[a[i]] == n[a[i]] {
      assert SortedEntries(less, m)[i] == SortedEntries(less, n)[i];
    }
    assert a == b;
    forall k | k in m ensures k in n && m[k] == n[k] {
      var i :| 0 <= i < |a| && a[i] == k;
    }
    assert m.Keys == n.Keys;
  }
}
