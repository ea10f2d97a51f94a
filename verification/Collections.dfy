/** Lookups in maps, equality of maps key by key, and sizes of sets. */
module Collections {
  import opened Text

  function At<K, V>(m: map<K, V>, k: K): Option<V> {
    if k in m then Some(m[k]) else None
  }

  lemma SameMap<K, V>(a: map<K, V>, b: map<K, V>)
    requires forall k :: At(a, k) == At(b, k)
    ensures a == b
  {
    forall k ensures k in a <==> k in b {
      assert At(a, k) == At(b, k);
    }
    forall k | k in a ensures a[k] == b[k] {
      assert At(a, k) == At(b, k);
    }
  }

  lemma {:induction false} SubsetSize<T>(a: set<T>, b: set<T>)
    requires a <= b
    ensures |a| <= |b|
  {
    if a != {} {
      var x :| x in a;
      SubsetSize(a - {x}, b - {x});
    }
  }
}
