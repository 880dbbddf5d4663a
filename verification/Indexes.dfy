/** Hashes kept over a changing set of live objects: one object to a key, or many. */
module Indexes {

  /** Each live object is found under its own key, and nothing else is in the hash. */
  ghost predicate Unique<K, T>(m: map<K, T>, live: set<T>, key: T -> K) {
    && (forall k <- m :: m[k] in live && key(m[k]) == k)
    && (forall o <- live :: key(o) in m && m[key(o)] == o)
  }

  /** A multi-hash: each live object is in it exactly once, under its own key. */
  ghost predicate Grouped<K, T>(m: multiset<(K, T)>, live: set<T>, key: T -> K) {
    && (forall p <- m :: p.1 in live && p.0 == key(p.1) && m[p] == 1)
    && (forall o <- live :: (key(o), o) in m)
  }

  /** Inserting without looking keeps the hash exact just when the key was free. */
  lemma UniqueAddIff<K, T>(m: map<K, T>, live: set<T>, key: T -> K, o: T)
    requires Unique(m, live, key) && o !in live
    ensures Unique(m[key(o) := o], live + {o}, key) <==> key(o) !in m
  {
    if key(o) in m {
      var p := m[key(o)];
      assert p in live + {o} && m[key(o) := o][key(p)] != p;
    }
  }

  lemma UniqueRemove<K, T>(m: map<K, T>, live: set<T>, key: T -> K, o: T)
    requires Unique(m, live, key) && o in live
    ensures Unique(m - {key(o)}, live - {o}, key)
  {
    forall p | p in live - {o}
      ensures key(p) in m - {key(o)} && (m - {key(o)})[key(p)] == p
    {
      assert m[key(p)] != m[key(o)];
    }
  }

  lemma GroupedAdd<K, T>(m: multiset<(K, T)>, live: set<T>, key: T -> K, o: T)
    requires Grouped(m, live, key) && o !in live
    ensures Grouped(m + multiset{(key(o), o)}, live + {o}, key)
  {
    assert (key(o), o) !in m;
  }

  lemma GroupedRemove<K, T>(m: multiset<(K, T)>, live: set<T>, key: T -> K, o: T)
    requires Grouped(m, live, key) && o in live
    ensures Grouped(m[(key(o), o) := 0], live - {o}, key)
  {
  }

  lemma GroupedAddRemove<K, T>(m: multiset<(K, T)>, live: set<T>, key: T -> K, o: T)
    requires Grouped(m, live, key) && o !in live
    ensures (m + multiset{(key(o), o)})[(key(o), o) := 0] == m
  {
    assert (key(o), o) !in m;
  }
}
