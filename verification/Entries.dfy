/** The entries of an ordered array or object: keys with values, in order of insertion. */
module Entries {
  import opened Sorting

  datatype Entry<K, V> = Entry(key: K, value: V)

  /** A language's collation of strings, as `localeCompare` gives one. */
  type Collation = (string, string) -> bool

  predicate DistinctKeys<K(==), V>(entries: seq<Entry<K, V>>) {
    forall i, j | 0 <= i < j < |entries| :: entries[i].key != entries[j].key
  }

  function ByKey<K, V>(le: (K, K) -> bool): (Entry<K, V>, Entry<K, V>) -> bool {
    (a: Entry<K, V>, b: Entry<K, V>) => le(a.key, b.key)
  }

  lemma ByKeyIsPreorder<K(!new), V(!new)>(le: (K, K) -> bool)
    requires TotalOrder(le)
    ensures TotalPreorder(ByKey<K, V>(le))
  {
    var leq := ByKey<K, V>(le);
    forall a, b ensures leq(a, b) || leq(b, a) { assert le(a.key, b.key) || le(b.key, a.key); }
    forall a, b, c | leq(a, b) && leq(b, c) ensures leq(a, c) { assert le(a.key, b.key) && le(b.key, c.key); }
  }

  lemma DistinctKeysNeverTie<K(!new), V(!new)>(entries: seq<Entry<K, V>>, le: (K, K) -> bool)
    requires TotalOrder(le) && DistinctKeys(entries)
    ensures Distinct(entries) && NoTies(entries, ByKey(le))
  {
  }

  /** Entries with distinct keys are sorted alike exactly when they are the same entries. */
  lemma SortedEntriesAgree<K(!new), V(!new)>(a: seq<Entry<K, V>>, b: seq<Entry<K, V>>, le: (K, K) -> bool)
    requires TotalOrder(le) && DistinctKeys(a)
    ensures Sort(a, ByKey(le)) == Sort(b, ByKey(le)) <==> multiset(a) == multiset(b)
  {
    hide Sort, TotalOrder;
    if multiset(a) == multiset(b) {
      ByKeyIsPreorder<K, V>(le);
      DistinctKeysNeverTie(a, le);
      SortOfUntied(a, b, ByKey(le));
    }
  }
}
