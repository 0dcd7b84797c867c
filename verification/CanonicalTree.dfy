/**
 The registry serializer's normal form of a PHP value: lists are ordered by their items' identifying
 text, other arrays by key, at every depth.  The revision of a registry is a hash of this form.
 */
module CanonicalTree {
  import opened Wrappers
  import opened Sorting
  import opened Entries
  import opened Text

  datatype Key = IntKey(n: int) | StrKey(s: string)

  /** Floats carry the text PHP prints for them. */
  datatype Scalar = Null | Bool(b: bool) | Int(n: int) | Float(text: string) | Str(s: string)

  /** A PHP value: a scalar, or an ordered array of entries. */
  datatype Tree = Leaf(scalar: Scalar) | Arr(entries: seq<Entry<Key, Tree>>)

  type Element = Entry<Key, Tree>

  type KeyOrder = (Key, Key) -> bool

  // ----- arrays -----

  /** PHP's own guarantee: an array has each key once. */
  ghost predicate WellFormed(t: Tree) {
    t.Arr? ==> DistinctKeys(t.entries) && forall i | 0 <= i < |t.entries| :: WellFormed(t.entries[i].value)
  }

  /** `array_is_list`: the keys are 0, 1, 2, ... in this order. */
  predicate IsList(entries: seq<Element>) {
    forall i | 0 <= i < |entries| :: entries[i].key == IntKey(i)
  }

  function Values(entries: seq<Element>): (r: seq<Tree>)
    ensures |r| == |entries|
  {
    seq(|entries|, i requires 0 <= i < |entries| => entries[i].value)
  }

  function Listed(items: seq<Tree>): (r: seq<Element>)
    ensures |r| == |items| && IsList(r) && Values(r) == items
  {
    seq(|items|, i requires 0 <= i < |items| => Entry(IntKey(i), items[i]))
  }

  /** The entry's value, or none; `??` also passes over a stored null. */
  function Lookup(entries: seq<Element>, key: Key): Option<Tree> {
    if entries == [] then None
    else if entries[0].key == key then Some(entries[0].value)
    else Lookup(entries[1..], key)
  }

  function Present(t: Tree, key: string): Option<Tree> {
    if t.Leaf? then None
    else match Lookup(t.entries, StrKey(key)) case Some(Leaf(Null)) => None case found => found
  }

  function Digits(n: nat): string {
    if n < 10 then ['0' + n as char] else Digits(n / 10) + ['0' + (n % 10) as char]
  }

  /** PHP's conversion to a string. */
  function ToText(t: Tree): string {
    match t
    case Leaf(Null) => ""
    case Leaf(Bool(b)) => if b then "1" else ""
    case Leaf(Int(n)) => if n < 0 then "-" + Digits(-n) else Digits(n)
    case Leaf(Float(text)) => text
    case Leaf(Str(s)) => s
    case Arr(_) => "Array"
  }

  /** What identifies a list item: its id, else its slug, else its ordinal, else nothing. */
  function ItemText(t: Tree): string {
    match Present(t, "id")
    case Some(v) => ToText(v)
    case None =>
      match Present(t, "slug")
      case Some(v) => ToText(v)
      case None =>
        match Present(t, "ordinal")
        case Some(v) => ToText(v)
        case None => ""
  }

  function ByItemText(): (Tree, Tree) -> bool {
    (a, b) => StrLe(ItemText(a), ItemText(b))
  }

  function KeySet(entries: seq<Element>): set<Key> {
    set e | e in entries :: e.key
  }

  /** The comparison orders these keys, the integers among them by value. */
  ghost predicate OrdersKeys(keys: set<Key>, le: KeyOrder) {
    && (forall a, b | a in keys && b in keys :: le(a, b) || le(b, a))
    && (forall a, b | a in keys && b in keys && le(a, b) && le(b, a) :: a == b)
    && (forall a, b, c | a in keys && b in keys && c in keys && le(a, b) && le(b, c) :: le(a, c))
    && (forall m: int, n: int | IntKey(m) in keys && IntKey(n) in keys && m <= n :: le(IntKey(m), IntKey(n)))
  }

  /** What is assumed of `ksort`'s comparison: it orders the keys of every array that is sorted by it. */
  ghost predicate SoundKeyOrder(t: Tree, le: KeyOrder) {
    t.Arr? ==>
      && (!IsList(t.entries) ==> OrdersKeys(KeySet(t.entries), le))
      && forall i | 0 <= i < |t.entries| :: SoundKeyOrder(t.entries[i].value, le)
  }

  // ----- the normal form -----

  function Canonical(t: Tree, le: KeyOrder): Tree
    decreases t, 1
  {
    if t.Leaf? then t
    else if IsList(t.entries) then Arr(Listed(Sort(Values(CanonicalEntries(t, le)), ByItemText())))
    else Arr(Sort(CanonicalEntries(t, le), ByKey(le)))
  }

  /** The entries of an array with their values in normal form, still in the old order. */
  function CanonicalEntries(t: Tree, le: KeyOrder): (r: seq<Element>)
    requires t.Arr?
    ensures |r| == |t.entries|
    decreases t, 0
  {
    seq(|t.entries|, i requires 0 <= i < |t.entries| => Entry(t.entries[i].key, Canonical(t.entries[i].value, le)))
  }

  /** The serializer's procedure: each branch rewrites the values in a loop and then sorts. */
  method Canonicalize(t: Tree, le: KeyOrder) returns (r: Tree)
    ensures r == Canonical(t, le)
    decreases t, 1
  {
    if t.Leaf? { return t; }
    var entries := CanonicalizeEach(t, le);
    if IsList(t.entries) {
      r := Arr(Listed(Sort(Values(entries), ByItemText())));
    } else {
      r := Arr(Sort(entries, ByKey(le)));
    }
  }

  method CanonicalizeEach(t: Tree, le: KeyOrder) returns (entries: seq<Element>)
    requires t.Arr?
    ensures entries == CanonicalEntries(t, le)
    decreases t, 0
  {
    hide Canonical;
    entries := t.entries;
    for i := 0 to |t.entries|
      invariant |entries| == |t.entries|
      invariant forall j | 0 <= j < i :: entries[j] == Entry(t.entries[j].key, Canonical(t.entries[j].value, le))
      invariant forall j | i <= j < |entries| :: entries[j] == t.entries[j]
    {
      var value := Canonicalize(t.entries[i].value, le);
      entries := entries[i := Entry(t.entries[i].key, value)];
    }
  }

  // ----- orders and lookups -----

  lemma ByItemTextIsPreorder()
    ensures TotalPreorder(ByItemText())
  {
    forall a: Tree, b: Tree ensures ByItemText()(a, b) || ByItemText()(b, a) { StrLeTotal(ItemText(a), ItemText(b)); }
    forall a: Tree, b: Tree, c: Tree | ByItemText()(a, b) && ByItemText()(b, c) ensures ByItemText()(a, c) {
      StrLeTransitive(ItemText(a), ItemText(b), ItemText(c));
    }
  }

  lemma SameKeySets(a: seq<Element>, b: seq<Element>)
    requires |a| == |b| && forall i | 0 <= i < |a| :: a[i].key == b[i].key
    ensures KeySet(a) == KeySet(b)
  {
    forall k ensures k in KeySet(a) <==> k in KeySet(b) {
      if k in KeySet(a) {
        var i :| 0 <= i < |a| && a[i].key == k;
        assert b[i] in b;
      }
      if k in KeySet(b) {
        var i :| 0 <= i < |b| && b[i].key == k;
        assert a[i] in a;
      }
    }
  }

  lemma PermutedKeySets(a: seq<Element>, b: seq<Element>)
    requires multiset(a) == multiset(b)
    ensures KeySet(a) == KeySet(b)
  {
    forall x ensures x in a <==> x in b { SameElements(a, b, x); }
  }

  lemma EntriesAreOrdered(entries: seq<Element>, le: KeyOrder)
    requires OrdersKeys(KeySet(entries), le)
    ensures OrdersOn(entries, ByKey(le))
  {
    forall e | e in entries ensures e.key in KeySet(entries) {}
    hide KeySet;
  }

  lemma {:induction false} LookupFinds(entries: seq<Element>, key: Key)
    ensures match Lookup(entries, key)
            case Some(v) => Entry(key, v) in entries
            case None => forall e | e in entries :: e.key != key
  {
    if entries != [] && entries[0].key != key { LookupFinds(entries[1..], key); }
  }

  lemma LookupUnique(entries: seq<Element>, e: Element)
    requires DistinctKeys(entries) && e in entries
    ensures Lookup(entries, e.key) == Some(e.value)
  {
  }

  /** Looking up a key does not depend on the order of the entries. */
  lemma LookupInAnyOrder(a: seq<Element>, b: seq<Element>, key: Key)
    requires DistinctKeys(a) && DistinctKeys(b) && multiset(a) == multiset(b)
    ensures Lookup(a, key) == Lookup(b, key)
  {
    LookupFinds(a, key);
    LookupFinds(b, key);
    if Lookup(a, key).Some? {
      SameElements(a, b, Entry(key, Lookup(a, key).value));
      LookupUnique(b, Entry(key, Lookup(a, key).value));
    } else if Lookup(b, key).Some? {
      SameElements(a, b, Entry(key, Lookup(b, key).value));
    }
  }

  lemma PermutedKeysDistinct(a: seq<Element>, b: seq<Element>)
    requires DistinctKeys(a) && multiset(a) == multiset(b)
    ensures DistinctKeys(b)
  {
    assert Distinct(a);
    DistinctPermutation(a, b);
    forall i, j | 0 <= i < j < |b| ensures b[i].key != b[j].key {
      SameElements(a, b, b[i]);
      SameElements(a, b, b[j]);
      var k :| 0 <= k < |a| && a[k] == b[i];
      var l :| 0 <= l < |a| && a[l] == b[j];
      assert k != l;
    }
  }

  function OnValue(v: Option<Tree>, le: KeyOrder): Option<Tree> {
    match v case None => None case Some(t) => Some(Canonical(t, le))
  }

  lemma {:induction false} LookupCanonical(t: Tree, le: KeyOrder, key: Key, from: nat)
    requires t.Arr? && from <= |t.entries|
    ensures Lookup(CanonicalEntries(t, le)[from..], key) == OnValue(Lookup(t.entries[from..], key), le)
    decreases |t.entries| - from
  {
    hide Canonical;
    if from < |t.entries| {
      assert CanonicalEntries(t, le)[from..][1..] == CanonicalEntries(t, le)[from + 1..];
      assert t.entries[from..][1..] == t.entries[from + 1..];
      LookupCanonical(t, le, key, from + 1);
    }
  }

  lemma CanonicalKinds(t: Tree, le: KeyOrder)
    ensures Canonical(t, le) == Leaf(Null) <==> t == Leaf(Null)
    ensures ToText(Canonical(t, le)) == ToText(t)
    ensures Canonical(t, le).Arr? <==> t.Arr?
  {
  }

  lemma {:induction false} ListHasNoTextKey(entries: seq<Element>, key: string, from: nat)
    requires IsList(entries) && from <= |entries|
    ensures Lookup(entries[from..], StrKey(key)) == None
    decreases |entries| - from
  {
    if from < |entries| {
      assert entries[from..][1..] == entries[from + 1..];
      ListHasNoTextKey(entries, key, from + 1);
    }
  }

  lemma PresentIsKept(t: Tree, le: KeyOrder, key: string)
    requires WellFormed(t)
    ensures Present(Canonical(t, le), key) == OnValue(Present(t, key), le)
  {
    hide Lookup, CanonicalEntries, Sort;
    if t.Arr? {
      var r := Canonical(t, le);
      assert t.entries[0..] == t.entries && r.entries[0..] == r.entries;
      if IsList(t.entries) {
        ListHasNoTextKey(t.entries, key, 0);
        ListHasNoTextKey(r.entries, key, 0);
      } else {
        var c := CanonicalEntries(t, le);
        assert c[0..] == c;
        LookupCanonical(t, le, StrKey(key), 0);
        CanonicalKeys(t, le);
        PermutedKeysDistinct(c, r.entries);
        LookupInAnyOrder(c, r.entries, StrKey(key));
        match Lookup(t.entries, StrKey(key)) {
          case Some(v) => CanonicalKinds(v, le);
          case None =>
        }
      }
    }
  }

  lemma CanonicalKeys(t: Tree, le: KeyOrder)
    requires t.Arr? && DistinctKeys(t.entries)
    ensures DistinctKeys(CanonicalEntries(t, le))
  {
  }

  /** Normalizing an item does not change the text it is ordered by. */
  lemma ItemTextIsKept(t: Tree, le: KeyOrder)
    requires WellFormed(t)
    ensures ItemText(Canonical(t, le)) == ItemText(t)
  {
    hide Canonical, Present, ToText;
    PresentIsKept(t, le, "id");
    PresentIsKept(t, le, "slug");
    PresentIsKept(t, le, "ordinal");
    if Present(t, "id").Some? { CanonicalKinds(Present(t, "id").value, le); }
    if Present(t, "slug").Some? { CanonicalKinds(Present(t, "slug").value, le); }
    if Present(t, "ordinal").Some? { CanonicalKinds(Present(t, "ordinal").value, le); }
  }

  lemma {:induction false} CanonicalIsWellFormed(t: Tree, le: KeyOrder)
    requires WellFormed(t)
    ensures WellFormed(Canonical(t, le))
    decreases t
  {
    hide Sort;
    if t.Arr? {
      var c, r := CanonicalEntries(t, le), Canonical(t, le).entries;
      forall i | 0 <= i < |c| ensures WellFormed(c[i].value) { CanonicalIsWellFormed(t.entries[i].value, le); }
      CanonicalKeys(t, le);
      if IsList(t.entries) {
        forall i | 0 <= i < |r| ensures WellFormed(r[i].value) {
          SameElements(Values(c), Values(r), Values(r)[i]);
        }
      } else {
        PermutedKeysDistinct(c, r);
        forall i | 0 <= i < |r| ensures WellFormed(r[i].value) { SameElements(c, r, r[i]); }
      }
    }
  }

  // ----- idempotence -----

  /** The keys are 0, 1, ..., n - 1, in whatever order. */
  predicate KeysCount(entries: seq<Element>) {
    forall i | 0 <= i < |entries| :: Lookup(entries, IntKey(i)).Some?
  }

  /** The items of such an array, read in key order, are in the order of their identifying texts. */
  predicate ItemsInOrder(entries: seq<Element>)
    requires KeysCount(entries)
  {
    forall i, j | 0 <= i < j < |entries| ::
      StrLe(ItemText(Lookup(entries, IntKey(i)).value), ItemText(Lookup(entries, IntKey(j)).value))
  }

  /** No array, at any depth, is a list with its keys shuffled and its items out of order. */
  ghost predicate Settled(t: Tree) {
    t.Arr? ==>
      && (forall i | 0 <= i < |t.entries| :: Settled(t.entries[i].value))
      && (KeysCount(t.entries) && !IsList(t.entries) ==> ItemsInOrder(t.entries))
  }

  ghost predicate Fixed(t: Tree, le: KeyOrder) {
    Canonical(t, le) == t
  }

  lemma KeyIsAt(entries: seq<Element>, key: Key) returns (p: nat)
    requires Lookup(entries, key).Some?
    ensures p < |entries| && entries[p].key == key
  {
    LookupFinds(entries, key);
    p :| 0 <= p < |entries| && entries[p] == Entry(key, Lookup(entries, key).value);
  }

  lemma {:induction false} CountedKeyNotBefore(entries: seq<Element>, le: KeyOrder, i: nat, p: nat)
    requires OrdersKeys(KeySet(entries), le) && DistinctKeys(entries) && SortedBy(entries, ByKey(le))
             && KeysCount(entries)
    requires i < |entries| && p < |entries| && entries[p].key == IntKey(i)
    ensures p >= i
  {
    if i > 0 {
      var q := KeyIsAt(entries, IntKey(i - 1));
      CountedKeyNotBefore(entries, le, i - 1, q);
      CountedKeysAscend(entries, le, i - 1, q, p);
    }
  }

  lemma CountedKeysAscend(entries: seq<Element>, le: KeyOrder, i: nat, q: nat, p: nat)
    requires OrdersKeys(KeySet(entries), le) && DistinctKeys(entries) && SortedBy(entries, ByKey(le))
    requires q < |entries| && p < |entries| && entries[q].key == IntKey(i) && entries[p].key == IntKey(i + 1)
    ensures q < p
  {
  }

  lemma {:induction false} CountedKeyNotAfter(entries: seq<Element>, le: KeyOrder, i: nat, p: nat)
    requires OrdersKeys(KeySet(entries), le) && DistinctKeys(entries) && SortedBy(entries, ByKey(le))
             && KeysCount(entries)
    requires i < |entries| && p < |entries| && entries[p].key == IntKey(i)
    ensures p <= i
    decreases |entries| - i
  {
    if i + 1 < |entries| {
      var q := KeyIsAt(entries, IntKey(i + 1));
      CountedKeyNotAfter(entries, le, i + 1, q);
      CountedKeysAscend(entries, le, i, p, q);
    }
  }

  /** Sorting an array whose keys are 0 to n - 1 makes it a list. */
  lemma SortedCountIsList(entries: seq<Element>, le: KeyOrder)
    requires OrdersKeys(KeySet(entries), le) && DistinctKeys(entries) && SortedBy(entries, ByKey(le))
             && KeysCount(entries)
    ensures IsList(entries)
  {
    forall i | 0 <= i < |entries| ensures entries[i].key == IntKey(i) {
      var p := KeyIsAt(entries, IntKey(i));
      CountedKeyNotBefore(entries, le, i, p);
      CountedKeyNotAfter(entries, le, i, p);
    }
  }

  lemma ListCounts(entries: seq<Element>)
    requires IsList(entries) && DistinctKeys(entries)
    ensures KeysCount(entries)
    ensures forall i | 0 <= i < |entries| :: Lookup(entries, IntKey(i)) == Some(entries[i].value)
  {
    forall i | 0 <= i < |entries| ensures Lookup(entries, IntKey(i)) == Some(entries[i].value) {
      LookupUnique(entries, entries[i]);
    }
  }

  lemma CanonicalKeySet(t: Tree, le: KeyOrder)
    requires t.Arr?
    ensures KeySet(CanonicalEntries(t, le)) == KeySet(t.entries)
  {
    hide Canonical, KeySet;
    SameKeySets(t.entries, CanonicalEntries(t, le));
  }

  /** What `ksort` gives: the canonical entries, in key order. */
  lemma KeySorted(t: Tree, le: KeyOrder)
    requires WellFormed(t) && t.Arr? && !IsList(t.entries) && SoundKeyOrder(t, le)
    ensures var r := Canonical(t, le).entries;
            && DistinctKeys(r) && SortedBy(r, ByKey(le)) && multiset(r) == multiset(CanonicalEntries(t, le))
            && |r| == |t.entries| && OrdersKeys(KeySet(r), le)
  {
    hide Sort, CanonicalEntries, OrdersKeys, OrdersOn, KeySet, DistinctKeys, SortedBy;
    var c, r := CanonicalEntries(t, le), Canonical(t, le).entries;
    CanonicalKeys(t, le);
    PermutedKeysDistinct(c, r);
    CanonicalKeySet(t, le);
    EntriesAreOrdered(c, le);
    SortIsSortedOn(c, ByKey(le));
    PermutedKeySets(c, r);
  }

  /** After `ksort` the array is a list exactly when its keys were 0 to n - 1. */
  lemma KeySortMakesList(t: Tree, le: KeyOrder)
    requires WellFormed(t) && t.Arr? && !IsList(t.entries) && SoundKeyOrder(t, le)
    ensures var r := Canonical(t, le).entries;
            && DistinctKeys(r) && SortedBy(r, ByKey(le)) && multiset(r) == multiset(CanonicalEntries(t, le))
            && (IsList(r) <==> KeysCount(t.entries))
            && (IsList(r) ==> forall i | 0 <= i < |r| ::
                  Lookup(t.entries, IntKey(i)).Some? && r[i].value == Canonical(Lookup(t.entries, IntKey(i)).value, le))
  {
    hide Sort, CanonicalEntries, OrdersKeys, KeySet, Canonical, DistinctKeys, SortedBy, SoundKeyOrder;
    CanonicalKinds(t, le);
    var c, r := CanonicalEntries(t, le), Canonical(t, le).entries;
    KeySorted(t, le);
    CanonicalKeys(t, le);
    forall i: nat ensures Lookup(r, IntKey(i)) == OnValue(Lookup(t.entries, IntKey(i)), le) {
      LookupInAnyOrder(c, r, IntKey(i));
      LookupCanonical(t, le, IntKey(i), 0);
      assert c[0..] == c && t.entries[0..] == t.entries;
    }
    assert KeysCount(r) <==> KeysCount(t.entries);
    if KeysCount(r) { SortedCountIsList(r, le); }
    if IsList(r) { ListCounts(r); }
  }

  /** Normalizing again a list that is in item order only normalizes its items again. */
  lemma ListAgain(r: Tree, le: KeyOrder)
    requires WellFormed(r) && r.Arr? && IsList(r.entries)
    requires SortedBy(Values(r.entries), ByItemText())
    ensures Canonical(r, le) == Arr(CanonicalEntries(r, le))
  {
    hide Sort;
    var again := Values(CanonicalEntries(r, le));
    forall i, j | 0 <= i < j < |again| ensures ByItemText()(again[i], again[j]) {
      ItemTextIsKept(r.entries[i].value, le);
      ItemTextIsKept(r.entries[j].value, le);
      assert ByItemText()(Values(r.entries)[i], Values(r.entries)[j]);
    }
    SortOfSorted(again, ByItemText());
    assert Listed(again) == CanonicalEntries(r, le);
  }

  lemma MapAgain(r: Tree, le: KeyOrder)
    requires r.Arr? && !IsList(r.entries) && SortedBy(r.entries, ByKey(le))
    ensures Canonical(r, le) == Arr(CanonicalEntries(r, le))
  {
    hide Sort;
    var again := CanonicalEntries(r, le);
    forall i, j | 0 <= i < j < |again| ensures ByKey(le)(again[i], again[j]) {
      assert ByKey(le)(r.entries[i], r.entries[j]);
    }
    SortOfSorted(again, ByKey(le));
  }

  ghost predicate AllFixed(items: seq<Tree>, le: KeyOrder) {
    forall v | v in items :: Fixed(v, le)
  }

  lemma FixedEntries(r: Tree, le: KeyOrder)
    requires r.Arr?
    ensures CanonicalEntries(r, le) == r.entries <==> AllFixed(Values(r.entries), le)
  {
    hide Canonical;
    var c, items := CanonicalEntries(r, le), Values(r.entries);
    if AllFixed(items, le) {
      forall i | 0 <= i < |c| ensures c[i] == r.entries[i] {
        assert items[i] in items;
        assert Fixed(items[i], le);
      }
    }
    if c == r.entries {
      forall v | v in items ensures Fixed(v, le) {
        var i :| 0 <= i < |items| && items[i] == v;
        assert c[i] == r.entries[i];
      }
    }
  }

  lemma ValuesInAnyOrder(a: seq<Element>, b: seq<Element>, v: Tree)
    requires multiset(a) == multiset(b)
    ensures v in Values(a) ==> v in Values(b)
  {
    if v in Values(a) {
      var i :| 0 <= i < |a| && Values(a)[i] == v;
      SameElements(a, b, a[i]);
      var j :| 0 <= j < |b| && b[j] == a[i];
      assert Values(b)[j] == v;
    }
  }

  /** All values of the normal form are fixed exactly when the normal forms of all values are. */
  lemma FixedThroughSorting(t: Tree, le: KeyOrder)
    requires t.Arr?
    ensures AllFixed(Values(Canonical(t, le).entries), le) <==> AllFixed(Values(CanonicalEntries(t, le)), le)
  {
    hide Sort, Fixed, CanonicalEntries;
    var c, r := CanonicalEntries(t, le), Canonical(t, le).entries;
    forall v ensures v in Values(r) <==> v in Values(c) {
      if IsList(t.entries) {
        SameElements(Values(r), Values(c), v);
      } else {
        ValuesInAnyOrder(c, r, v);
        ValuesInAnyOrder(r, c, v);
      }
    }
  }

  lemma FixedItems(t: Tree, le: KeyOrder)
    requires t.Arr?
    ensures AllFixed(Values(CanonicalEntries(t, le)), le) <==>
              forall i | 0 <= i < |t.entries| :: Fixed(Canonical(t.entries[i].value, le), le)
  {
    hide Canonical, Fixed;
    var items := Values(CanonicalEntries(t, le));
    assert forall i | 0 <= i < |items| :: items[i] == Canonical(t.entries[i].value, le);
    if AllFixed(items, le) {
      forall i | 0 <= i < |items| ensures Fixed(Canonical(t.entries[i].value, le), le) { assert items[i] in items; }
    }
  }

  /** Normalizing twice is normalizing once, exactly for settled values. */
  lemma {:induction false} CanonicalIsIdempotent(t: Tree, le: KeyOrder)
    requires WellFormed(t) && SoundKeyOrder(t, le)
    ensures Canonical(Canonical(t, le), le) == Canonical(t, le) <==> Settled(t)
    decreases t
  {
    hide Sort, CanonicalEntries, OrdersKeys, ItemsInOrder, KeysCount;
    if t.Arr? {
      var r := Canonical(t, le);
      forall i | 0 <= i < |t.entries|
        ensures Fixed(Canonical(t.entries[i].value, le), le) <==> Settled(t.entries[i].value)
      {
        CanonicalIsIdempotent(t.entries[i].value, le);
      }
      CanonicalIsWellFormed(t, le);
      FixedThroughSorting(t, le);
      FixedItems(t, le);
      FixedEntries(r, le);
      if IsList(t.entries) {
        ByItemTextIsPreorder();
        SortIsSorted(Values(CanonicalEntries(t, le)), ByItemText());
        ListAgain(r, le);
      } else {
        KeySortMakesList(t, le);
        if KeysCount(t.entries) {
          ShuffledAgain(t, le);
        } else {
          MapAgain(r, le);
        }
      }
    }
  }

  /** The one case where the second pass sorts otherwise than the first: the array has become a list. */
  lemma ShuffledAgain(t: Tree, le: KeyOrder)
    requires WellFormed(t) && SoundKeyOrder(t, le) && t.Arr? && !IsList(t.entries) && KeysCount(t.entries)
    ensures var r := Canonical(t, le);
            Fixed(r, le) <==> ItemsInOrder(t.entries) && AllFixed(Values(r.entries), le)
  {
    hide Sort, CanonicalEntries, OrdersKeys;
    var r := Canonical(t, le);
    KeySortMakesList(t, le);
    CanonicalIsWellFormed(t, le);
    FixedEntries(r, le);
    var items := Values(r.entries);
    forall i | 0 <= i < |items| ensures ItemText(items[i]) == ItemText(Lookup(t.entries, IntKey(i)).value) {
      WellFormedLookup(t, IntKey(i));
      ItemTextIsKept(Lookup(t.entries, IntKey(i)).value, le);
    }
    if ItemsInOrder(t.entries) {
      assert SortedBy(items, ByItemText());
      ListAgain(r, le);
    }
    if Fixed(r, le) {
      SecondPassSorts(r, le);
      forall i, j | 0 <= i < j < |items| ensures StrLe(ItemText(items[i]), ItemText(items[j])) {
        assert ByItemText()(items[i], items[j]);
      }
    }
  }

  lemma SecondPassSorts(r: Tree, le: KeyOrder)
    requires r.Arr? && IsList(r.entries) && Fixed(r, le)
    ensures SortedBy(Values(r.entries), ByItemText())
  {
    hide Sort, CanonicalEntries;
    ByItemTextIsPreorder();
    SortIsSorted(Values(CanonicalEntries(r, le)), ByItemText());
  }

  lemma WellFormedLookup(t: Tree, key: Key)
    requires WellFormed(t) && t.Arr? && Lookup(t.entries, key).Some?
    ensures WellFormed(Lookup(t.entries, key).value)
  {
    var p := KeyIsAt(t.entries, key);
    LookupUnique(t.entries, t.entries[p]);
  }

  // ----- which values have one normal form -----

  /** Positions, from a given one on, of the items with a given identifying text. */
  function Picks(entries: seq<Element>, text: string, from: nat): (r: seq<nat>)
    requires from <= |entries|
    ensures forall i | 0 <= i < |r| :: r[i] < |entries|
    decreases |entries| - from
  {
    if from == |entries| then []
    else (if ItemText(entries[from].value) == text then [from] else []) + Picks(entries, text, from + 1)
  }

  /** No array at any depth has the keys 0 to n - 1 in another order. */
  ghost predicate Unshuffled(t: Tree) {
    t.Arr? ==>
      && (forall i | 0 <= i < |t.entries| :: Unshuffled(t.entries[i].value))
      && (KeysCount(t.entries) ==> IsList(t.entries))
  }

  /**
   The same value up to the order of map keys and of list items: items with the same identifying text
   keep their order among themselves, all others may be anywhere.
   */
  ghost predicate Alike(a: Tree, b: Tree)
    decreases a
  {
    if a.Leaf? || b.Leaf? then a == b
    else if IsList(a.entries) != IsList(b.entries) || |a.entries| != |b.entries| then false
    else if IsList(a.entries) then
      forall text: string :: AlikeItems(a, b, text)
    else
      forall i | 0 <= i < |a.entries| ::
        var other := Lookup(b.entries, a.entries[i].key);
        other.Some? && Alike(a.entries[i].value, other.value)
  }

  ghost predicate AlikeItems(a: Tree, b: Tree, text: string)
    requires a.Arr? && b.Arr?
    decreases a, 0
  {
    var p, q := Picks(a.entries, text, 0), Picks(b.entries, text, 0);
    |p| == |q| && forall i | 0 <= i < |p| :: Alike(a.entries[p[i]].value, b.entries[q[i]].value)
  }

  /** The canonical forms of the items at these positions. */
  function FormsAt(t: Tree, positions: seq<nat>, le: KeyOrder): (r: seq<Tree>)
    requires t.Arr? && forall i | 0 <= i < |positions| :: positions[i] < |t.entries|
    ensures |r| == |positions|
  {
    seq(|positions|, i requires 0 <= i < |positions| => Canonical(t.entries[positions[i]].value, le))
  }

  lemma FormsOfMore(t: Tree, first: nat, rest: seq<nat>, le: KeyOrder)
    requires t.Arr? && first < |t.entries| && forall i | 0 <= i < |rest| :: rest[i] < |t.entries|
    ensures FormsAt(t, [first] + rest, le) == [Canonical(t.entries[first].value, le)] + FormsAt(t, rest, le)
  {
    hide Canonical;
  }

  /** The canonical items with one identifying text, in order, are a class of the item order. */
  lemma {:induction false} PicksAreAClass(t: Tree, le: KeyOrder, z: Tree, from: nat)
    requires WellFormed(t) && t.Arr? && from <= |t.entries|
    ensures Class(Values(CanonicalEntries(t, le))[from..], z, ByItemText())
            == FormsAt(t, Picks(t.entries, ItemText(z), from), le)
    decreases |t.entries| - from
  {
    hide *;
    ItemsAreCanonical(t, le);
    PicksStep(t, ItemText(z), from);
    ClassStep(Values(CanonicalEntries(t, le)), z, from);
    if from < |t.entries| {
      PicksAreAClass(t, le, z, from + 1);
      ItemIsTied(t, le, z, from);
      var rest := Picks(t.entries, ItemText(z), from + 1);
      if Tied(z, Canonical(t.entries[from].value, le)) {
        FormsOfMore(t, from, rest, le);
      } else {
        assert [] + rest == rest;
      }
    }
  }

  lemma ItemsAreCanonical(t: Tree, le: KeyOrder)
    requires t.Arr?
    ensures |Values(CanonicalEntries(t, le))| == |t.entries|
    ensures forall i | 0 <= i < |t.entries| :: Values(CanonicalEntries(t, le))[i] == Canonical(t.entries[i].value, le)
  {
    hide Canonical;
  }

  lemma ItemIsTied(t: Tree, le: KeyOrder, z: Tree, i: nat)
    requires WellFormed(t) && t.Arr? && i < |t.entries|
    ensures Tied(z, Canonical(t.entries[i].value, le)) <==> ItemText(t.entries[i].value) == ItemText(z)
  {
    hide Canonical, ItemText, ByItemText;
    ItemTextIsKept(t.entries[i].value, le);
    TextsTie(z, Canonical(t.entries[i].value, le));
  }

  predicate Tied(z: Tree, x: Tree) {
    ByItemText()(z, x) && ByItemText()(x, z)
  }

  lemma ClassStep(items: seq<Tree>, z: Tree, from: nat)
    requires from <= |items|
    ensures Class(items[from..], z, ByItemText()) ==
              if from == |items| then []
              else (if Tied(z, items[from]) then [items[from]] else []) + Class(items[from + 1..], z, ByItemText())
  {
  }

  lemma PicksStep(t: Tree, text: string, from: nat)
    requires t.Arr? && from <= |t.entries|
    ensures Picks(t.entries, text, from) ==
              if from == |t.entries| then []
              else (if ItemText(t.entries[from].value) == text then [from] else []) + Picks(t.entries, text, from + 1)
  {
    hide ItemText;
  }

  lemma TextsTie(a: Tree, b: Tree)
    ensures (ByItemText()(a, b) && ByItemText()(b, a)) <==> ItemText(a) == ItemText(b)
  {
    if ByItemText()(a, b) && ByItemText()(b, a) { StrLeAntisymmetric(ItemText(a), ItemText(b)); }
    StrLeTotal(ItemText(a), ItemText(a));
  }

  /** Every text identifies some item. */
  lemma TextOfSomeItem(text: string)
    ensures ItemText(Arr([Entry(StrKey("id"), Leaf(Str(text)))])) == text
  {
  }

  ghost predicate SameForm(a: Tree, b: Tree, le: KeyOrder) {
    Canonical(a, le) == Canonical(b, le)
  }

  lemma ListsOfOneForm(a: Tree, b: Tree, le: KeyOrder)
    requires WellFormed(a) && WellFormed(b) && a.Arr? && b.Arr? && IsList(a.entries) && IsList(b.entries)
    ensures SameForm(a, b, le) <==>
              SameClasses(Values(CanonicalEntries(a, le)), Values(CanonicalEntries(b, le)), ByItemText())
  {
    hide Sort, SameClasses, CanonicalEntries;
    ByItemTextIsPreorder();
    SortsAlike(Values(CanonicalEntries(a, le)), Values(CanonicalEntries(b, le)), ByItemText());
    assert Values(Canonical(a, le).entries) == Sort(Values(CanonicalEntries(a, le)), ByItemText());
    assert Values(Canonical(b, le).entries) == Sort(Values(CanonicalEntries(b, le)), ByItemText());
  }

  /** One class of two lists agrees exactly when their items with that text have one form, pairwise. */
  lemma ClassOfOneForm(a: Tree, b: Tree, le: KeyOrder, z: Tree)
    requires WellFormed(a) && WellFormed(b) && a.Arr? && b.Arr?
    ensures Class(Values(CanonicalEntries(a, le)), z, ByItemText())
            == Class(Values(CanonicalEntries(b, le)), z, ByItemText()) <==>
              var p, q := Picks(a.entries, ItemText(z), 0), Picks(b.entries, ItemText(z), 0);
              |p| == |q| && forall i | 0 <= i < |p| :: SameForm(a.entries[p[i]].value, b.entries[q[i]].value, le)
  {
    hide Class, Canonical, CanonicalEntries, Picks;
    PicksAreAClass(a, le, z, 0);
    PicksAreAClass(b, le, z, 0);
    var s, t := Values(CanonicalEntries(a, le)), Values(CanonicalEntries(b, le));
    assert s[0..] == s && t[0..] == t;
    var p, q := Picks(a.entries, ItemText(z), 0), Picks(b.entries, ItemText(z), 0);
    var cs, ct := FormsAt(a, p, le), FormsAt(b, q, le);
    assert forall i | 0 <= i < |p| :: cs[i] == Canonical(a.entries[p[i]].value, le);
    assert forall i | 0 <= i < |q| :: ct[i] == Canonical(b.entries[q[i]].value, le);
  }

  lemma KeysNeverTie(entries: seq<Element>, le: KeyOrder)
    requires OrdersKeys(KeySet(entries), le) && DistinctKeys(entries)
    ensures NoTies(entries, ByKey(le))
  {
    forall e | e in entries ensures e.key in KeySet(entries) {}
  }

  /** Sorted arrays of one form are arrangements of the same entries. */
  lemma MapsOfOneForm(a: Tree, b: Tree, le: KeyOrder)
    requires WellFormed(a) && WellFormed(b) && SoundKeyOrder(a, le) && SoundKeyOrder(b, le)
    requires a.Arr? && b.Arr? && !IsList(a.entries) && !IsList(b.entries)
    ensures SameForm(a, b, le) <==> multiset(CanonicalEntries(a, le)) == multiset(CanonicalEntries(b, le))
  {
    hide Sort, CanonicalEntries, OrdersKeys, OrdersOn, KeySet, NoTies;
    var c, d := CanonicalEntries(a, le), CanonicalEntries(b, le);
    if multiset(c) == multiset(d) {
      CanonicalKeys(a, le);
      CanonicalKeySet(a, le);
      EntriesAreOrdered(c, le);
      KeysNeverTie(c, le);
      SortOfUntiedOn(c, d, ByKey(le));
    }
  }

  /** Every entry of a has its counterpart in b, of the same form. */
  ghost predicate EntriesMatch(a: Tree, b: Tree, le: KeyOrder)
    requires a.Arr? && b.Arr?
  {
    forall i | 0 <= i < |a.entries| ::
      var other := Lookup(b.entries, a.entries[i].key);
      other.Some? && SameForm(a.entries[i].value, other.value, le)
  }

  lemma EntriesInCommon(a: Tree, b: Tree, le: KeyOrder)
    requires WellFormed(a) && WellFormed(b) && a.Arr? && b.Arr?
    ensures multiset(CanonicalEntries(a, le)) == multiset(CanonicalEntries(b, le)) <==>
              |a.entries| == |b.entries| && EntriesMatch(a, b, le)
  {
    hide Canonical, Lookup, SameForm;
    var c, d := CanonicalEntries(a, le), CanonicalEntries(b, le);
    CanonicalKeys(a, le);
    CanonicalKeys(b, le);
    if multiset(c) == multiset(d) {
      assert |c| == |multiset(c)| == |multiset(d)| == |d|;
      forall i | 0 <= i < |a.entries|
        ensures Lookup(b.entries, a.entries[i].key).Some?
                && SameForm(a.entries[i].value, Lookup(b.entries, a.entries[i].key).value, le)
      {
        SameElements(c, d, c[i]);
        var j :| 0 <= j < |d| && d[j] == c[i];
        LookupUnique(b.entries, b.entries[j]);
        OneForm(a.entries[i].value, b.entries[j].value, le);
      }
    }
    if |a.entries| == |b.entries| && EntriesMatch(a, b, le) {
      forall e | e in c ensures e in d {
        var i :| 0 <= i < |c| && c[i] == e;
        var j := KeyIsAt(b.entries, a.entries[i].key);
        LookupUnique(b.entries, b.entries[j]);
        OneForm(a.entries[i].value, b.entries[j].value, le);
        assert d[j] == e;
      }
      assert Distinct(c);
      DistinctFill(c, d);
    }
  }

  lemma OneForm(a: Tree, b: Tree, le: KeyOrder)
    ensures SameForm(a, b, le) <==> Canonical(a, le) == Canonical(b, le)
  {
  }

  lemma ListMeetsMap(a: Tree, b: Tree, le: KeyOrder)
    requires WellFormed(a) && WellFormed(b) && SoundKeyOrder(a, le) && SoundKeyOrder(b, le) && a.Arr? && b.Arr?
    requires IsList(a.entries) && !IsList(b.entries) && Unshuffled(b)
    ensures !SameForm(a, b, le)
  {
    hide Sort, CanonicalEntries;
    KeySortMakesList(b, le);
  }

  /**
   What the registry's revision depends on: two values have one normal form exactly when they are alike.
   In particular map key order never shows, and neither does the order of lists whose items are told
   apart by their identifying texts.
   */
  lemma {:induction false} OneFormIsAlike(a: Tree, b: Tree, le: KeyOrder)
    requires WellFormed(a) && WellFormed(b) && Unshuffled(a) && Unshuffled(b) && SoundKeyOrder(a, le)
             && SoundKeyOrder(b, le)
    ensures Canonical(a, le) == Canonical(b, le) <==> Alike(a, b)
    decreases a
  {
    hide Canonical, OrdersKeys, KeysCount;
    OneForm(a, b, le);
    if a.Leaf? || b.Leaf? {
      LeafForms(a, b, le);
    } else if IsList(a.entries) && IsList(b.entries) {
      ListsAlike(a, b, le);
    } else if IsList(a.entries) {
      ListMeetsMap(a, b, le);
    } else if IsList(b.entries) {
      ListMeetsMap(b, a, le);
      OneForm(b, a, le);
    } else {
      MapsOfOneForm(a, b, le);
      EntriesInCommon(a, b, le);
      forall i | 0 <= i < |a.entries| && Lookup(b.entries, a.entries[i].key).Some?
        ensures var other := Lookup(b.entries, a.entries[i].key).value;
                SameForm(a.entries[i].value, other, le) <==> Alike(a.entries[i].value, other)
      {
        var other := Lookup(b.entries, a.entries[i].key).value;
        var j := KeyIsAt(b.entries, a.entries[i].key);
        LookupUnique(b.entries, b.entries[j]);
        OneForm(a.entries[i].value, other, le);
        OneFormIsAlike(a.entries[i].value, other, le);
      }
    }
  }

  lemma LeafForms(a: Tree, b: Tree, le: KeyOrder)
    requires a.Leaf? || b.Leaf?
    ensures SameForm(a, b, le) <==> a == b
  {
  }

  lemma FormKeepsLength(a: Tree, b: Tree, le: KeyOrder)
    requires SameForm(a, b, le) && a.Arr? && b.Arr?
    ensures |a.entries| == |b.entries|
  {
    hide Sort, CanonicalEntries;
  }

  ghost predicate AllItemsAlike(a: Tree, b: Tree)
    requires a.Arr? && b.Arr?
  {
    forall text: string :: AlikeItems(a, b, text)
  }

  lemma ListsAlike(a: Tree, b: Tree, le: KeyOrder)
    requires WellFormed(a) && WellFormed(b) && Unshuffled(a) && Unshuffled(b) && SoundKeyOrder(a, le)
             && SoundKeyOrder(b, le)
    requires a.Arr? && b.Arr? && IsList(a.entries) && IsList(b.entries)
    ensures SameForm(a, b, le) <==> Alike(a, b)
    decreases a, 0, 2
  {
    hide OrdersKeys, KeysCount, SameForm, AlikeItems, WellFormed, Unshuffled, IsList;
    ListsOfOneForm(a, b, le);
    ClassesAreItems(a, b, le);
    if SameForm(a, b, le) { FormKeepsLength(a, b, le); }
    assert Alike(a, b) <==> |a.entries| == |b.entries| && AllItemsAlike(a, b);
  }

  lemma ClassesAreItems(a: Tree, b: Tree, le: KeyOrder)
    requires WellFormed(a) && WellFormed(b) && Unshuffled(a) && Unshuffled(b) && SoundKeyOrder(a, le)
             && SoundKeyOrder(b, le) && a.Arr? && b.Arr?
    ensures SameClasses(Values(CanonicalEntries(a, le)), Values(CanonicalEntries(b, le)), ByItemText()) <==>
            AllItemsAlike(a, b)
    decreases a, 0, 1
  {
    hide Canonical, OrdersKeys, KeysCount, Class, CanonicalEntries, SameForm, AlikeItems, WellFormed, Unshuffled,
         Values, ItemText, ByItemText;
    var s, t := Values(CanonicalEntries(a, le)), Values(CanonicalEntries(b, le));
    forall z: Tree ensures Class(s, z, ByItemText()) == Class(t, z, ByItemText()) <==> AlikeItems(a, b, ItemText(z)) {
      ClassOfOneForm(a, b, le, z);
      AlikeItemsAreOfOneForm(a, b, le, ItemText(z));
    }
    if SameClasses(s, t, ByItemText()) {
      forall text: string ensures AlikeItems(a, b, text) {
        var z := Arr([Entry(StrKey("id"), Leaf(Str(text)))]);
        TextOfSomeItem(text);
        assert Class(s, z, ByItemText()) == Class(t, z, ByItemText());
      }
    }
  }

  lemma AlikeItemsAreOfOneForm(a: Tree, b: Tree, le: KeyOrder, text: string)
    requires WellFormed(a) && WellFormed(b) && Unshuffled(a) && Unshuffled(b) && SoundKeyOrder(a, le)
             && SoundKeyOrder(b, le) && a.Arr? && b.Arr?
    ensures AlikeItems(a, b, text) <==>
              var p, q := Picks(a.entries, text, 0), Picks(b.entries, text, 0);
              |p| == |q| && forall i | 0 <= i < |p| :: SameForm(a.entries[p[i]].value, b.entries[q[i]].value, le)
    decreases a, 0, 0
  {
    hide Canonical, OrdersKeys, KeysCount, Picks;
    var p, q := Picks(a.entries, text, 0), Picks(b.entries, text, 0);
    forall i | 0 <= i < |p| && i < |q|
      ensures SameForm(a.entries[p[i]].value, b.entries[q[i]].value, le) <==>
              Alike(a.entries[p[i]].value, b.entries[q[i]].value)
    {
      OneFormIsAlike(a.entries[p[i]].value, b.entries[q[i]].value, le);
      OneForm(a.entries[p[i]].value, b.entries[q[i]].value, le);
    }
  }

  // ----- consequences -----

  /** The entries of a map in any other order. */
  lemma MapOrderIsInvisible(a: Tree, b: Tree, le: KeyOrder)
    requires a.Arr? && b.Arr? && WellFormed(a) && WellFormed(b) && SoundKeyOrder(a, le) && SoundKeyOrder(b, le)
    requires !IsList(a.entries) && !IsList(b.entries) && multiset(a.entries) == multiset(b.entries)
    ensures Canonical(a, le) == Canonical(b, le)
  {
    hide Canonical, Lookup;
    assert |a.entries| == |multiset(a.entries)| == |multiset(b.entries)| == |b.entries|;
    forall i | 0 <= i < |a.entries| ensures Lookup(b.entries, a.entries[i].key) == Some(a.entries[i].value) {
      SameElements(a.entries, b.entries, a.entries[i]);
      LookupUnique(b.entries, a.entries[i]);
    }
    EntriesInCommon(a, b, le);
    MapsOfOneForm(a, b, le);
    OneForm(a, b, le);
  }

  /** The items of a list in any other order, when their identifying texts tell them apart. */
  lemma ListOrderIsInvisible(items: seq<Tree>, others: seq<Tree>, le: KeyOrder)
    requires multiset(items) == multiset(others)
    requires forall x | x in items :: WellFormed(x)
    requires forall i, j | 0 <= i < j < |items| :: ItemText(items[i]) != ItemText(items[j])
    ensures Canonical(Arr(Listed(items)), le) == Canonical(Arr(Listed(others)), le)
  {
    hide Sort, ItemText, WellFormed, Canonical, CanonicalEntries, TotalPreorder, NoTies, ByItemText, Distinct;
    assert |items| == |multiset(items)| == |multiset(others)| == |others|;
    var a, b := Arr(Listed(items)), Arr(Listed(others));
    var s, t := Values(CanonicalEntries(a, le)), Values(CanonicalEntries(b, le));
    assert Values(a.entries) == items && Values(b.entries) == others;
    ItemsAreCanonical(a, le);
    ItemsAreCanonical(b, le);
    forall i | 0 <= i < |s| ensures s[i] == Canonical(items[i], le) { assert a.entries[i].value == items[i]; }
    forall i | 0 <= i < |t| ensures t[i] == Canonical(others[i], le) { assert b.entries[i].value == others[i]; }
    forall i | 0 <= i < |s| ensures ItemText(s[i]) == ItemText(items[i]) && s[i] in t {
      CanonicalItemIsThere(items, others, i, s, t, le);
    }
    TellsApart(s);
    DistinctFill(s, t);
    ByItemTextIsPreorder();
    ItemsNeverTie(s);
    SortOfUntied(s, t, ByItemText());
    CanonicalLists(a, b, s, t, le);
  }

  lemma CanonicalItemIsThere(items: seq<Tree>, others: seq<Tree>, i: nat, s: seq<Tree>, t: seq<Tree>, le: KeyOrder)
    requires multiset(items) == multiset(others) && i < |items| == |s| && |t| == |others| && WellFormed(items[i])
    requires s[i] == Canonical(items[i], le) && forall j | 0 <= j < |t| :: t[j] == Canonical(others[j], le)
    ensures ItemText(s[i]) == ItemText(items[i]) && s[i] in t
  {
    hide ItemText, WellFormed, Canonical;
    ItemTextIsKept(items[i], le);
    assert items[i] in items;
    SameElements(items, others, items[i]);
    var j :| 0 <= j < |others| && others[j] == items[i];
    assert t[j] == s[i];
  }

  lemma TellsApart(s: seq<Tree>)
    requires forall i, j | 0 <= i < j < |s| :: ItemText(s[i]) != ItemText(s[j])
    ensures Distinct(s)
  {
    hide ItemText;
  }

  lemma CanonicalLists(a: Tree, b: Tree, s: seq<Tree>, t: seq<Tree>, le: KeyOrder)
    requires a.Arr? && b.Arr? && IsList(a.entries) && IsList(b.entries)
    requires s == Values(CanonicalEntries(a, le)) && t == Values(CanonicalEntries(b, le))
             && Sort(s, ByItemText()) == Sort(t, ByItemText())
    ensures Canonical(a, le) == Canonical(b, le)
  {
    hide Sort, CanonicalEntries;
  }

  lemma ItemsNeverTie(items: seq<Tree>)
    requires forall i, j | 0 <= i < j < |items| :: ItemText(items[i]) != ItemText(items[j])
    ensures NoTies(items, ByItemText())
  {
    forall x, y | x in items && y in items && ByItemText()(x, y) && ByItemText()(y, x) ensures x == y {
      TextsTie(x, y);
    }
  }

  /** Items without identifying text are all tied, so they keep the order they came in. */
  lemma KeylessItemsStay(items: seq<Tree>, le: KeyOrder)
    requires forall x | x in items :: WellFormed(x) && ItemText(x) == ""
    ensures Canonical(Arr(Listed(items)), le) == Arr(CanonicalEntries(Arr(Listed(items)), le))
  {
    hide Sort, ItemText;
    var a := Arr(Listed(items));
    var s := Values(CanonicalEntries(a, le));
    assert Values(a.entries) == items;
    forall i, j | 0 <= i < j < |s| ensures ByItemText()(s[i], s[j]) {
      assert items[i] in items && items[j] in items;
      ItemTextIsKept(items[i], le);
      ItemTextIsKept(items[j], le);
    }
    SortOfSorted(s, ByItemText());
    assert Listed(s) == CanonicalEntries(a, le);
  }

  function ShuffledList(): Tree {
    var item := (id: string) => Arr([Entry(StrKey("id"), Leaf(Str(id)))]);
    Arr([Entry(IntKey(1), item("a")), Entry(IntKey(0), item("b"))])
  }

  /** An array with keys 1, 0 needs two passes: the first makes it a list, the second orders the list. */
  lemma ShuffledListNeedsTwoPasses(le: KeyOrder)
    requires SoundKeyOrder(ShuffledList(), le)
    ensures WellFormed(ShuffledList())
    ensures Canonical(Canonical(ShuffledList(), le), le) != Canonical(ShuffledList(), le)
  {
    hide Canonical, SoundKeyOrder, WellFormed, Settled;
    ShuffledListIs();
    CanonicalIsIdempotent(ShuffledList(), le);
  }

  lemma ShuffledListIs()
    ensures WellFormed(ShuffledList()) && !Settled(ShuffledList())
  {
    hide ItemText, Settled, StrLe;
    var one, two := Arr([Entry(StrKey("id"), Leaf(Str("a")))]), Arr([Entry(StrKey("id"), Leaf(Str("b")))]);
    var t := ShuffledList();
    assert t == Arr([Entry(IntKey(1), one), Entry(IntKey(0), two)]);
    assert WellFormed(one) && WellFormed(two);
    assert t.entries[1..] == [Entry(IntKey(0), two)];
    assert Lookup(t.entries, IntKey(1)) == Some(one) && Lookup(t.entries, IntKey(0)) == Some(two);
    TextOfSomeItem("a");
    TextOfSomeItem("b");
    LaterLetter();
    assert !ItemsInOrder(t.entries);
    Unsettled(t);
  }

  lemma LaterLetter()
    ensures !StrLe("b", "a")
  {
  }

  lemma Unsettled(t: Tree)
    requires t.Arr? && KeysCount(t.entries) && !IsList(t.entries) && !ItemsInOrder(t.entries)
    ensures !Settled(t)
  {
    hide ItemsInOrder;
  }

  // ----- two passes -----

  /** An array numbered 0 to n - 1, in whatever order, read as the list in key order; at every depth. */
  function Relist(t: Tree): Tree
    decreases t, 1
  {
    if t.Leaf? then t
    else
      var entries := RelistEntries(t);
      if KeysCount(entries) then Arr(Listed(InKeyOrder(entries))) else Arr(entries)
  }

  function RelistEntries(t: Tree): (r: seq<Element>)
    requires t.Arr?
    ensures |r| == |t.entries|
    decreases t, 0
  {
    seq(|t.entries|, i requires 0 <= i < |t.entries| => Entry(t.entries[i].key, Relist(t.entries[i].value)))
  }

  function InKeyOrder(entries: seq<Element>): (r: seq<Tree>)
    requires KeysCount(entries)
    ensures |r| == |entries|
  {
    seq(|entries|, i requires 0 <= i < |entries| => Lookup(entries, IntKey(i)).value)
  }

  // ----- a second pass -----

  function Canon(le: KeyOrder): Tree -> Tree {
    (t: Tree) => Canonical(t, le)
  }

  function CanonEntry(le: KeyOrder): Element -> Element {
    (e: Element) => Entry(e.key, Canonical(e.value, le))
  }

  lemma CanonicalOfList(items: seq<Tree>, le: KeyOrder)
    ensures Canonical(Arr(Listed(items)), le) == Arr(Listed(Sort(Map(items, Canon(le)), ByItemText())))
  {
    hide Sort;
    var t := Arr(Listed(items));
    assert Values(t.entries) == items;
    assert Values(CanonicalEntries(t, le)) == Map(items, Canon(le));
  }

  lemma CanonicalOfMap(t: Tree, le: KeyOrder)
    requires t.Arr? && !IsList(t.entries)
    ensures Canonical(t, le) == Arr(Sort(Map(t.entries, CanonEntry(le)), ByKey(le)))
  {
    hide Sort;
    assert CanonicalEntries(t, le) == Map(t.entries, CanonEntry(le));
  }

  lemma SortTwice(items: seq<Tree>)
    ensures Sort(Sort(items, ByItemText()), ByItemText()) == Sort(items, ByItemText())
  {
    hide Sort, ByItemText;
    ByItemTextIsPreorder();
    SortIsSorted(items, ByItemText());
    SortOfSorted(Sort(items, ByItemText()), ByItemText());
  }

  lemma AllWellFormed(items: seq<Tree>, le: KeyOrder)
    requires forall x | x in items :: WellFormed(x)
    ensures forall x | x in Map(items, Canon(le)) :: WellFormed(x)
  {
    hide WellFormed, Canonical;
    forall x | x in Map(items, Canon(le)) ensures WellFormed(x) {
      var i :| 0 <= i < |items| && Map(items, Canon(le))[i] == x;
      assert items[i] in items;
      CanonicalIsWellFormed(items[i], le);
    }
  }

  /** Two passes over a list are one pass over its items, twice normalized. */
  lemma ListTwice(items: seq<Tree>, le: KeyOrder)
    requires forall x | x in items :: WellFormed(x)
    ensures Canonical(Arr(Listed(Sort(Map(items, Canon(le)), ByItemText()))), le)
              == Arr(Listed(Sort(Map(Map(items, Canon(le)), Canon(le)), ByItemText())))
  {
    hide Sort, WellFormed, Canonical, ByItemText, Map;
    var c := Map(items, Canon(le));
    AllWellFormed(items, le);
    CanonicalOfList(Sort(c, ByItemText()), le);
    assert Keeps(c, Canon(le), ByItemText()) by { TextsSurvive(c, le); }
    SortMapped(c, Canon(le), ByItemText());
    SortTwice(Map(c, Canon(le)));
  }

  lemma TextsSurvive(items: seq<Tree>, le: KeyOrder)
    requires forall x | x in items :: WellFormed(x)
    ensures Keeps(items, Canon(le), ByItemText())
  {
    hide WellFormed, Canonical, ItemText, StrLe;
    forall a | a in items ensures ItemText(Canon(le)(a)) == ItemText(a) { ItemTextIsKept(a, le); }
  }

  /** Two passes over a map likewise. */
  lemma MapTwice(t: Tree, le: KeyOrder)
    requires WellFormed(t) && SoundKeyOrder(t, le) && t.Arr? && !KeysCount(t.entries)
    ensures !IsList(t.entries) && !IsList(Canonical(t, le).entries)
    ensures Canonical(Canonical(t, le), le) == Arr(Sort(Map(Map(t.entries, CanonEntry(le)), CanonEntry(le)), ByKey(le)))
  {
    hide Sort, WellFormed, Canonical, Map, OrdersKeys, OrdersOn, KeySet, KeysCount;
    NotCountedNotList(t);
    CanonicalKinds(t, le);
    KeySortMakesList(t, le);
    CanonicalOfMap(t, le);
    var c := Map(t.entries, CanonEntry(le));
    CanonicalOfMap(Canonical(t, le), le);
    SortMapped(c, CanonEntry(le), ByKey(le));
    var twice := Map(c, CanonEntry(le));
    MappedKeySet(t.entries, le);
    MappedKeySet(c, le);
    EntriesAreOrdered(twice, le);
    SortIsSortedOn(twice, ByKey(le));
    SortOfSorted(Sort(twice, ByKey(le)), ByKey(le));
  }

  lemma NotCountedNotList(t: Tree)
    requires WellFormed(t) && t.Arr? && !KeysCount(t.entries)
    ensures !IsList(t.entries)
  {
    if IsList(t.entries) { ListCounts(t.entries); }
  }

  lemma MappedKeySet(entries: seq<Element>, le: KeyOrder)
    ensures KeySet(Map(entries, CanonEntry(le))) == KeySet(entries)
  {
    hide Canonical, KeySet;
    SameKeySets(entries, Map(entries, CanonEntry(le)));
  }

  lemma {:induction false} LookupMapped(entries: seq<Element>, others: seq<Element>, key: Key, f: Tree -> Tree)
    requires |others| == |entries| && forall i | 0 <= i < |entries| ::
             others[i] == Entry(entries[i].key, f(entries[i].value))
    ensures Lookup(others, key) == match Lookup(entries, key) case Some(v) => Some(f(v)) case None => None
  {
    if entries != [] { LookupMapped(entries[1..], others[1..], key, f); }
  }

  function Relisted(): Tree -> Tree {
    (t: Tree) => Relist(t)
  }

  lemma RelistedKeys(t: Tree)
    requires t.Arr?
    ensures KeysCount(RelistEntries(t)) <==> KeysCount(t.entries)
    ensures KeysCount(t.entries) ==> InKeyOrder(RelistEntries(t)) == Map(InKeyOrder(t.entries), Relisted())
  {
    hide Relist, Lookup;
    forall key: Key
      ensures Lookup(RelistEntries(t), key) == match Lookup(t.entries, key) case Some(v) => Some(Relist(v))
              case None => None
    {
      LookupMapped(t.entries, RelistEntries(t), key, Relisted());
    }
  }

  /** The first pass over a counted array gives the list of its canonical values, sorted only if it was a list. */
  lemma CountedOnce(t: Tree, le: KeyOrder)
    requires WellFormed(t) && SoundKeyOrder(t, le) && t.Arr? && KeysCount(t.entries)
    ensures var items := Map(InKeyOrder(t.entries), Canon(le));
            Canonical(t, le) == Arr(Listed(if IsList(t.entries) then Sort(items, ByItemText()) else items))
  {
    hide Sort, SoundKeyOrder;
    if IsList(t.entries) {
      ListCounts(t.entries);
      assert t.entries == Listed(InKeyOrder(t.entries));
      CanonicalOfList(InKeyOrder(t.entries), le);
    } else {
      CanonicalKinds(t, le);
      KeySortMakesList(t, le);
      assert |Canonical(t, le).entries| == |t.entries| by { KeySorted(t, le); }
      assert Canonical(t, le).entries == Listed(Map(InKeyOrder(t.entries), Canon(le)));
    }
  }

  lemma CountedTwice(t: Tree, le: KeyOrder)
    requires WellFormed(t) && SoundKeyOrder(t, le) && t.Arr? && KeysCount(t.entries)
    ensures Canonical(Canonical(t, le), le)
              == Arr(Listed(Sort(Map(Map(InKeyOrder(t.entries), Canon(le)), Canon(le)), ByItemText())))
  {
    hide Sort, SoundKeyOrder, Canonical, Map;
    var items := InKeyOrder(t.entries);
    CountedOnce(t, le);
    forall x | x in items ensures WellFormed(x) {
      var i :| 0 <= i < |items| && items[i] == x;
      WellFormedLookup(t, IntKey(i));
    }
    if IsList(t.entries) {
      ListTwice(items, le);
    } else {
      CanonicalOfList(Map(items, Canon(le)), le);
    }
  }

  lemma ValueIsThere(t: Tree, key: Key) returns (i: nat)
    requires t.Arr? && Lookup(t.entries, key).Some?
    ensures i < |t.entries| && t.entries[i].value == Lookup(t.entries, key).value
  {
    LookupFinds(t.entries, key);
    i :| 0 <= i < |t.entries| && t.entries[i] == Entry(key, Lookup(t.entries, key).value);
  }

  /** Two passes are one pass over the value with its numbered arrays read as lists. */
  lemma {:induction false} TwoPassesRelist(t: Tree, le: KeyOrder)
    requires WellFormed(t) && SoundKeyOrder(t, le)
    ensures Canonical(Canonical(t, le), le) == Canonical(Relist(t), le)
    decreases t
  {
    hide Sort, Canonical, Lookup, KeysCount, OrdersKeys, Map;
    if t.Arr? {
      forall i | 0 <= i < |t.entries|
        ensures Canonical(Canonical(t.entries[i].value, le), le) == Canonical(Relist(t.entries[i].value), le)
      {
        TwoPassesRelist(t.entries[i].value, le);
      }
      RelistedKeys(t);
      if KeysCount(t.entries) {
        CountedTwice(t, le);
        CountedRelist(t, le);
      } else {
        MapTwice(t, le);
        MapRelist(t, le);
      }
    } else {
      LeafStays(t, le);
    }
  }

  lemma LeafStays(t: Tree, le: KeyOrder)
    requires t.Leaf?
    ensures Canonical(t, le) == t
  {
  }

  lemma CountedRelist(t: Tree, le: KeyOrder)
    requires t.Arr? && KeysCount(t.entries)
    requires forall i | 0 <= i < |t.entries| ::
             Canonical(Canonical(t.entries[i].value, le), le) == Canonical(Relist(t.entries[i].value), le)
    ensures Canonical(Relist(t), le)
            == Arr(Listed(Sort(Map(Map(InKeyOrder(t.entries), Canon(le)), Canon(le)), ByItemText())))
  {
    hide Sort, Canonical, Lookup;
    var items := InKeyOrder(t.entries);
    RelistedKeys(t);
    CanonicalOfList(Map(items, Relisted()), le);
    var once, twice := Map(Map(items, Relisted()), Canon(le)), Map(Map(items, Canon(le)), Canon(le));
    forall i | 0 <= i < |items| ensures once[i] == twice[i] {
      var j := ValueIsThere(t, IntKey(i));
    }
    assert once == twice;
  }

  lemma MapRelist(t: Tree, le: KeyOrder)
    requires t.Arr? && !KeysCount(t.entries) && !IsList(t.entries)
    requires forall i | 0 <= i < |t.entries| ::
             Canonical(Canonical(t.entries[i].value, le), le) == Canonical(Relist(t.entries[i].value), le)
    ensures Canonical(Relist(t), le) == Arr(Sort(Map(Map(t.entries, CanonEntry(le)), CanonEntry(le)), ByKey(le)))
  {
    hide Sort, Canonical, Lookup;
    RelistedKeys(t);
    assert Relist(t) == Arr(RelistEntries(t));
    CanonicalOfMap(Relist(t), le);
    assert Map(RelistEntries(t), CanonEntry(le)) == Map(Map(t.entries, CanonEntry(le)), CanonEntry(le));
  }

  // ----- the relisted value -----

  lemma ListedAreCounted(items: seq<Tree>)
    ensures DistinctKeys(Listed(items)) && KeysCount(Listed(items))
  {
    ListCounts(Listed(items));
  }

  /** Reading numbered arrays as lists leaves none shuffled, and needs no more of the key order. */
  lemma {:induction false} RelistIsUnshuffled(t: Tree, le: KeyOrder)
    requires WellFormed(t) && SoundKeyOrder(t, le)
    ensures WellFormed(Relist(t)) && Unshuffled(Relist(t)) && SoundKeyOrder(Relist(t), le)
    decreases t
  {
    hide OrdersKeys, KeysCount, Lookup;
    if t.Arr? {
      forall i | 0 <= i < |t.entries|
        ensures var r := Relist(t.entries[i].value); WellFormed(r) && Unshuffled(r) && SoundKeyOrder(r, le)
      {
        RelistIsUnshuffled(t.entries[i].value, le);
      }
      RelistedKeys(t);
      if KeysCount(t.entries) {
        CountedIsUnshuffled(t, le);
      } else {
        MapIsUnshuffled(t, le);
      }
    }
  }

  lemma CountedIsUnshuffled(t: Tree, le: KeyOrder)
    requires t.Arr? && KeysCount(t.entries)
    requires forall i | 0 <= i < |t.entries| ::
               var r := Relist(t.entries[i].value); WellFormed(r) && Unshuffled(r) && SoundKeyOrder(r, le)
    ensures WellFormed(Relist(t)) && Unshuffled(Relist(t)) && SoundKeyOrder(Relist(t), le)
  {
    hide OrdersKeys, Lookup, DistinctKeys;
    RelistedKeys(t);
    var items := InKeyOrder(t.entries);
    var relisted := Map(items, Relisted());
    assert Relist(t) == Arr(Listed(relisted));
    ListedAreCounted(relisted);
    forall i | 0 <= i < |relisted|
      ensures WellFormed(relisted[i]) && Unshuffled(relisted[i]) && SoundKeyOrder(relisted[i], le)
    {
      var j := ValueIsThere(t, IntKey(i));
    }
    assert Values(Listed(relisted)) == relisted;
  }

  lemma MapIsUnshuffled(t: Tree, le: KeyOrder)
    requires WellFormed(t) && SoundKeyOrder(t, le) && t.Arr? && !KeysCount(t.entries)
    requires forall i | 0 <= i < |t.entries| ::
               var r := Relist(t.entries[i].value); WellFormed(r) && Unshuffled(r) && SoundKeyOrder(r, le)
    ensures WellFormed(Relist(t)) && Unshuffled(Relist(t)) && SoundKeyOrder(Relist(t), le)
  {
    hide OrdersKeys, KeysCount, Lookup, KeySet;
    RelistedKeys(t);
    NotCountedNotList(t);
    assert Relist(t) == Arr(RelistEntries(t));
    SameKeySets(t.entries, RelistEntries(t));
  }

  lemma UnshuffledIsSettled(t: Tree)
    requires Unshuffled(t)
    ensures Settled(t)
  {
    hide KeysCount, ItemsInOrder;
    if t.Arr? {
      forall i | 0 <= i < |t.entries| ensures Settled(t.entries[i].value) { UnshuffledIsSettled(t.entries[i].value); }
    }
  }

  /** Two passes are enough for every value: a third changes nothing. */
  lemma TwoPassesSettle(t: Tree, le: KeyOrder)
    requires WellFormed(t) && SoundKeyOrder(t, le)
    ensures var twice := Canonical(Canonical(t, le), le); Canonical(twice, le) == twice
  {
    hide *;
    TwoPassesRelist(t, le);
    RelistIsUnshuffled(t, le);
    UnshuffledIsSettled(Relist(t));
    CanonicalIsIdempotent(Relist(t), le);
  }

  /**
   What two passes tell apart, for all values: they agree exactly on values that are alike once their numbered
   arrays are read as lists.
   */
  lemma TwoPassFormIsAlike(a: Tree, b: Tree, le: KeyOrder)
    requires WellFormed(a) && WellFormed(b) && SoundKeyOrder(a, le) && SoundKeyOrder(b, le)
    ensures Canonical(Canonical(a, le), le) == Canonical(Canonical(b, le), le) <==> Alike(Relist(a), Relist(b))
  {
    hide *;
    TwoPassesRelist(a, le);
    TwoPassesRelist(b, le);
    RelistIsUnshuffled(a, le);
    RelistIsUnshuffled(b, le);
    OneFormIsAlike(Relist(a), Relist(b), le);
  }

  // ----- the revision -----

  /** What the revision is a hash of: the normalized graph in its wrapper, normalized again on the way to its text. */
  function Wrapped(graph: Tree): Tree {
    Arr([Entry(StrKey("schemaVersion"), Leaf(Str("2.0"))), Entry(StrKey("graph"), graph)])
  }

  function Json(t: Tree, le: KeyOrder, encode: Tree -> string): string {
    encode(Canonical(t, le))
  }

  /** The text that is hashed. */
  function HashedText(graph: Tree, le: KeyOrder, encode: Tree -> string): string {
    Json(Wrapped(Canonical(graph, le)), le, encode)
  }

  function RevisionId(graph: Tree, le: KeyOrder, encode: Tree -> string, sha256: string -> string): string {
    "sha256:" + sha256(HashedText(graph, le, encode))
  }

  lemma WrappedLookup(graph: Tree)
    ensures Lookup(Wrapped(graph).entries, StrKey("graph")) == Some(graph)
    ensures !IsList(Wrapped(graph).entries) && DistinctKeys(Wrapped(graph).entries)
  {
    var entries := Wrapped(graph).entries;
    assert entries[1..] == [Entry(StrKey("graph"), graph)];
  }

  /** The normalized wrapper tells the graphs in it apart exactly as far as normalizing does. */
  lemma WrappersAlike(a: Tree, b: Tree, le: KeyOrder)
    requires WellFormed(a) && WellFormed(b)
    ensures Canonical(Wrapped(a), le) == Canonical(Wrapped(b), le) <==> Canonical(a, le) == Canonical(b, le)
  {
    hide Canonical, Lookup;
    WrappedLookup(a);
    WrappedLookup(b);
    GraphIsKept(a, le);
    GraphIsKept(b, le);
    WrapperOf(a, le);
    WrapperOf(b, le);
  }

  lemma WrapperOf(graph: Tree, le: KeyOrder)
    ensures Canonical(Wrapped(graph), le) ==
              Arr(Sort([Entry(StrKey("schemaVersion"), Leaf(Str("2.0"))), Entry(StrKey("graph"), Canonical(graph, le))],
                  ByKey(le)))
  {
    hide Sort, Canonical;
    var t := Wrapped(graph);
    WrappedLookup(graph);
    CanonicalOfMap(t, le);
    LeafStays(Leaf(Str("2.0")), le);
    assert Map(t.entries, CanonEntry(le))
           == [Entry(StrKey("schemaVersion"), Leaf(Str("2.0"))), Entry(StrKey("graph"), Canonical(graph, le))];
  }

  lemma GraphIsKept(graph: Tree, le: KeyOrder)
    requires WellFormed(graph)
    ensures Canonical(Wrapped(graph), le).Arr?
    ensures Lookup(Canonical(Wrapped(graph), le).entries, StrKey("graph")) == Some(Canonical(graph, le))
  {
    hide Sort, Canonical, Lookup;
    var t := Wrapped(graph);
    WrappedLookup(graph);
    CanonicalOfMap(t, le);
    var c := Map(t.entries, CanonEntry(le));
    LookupMapped(t.entries, c, StrKey("graph"), Canon(le));
    var r := Canonical(t, le).entries;
    assert DistinctKeys(c);
    PermutedKeysDistinct(c, r);
    LookupInAnyOrder(c, r, StrKey("graph"));
  }

  // ----- what the printer tells apart -----

  predicate IsDigit(c: char) { '0' <= c <= '9' }

  function Unsigned(s: string): string {
    if s != "" && s[0] == '-' then s[1..] else s
  }

  /** Text that PHP turns into an integer when it is used as a key. */
  predicate IntegerText(s: string) {
    && Unsigned(s) != "" && (forall i | 0 <= i < |Unsigned(s)| :: IsDigit(Unsigned(s)[i]))
    && (Unsigned(s)[0] == '0' ==> s == "0")
  }

  /** No key and no float prints like another value: PHP keeps the first, and a registry has no whole floats. */
  ghost predicate Printable(t: Tree) {
    match t
    case Leaf(Float(text)) => text != "" && !IntegerText(text) && forall c | c in text :: c in "0123456789+-.Ee"
    case Leaf(_) => true
    case Arr(entries) =>
      forall i | 0 <= i < |entries| ::
        (entries[i].key.StrKey? ==> !IntegerText(entries[i].key.s)) && Printable(entries[i].value)
  }

  lemma {:induction false} CanonicalIsPrintable(t: Tree, le: KeyOrder)
    requires Printable(t)
    ensures Printable(Canonical(t, le))
    decreases t
  {
    hide Sort, IntegerText;
    if t.Arr? {
      var c, r := CanonicalEntries(t, le), Canonical(t, le).entries;
      forall i | 0 <= i < |c| ensures Printable(c[i].value) { CanonicalIsPrintable(t.entries[i].value, le); }
      if IsList(t.entries) {
        forall i | 0 <= i < |r| ensures Printable(r[i].value) { SameElements(Values(c), Values(r), Values(r)[i]); }
      } else {
        forall i | 0 <= i < |r| ensures r[i] in c { SameElements(c, r, r[i]); }
      }
    }
  }

  /** The encoder prints different printable values differently. */
  ghost predicate Faithful(encode: Tree -> string) {
    forall x, y | Printable(x) && Printable(y) && WellFormed(x) && WellFormed(y) && encode(x) == encode(y) :: x == y
  }

  lemma WordIsKey(s: string)
    requires s != "" && s[0] != '-' && !IsDigit(s[0])
    ensures !IntegerText(s)
  {
    assert !IsDigit(Unsigned(s)[0]);
  }

  lemma WrappedIsPrintable(graph: Tree)
    requires Printable(graph) && WellFormed(graph)
    ensures Printable(Wrapped(graph)) && WellFormed(Wrapped(graph))
  {
    hide IntegerText;
    WrappedLookup(graph);
    WordIsKey("graph");
    WordIsKey("schemaVersion");
  }

  /**
   Equal texts come from registries that are alike once their numbered arrays are read as lists, and only from those.
   */
  lemma TextIsTheRegistry(a: Tree, b: Tree, le: KeyOrder, encode: Tree -> string)
    requires WellFormed(a) && WellFormed(b) && SoundKeyOrder(a, le) && SoundKeyOrder(b, le)
    requires Printable(a) && Printable(b) && Faithful(encode)
    ensures HashedText(a, le, encode) == HashedText(b, le, encode) <==> Alike(Relist(a), Relist(b))
  {
    hide Canonical, Alike, SoundKeyOrder, WellFormed, Unshuffled, Printable, Relist, Wrapped;
    var x, y := Canonical(a, le), Canonical(b, le);
    CanonicalIsWellFormed(a, le);
    CanonicalIsWellFormed(b, le);
    CanonicalIsPrintable(a, le);
    CanonicalIsPrintable(b, le);
    FormIsPrintable(x, le);
    FormIsPrintable(y, le);
    WrappersAlike(x, y, le);
    TwoPassFormIsAlike(a, b, le);
  }

  lemma FormIsPrintable(graph: Tree, le: KeyOrder)
    requires Printable(graph) && WellFormed(graph)
    ensures var form := Canonical(Wrapped(graph), le); Printable(form) && WellFormed(form)
  {
    hide Canonical, Printable, WellFormed, Wrapped;
    WrappedIsPrintable(graph);
    CanonicalIsPrintable(Wrapped(graph), le);
    CanonicalIsWellFormed(Wrapped(graph), le);
  }

  /**
   Two registries get one revision exactly when they are alike, their numbered arrays read as lists; unless the
   hashes of their two different texts collide.
   */
  lemma RevisionIsTheRegistry(a: Tree, b: Tree, le: KeyOrder, encode: Tree -> string, sha256: string -> string)
    requires WellFormed(a) && WellFormed(b) && SoundKeyOrder(a, le) && SoundKeyOrder(b, le)
    requires Printable(a) && Printable(b) && Faithful(encode)
    requires sha256(HashedText(a, le, encode)) == sha256(HashedText(b, le, encode)) ==>
             HashedText(a, le, encode) == HashedText(b, le, encode)
    ensures RevisionId(a, le, encode, sha256) == RevisionId(b, le, encode, sha256) <==> Alike(Relist(a), Relist(b))
  {
    hide Alike, SoundKeyOrder, WellFormed, Printable, Relist, Json, Faithful;
    TextIsTheRegistry(a, b, le, encode);
    var x, y := sha256(HashedText(a, le, encode)), sha256(HashedText(b, le, encode));
    if "sha256:" + x == "sha256:" + y {
      assert ("sha256:" + x)[7..] == x && ("sha256:" + y)[7..] == y;
    }
  }
}
