/** The schema package's deterministic serialization: object keys in collation order at every depth, before hashing. */
module DeterministicJson {
  import opened Sorting
  import opened Entries

  /**
   A JavaScript value. A number is the shortest decimal that denotes it, digits and power of ten; objects list their
   entries in insertion order.
   */
  datatype Value =
    | Undefined | Null | Bool(b: bool) | Number(digits: int, exponent: int) | Text(s: string)
    | List(items: seq<Value>) | Object(entries: seq<Entry<string, Value>>)

  type Member = Entry<string, Value>

  predicate Shortest(digits: int, exponent: int) {
    digits % 10 != 0 || (digits == 0 && exponent == 0)
  }

  /** JavaScript's own guarantee: an object has each key once; and a number is written in one way. */
  ghost predicate WellFormed(v: Value) {
    && (v.Number? ==> Shortest(v.digits, v.exponent))
    && (v.List? ==> forall i | 0 <= i < |v.items| :: WellFormed(v.items[i]))
    && (v.Object? ==> DistinctKeys(v.entries) && forall i | 0 <= i < |v.entries| :: WellFormed(v.entries[i].value))
  }

  /**
   Undefined members go, the others are sorted by key; sorting looks at keys only, so members may be rewritten first.
   */
  function SortValue(v: Value, le: Collation): Value
    decreases v, 0
  {
    match v
    case List(items) => List(seq(|items|, i requires 0 <= i < |items| => SortValue(items[i], le)))
    case Object(entries) => Object(Sort(Members(v, |entries|, le), ByKey(le)))
    case _ => v
  }

  function Members(v: Value, n: nat, le: Collation): seq<Member>
    requires v.Object? && n <= |v.entries|
    decreases v, 0, n
  {
    if n == 0 then []
    else
      var e := v.entries[n - 1];
      Members(v, n - 1, le) + if e.value.Undefined? then [] else [Entry(e.key, SortValue(e.value, le))]
  }

  /** `serializeDeterministic`; `stringify` is JSON's printer. */
  function SerializeDeterministic(v: Value, le: Collation, stringify: Value -> string): string {
    stringify(SortValue(v, le))
  }

  // ----- which values print alike -----

  predicate Has(v: Value, key: string)
    requires v.Object?
  {
    exists i | 0 <= i < |v.entries| :: v.entries[i].key == key && !v.entries[i].value.Undefined?
  }

  /** The same value: members in any order, a member that is undefined counted as none. */
  ghost predicate Same(a: Value, b: Value) {
    if a.List? && b.List? then |a.items| == |b.items| && forall i | 0 <= i < |a.items| :: Same(a.items[i], b.items[i])
    else if a.Object? && b.Object? then
      && (forall key: string :: Has(a, key) <==> Has(b, key))
      && forall i, j | 0 <= i < |a.entries| && 0 <= j < |b.entries| ::
           Joint(a.entries[i], b.entries[j]) ==> Same(a.entries[i].value, b.entries[j].value)
    else a == b
  }

  predicate Joint(d: Member, e: Member) {
    d.key == e.key && !d.value.Undefined? && !e.value.Undefined?
  }

  lemma {:induction false} MembersAre(v: Value, n: nat, le: Collation, e: Member)
    requires v.Object? && n <= |v.entries|
    ensures e in Members(v, n, le) <==>
              exists i | 0 <= i < n ::
                  !v.entries[i].value.Undefined? && e == Entry(v.entries[i].key, SortValue(v.entries[i].value, le))
    decreases n
  {
    hide SortValue;
    if n > 0 { MembersAre(v, n - 1, le, e); }
  }

  lemma {:induction false} MembersDistinct(v: Value, n: nat, le: Collation)
    requires v.Object? && DistinctKeys(v.entries) && n <= |v.entries|
    ensures DistinctKeys(Members(v, n, le))
    decreases n
  {
    hide SortValue;
    if n > 0 {
      MembersDistinct(v, n - 1, le);
      var front := Members(v, n - 1, le);
      forall i | 0 <= i < |front| ensures front[i].key != v.entries[n - 1].key { MembersAre(v, n - 1, le, front[i]); }
    }
  }

  /** Sorted member lists are equal exactly when they have the same members. */
  lemma SortedMembersAgree(s: seq<Member>, t: seq<Member>, le: Collation)
    requires TotalOrder(le) && DistinctKeys(s) && DistinctKeys(t)
    ensures Sort(s, ByKey(le)) == Sort(t, ByKey(le)) <==> forall e :: e in s <==> e in t
  {
    hide Sort, TotalOrder, DistinctKeys, NoTies, Distinct, TotalPreorder;
    SortedEntriesAgree(s, t, le);
    DistinctKeysNeverTie(s, le);
    DistinctKeysNeverTie(t, le);
    if forall e :: e in s <==> e in t { DistinctSameMembers(s, t); }
    if Sort(s, ByKey(le)) == Sort(t, ByKey(le)) {
      forall e ensures e in s <==> e in t { SameElements(s, t, e); }
    }
  }

  ghost predicate OneForm(a: Value, b: Value, le: Collation) {
    SortValue(a, le) == SortValue(b, le)
  }

  /**
   Values are rewritten alike exactly when they are the same value, so the text hashed for an artifact tells no more
   and no less.
   */
  lemma {:induction false} OneFormExactly(a: Value, b: Value, le: Collation)
    requires TotalOrder(le) && WellFormed(a) && WellFormed(b)
    ensures OneForm(a, b, le) <==> Same(a, b)
    decreases a
  {
    hide Sort, TotalOrder;
    if a.List? && b.List? {
      forall i | 0 <= i < |a.items| && i < |b.items|
        ensures OneForm(a.items[i], b.items[i], le) <==> Same(a.items[i], b.items[i])
      {
        OneFormExactly(a.items[i], b.items[i], le);
      }
      ListForms(a, b, le);
    } else if a.Object? && b.Object? {
      forall i, j | 0 <= i < |a.entries| && 0 <= j < |b.entries|
        ensures OneForm(a.entries[i].value, b.entries[j].value, le) <==> Same(a.entries[i].value, b.entries[j].value)
      {
        OneFormExactly(a.entries[i].value, b.entries[j].value, le);
      }
      ObjectForms(a, b, le);
    }
  }

  lemma ListForms(a: Value, b: Value, le: Collation)
    requires a.List? && b.List?
    ensures OneForm(a, b, le) <==>
            |a.items| == |b.items| && forall i | 0 <= i < |a.items| :: OneForm(a.items[i], b.items[i], le)
  {
    var s, t := SortValue(a, le).items, SortValue(b, le).items;
    if OneForm(a, b, le) {
      assert |s| == |t|;
      forall i | 0 <= i < |a.items| ensures OneForm(a.items[i], b.items[i], le) { assert s[i] == t[i]; }
    }
  }

  lemma HasMember(v: Value, le: Collation, key: string)
    requires v.Object?
    ensures Has(v, key) <==> exists e | e in Members(v, |v.entries|, le) :: e.key == key
  {
    hide SortValue, Members;
    var n := |v.entries|;
    if Has(v, key) {
      var i :| 0 <= i < n && v.entries[i].key == key && !v.entries[i].value.Undefined?;
      MembersAre(v, n, le, Entry(key, SortValue(v.entries[i].value, le)));
    }
    if e :| e in Members(v, n, le) && e.key == key { MembersAre(v, n, le, e); }
  }

  lemma ObjectForms(a: Value, b: Value, le: Collation)
    requires TotalOrder(le) && a.Object? && b.Object? && DistinctKeys(a.entries) && DistinctKeys(b.entries)
    ensures OneForm(a, b, le) <==>
              && (forall key: string :: Has(a, key) <==> Has(b, key))
              && forall i, j | 0 <= i < |a.entries| && 0 <= j < |b.entries| ::
                   Joint(a.entries[i], b.entries[j]) ==> OneForm(a.entries[i].value, b.entries[j].value, le)
  {
    hide Sort, TotalOrder, Members, Has, DistinctKeys;
    var s, t := Members(a, |a.entries|, le), Members(b, |b.entries|, le);
    MembersDistinct(a, |a.entries|, le);
    MembersDistinct(b, |b.entries|, le);
    SortedMembersAgree(s, t, le);
    assert OneForm(a, b, le) <==> Sort(s, ByKey(le)) == Sort(t, ByKey(le));
    hide SortValue, OneForm;
    if forall e :: e in s <==> e in t { AgreeingMembers(a, b, le); }
    if && (forall key: string :: Has(a, key) <==> Has(b, key))
       && forall i, j | 0 <= i < |a.entries| && 0 <= j < |b.entries| ::
            Joint(a.entries[i], b.entries[j]) ==> OneForm(a.entries[i].value, b.entries[j].value, le)
    {
      forall e ensures e in s <==> e in t {
        if e in s { MemberOver(a, b, le, e); }
        if e in t { MemberBack(a, b, le, e); }
      }
    }
  }

  lemma AgreeingMembers(a: Value, b: Value, le: Collation)
    requires a.Object? && b.Object? && DistinctKeys(b.entries)
    requires forall e :: e in Members(a, |a.entries|, le) <==> e in Members(b, |b.entries|, le)
    ensures forall key: string :: Has(a, key) <==> Has(b, key)
    ensures forall i, j | 0 <= i < |a.entries| && 0 <= j < |b.entries| ::
              Joint(a.entries[i], b.entries[j]) ==> OneForm(a.entries[i].value, b.entries[j].value, le)
  {
    hide SortValue, Members, Has;
    forall key: string ensures Has(a, key) <==> Has(b, key) {
      HasMember(a, le, key);
      HasMember(b, le, key);
    }
    forall i, j | 0 <= i < |a.entries| && 0 <= j < |b.entries| && Joint(a.entries[i], b.entries[j])
      ensures OneForm(a.entries[i].value, b.entries[j].value, le)
    {
      var e := Entry(a.entries[i].key, SortValue(a.entries[i].value, le));
      MembersAre(a, |a.entries|, le, e);
      MembersAre(b, |b.entries|, le, e);
    }
  }

  lemma MemberOver(a: Value, b: Value, le: Collation, e: Member)
    requires a.Object? && b.Object? && e in Members(a, |a.entries|, le)
    requires forall key: string :: Has(a, key) <==> Has(b, key)
    requires forall i, j | 0 <= i < |a.entries| && 0 <= j < |b.entries| ::
               Joint(a.entries[i], b.entries[j]) ==> OneForm(a.entries[i].value, b.entries[j].value, le)
    ensures e in Members(b, |b.entries|, le)
  {
    hide SortValue, Members;
    MembersAre(a, |a.entries|, le, e);
    var i :| 0 <= i < |a.entries| && !a.entries[i].value.Undefined?
        && e == Entry(a.entries[i].key, SortValue(a.entries[i].value, le));
    assert Has(a, e.key);
    assert Has(b, e.key);
    var j :| 0 <= j < |b.entries| && b.entries[j].key == e.key && !b.entries[j].value.Undefined?;
    assert Joint(a.entries[i], b.entries[j]);
    MembersAre(b, |b.entries|, le, e);
  }

  lemma MemberBack(a: Value, b: Value, le: Collation, e: Member)
    requires a.Object? && b.Object? && e in Members(b, |b.entries|, le)
    requires forall key: string :: Has(a, key) <==> Has(b, key)
    requires forall i, j | 0 <= i < |a.entries| && 0 <= j < |b.entries| ::
               Joint(a.entries[i], b.entries[j]) ==> OneForm(a.entries[i].value, b.entries[j].value, le)
    ensures e in Members(a, |a.entries|, le)
  {
    hide SortValue, Members;
    forall j, i | 0 <= i < |a.entries| && 0 <= j < |b.entries| && Joint(b.entries[j], a.entries[i])
      ensures OneForm(b.entries[j].value, a.entries[i].value, le)
    {
      assert Joint(a.entries[i], b.entries[j]);
    }
    MemberOver(b, a, le, e);
  }

  // ----- the printed text -----

  /** JSON prints an undefined list item as null. */
  function Nulled(v: Value): Value {
    match v
    case List(items) => List(seq(|items|,
      i requires 0 <= i < |items| => if items[i].Undefined? then Null else Nulled(items[i])))
    case Object(entries) =>
      Object(seq(|entries|, i requires 0 <= i < |entries| => Entry(entries[i].key, Nulled(entries[i].value))))
    case _ => v
  }

  /** A value that JSON can hold: nothing undefined anywhere, no key twice, numbers without trailing zeros. */
  ghost predicate Printable(v: Value) {
    match v
    case Undefined => false
    case Number(digits, exponent) => Shortest(digits, exponent)
    case List(items) => forall i | 0 <= i < |items| :: Printable(items[i])
    case Object(entries) => DistinctKeys(entries) && forall i | 0 <= i < |entries| :: Printable(entries[i].value)
    case _ => true
  }

  /**
   What is used of `JSON.stringify`: undefined list items print as null, and the text of a printable value tells it.
   */
  ghost predicate Prints(stringify: Value -> string) {
    && (forall v :: stringify(v) == stringify(Nulled(v)))
    && forall v, w | Printable(v) && Printable(w) && stringify(v) == stringify(w) :: Same(v, w)
  }

  function NulledEntry(): Member -> Member {
    (e: Member) => Entry(e.key, Nulled(e.value))
  }

  lemma {:induction false} MembersNulled(v: Value, n: nat, le: Collation)
    requires v.Object? && n <= |v.entries|
    requires forall i | 0 <= i < |v.entries| ::
             SortValue(Nulled(v.entries[i].value), le) == Nulled(SortValue(v.entries[i].value, le))
    ensures Members(Nulled(v), n, le) == Map(Members(v, n, le), NulledEntry())
    decreases n
  {
    hide SortValue;
    if n > 0 {
      MembersNulled(v, n - 1, le);
      var e := v.entries[n - 1];
      assert Nulled(v).entries[n - 1] == Entry(e.key, Nulled(e.value));
      assert Nulled(e.value).Undefined? <==> e.value.Undefined?;
    }
  }

  /** Nulling and sorting can be done in either order. */
  lemma {:induction false} NulledSorts(v: Value, le: Collation)
    ensures SortValue(Nulled(v), le) == Nulled(SortValue(v, le))
    decreases v
  {
    hide Sort;
    match v
    case List(items) =>
      forall i | 0 <= i < |items| ensures SortValue(Nulled(items[i]), le) == Nulled(SortValue(items[i], le)) {
        NulledSorts(items[i], le);
      }
      ListNulls(v, le);
    case Object(entries) =>
      forall i | 0 <= i < |entries|
        ensures SortValue(Nulled(entries[i].value), le) == Nulled(SortValue(entries[i].value, le))
      {
        NulledSorts(entries[i].value, le);
      }
      ObjectNulls(v, le);
    case _ =>
  }

  lemma ListNulls(v: Value, le: Collation)
    requires v.List? && forall i | 0 <= i < |v.items| ::
             SortValue(Nulled(v.items[i]), le) == Nulled(SortValue(v.items[i], le))
    ensures SortValue(Nulled(v), le) == Nulled(SortValue(v, le))
  {
    var one, two := SortValue(Nulled(v), le).items, Nulled(SortValue(v, le)).items;
    forall i | 0 <= i < |v.items| ensures one[i] == two[i] {
      SortedUndefined(v.items[i], le);
    }
  }

  lemma SortedUndefined(v: Value, le: Collation)
    ensures SortValue(v, le).Undefined? <==> v.Undefined?
  {
  }

  lemma ObjectNulls(v: Value, le: Collation)
    requires v.Object?
    requires forall i | 0 <= i < |v.entries| ::
             SortValue(Nulled(v.entries[i].value), le) == Nulled(SortValue(v.entries[i].value, le))
    ensures SortValue(Nulled(v), le) == Nulled(SortValue(v, le))
  {
    hide Sort, Members;
    var n := |v.entries|;
    MembersNulled(v, n, le);
    SortMapped(Members(v, n, le), NulledEntry(), ByKey(le));
    var sorted := Sort(Members(v, n, le), ByKey(le));
    assert Nulled(Object(sorted)) == Object(Map(sorted, NulledEntry()));
  }

  lemma {:induction false} SortedIsPrintable(v: Value, le: Collation)
    requires !v.Undefined? && WellFormed(v)
    ensures Printable(Nulled(SortValue(v, le)))
    decreases v
  {
    hide Sort;
    match v
    case List(items) =>
      forall i | 0 <= i < |items| && !items[i].Undefined? ensures Printable(Nulled(SortValue(items[i], le))) {
        SortedIsPrintable(items[i], le);
      }
      forall i | 0 <= i < |items| ensures Printable(Nulled(SortValue(v, le)).items[i]) {
        SortedUndefined(items[i], le);
      }
    case Object(entries) =>
      forall i | 0 <= i < |entries| && !entries[i].value.Undefined?
        ensures Printable(Nulled(SortValue(entries[i].value, le)))
      {
        SortedIsPrintable(entries[i].value, le);
      }
      MembersPrint(v, le);
    case _ =>
  }

  lemma PermutedKeys(s: seq<Member>, t: seq<Member>)
    requires DistinctKeys(s) && multiset(t) == multiset(s)
    ensures DistinctKeys(t)
  {
    var key := (e: Member) => e.key;
    assert Distinct(Map(s, key));
    MapPermutes(s, t, key);
    DistinctPermutation(Map(s, key), Map(t, key));
    forall i, j | 0 <= i < j < |t| ensures t[i].key != t[j].key { assert Map(t, key)[i] != Map(t, key)[j]; }
  }

  lemma MembersPrint(v: Value, le: Collation)
    requires v.Object? && DistinctKeys(v.entries)
    requires forall i | 0 <= i < |v.entries| && !v.entries[i].value.Undefined? ::
             Printable(Nulled(SortValue(v.entries[i].value, le)))
    ensures Printable(Nulled(SortValue(v, le)))
  {
    hide Sort, Members, SortedBy;
    var members := Members(v, |v.entries|, le);
    var sorted := Sort(members, ByKey(le));
    assert SortValue(v, le) == Object(sorted);
    MembersDistinct(v, |v.entries|, le);
    PermutedKeys(members, sorted);
    forall i | 0 <= i < |sorted| ensures Printable(Nulled(sorted[i].value)) {
      SameElements(sorted, members, sorted[i]);
      MembersAre(v, |v.entries|, le, sorted[i]);
    }
  }

  lemma {:induction false} NulledIsWellFormed(v: Value)
    requires WellFormed(v)
    ensures WellFormed(Nulled(v))
    decreases v
  {
    match v
    case List(items) => forall i | 0 <= i < |items| ensures WellFormed(Nulled(items[i])) {
      NulledIsWellFormed(items[i]);
    }
    case Object(entries) =>
      forall i | 0 <= i < |entries| ensures WellFormed(Nulled(entries[i].value)) {
        NulledIsWellFormed(entries[i].value);
      }
    case _ =>
  }

  lemma {:induction false} PrintableIsWellFormed(v: Value)
    requires Printable(v)
    ensures WellFormed(v)
    decreases v
  {
    match v
    case List(items) => forall i | 0 <= i < |items| ensures WellFormed(items[i]) { PrintableIsWellFormed(items[i]); }
    case Object(entries) => forall i | 0 <= i < |entries| ensures WellFormed(entries[i].value) {
      PrintableIsWellFormed(entries[i].value);
    }
    case _ =>
  }

  function SortEntry(le: Collation): Member -> Member {
    (e: Member) => Entry(e.key, SortValue(e.value, le))
  }

  lemma {:induction false} AllMembers(v: Value, n: nat, le: Collation)
    requires v.Object? && n <= |v.entries| && forall i | 0 <= i < |v.entries| :: !v.entries[i].value.Undefined?
    ensures Members(v, n, le) == Map(v.entries[..n], SortEntry(le))
    decreases n
  {
    hide SortValue;
    if n > 0 {
      AllMembers(v, n - 1, le);
      assert v.entries[..n] == v.entries[..n - 1] + [v.entries[n - 1]];
    }
  }

  /** Rewriting twice is rewriting once. */
  lemma {:induction false} SortedOnce(v: Value, le: Collation)
    requires TotalOrder(le)
    ensures SortValue(SortValue(v, le), le) == SortValue(v, le)
    decreases v
  {
    hide Sort, TotalOrder;
    match v
    case List(items) =>
      forall i | 0 <= i < |items| ensures SortValue(SortValue(items[i], le), le) == SortValue(items[i], le) {
        SortedOnce(items[i], le);
      }
    case Object(entries) =>
      forall i | 0 <= i < |entries|
        ensures SortValue(SortValue(entries[i].value, le), le) == SortValue(entries[i].value, le)
      {
        SortedOnce(entries[i].value, le);
      }
      ObjectSortedOnce(v, le);
    case _ =>
  }

  lemma ObjectSortedOnce(v: Value, le: Collation)
    requires TotalOrder(le) && v.Object?
    requires forall i | 0 <= i < |v.entries| ::
             SortValue(SortValue(v.entries[i].value, le), le) == SortValue(v.entries[i].value, le)
    ensures SortValue(SortValue(v, le), le) == SortValue(v, le)
  {
    hide Sort, Members, SortedBy, TotalOrder, TotalPreorder;
    var n := |v.entries|;
    var members := Members(v, n, le);
    var sorted := Sort(members, ByKey(le));
    MembersAreSorted(v, le);
    forall i | 0 <= i < |sorted| ensures !sorted[i].value.Undefined? { SameElements(sorted, members, sorted[i]); }
    AllMembers(Object(sorted), |sorted|, le);
    assert sorted[..|sorted|] == sorted;
    SortMapped(members, SortEntry(le), ByKey(le));
    assert Map(members, SortEntry(le)) == members;
    ByKeyIsPreorder<string, Value>(le);
    SortIsSorted(members, ByKey(le));
    SortOfSorted(sorted, ByKey(le));
  }

  lemma MembersAreSorted(v: Value, le: Collation)
    requires v.Object?
    requires forall i | 0 <= i < |v.entries| ::
             SortValue(SortValue(v.entries[i].value, le), le) == SortValue(v.entries[i].value, le)
    ensures var members := Members(v, |v.entries|, le);
            forall e | e in members :: !e.value.Undefined? && SortEntry(le)(e) == e
  {
    hide SortValue, Members;
    var members := Members(v, |v.entries|, le);
    forall e | e in members ensures !e.value.Undefined? && SortEntry(le)(e) == e {
      MembersAre(v, |v.entries|, le, e);
      var i :| 0 <= i < |v.entries| && !v.entries[i].value.Undefined?
          && e == Entry(v.entries[i].key, SortValue(v.entries[i].value, le));
      SortedUndefined(v.entries[i].value, le);
    }
  }

  /** Two values print alike exactly when they are the same, undefined list items counted as null. */
  lemma PrintedAlikeExactly(a: Value, b: Value, le: Collation, stringify: Value -> string)
    requires TotalOrder(le) && WellFormed(a) && WellFormed(b) && !a.Undefined? && !b.Undefined? && Prints(stringify)
    ensures SerializeDeterministic(a, le, stringify) == SerializeDeterministic(b, le, stringify) <==>
            Same(Nulled(a), Nulled(b))
  {
    hide Same, SortValue, TotalOrder, WellFormed, Nulled, Printable;
    SortedIsPrintable(a, le);
    SortedIsPrintable(b, le);
    NulledSorts(a, le);
    NulledSorts(b, le);
    NulledIsWellFormed(a);
    NulledIsWellFormed(b);
    OneFormExactly(Nulled(a), Nulled(b), le);
    var x, y := SortValue(Nulled(a), le), SortValue(Nulled(b), le);
    PrintableIsWellFormed(x);
    PrintableIsWellFormed(y);
    OneFormExactly(x, y, le);
    SortedOnce(Nulled(a), le);
    SortedOnce(Nulled(b), le);
  }

  // ----- what the form is -----

  /** A list keeps its order; scalars stay as they are. */
  lemma ListForm(v: Value, le: Collation)
    requires !v.Object?
    ensures if v.List? then
              && SortValue(v, le).List? && |SortValue(v, le).items| == |v.items|
              && forall i | 0 <= i < |v.items| :: SortValue(v, le).items[i] == SortValue(v.items[i], le)
            else SortValue(v, le) == v
  {
  }

  /** An object has the forms of its defined members, in the order of their keys. */
  lemma ObjectForm(v: Value, le: Collation, e: Member)
    requires v.Object? && TotalOrder(le) && DistinctKeys(v.entries)
    ensures var r := SortValue(v, le);
            && r.Object?
            && (e in r.entries <==> exists i | 0 <= i < |v.entries| ::
                  v.entries[i].key == e.key && !v.entries[i].value.Undefined?
                  && e.value == SortValue(v.entries[i].value, le))
            && forall i, j | 0 <= i < j < |r.entries| ::
                 r.entries[i].key != r.entries[j].key && le(r.entries[i].key, r.entries[j].key)
  {
    hide Sort, TotalOrder, SortValue, DistinctKeys;
    var members := Members(v, |v.entries|, le);
    var r := Sort(members, ByKey(le));
    FormSorts(v, le);
    MembersAre(v, |v.entries|, le, e);
    SameElements(r, members, e);
    MembersDistinct(v, |v.entries|, le);
    PermutedKeys(members, r);
    ByKeyIsPreorder<string, Value>(le);
    SortIsSorted(members, ByKey(le));
    KeysInOrder(r, le);
  }

  lemma FormSorts(v: Value, le: Collation)
    requires v.Object?
    ensures SortValue(v, le) == Object(Sort(Members(v, |v.entries|, le), ByKey(le)))
  {
  }

  lemma KeysInOrder(r: seq<Member>, le: Collation)
    requires DistinctKeys(r) && SortedBy(r, ByKey(le))
    ensures forall i, j | 0 <= i < j < |r| :: r[i].key != r[j].key && le(r[i].key, r[j].key)
  {
    forall i, j | 0 <= i < j < |r| ensures le(r[i].key, r[j].key) { assert ByKey(le)(r[i], r[j]); }
  }
}
