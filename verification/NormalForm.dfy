/** What the registry serializer's normal form is, in terms of the value it was made from. */
module NormalForm {
  import opened Wrappers
  import opened Sorting
  import opened Stability
  import opened Entries
  import opened Text
  import opened CanonicalTree

  // ----- the text that identifies a list item -----

  /** The array has this value, other than null, under a text key. */
  predicate HasMember(t: Tree, key: string, v: Tree) {
    t.Arr? && Entry(StrKey(key), v) in t.entries && v != Leaf(Null)
  }

  ghost predicate HasSome(t: Tree, key: string) {
    exists v :: HasMember(t, key, v)
  }

  function ValueOf(digits: string): nat
    requires forall i | 0 <= i < |digits| :: '0' <= digits[i] <= '9'
  {
    if digits == "" then 0 else 10 * ValueOf(digits[..|digits| - 1]) + (digits[|digits| - 1] - '0') as nat
  }

  /** Decimal digits without a needless zero in front. */
  predicate Numeral(text: string, n: nat) {
    && text != "" && (forall i | 0 <= i < |text| :: '0' <= text[i] <= '9')
    && (text[0] == '0' ==> text == "0") && ValueOf(text) == n
  }

  /** PHP's text of a value. */
  predicate ReadsAs(v: Tree, text: string) {
    match v
    case Leaf(Null) => text == ""
    case Leaf(Bool(b)) => text == if b then "1" else ""
    case Leaf(Int(n)) => if n < 0 then text != "" && text[0] == '-' && Numeral(text[1..], -n) else Numeral(text, n)
    case Leaf(Float(printed)) => text == printed
    case Leaf(Str(s)) => text == s
    case Arr(_) => text == "Array"
  }

  /** The text of an item's `id`, else of its `slug`, else of its `ordinal`, each if not null; else nothing. */
  ghost predicate Identifies(t: Tree, text: string) {
    if HasSome(t, "id") then exists v :: HasMember(t, "id", v) && ReadsAs(v, text)
    else if HasSome(t, "slug") then exists v :: HasMember(t, "slug", v) && ReadsAs(v, text)
    else if HasSome(t, "ordinal") then exists v :: HasMember(t, "ordinal", v) && ReadsAs(v, text)
    else text == ""
  }

  lemma {:induction false} DigitsAreNumeral(n: nat)
    ensures Numeral(Digits(n), n)
  {
    if n < 10 {
      OneDigit(n);
    } else {
      DigitsAreNumeral(n / 10);
      OneMoreDigit(Digits(n / 10), n / 10, n % 10);
    }
  }

  lemma OneDigit(n: nat)
    requires n < 10
    ensures Numeral(Digits(n), n)
  {
    assert Digits(n)[..0] == "";
  }

  lemma ZeroIsNothing()
    ensures ValueOf("0") == 0
  {
    assert "0"[..0] == "";
  }

  lemma OneMoreDigit(front: string, q: nat, d: nat)
    requires Numeral(front, q) && q > 0 && d < 10
    ensures Numeral(front + ['0' + d as char], 10 * q + d)
  {
    ZeroIsNothing();
    var text := front + ['0' + d as char];
    assert text[..|text| - 1] == front && text[0] == front[0];
  }

  lemma TextReads(v: Tree)
    ensures ReadsAs(v, ToText(v))
  {
    match v
    case Leaf(Int(n)) =>
      if n < 0 {
        DigitsAreNumeral(-n);
        assert ("-" + Digits(-n))[1..] == Digits(-n);
      } else {
        DigitsAreNumeral(n);
      }
    case _ =>
  }

  lemma PresentIsMember(t: Tree, key: string)
    requires WellFormed(t)
    ensures forall v :: Present(t, key) == Some(v) <==> HasMember(t, key, v)
  {
    if t.Arr? {
      LookupFinds(t.entries, StrKey(key));
      forall v | HasMember(t, key, v) ensures Present(t, key) == Some(v) {
        LookupUnique(t.entries, Entry(StrKey(key), v));
      }
    }
  }

  lemma ItemTextIdentifies(t: Tree)
    requires WellFormed(t)
    ensures Identifies(t, ItemText(t))
  {
    hide WellFormed, Present, HasMember, ToText, ReadsAs;
    PresentIsMember(t, "id");
    PresentIsMember(t, "slug");
    PresentIsMember(t, "ordinal");
    if Present(t, "id").Some? { TextReads(Present(t, "id").value); }
    if Present(t, "slug").Some? { TextReads(Present(t, "slug").value); }
    if Present(t, "ordinal").Some? { TextReads(Present(t, "ordinal").value); }
  }

  // ----- the form -----

  /**
   The form of a list: the forms of its items, the k-th of place p[k], by their identifying texts byte by byte, those of
   one text in their old order.
   */
  lemma ListForm(items: seq<Tree>, le: KeyOrder) returns (p: seq<nat>, texts: seq<string>)
    requires forall x | x in items :: WellFormed(x)
    ensures |p| == |texts| == |items|
    ensures forall i | 0 <= i < |items| :: Identifies(items[i], texts[i])
    ensures forall k | 0 <= k < |p| :: p[k] < |items|
    ensures forall k, l | 0 <= k < l < |p| ::
              p[k] != p[l] && StrLe(texts[p[k]], texts[p[l]]) && (texts[p[k]] == texts[p[l]] ==> p[k] < p[l])
    ensures var r := Canonical(Arr(Listed(items)), le);
            && r.Arr? && |r.entries| == |items|
            && forall k | 0 <= k < |p| :: r.entries[k] == Entry(IntKey(k), Canonical(items[p[k]], le))
  {
    hide WellFormed, ItemText, Sort, Identifies, ComesFrom, StrLe;
    var t := Arr(Listed(items));
    var forms := Values(CanonicalEntries(t, le));
    FormsOfItems(items, le);
    texts := seq(|items|, i requires 0 <= i < |items| => ItemText(items[i]));
    forall i | 0 <= i < |items| ensures Identifies(items[i], texts[i]) && ItemText(forms[i]) == texts[i] {
      assert items[i] in items;
      ItemTextIdentifies(items[i]);
      ItemTextIsKept(items[i], le);
    }
    ByItemTextIsPreorder();
    p := SortComesFrom(forms, ByItemText());
    PlacesSay(forms, texts, p);
  }

  lemma FormsOfItems(items: seq<Tree>, le: KeyOrder)
    ensures var forms := Values(CanonicalEntries(Arr(Listed(items)), le));
            && |forms| == |items| && (forall i | 0 <= i < |items| :: forms[i] == Canonical(items[i], le))
            && Canonical(Arr(Listed(items)), le) == Arr(Listed(Sort(forms, ByItemText())))
  {
    hide Sort;
    var t := Arr(Listed(items));
    forall i | 0 <= i < |items| ensures t.entries[i].value == items[i] { assert Values(Listed(items))[i] == items[i]; }
  }

  lemma PlacesSay(forms: seq<Tree>, texts: seq<string>, p: seq<nat>)
    requires |texts| == |forms| && forall i | 0 <= i < |forms| :: ItemText(forms[i]) == texts[i]
    requires ComesFrom(Sort(forms, ByItemText()), forms, p, ByItemText())
    ensures |p| == |forms| && forall k | 0 <= k < |p| :: p[k] < |forms| && Sort(forms, ByItemText())[k] == forms[p[k]]
    ensures forall k, l | 0 <= k < l < |p| ::
              p[k] != p[l] && StrLe(texts[p[k]], texts[p[l]]) && (texts[p[k]] == texts[p[l]] ==> p[k] < p[l])
  {
    hide Sort, ItemText, StrLe;
    var r := Sort(forms, ByItemText());
    forall k, l | 0 <= k < l < |p|
      ensures p[k] != p[l] && StrLe(texts[p[k]], texts[p[l]]) && (texts[p[k]] == texts[p[l]] ==> p[k] < p[l])
    {
      assert ByItemText()(r[k], r[l]);
      StrLeTotal(texts[p[k]], texts[p[k]]);
      if texts[p[k]] == texts[p[l]] { assert ByItemText()(r[l], r[k]); }
    }
  }

  /** The form of any other array: each key with the form of its value, in the order of the keys. */
  lemma MapForm(entries: seq<Element>, le: KeyOrder)
    requires DistinctKeys(entries) && !IsList(entries) && OrdersKeys(KeySet(entries), le)
    ensures var r := Canonical(Arr(entries), le);
            && r.Arr? && |r.entries| == |entries|
            && (forall e | e in entries :: Entry(e.key, Canonical(e.value, le)) in r.entries)
            && (forall k, l | 0 <= k < l < |r.entries| ::
                  r.entries[k].key != r.entries[l].key && le(r.entries[k].key, r.entries[l].key))
  {
    hide Sort, OrdersKeys, KeySet;
    var t := Arr(entries);
    var forms := CanonicalEntries(t, le);
    CanonicalKeys(t, le);
    CanonicalKeySet(t, le);
    EntriesAreOrdered(forms, le);
    SortIsSortedOn(forms, ByKey(le));
    var r := Sort(forms, ByKey(le));
    PermutedKeysDistinct(forms, r);
    forall e | e in entries ensures Entry(e.key, Canonical(e.value, le)) in r {
      var i :| 0 <= i < |entries| && entries[i] == e;
      assert forms[i] in forms;
      SameElements(forms, r, forms[i]);
    }
  }

  lemma LeafForm(scalar: Scalar, le: KeyOrder)
    ensures Canonical(Leaf(scalar), le) == Leaf(scalar)
  {
  }

  /** What the revision is a hash of, where `graph` comes before `schemaVersion`: the two members in this order. */
  lemma RevisionText(graph: Tree, le: KeyOrder, encode: Tree -> string, sha256: string -> string)
    requires WellFormed(graph) && le(StrKey("graph"), StrKey("schemaVersion"))
    requires !le(StrKey("schemaVersion"), StrKey("graph"))
    ensures RevisionId(graph, le, encode, sha256) == "sha256:" + sha256(
              encode(Arr([Entry(StrKey("graph"), Canonical(Canonical(graph, le), le)),
                          Entry(StrKey("schemaVersion"), Leaf(Str("2.0")))])))
  {
    var once := Canonical(graph, le);
    var wrapped := Wrapped(once);
    WrappedLookup(once);
    var a, b := Entry(StrKey("schemaVersion"), Leaf(Str("2.0"))), Entry(StrKey("graph"), Canonical(once, le));
    assert CanonicalEntries(wrapped, le) == [a, b] by { LeafForm(Str("2.0"), le); }
    SortTwo(a, b, le);
  }

  lemma SortTwo(a: Element, b: Element, le: KeyOrder)
    requires !le(a.key, b.key)
    ensures Sort([a, b], ByKey(le)) == [b, a]
  {
    assert [a, b][1..] == [b] && [b][1..] == [];
    assert Sort([b], ByKey(le)) == [b];
    assert Insert(a, [b], ByKey(le)) == [b] + Insert(a, [], ByKey(le));
  }
}
