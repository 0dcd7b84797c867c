/**
 The API client's context budget, computed in JavaScript numbers.  Products and quotients are rounded to binary64,
 to nearest with ties to even; everything else it computes is a whole number below 2^53 and exact.
 */
module ClientBudget {
  import opened Budget
  import opened Sorting
  import opened Wrappers
  import opened Arithmetic

  // ----- binary64 -----

  /** The gap between neighbouring numbers at the size of n. */
  function Spacing(n: nat): (u: nat)
    ensures u >= 1
  {
    if n < TWO_53 then 1 else 2 * Spacing(n / 2)
  }

  /** Round n / d to the nearest whole number, ties to even. */
  function RoundedQuotient(n: nat, d: nat): nat
    requires d >= 1
  {
    var q, r := n / d, n % d;
    if 2 * r < d || (2 * r == d && q % 2 == 0) then q else q + 1
  }

  function RoundToMultiple(n: nat, u: nat): nat
    requires u >= 1
  {
    RoundedQuotient(n, u) * u
  }

  /** A whole number as a JavaScript number. */
  function RoundNat(n: nat): nat {
    RoundToMultiple(n, Spacing(n))
  }

  const HUNDRED_52: nat := 100 * 0x10_0000_0000_0000

  /** What n / 100 is scaled by to have its 53 significant bits before the point. */
  function Scale(n: nat): (s: nat)
    requires n >= 1
    ensures s >= 1
    decreases if n < HUNDRED_52 then HUNDRED_52 - n else 0
  {
    if n >= HUNDRED_52 then 1 else 2 * Scale(2 * n)
  }

  /** The floor of n / 100 in JavaScript, where the quotient may be rounded up to a whole number. */
  function FloorOfQuotient(n: nat): nat {
    if n == 0 then 0
    else
      var s := Scale(n);
      RoundedQuotient(n * s, 100) / s
  }

  /** When rounding carries a remainder r up to the next whole number. */
  predicate Carries(r: nat, s: nat) {
    r < 100 && (100 - r) * s <= 50
  }

  lemma ScaledSplit(f: nat, r: nat, s: nat)
    requires r < 100 && s >= 1
    ensures (100 * f + r) * s == 100 * (f * s) + r * s
    ensures (100 * f + r) * s / 100 == f * s + r * s / 100 && (100 * f + r) * s % 100 == r * s % 100
    ensures 100 * (r * s / 100) + r * s % 100 == r * s && r * s / 100 < s
  {
    assert (100 * f + r) * s == 100 * (f * s) + r * s;
    BelowScale(r, s);
  }

  lemma BelowScale(r: nat, s: nat)
    requires r < 100 && s >= 1
    ensures r * s < 100 * s
  {
  }

  /** The floor is the whole part, or one more where rounding carries. */
  lemma FloorIs(n: nat)
    requires 1 <= n < HUNDRED_52
    ensures FloorOfQuotient(n) == n / 100 + if Carries(n % 100, Scale(n)) then 1 else 0
  {
    var f, r, s := n / 100, n % 100, Scale(n);
    assert n == 100 * f + r;
    assert s == 2 * Scale(2 * n);
    hide Scale;
    CarriedFloor(f, r, s);
  }

  lemma CarriedFloor(f: nat, r: nat, s: nat)
    requires r < 100 && s >= 2 && s % 2 == 0
    ensures RoundedQuotient((100 * f + r) * s, 100) / s == f + if Carries(r, s) then 1 else 0
  {
    ScaledSplit(f, r, s);
    var n, a, b := (100 * f + r) * s, r * s / 100, r * s % 100;
    CarryIs(r, s, a, b);
    hide Carries, RoundedQuotient;
    SplitQuotient(s, f, a);
    NextWhole(f, s);
    OddBefore(f, s);
    if a < s - 1 { SplitQuotient(s, f, a + 1); }
    RoundedFloor(n, f * s + a, b, f, s, a == s - 1);
  }

  lemma RoundedFloor(n: nat, q: nat, b: nat, f: nat, s: nat, last: bool)
    requires s >= 1 && n / 100 == q && n % 100 == b && q / s == f
    requires if last then q % 2 == 1 && (q + 1) / s == f + 1 else (q + 1) / s == f
    ensures RoundedQuotient(n, 100) / s == f + if last && b >= 50 then 1 else 0
  {
  }

  lemma CarryIs(r: nat, s: nat, a: nat, b: nat)
    requires r < 100 && 100 * a + b == r * s && b < 100 && a < s
    ensures Carries(r, s) <==> a == s - 1 && b >= 50
  {
    assert (100 - r) * s == 100 * s - (100 * a + b);
  }

  lemma NextWhole(f: nat, s: nat)
    requires s >= 1
    ensures f * s + (s - 1) + 1 == (f + 1) * s && (f + 1) * s / s == f + 1
  {
    assert (f + 1) * s == f * s + s;
    SplitQuotient(s, f + 1, 0);
  }

  lemma OddBefore(f: nat, s: nat)
    requires s >= 2 && s % 2 == 0
    ensures (f * s + (s - 1)) % 2 == 1
  {
    assert f * s == 2 * (f * (s / 2));
  }

  // ----- the client's computation -----

  function JsProduct(ceiling: nat, i: nat): nat
    requires i < 5
  {
    RoundNat(Weighted(ceiling, i))
  }

  function JsFloors(ceiling: nat): (r: seq<nat>)
    ensures |r| == 5
  {
    seq(5, i requires 0 <= i < 5 => FloorOfQuotient(JsProduct(ceiling, i)))
  }

  function JsRemainders(ceiling: nat): (r: seq<nat>)
    ensures |r| == 5
  {
    seq(5, i requires 0 <= i < 5 => JsProduct(ceiling, i) % 100)
  }

  lemma SpacingIs(n: nat)
    requires n < 64 * TWO_53
    ensures var u := Spacing(n);
            && (u == 1 || u == 2 || u == 4 || u == 8 || u == 16 || u == 32 || u == 64)
            && (n < TWO_53 ==> u == 1) && (TWO_53 <= n < 2 * TWO_53 ==> u == 2)
               && (2 * TWO_53 <= n < 4 * TWO_53 ==> u == 4)
            && (n < 16 * TWO_53 ==> u <= 16) && (n < 32 * TWO_53 ==> u <= 32)
  {
    var a := n / 2;
    var b := a / 2;
    var c := b / 2;
    var d := c / 2;
    var e := d / 2;
    assert e / 2 < TWO_53;
    assert Spacing(n) == if n < TWO_53 then 1 else 2 * Spacing(a);
    assert Spacing(a) == if a < TWO_53 then 1 else 2 * Spacing(b);
    assert Spacing(b) == if b < TWO_53 then 1 else 2 * Spacing(c);
    assert Spacing(c) == if c < TWO_53 then 1 else 2 * Spacing(d);
    assert Spacing(d) == if d < TWO_53 then 1 else 2 * Spacing(e);
    assert Spacing(e) == if e < TWO_53 then 1 else 2 * Spacing(e / 2);
  }

  lemma ScaleIs(n: nat)
    requires 1 <= n < HUNDRED_52
    ensures Scale(n) >= 2 && (2 * n < HUNDRED_52 ==> Scale(n) >= 4) && (4 * n < HUNDRED_52 ==> Scale(n) >= 8)
    ensures (8 * n < HUNDRED_52 ==> Scale(n) >= 16) && (16 * n < HUNDRED_52 ==> Scale(n) >= 32)
  {
    assert Scale(n) == 2 * Scale(2 * n);
    if 2 * n < HUNDRED_52 { assert Scale(2 * n) == 2 * Scale(4 * n); }
    if 4 * n < HUNDRED_52 { assert Scale(4 * n) == 2 * Scale(8 * n); }
    if 8 * n < HUNDRED_52 { assert Scale(8 * n) == 2 * Scale(16 * n); }
    if 16 * n < HUNDRED_52 { assert Scale(16 * n) == 2 * Scale(32 * n); }
  }

  lemma RoundsNear(n: nat, u: nat)
    requires u >= 1
    ensures -(u as int) <= 2 * (RoundToMultiple(n, u) - n) <= u
    ensures RoundToMultiple(n, u) % u == 0
  {
    var q := RoundedQuotient(n, u);
    assert n == n / u * u + n % u;
    assert (n / u + 1) * u == n / u * u + u;
    SplitQuotient(u, q, 0);
  }

  // ----- the hand-out always ends -----

  function Gap(i: nat): nat
    requires i < 5
  {
    [16, 16, 64, 32, 16][i]
  }

  /** How far below a whole number rounding can carry from, at the size of this product. */
  function Reach(i: nat): nat
    requires i < 5
  {
    [6, 12, 25, 25, 6][i]
  }

  lemma ProductNear(ceiling: nat, i: nat)
    requires ceiling < TWO_53 && i < 5
    ensures var w, p := Weighted(ceiling, i), JsProduct(ceiling, i);
            -(Gap(i) as int) <= 2 * (p - w) <= Gap(i) && p < HUNDRED_52
  {
    var w := Weighted(ceiling, i);
    assert w < 64 * TWO_53;
    SpacingIs(w);
    RoundsNear(w, Spacing(w));
  }

  lemma CarryReaches(p: nat, i: nat)
    requires 1 <= p < HUNDRED_52 && i < 5 && Carries(p % 100, Scale(p))
    requires 2 * p <= 2 * TWO_53 * WEIGHTS[i] + Gap(i)
    ensures 100 - p % 100 <= Reach(i)
  {
    ScaleIs(p);
    var s, d := Scale(p), 100 - p % 100;
    hide Scale;
    if i == 0 || i == 4 { ScaledBy(d, s, 8); } else if i == 1 { ScaledBy(d, s, 4); } else { ScaledBy(d, s, 2); }
  }

  lemma ScaledBy(d: nat, s: nat, least: nat)
    requires s >= least && d * s <= 50
    ensures d * least <= 50
  {
    assert d * s == d * least + d * (s - least);
  }

  /** The exact weighted share less the client's floor, in hundredths. */
  lemma FloorNear(ceiling: nat, i: nat)
    requires ceiling < TWO_53 && i < 5
    ensures var t := Weighted(ceiling, i) - 100 * JsFloors(ceiling)[i];
            -(Gap(i) as int) - 2 * Reach(i) <= 2 * t <= 198 + Gap(i)
  {
    hide Scale, Spacing, RoundToMultiple;
    ProductNear(ceiling, i);
    var p := JsProduct(ceiling, i);
    if p > 0 {
      FloorIs(p);
      if Carries(p % 100, Scale(p)) {
        assert 2 * p <= 2 * TWO_53 * WEIGHTS[i] + Gap(i) by { WeightedBelow(ceiling, i); }
        CarryReaches(p, i);
      }
    }
  }

  lemma WeightedBelow(ceiling: nat, i: nat)
    requires ceiling < TWO_53 && i < 5
    ensures Weighted(ceiling, i) <= TWO_53 * WEIGHTS[i]
  {
  }

  /** A carry of the first weight's quotient needs a ceiling of one residue. */
  lemma TensCarry(ceiling: nat, u: nat, p: nat, s: nat)
    requires u == 1 || u == 2 || u == 4 || u == 8 || u == 16
    requires p == RoundToMultiple(10 * ceiling, u) && Carries(p % 100, s) && s >= 8
    requires 100 * (p / 100 + 1) - 10 * ceiling == 10
    ensures ceiling % 4 == 1
  {
    RoundsNear(10 * ceiling, u);
    var d := 100 - p % 100;
    ScaledBy(d, s, 8);
    assert p - 10 * ceiling == 10 - d;
    hide RoundToMultiple, Carries;
    EightDivides(p, u);
    assert d == 4;
    assert u == 16;
    SixteenDivides(p, ceiling);
  }

  lemma EightDivides(p: nat, u: nat)
    requires (u == 8 || u == 16) && p % u == 0 && p % 100 >= 94
    ensures p % 100 == 96
  {
    assert p % 4 == 0;
    assert p % 100 % 4 == 0;
  }

  lemma SixteenDivides(p: nat, ceiling: nat)
    requires p % 16 == 0 && p == 10 * ceiling + 6
    ensures ceiling % 4 == 1
  {
    var q := p / 16;
    assert ceiling == 4 * (10 * q - 6 * ceiling - 4) + 1;
  }

  /** How far the client's floor is below the exact one. */
  function Shortfall(ceiling: nat, i: nat): int
    requires i < 5
  {
    (Weighted(ceiling, i) / 100) as int - JsFloors(ceiling)[i] as int
  }

  lemma DivideNear(w: nat, f: nat, low: nat, high: nat)
    requires -(low as int) <= 2 * (w - 100 * f) <= 198 + high && low < 200 && high < 100
    ensures var d := (w / 100) as int - f as int;
            && (d == -1 || d == 0 || d == 1) && (d == -1 ==> 2 * (w % 100) >= 200 - low)
               && (d == 1 ==> 2 * (w % 100) < high)
  {
    assert w == 100 * (w / 100) + w % 100;
  }

  /** Floor and exact floor differ by one at most; how, depends on the exact remainder. */
  lemma FloorWithinOne(ceiling: nat, i: nat)
    requires ceiling < TWO_53 && i < 5
    ensures var d, r := Shortfall(ceiling, i), Weighted(ceiling, i) % 100;
            && (d == -1 || d == 0 || d == 1)
            && (d == -1 ==> 2 * r >= 200 - Gap(i) - 2 * Reach(i)) && (d == 1 ==> 2 * r < Gap(i))
  {
    hide JsFloors, Weighted;
    FloorNear(ceiling, i);
    DivideNear(Weighted(ceiling, i), JsFloors(ceiling)[i], Gap(i) + 2 * Reach(i), Gap(i));
  }

  lemma FirstFloorAbove(ceiling: nat, i: nat)
    requires ceiling < TWO_53 && (i == 0 || i == 4) && Shortfall(ceiling, i) == -1
    ensures ceiling % 4 == 1 && Weighted(ceiling, i) % 100 == 90
  {
    hide Spacing, Scale, RoundToMultiple, FloorOfQuotient;
    var w, p := Weighted(ceiling, i), JsProduct(ceiling, i);
    assert w == 10 * ceiling;
    FloorWithinOne(ceiling, i);
    TensIn(ceiling);
    NineTenths(w, JsFloors(ceiling)[i]);
    ProductNear(ceiling, i);
    SpacingIs(w);
    ZeroFloor();
    FloorIs(p);
    ScaleIs(p);
    NoCarryNoTen(w, p, Gap(i));
    TensCarry(ceiling, Spacing(w), p, Scale(p));
  }

  lemma NineTenths(w: nat, f: nat)
    requires (w / 100) as int - f as int == -1 && w % 100 % 10 == 0 && 2 * (w % 100) >= 172
    ensures w % 100 == 90 && 100 * f - w == 10
  {
  }

  lemma ZeroFloor()
    ensures FloorOfQuotient(0) == 0
  {
  }

  lemma NoCarryNoTen(w: nat, p: nat, gap: nat)
    requires 2 * (p - w) <= gap <= 16
    ensures 100 * (p / 100) - w < 10
  {
  }

  lemma TensIn(ceiling: nat)
    ensures 10 * ceiling % 100 % 10 == 0
  {
  }

  /** The five remainders and how the floors differ, and the units that are left over. */
  lemma UnitsFit(a: nat, b: nat, g: nat, h: nat, exact: nat, da: int, db: int, dg: int, dh: int)
    requires a % 10 == 0 && b % 5 == 0 && g % 5 == 0 && h % 10 == 0 && a < 100 && b < 100 && g < 100 && h < 100
    requires 100 * exact == 2 * a + b + g + h
    requires -1 <= da <= 1 && -1 <= db <= 1 && -1 <= dg <= 1 && -1 <= dh <= 1
    requires (da == 1 ==> a < 8) && (db == 1 ==> b < 8) && (dg == 1 ==> g < 32) && (dh == 1 ==> h < 16)
    requires (da == -1 ==> b == 35 && a == 90) && (db == -1 ==> b >= 80) && (dg == -1 ==> g >= 43)
             && (dh == -1 ==> h >= 59)
    requires a == 0 ==> b == 0 || b == 50
    ensures 0 <= exact + 2 * da + db + dg + dh <= 5
  {
  }

  function Cents(n: nat): (r: nat)
    ensures r < 100
  {
    n % 100
  }

  lemma Tens(a: nat)
    ensures Cents(10 * a) == 10 * (a % 10)
  {
  }

  lemma Fives(a: nat)
    ensures Cents(5 * a) == 5 * (a % 20)
  {
  }

  lemma TriplesOfTens(c: nat)
    requires c % 10 == 0
    ensures 3 * c % 20 == 0 || 3 * c % 20 == 10
  {
    assert 3 * c == 20 * (3 * c / 20) + 3 * c % 20;
    assert 3 * c % 10 == 0;
  }

  lemma NineOfTwenty(c: nat)
    requires c % 10 == 9 && c % 4 == 1
    ensures exists m: nat :: c == 20 * m + 9
  {
    var t, u := c / 10, c / 4;
    assert c == 10 * t + 9 && c == 4 * u + 1;
    var m := t / 2;
    assert t == 2 * m || t == 2 * m + 1;
    assert c == 20 * m + 9;
  }

  lemma TriplesOfNines(c: nat)
    requires c % 10 == 9 && c % 4 == 1
    ensures 3 * c % 20 == 7
  {
    NineOfTwenty(c);
    var m: nat :| c == 20 * m + 9;
    SplitQuotient(20, 3 * m + 1, 7);
  }

  lemma ResiduesRelate(c: nat)
    ensures var (a, b, g, h) := (Cents(10 * c), Cents(15 * c), Cents(35 * c), Cents(30 * c));
            && a % 10 == 0 && b % 5 == 0 && g % 5 == 0 && h % 10 == 0
            && (a == 0 ==> b == 0 || b == 50) && (a == 90 && c % 4 == 1 ==> b == 35)
  {
    hide Cents;
    Tens(c);
    Tens(3 * c);
    Fives(3 * c);
    Fives(7 * c);
    assert 10 * (3 * c) == 30 * c && 5 * (3 * c) == 15 * c && 5 * (7 * c) == 35 * c;
    if c % 10 == 0 { TriplesOfTens(c); }
    if c % 10 == 9 && c % 4 == 1 { TriplesOfNines(c); }
  }

  /** For every safe integer the floors leave at least nothing and at most five units to hand out. */
  lemma HandsOutAlways(ceiling: nat)
    requires ceiling < TWO_53
    ensures 0 <= ceiling - Sum(JsFloors(ceiling)) <= 5
  {
    hide *;
    LeftOver(ceiling);
    ResiduesRelate(ceiling);
    SameWeights(ceiling);
    FloorsAreNear(ceiling);
    SameShortfall(ceiling);
    SumOfFive(Cents(10 * ceiling), Cents(15 * ceiling), Cents(35 * ceiling), Cents(30 * ceiling));
    UnitsFit(Cents(10 * ceiling), Cents(15 * ceiling), Cents(35 * ceiling), Cents(30 * ceiling),
        ceiling - Sum(Floors(ceiling)), Shortfall(ceiling, 0), Shortfall(ceiling, 1), Shortfall(ceiling, 2),
        Shortfall(ceiling, 3));
    UnitsAre(ceiling);
  }

  lemma SumOfFive(a: nat, b: nat, g: nat, h: nat)
    ensures Sum([a, b, g, h, a]) == 2 * a + b + g + h
  {
  }

  lemma SameShortfall(ceiling: nat)
    ensures Shortfall(ceiling, 4) == Shortfall(ceiling, 0)
  {
    hide JsFloors;
    SameWeights(ceiling);
  }

  lemma FloorsAreNear(ceiling: nat)
    requires ceiling < TWO_53
    ensures var (da, db) := (Shortfall(ceiling, 0), Shortfall(ceiling, 1));
            && -1 <= da <= 1 && -1 <= db <= 1
            && (da == 1 ==> Cents(10 * ceiling) < 8) && (da == -1 ==> Cents(10 * ceiling) == 90 && ceiling % 4 == 1)
            && (db == 1 ==> Cents(15 * ceiling) < 8) && (db == -1 ==> Cents(15 * ceiling) >= 80)
    ensures var (dg, dh) := (Shortfall(ceiling, 2), Shortfall(ceiling, 3));
            && -1 <= dg <= 1 && -1 <= dh <= 1
            && (dg == 1 ==> Cents(35 * ceiling) < 32) && (dg == -1 ==> Cents(35 * ceiling) >= 43)
            && (dh == 1 ==> Cents(30 * ceiling) < 16) && (dh == -1 ==> Cents(30 * ceiling) >= 59)
  {
    hide Shortfall, Weighted;
    SameWeights(ceiling);
    FloorWithinOne(ceiling, 0);
    FloorWithinOne(ceiling, 1);
    FloorWithinOne(ceiling, 2);
    FloorWithinOne(ceiling, 3);
    if Shortfall(ceiling, 0) == -1 { FirstFloorAbove(ceiling, 0); }
  }

  lemma SameWeights(ceiling: nat)
    ensures Weighted(ceiling, 0) == Weighted(ceiling, 4) == 10 * ceiling && Weighted(ceiling, 1) == 15 * ceiling
    ensures Weighted(ceiling, 2) == 35 * ceiling && Weighted(ceiling, 3) == 30 * ceiling
    ensures JsFloors(ceiling)[0] == JsFloors(ceiling)[4]
    ensures Remainders(ceiling)
            == [Cents(10 * ceiling), Cents(15 * ceiling), Cents(35 * ceiling), Cents(30 * ceiling), Cents(10 * ceiling)]
  {
    hide FloorOfQuotient, RoundNat;
  }

  lemma UnitsAre(ceiling: nat)
    ensures ceiling - Sum(JsFloors(ceiling)) ==
              ceiling - Sum(Floors(ceiling)) + Shortfall(ceiling, 0) + Shortfall(ceiling, 1) + Shortfall(ceiling, 2)
              + Shortfall(ceiling, 3) + Shortfall(ceiling, 4)
  {
    hide JsFloors, Weighted;
  }

  // ----- the client's method -----

  datatype RangeError = NotASafeInteger

  /** The hand-out loop; its counter is a signed number and only an exact zero stops it early. */
  method HandOutJs(floors: seq<nat>, ghost rems: seq<nat>, order: seq<nat>, leftOver: int) returns (shares: seq<nat>)
    requires |floors| == 5 && ServingOrder(rems, order) && 0 <= leftOver <= 5
    ensures LargestRemainder(floors, rems, Sum(floors) + leftOver, shares)
  {
    shares := floors;
    var remaining := leftOver;
    ghost var served := 0;
    for at := 0 to 5
      invariant served <= at && remaining == leftOver - served && (remaining == 0 || served == at)
      invariant |shares| == 5 && Sum(shares) == Sum(floors) + served
      invariant forall p | 0 <= p < 5 :: shares[order[p]] == floors[order[p]] + (if p < served then 1 else 0)
    {
      if remaining == 0 { break; }
      var index := order[at];
      SumUpdate(shares, index, shares[index] + 1);
      shares := shares[index := shares[index] + 1];
      remaining := remaining - 1;
      served := served + 1;
    }
    ServedFirst(floors, rems, order, served, shares);
  }

  /** Every safe non-negative integer gets the apportionment of the floors and remainders that the client computed. */
  method AllocateContextBudgetJs(ceiling: int) returns (r: Result<seq<nat>, RangeError>)
    ensures r.Err? <==> !(0 <= ceiling < TWO_53)
    ensures r.Ok? ==>
      && LargestRemainder(JsFloors(ceiling), JsRemainders(ceiling), ceiling, r.value)
      && r.value == Shares(JsFloors(ceiling), JsRemainders(ceiling), ceiling)
  {
    if !(0 <= ceiling < TWO_53) {
      return Err(NotASafeInteger);
    }
    hide *;
    HandsOutAlways(ceiling);
    var shares := ShareOut(JsFloors(ceiling), JsRemainders(ceiling), ceiling);
    r := Ok(shares);
  }

  method ShareOut(floors: seq<nat>, rems: seq<nat>, total: nat) returns (shares: seq<nat>)
    requires |floors| == |rems| == 5 && 0 <= total - Sum(floors) <= 5
    ensures LargestRemainder(floors, rems, total, shares) && shares == Shares(floors, rems, total)
  {
    hide *;
    SortedIndicesServe(rems);
    var remaining := total - Sum(floors);
    shares := HandOutJs(floors, rems, Sort(INDICES, ByRemainder(rems)), remaining);
    OneSplit(floors, rems, total, shares);
  }

  lemma OneSplit(floors: seq<nat>, rems: seq<nat>, total: nat, shares: seq<nat>)
    requires |floors| == |rems| == 5 && 0 <= total - Sum(floors) <= 5 && LargestRemainder(floors, rems, total, shares)
    ensures shares == Shares(floors, rems, total)
  {
    hide Shares, LargestRemainder, Sum;
    SharesAreLargest(floors, rems, total);
    LargestRemainderUnique(floors, rems, total, shares, Shares(floors, rems, total));
  }

  /** Client and backend split this ceiling alike. */
  predicate Agree(ceiling: nat) {
    Shares(JsFloors(ceiling), JsRemainders(ceiling), ceiling) == Shares(Floors(ceiling), Remainders(ceiling), ceiling)
  }

  /** That is, the client's split is the one that the backend's method is proved to give. */
  lemma AgreeIsOneSplit(ceiling: nat, shares: seq<nat>)
    requires LargestRemainder(Floors(ceiling), Remainders(ceiling), ceiling, shares)
    ensures Agree(ceiling) <==> Shares(JsFloors(ceiling), JsRemainders(ceiling), ceiling) == shares
  {
    hide Shares, LargestRemainder, JsFloors, JsRemainders, Floors, Remainders;
    LeftOver(ceiling);
    SharesAreLargest(Floors(ceiling), Remainders(ceiling), ceiling);
    LargestRemainderUnique(Floors(ceiling), Remainders(ceiling), ceiling, shares,
        Shares(Floors(ceiling), Remainders(ceiling), ceiling));
  }

  // ----- agreement depends on a residue -----

  type Five = s: seq<nat> | |s| == 5 witness [0, 0, 0, 0, 0]

  /** A product rounded to a given gap, and its quotient at a given scale. */
  function LocalProduct(n: nat, i: nat, gaps: Five): nat
    requires i < 5 && gaps[i] >= 1
  {
    RoundToMultiple(Weighted(n, i), gaps[i])
  }

  predicate Positive(gaps: Five) {
    forall i | 0 <= i < 5 :: gaps[i] >= 1
  }

  function LocalFloor(n: nat, i: nat, gaps: Five, scales: Five): nat
    requires i < 5 && gaps[i] >= 1
  {
    LocalProduct(n, i, gaps) / 100 + if Carries(LocalProduct(n, i, gaps) % 100, scales[i]) then 1 else 0
  }

  function LocalFloors(n: nat, gaps: Five, scales: Five): Five
    requires Positive(gaps)
  {
    [LocalFloor(n, 0, gaps, scales), LocalFloor(n, 1, gaps, scales), LocalFloor(n, 2, gaps, scales),
        LocalFloor(n, 3, gaps, scales), LocalFloor(n, 4, gaps, scales)]
  }

  function LocalRemainders(n: nat, gaps: Five): Five
    requires Positive(gaps)
  {
    [LocalProduct(n, 0, gaps) % 100, LocalProduct(n, 1, gaps) % 100, LocalProduct(n, 2, gaps) % 100,
        LocalProduct(n, 3, gaps) % 100, LocalProduct(n, 4, gaps) % 100]
  }

  /** Whether the two versions agree on a small number, were its products rounded as those of a large one. */
  predicate LocallyAgree(n: nat, gaps: Five, scales: Five)
    requires Positive(gaps)
  {
    Shares(LocalFloors(n, gaps, scales), LocalRemainders(n, gaps), n) == Shares(Floors(n), Remainders(n), n)
  }

  /** These gaps and scales are what the client's numbers have at this ceiling. */
  ghost predicate RoundsBy(ceiling: nat, gaps: Five, scales: Five) {
    && Positive(gaps)
    && forall i | 0 <= i < 5 ::
         && JsProduct(ceiling, i) == LocalProduct(ceiling, i, gaps)
         && JsFloors(ceiling)[i] == LocalFloor(ceiling, i, gaps, scales)
  }

  /** Adding this period moves every product by whole hundreds and by an even number of gaps. */
  predicate Period(m: nat, gaps: Five) {
    Positive(gaps) && forall i | 0 <= i < 5 :: m * WEIGHTS[i] % 100 == 0 && m * WEIGHTS[i] % (2 * gaps[i]) == 0
  }

  lemma QuotientAlong(n: nat, u: nat, k: nat)
    requires u >= 1
    ensures RoundedQuotient(n + 2 * k * u, u) == RoundedQuotient(n, u) + 2 * k
  {
    ShiftQuotient(n, u, 2 * k);
  }

  lemma RoundsAlong(n: nat, u: nat, x: nat)
    requires u >= 1 && x % (2 * u) == 0
    ensures RoundToMultiple(n + x, u) == RoundToMultiple(n, u) + x
  {
    hide RoundedQuotient;
    var k := x / (2 * u);
    assert x == 2 * k * u by { assert x == 2 * u * k; }
    QuotientAlong(n, u, k);
    Distribute(RoundedQuotient(n, u), 2 * k, u);
  }

  lemma Distribute(a: nat, b: nat, u: nat)
    ensures (a + b) * u == a * u + b * u
  {
  }

  lemma ProductAlong(n: nat, t: nat, m: nat, i: nat, gaps: Five)
    requires i < 5 && Period(m, gaps)
    ensures var x := m * WEIGHTS[i] / 100 * t;
            && Weighted(n + m * t, i) == Weighted(n, i) + 100 * x
            && LocalProduct(n + m * t, i, gaps) == LocalProduct(n, i, gaps) + 100 * x
  {
    var w := WEIGHTS[i];
    var y := m * w;
    assert y == 100 * (y / 100);
    var x := y / 100 * t;
    assert (n + m * t) * w == n * w + y * t;
    assert y * t == 100 * x;
    MultipleTimes(y, t, 2 * gaps[i]);
    RoundsAlong(n * w, gaps[i], y * t);
  }

  lemma MultipleTimes(y: nat, t: nat, d: nat)
    requires d >= 1 && y % d == 0
    ensures y * t % d == 0
  {
    var k := y / d;
    assert y == k * d;
    assert y * t == (k * t) * d;
    SplitQuotient(d, k * t, 0);
  }

  /** The same units for the same remainders, on floors and a total that moved together. */
  lemma SharesAlong(floors: seq<nat>, moved: seq<nat>, rems: seq<nat>, total: nat, x: seq<nat>)
    requires |floors| == |moved| == |rems| == |x| == 5 && forall i | 0 <= i < 5 :: moved[i] == floors[i] + x[i]
    ensures forall i | 0 <= i < 5 :: Shares(moved, rems, total + Sum(x))[i] == Shares(floors, rems, total)[i] + x[i]
  {
    hide Rank, Unit;
    assert total + Sum(x) - Sum(moved) == total - Sum(floors);
  }

  /** By how much each share moves with the ceiling. */
  function Moves(m: nat, t: nat): (r: seq<nat>)
    ensures |r| == 5
  {
    seq(5, i requires 0 <= i < 5 => m * WEIGHTS[i] / 100 * t)
  }

  lemma MovesSum(m: nat, t: nat, gaps: Five)
    requires Period(m, gaps)
    ensures Sum(Moves(m, t)) == m * t
  {
    var a, b, g, h := m * 10 / 100, m * 15 / 100, m * 35 / 100, m * 30 / 100;
    assert m * WEIGHTS[0] % 100 == 0 && m * WEIGHTS[1] % 100 == 0 && m * WEIGHTS[2] % 100 == 0
           && m * WEIGHTS[3] % 100 == 0;
    assert 2 * a + b + g + h == m;
    SumTimes(a, b, g, h, t);
  }

  lemma SumTimes(a: nat, b: nat, g: nat, h: nat, t: nat)
    ensures a * t + b * t + g * t + h * t + a * t == (2 * a + b + g + h) * t
  {
  }

  lemma MovedByHundreds(n: nat, x: nat)
    ensures (n + 100 * x) / 100 == n / 100 + x && (n + 100 * x) % 100 == n % 100
  {
  }

  lemma BothMove(n: nat, t: nat, m: nat, gaps: Five, scales: Five, i: nat)
    requires i < 5 && Period(m, gaps) && RoundsBy(n + m * t, gaps, scales)
    ensures var c, x := n + m * t, Moves(m, t)[i];
            && JsFloors(c)[i] == LocalFloors(n, gaps, scales)[i] + x
            && JsRemainders(c)[i] == LocalRemainders(n, gaps)[i]
            && Floors(c)[i] == Floors(n)[i] + x && Remainders(c)[i] == Remainders(n)[i]
  {
    hide RoundToMultiple, Carries, RoundNat, FloorOfQuotient;
    ProductAlong(n, t, m, i, gaps);
    MovedByHundreds(LocalProduct(n, i, gaps), Moves(m, t)[i]);
    MovedByHundreds(Weighted(n, i), Moves(m, t)[i]);
    assert JsFloors(n + m * t)[i] == LocalFloor(n + m * t, i, gaps, scales);
  }

  /** Client and backend agree on a ceiling exactly when they do on its residue, its products rounded alike. */
  lemma AgreementIsLocal(ceiling: nat, m: nat, gaps: Five, scales: Five)
    requires m > 0 && Period(m, gaps) && RoundsBy(ceiling, gaps, scales)
    ensures Agree(ceiling) <==> LocallyAgree(ceiling % m, gaps, scales)
  {
    hide Shares, JsFloors, JsRemainders, Floors, Remainders, LocalFloors, LocalRemainders, Moves, RoundsBy, Sum, Period;
    var n, t := ceiling % m, ceiling / m;
    assert ceiling == n + m * t;
    assert Positive(gaps) by { GapsArePositive(m, gaps); }
    var x := Moves(m, t);
    MovesSum(m, t, gaps);
    forall i | 0 <= i < 5
      ensures JsFloors(ceiling)[i] == LocalFloors(n, gaps, scales)[i] + x[i]
              && JsRemainders(ceiling)[i] == LocalRemainders(n, gaps)[i]
      ensures Floors(ceiling)[i] == Floors(n)[i] + x[i] && Remainders(ceiling)[i] == Remainders(n)[i]
    {
      BothMove(n, t, m, gaps, scales, i);
    }
    assert JsRemainders(ceiling) == LocalRemainders(n, gaps) && Remainders(ceiling) == Remainders(n);
    SharesAlong(LocalFloors(n, gaps, scales), JsFloors(ceiling), LocalRemainders(n, gaps), n, x);
    SharesAlong(Floors(n), Floors(ceiling), Remainders(n), n, x);
    SameAfterMoving(Shares(LocalFloors(n, gaps, scales), LocalRemainders(n, gaps), n),
        Shares(Floors(n), Remainders(n), n), Shares(JsFloors(ceiling), JsRemainders(ceiling), ceiling),
        Shares(Floors(ceiling), Remainders(ceiling), ceiling), x);
  }

  lemma GapsArePositive(m: nat, gaps: Five)
    requires Period(m, gaps)
    ensures Positive(gaps)
  {
  }

  lemma SameAfterMoving(a: seq<nat>, b: seq<nat>, c: seq<nat>, d: seq<nat>, x: seq<nat>)
    requires |a| == |b| == |c| == |d| == |x| == 5
    requires forall i | 0 <= i < 5 :: c[i] == a[i] + x[i] && d[i] == b[i] + x[i]
    ensures c == d <==> a == b
  {
    if c == d { forall i | 0 <= i < 5 ensures a[i] == b[i] { assert c[i] == d[i]; } }
  }

  /** The gaps and scales of binary64 at the sizes of this ceiling's products. */
  function Gaps(ceiling: nat): Five {
    seq(5, i requires 0 <= i < 5 => Spacing(Weighted(ceiling, i)))
  }

  function Scales(ceiling: nat): Five {
    seq(5, i requires 0 <= i < 5 => if JsProduct(ceiling, i) == 0 then 1 else Scale(JsProduct(ceiling, i)))
  }

  lemma OwnRounding(ceiling: nat)
    requires ceiling < TWO_53
    ensures RoundsBy(ceiling, Gaps(ceiling), Scales(ceiling))
  {
    hide RoundToMultiple, Scale, Spacing, FloorOfQuotient;
    forall i | 0 <= i < 5
      ensures JsFloors(ceiling)[i] == LocalFloor(ceiling, i, Gaps(ceiling), Scales(ceiling))
    {
      ProductNear(ceiling, i);
      ZeroFloor();
      if JsProduct(ceiling, i) > 0 { FloorIs(JsProduct(ceiling, i)); }
    }
  }

  lemma FactorFits(w: nat, d: nat, k: nat)
    requires d >= 1 && k * d == 3200
    ensures 3200 * w % d == 0
  {
    Reassociate(w, k, d);
    SplitQuotient(d, w * k, 0);
  }

  lemma Reassociate(a: nat, b: nat, c: nat)
    ensures a * b * c == a * (b * c)
  {
  }

  lemma PeriodFits(w: nat, u: nat)
    requires u == 1 || u == 2 || u == 4 || u == 8 || u == 16 || u == 32 || u == 64
    ensures 3200 * w % 100 == 0 && 3200 * w % (2 * u) == 0
  {
    FactorFits(w, 100, 32);
    if u == 1 { FactorFits(w, 2, 1600); }
    if u == 2 { FactorFits(w, 4, 800); }
    if u == 4 { FactorFits(w, 8, 400); }
    if u == 8 { FactorFits(w, 16, 200); }
    if u == 16 { FactorFits(w, 32, 100); }
    if u == 32 { FactorFits(w, 64, 50); }
    if u == 64 { FactorFits(w, 128, 25); }
  }

  lemma GapIsSmall(ceiling: nat, i: nat)
    requires ceiling < TWO_53 && i < 5
    ensures var u := Gaps(ceiling)[i]; u == 1 || u == 2 || u == 4 || u == 8 || u == 16 || u == 32 || u == 64
  {
    hide Spacing;
    SpacingIs(Weighted(ceiling, i));
  }

  lemma PeriodOf(ceiling: nat)
    requires ceiling < TWO_53
    ensures Period(3200, Gaps(ceiling))
  {
    hide Gaps;
    forall i | 0 <= i < 5
      ensures Gaps(ceiling)[i] >= 1 && 3200 * WEIGHTS[i] % 100 == 0 && 3200 * WEIGHTS[i] % (2 * Gaps(ceiling)[i]) == 0
    {
      GapIsSmall(ceiling, i);
      PeriodFits(WEIGHTS[i], Gaps(ceiling)[i]);
    }
  }

  /**
   Over all safe integers: whether client and backend agree depends on the ceiling's residue modulo 3200 and on the
   binary64 gaps and scales at the size of its products, and on nothing else.
   */
  lemma AgreementHasAPeriod(ceiling: nat, other: nat)
    requires ceiling < TWO_53 && other < TWO_53 && ceiling % 3200 == other % 3200
    requires Gaps(ceiling) == Gaps(other) && Scales(ceiling) == Scales(other)
    ensures Agree(ceiling) <==> Agree(other)
    ensures Agree(ceiling) <==> LocallyAgree(ceiling % 3200, Gaps(ceiling), Scales(ceiling))
  {
    hide *;
    OwnRounding(ceiling);
    OwnRounding(other);
    PeriodOf(ceiling);
    GapsArePositive(3200, Gaps(ceiling));
    AgreementIsLocal(ceiling, 3200, Gaps(ceiling), Scales(ceiling));
    AgreementIsLocal(other, 3200, Gaps(ceiling), Scales(ceiling));
  }

  // ----- explicit bands: only ties are decided by rounding -----

  /** The exact remainders, from the ceiling modulo 20. */
  function Residues(k: nat): Five {
    [10 * (k % 10), 5 * (3 * k % 20), 5 * (7 * k % 20), 10 * (3 * k % 10), 10 * (k % 10)]
  }

  lemma SameModulo(c: nat)
    ensures var k := c % 20;
            c % 10 == k % 10 && 3 * c % 20 == 3 * k % 20 && 7 * c % 20 == 7 * k % 20 && 3 * c % 10 == 3 * k % 10
  {
    var k, t := c % 20, c / 20;
    assert c == k + t * 20;
    assert c == k + (2 * t) * 10 && 3 * c == 3 * k + (3 * t) * 20 && 7 * c == 7 * k + (7 * t) * 20
           && 3 * c == 3 * k + (6 * t) * 10;
    ShiftQuotient(k, 10, 2 * t);
    ShiftQuotient(3 * k, 20, 3 * t);
    ShiftQuotient(7 * k, 20, 7 * t);
    ShiftQuotient(3 * k, 10, 6 * t);
  }

  lemma RemaindersAre(c: nat)
    ensures Remainders(c) == Residues(c % 20)
  {
    hide Remainders, Cents;
    SameWeights(c);
    Tens(c);
    Tens(3 * c);
    Fives(3 * c);
    Fives(7 * c);
    assert 10 * (3 * c) == 30 * c && 5 * (3 * c) == 15 * c && 5 * (7 * c) == 35 * c;
    CentsAre(c);
    SameModulo(c);
  }

  lemma CentsAre(c: nat)
    ensures Cents(10 * c) == 10 * c % 100 && Cents(15 * c) == 15 * c % 100 && Cents(35 * c) == 35 * c % 100
            && Cents(30 * c) == 30 * c % 100
  {
  }

  /** The residues at which two different weights have one remainder. */
  predicate HasTie(k: nat) {
    k == 0 || k == 4 || k == 5 || k == 8 || k == 10 || k == 12 || k == 15 || k == 16
  }

  lemma TiesAre(k: nat, i: nat, j: nat)
    requires k < 20 && i < j < 5 && !(i == 0 && j == 4) && Residues(k)[i] == Residues(k)[j]
    ensures HasTie(k)
  {
    if k < 10 { TiesBelowTen(k, i, j); } else { TiesFromTen(k, i, j); }
  }

  lemma TiesBelowTen(k: nat, i: nat, j: nat)
    requires k < 10 && i < j < 5 && !(i == 0 && j == 4) && Residues(k)[i] == Residues(k)[j]
    ensures HasTie(k)
  {
  }

  lemma TiesFromTen(k: nat, i: nat, j: nat)
    requires 10 <= k < 20 && i < j < 5 && !(i == 0 && j == 4) && Residues(k)[i] == Residues(k)[j]
    ensures HasTie(k)
  {
  }

  /** Which units are handed out where there is a tie. */
  function TiedUnits(k: nat): Five {
    if k == 4 then [1, 1, 0, 0, 0] else if k == 5 then [1, 1, 1, 0, 0] else if k == 8 then [1, 0, 1, 0, 1]
    else if k == 10 then [0, 1, 0, 0, 0] else if k == 12 then [0, 1, 0, 1, 0] else if k == 15 then [1, 0, 0, 1, 0]
    else if k == 16 then [1, 0, 1, 1, 0] else [0, 0, 0, 0, 0]
  }

  ghost predicate UnitsFollow(r: Five, x: Five) {
    Sum(r) == 100 * Sum(x) && forall i, j | 0 <= i < 5 && 0 <= j < 5 && x[i] == 1 && x[j] == 0 :: Before(r, i, j)
  }

  lemma TiedUnitsFit(k: nat)
    requires HasTie(k)
    ensures UnitsFollow(Residues(k), TiedUnits(k))
  {
    hide *;
    Fit0();
    Fit4();
    Fit5();
    Fit8();
    Fit10();
    Fit12();
    Fit15();
    Fit16();
    OneOfEight(k);
  }

  lemma OneOfEight(k: nat)
    requires HasTie(k)
    ensures k == 0 || k == 4 || k == 5 || k == 8 || k == 10 || k == 12 || k == 15 || k == 16
  {
  }

  /** The first of two indices, with remainder r and units x, and the second, with s and y, were served in turn. */
  predicate InTurn(r: nat, x: nat, s: nat, y: nat) {
    (x == 1 && y == 0 ==> r >= s) && (x == 0 && y == 1 ==> s > r)
  }

  lemma FiveFollow(a: nat, b: nat, g: nat, h: nat, k: nat, x: nat, y: nat, z: nat, v: nat, w: nat)
    requires a + b + g + h + k == 100 * (x + y + z + v + w)
    requires InTurn(a, x, b, y) && InTurn(a, x, g, z) && InTurn(a, x, h, v) && InTurn(a, x, k, w)
    requires InTurn(b, y, g, z) && InTurn(b, y, h, v) && InTurn(b, y, k, w)
    requires InTurn(g, z, h, v) && InTurn(g, z, k, w) && InTurn(h, v, k, w)
    ensures UnitsFollow([a, b, g, h, k], [x, y, z, v, w])
  {
  }

  lemma Fit0()
    ensures UnitsFollow(Residues(0), TiedUnits(0))
  {
    hide UnitsFollow;
    FiveFollow(0, 0, 0, 0, 0, 0, 0, 0, 0, 0);
  }

  lemma Fit4()
    ensures UnitsFollow(Residues(4), TiedUnits(4))
  {
    hide UnitsFollow;
    FiveFollow(40, 60, 40, 20, 40, 1, 1, 0, 0, 0);
  }

  lemma Fit5()
    ensures UnitsFollow(Residues(5), TiedUnits(5))
  {
    hide UnitsFollow;
    FiveFollow(50, 75, 75, 50, 50, 1, 1, 1, 0, 0);
  }

  lemma Fit8()
    ensures UnitsFollow(Residues(8), TiedUnits(8))
  {
    hide UnitsFollow;
    FiveFollow(80, 20, 80, 40, 80, 1, 0, 1, 0, 1);
  }

  lemma Fit10()
    ensures UnitsFollow(Residues(10), TiedUnits(10))
  {
    hide UnitsFollow;
    FiveFollow(0, 50, 50, 0, 0, 0, 1, 0, 0, 0);
  }

  lemma Fit12()
    ensures UnitsFollow(Residues(12), TiedUnits(12))
  {
    hide UnitsFollow;
    FiveFollow(20, 80, 20, 60, 20, 0, 1, 0, 1, 0);
  }

  lemma Fit15()
    ensures UnitsFollow(Residues(15), TiedUnits(15))
  {
    hide UnitsFollow;
    FiveFollow(50, 25, 25, 50, 50, 1, 0, 0, 1, 0);
  }

  lemma Fit16()
    ensures UnitsFollow(Residues(16), TiedUnits(16))
  {
    hide UnitsFollow;
    FiveFollow(60, 40, 60, 80, 60, 1, 0, 1, 1, 0);
  }


  /** Rounding moved no floor and no remainder by more than two. */
  ghost predicate BarelyMoved(ceiling: nat) {
    && JsFloors(ceiling) == Floors(ceiling)
    && forall i | 0 <= i < 5 ::
         JsRemainders(ceiling)[i] <= Remainders(ceiling)[i] + 2
             && Remainders(ceiling)[i] <= JsRemainders(ceiling)[i] + 2
  }

  /** The ties that straddle the line between served and unserved, and how the client must see them. */
  predicate TiesKept(ceiling: nat) {
    var k, r := ceiling % 20, JsRemainders(ceiling);
    && (k == 4 ==> r[0] >= r[2]) && (k == 5 ==> r[0] >= r[3]) && (k == 10 ==> r[1] >= r[2])
    && (k == 15 ==> r[3] >= r[0]) && (k == 16 ==> r[2] >= r[0])
  }

  lemma FirstIsLast(ceiling: nat)
    ensures JsRemainders(ceiling)[0] == JsRemainders(ceiling)[4]
  {
    hide RoundNat;
  }

  /** The exact units at a tied residue. */
  lemma TiedSplit(ceiling: nat, shares: seq<nat>)
    requires HasTie(ceiling % 20) && LargestRemainder(Floors(ceiling), Remainders(ceiling), ceiling, shares)
    ensures forall i | 0 <= i < 5 :: shares[i] == Floors(ceiling)[i] + TiedUnits(ceiling % 20)[i]
  {
    hide Floors, Remainders, Residues, TiedUnits, Before, HasTie, Sum;
    var k := ceiling % 20;
    var f, x := Floors(ceiling), TiedUnits(k);
    RemaindersAre(ceiling);
    LeftOver(ceiling);
    TiedUnitsFit(k);
    UnitsAreBits(k);
    var other := [f[0] + x[0], f[1] + x[1], f[2] + x[2], f[3] + x[3], f[4] + x[4]];
    SumPlus(f, x, other);
    assert LargestRemainder(f, Remainders(ceiling), ceiling, other);
    LargestRemainderUnique(f, Remainders(ceiling), ceiling, shares, other);
  }

  lemma SumPlus(f: seq<nat>, x: seq<nat>, other: seq<nat>)
    requires |f| == |x| == |other| == 5 && forall i | 0 <= i < 5 :: other[i] == f[i] + x[i]
    ensures Sum(other) == Sum(f) + Sum(x)
  {
  }

  lemma UnitsAreBits(k: nat)
    ensures forall i | 0 <= i < 5 :: TiedUnits(k)[i] == 0 || TiedUnits(k)[i] == 1
  {
  }

  lemma FivesApart(k: nat, i: nat, j: nat)
    requires i < 5 && j < 5
    ensures Residues(k)[i] % 5 == 0
  {
  }

  /** Away from ties remainders are at least five apart, and rounding leaves their order. */
  lemma OrderKept(ceiling: nat, i: nat, j: nat)
    requires BarelyMoved(ceiling) && i < 5 && j < 5 && Before(Remainders(ceiling), i, j)
    ensures Remainders(ceiling)[i] > Remainders(ceiling)[j] ==> Before(JsRemainders(ceiling), i, j)
  {
    hide Remainders, JsRemainders, Residues;
    RemaindersAre(ceiling);
    FivesApart(ceiling % 20, i, j);
    FivesApart(ceiling % 20, j, i);
  }

  /** Where one was served and the other was not, a tie is kept. */
  lemma StraddleKept(ceiling: nat, i: nat, j: nat)
    requires TiesKept(ceiling) && HasTie(ceiling % 20) && i < j < 5
    requires Residues(ceiling % 20)[i] == Residues(ceiling % 20)[j] && TiedUnits(ceiling % 20)[i] == 1
             && TiedUnits(ceiling % 20)[j] == 0
    ensures JsRemainders(ceiling)[i] >= JsRemainders(ceiling)[j]
  {
    hide JsRemainders;
    FirstIsLast(ceiling);
    Straddles(ceiling % 20, i, j);
  }

  lemma Straddles(k: nat, i: nat, j: nat)
    requires HasTie(k) && i < j < 5 && Residues(k)[i] == Residues(k)[j] && TiedUnits(k)[i] == 1 && TiedUnits(k)[j] == 0
    ensures (i == 0 && j == 4) || (k == 4 && ((i == 0 && j == 2) || (i == 0 && j == 4)))
            || (k == 5 && ((i == 0 && (j == 3 || j == 4))))
            || (k == 10 && i == 1 && j == 2) || (k == 15 && ((i == 3 && j == 4) || (i == 0 && j == 4)))
                || (k == 16 && ((i == 2 && j == 4) || (i == 0 && j == 4)))
  {
  }

  /** Where rounding barely moves anything, the versions agree exactly when it keeps the straddling ties. */
  lemma TiesDecide(ceiling: nat)
    requires ceiling < TWO_53 && BarelyMoved(ceiling)
    ensures Agree(ceiling) <==> TiesKept(ceiling)
  {
    hide Shares, Floors, Remainders, JsFloors, JsRemainders, TiesKept, BarelyMoved, Before;
    var shares := Shares(Floors(ceiling), Remainders(ceiling), ceiling);
    LeftOver(ceiling);
    HandsOutAlways(ceiling);
    SharesAreLargest(Floors(ceiling), Remainders(ceiling), ceiling);
    SharesAreLargest(JsFloors(ceiling), JsRemainders(ceiling), ceiling);
    assert JsFloors(ceiling) == Floors(ceiling) by { MovedFloors(ceiling); }
    if TiesKept(ceiling) {
      KeptIsAgreed(ceiling, shares);
      LargestRemainderUnique(Floors(ceiling), JsRemainders(ceiling), ceiling, shares,
                             Shares(JsFloors(ceiling), JsRemainders(ceiling), ceiling));
    }
    if Agree(ceiling) { AgreedIsKept(ceiling, shares); }
  }

  lemma MovedFloors(ceiling: nat)
    requires BarelyMoved(ceiling)
    ensures JsFloors(ceiling) == Floors(ceiling)
  {
  }

  lemma KeptIsAgreed(ceiling: nat, shares: seq<nat>)
    requires BarelyMoved(ceiling) && TiesKept(ceiling)
             && LargestRemainder(Floors(ceiling), Remainders(ceiling), ceiling, shares)
    ensures LargestRemainder(Floors(ceiling), JsRemainders(ceiling), ceiling, shares)
  {
    hide Floors, Remainders, JsRemainders, JsFloors, Residues, TiedUnits, HasTie, TiesKept, BarelyMoved, Sum;
    var f := Floors(ceiling);
    RemaindersAre(ceiling);
    forall i, j | 0 <= i < 5 && 0 <= j < 5 && shares[i] == f[i] + 1 && shares[j] == f[j]
      ensures Before(JsRemainders(ceiling), i, j)
    {
      OrderKept(ceiling, i, j);
      if Remainders(ceiling)[i] == Remainders(ceiling)[j] {
        if i == 0 && j == 4 {
          FirstIsLast(ceiling);
        } else {
          TiesAre(ceiling % 20, i, j);
          TiedSplit(ceiling, shares);
          StraddleKept(ceiling, i, j);
        }
      }
    }
  }

  lemma AgreedIsKept(ceiling: nat, shares: seq<nat>)
    requires LargestRemainder(Floors(ceiling), Remainders(ceiling), ceiling, shares)
    requires LargestRemainder(Floors(ceiling), JsRemainders(ceiling), ceiling, shares)
    ensures TiesKept(ceiling)
  {
    hide Floors, Remainders, JsRemainders, Sum;
    FirstIsLast(ceiling);
    var k := ceiling % 20;
    if HasTie(k) { TiedSplit(ceiling, shares); }
    if k == 4 { assert Before(JsRemainders(ceiling), 0, 2); }
    if k == 5 { assert Before(JsRemainders(ceiling), 0, 3); }
    if k == 10 { assert Before(JsRemainders(ceiling), 1, 2); }
    if k == 15 { assert Before(JsRemainders(ceiling), 3, 4); }
    if k == 16 { assert Before(JsRemainders(ceiling), 2, 4); }
  }

  // ----- the first three bands -----

  const TWO_54: nat := 2 * TWO_53
  const TWO_55: nat := 4 * TWO_53

  /** A multiple of 5 rounded to a multiple of 4 or less stays in its hundred. */
  lemma RoundedByTwo(n: nat, p: nat, u: nat)
    requires n % 5 == 0 && (u == 1 || u == 2 || u == 4) && p % u == 0 && -(u as int) <= 2 * (p - n) <= u
    ensures p / 100 == n / 100 && p % 100 <= n % 100 + 2 && n % 100 <= p % 100 + 2
    ensures u == 4 ==> p % 100 <= 96
    ensures u == 2 ==> p % 100 <= 98
    ensures u == 1 ==> p % 100 <= 95
  {
    var q, r := n / 100, n % 100;
    FivesInHundred(n);
    var e := p - n;
    if r == 0 { assert e == 0 by { MultipleOfFour(n, p, q, u); } }
    if u == 4 { OddIsNoMultiple(p, q); }
    SplitHundred(p, q, r + e);
  }

  lemma FivesInHundred(n: nat)
    requires n % 5 == 0
    ensures n == 100 * (n / 100) + n % 100 && n % 100 % 5 == 0 && n % 100 <= 95
  {
    var k, q, r := n / 5, n / 100, n % 100;
    assert r == (k - 20 * q) * 5 + 0;
    SplitQuotient(5, k - 20 * q, 0);
  }

  lemma OddIsNoMultiple(p: nat, q: nat)
    requires p % 4 == 0
    ensures p != 100 * q + 97
  {
  }

  lemma MultipleOfFour(n: nat, p: nat, q: nat, u: nat)
    requires n == 100 * q && (u == 1 || u == 2 || u == 4) && p % u == 0 && -(u as int) <= 2 * (p - n) <= u
    ensures p == n
  {
    assert n == (25 * q) * 4;
    SplitQuotient(4, 25 * q, 0);
  }

  lemma SplitHundred(p: nat, q: nat, r: int)
    requires p == 100 * q + r && 0 <= r < 100
    ensures p / 100 == q && p % 100 == r
  {
  }

  lemma NoCarry(p: nat, u: nat)
    requires 1 <= p && (u == 1 || u == 2 || u == 4) && p <= TWO_55 && (u == 2 ==> p <= TWO_54)
    requires (u == 4 ==> p % 100 <= 96) && (u == 2 ==> p % 100 <= 98) && (u == 1 ==> p % 100 <= 95)
    ensures FloorOfQuotient(p) == p / 100
  {
    FloorIs(p);
    ScaleIs(p);
    var s, d := Scale(p), 100 - p % 100;
    hide Scale, FloorOfQuotient;
    if Carries(p % 100, s) { if u == 2 { ScaledBy(d, s, 32); } else { ScaledBy(d, s, 16); } }
  }

  lemma WeightsAreFives(ceiling: nat, i: nat)
    requires i < 5
    ensures Weighted(ceiling, i) % 5 == 0 && Weighted(ceiling, i) <= 35 * ceiling
  {
    var v := WEIGHTS[i] / 5;
    assert Weighted(ceiling, i) == (ceiling * v) * 5;
    SplitQuotient(5, ceiling * v, 0);
  }

  lemma SmallSpacing(n: nat)
    requires n < TWO_55
    ensures var u := Spacing(n); (u == 1 || u == 2 || u == 4) && (u == 2 ==> n < TWO_54) && (u == 4 <==> n >= TWO_54)
  {
    SpacingIs(n);
  }

  lemma RoundedStays(n: nat, u: nat, bound: nat)
    requires (u == 1 || u == 2 || u == 4) && n < bound && bound % 4 == 0
    ensures RoundToMultiple(n, u) <= bound
  {
    RoundsNear(n, u);
    hide RoundToMultiple;
  }

  lemma BarelyAt(ceiling: nat, i: nat)
    requires 35 * ceiling < TWO_55 && i < 5
    ensures JsFloors(ceiling)[i] == Floors(ceiling)[i]
    ensures JsRemainders(ceiling)[i] <= Remainders(ceiling)[i] + 2
            && Remainders(ceiling)[i] <= JsRemainders(ceiling)[i] + 2
  {
    hide Spacing, RoundToMultiple, FloorOfQuotient, Weighted;
    var n, p := Weighted(ceiling, i), JsProduct(ceiling, i);
    var u := Spacing(n);
    WeightsAreFives(ceiling, i);
    SmallSpacing(n);
    RoundsNear(n, u);
    RoundedByTwo(n, p, u);
    RoundedStays(n, u, if u == 2 then TWO_54 else TWO_55);
    ZeroFloor();
    if p > 0 { NoCarry(p, u); }
  }

  lemma BandsBarelyMove(ceiling: nat)
    requires 35 * ceiling < TWO_55
    ensures BarelyMoved(ceiling)
  {
    hide JsFloors, JsRemainders, Floors, Remainders;
    forall i | 0 <= i < 5
      ensures JsFloors(ceiling)[i] == Floors(ceiling)[i]
      ensures JsRemainders(ceiling)[i] <= Remainders(ceiling)[i] + 2
              && Remainders(ceiling)[i] <= JsRemainders(ceiling)[i] + 2
    {
      BarelyAt(ceiling, i);
    }
    assert JsFloors(ceiling) == Floors(ceiling);
  }

  lemma MultipleStays(n: nat, u: nat)
    requires u >= 1 && n % u == 0
    ensures RoundToMultiple(n, u) == n
  {
  }

  lemma HalfWay(n: nat, q: nat)
    requires n == q * 4 + 2
    ensures RoundToMultiple(n, 4) == if q % 2 == 1 then n + 2 else n - 2
  {
    SplitQuotient(4, q, 2);
    assert (q + 1) * 4 == n + 2;
  }

  lemma HalfCents(n: nat, q: nat, h: nat)
    requires n == q * 4 + 2 && n == 100 * h + 50
    ensures Cents(RoundToMultiple(n, 4)) == if q % 2 == 1 then 52 else 48
    ensures Cents(RoundToMultiple(n, 2)) == 50 == Cents(RoundToMultiple(n, 1))
  {
    hide RoundToMultiple;
    HalfWay(n, q);
    SplitQuotient(2, 2 * q + 1, 0);
    MultipleStays(n, 2);
    MultipleStays(n, 1);
    CentsNear(n, h, 50);
  }

  /** The remainder of a product that ends in 50, half way between multiples of 4. */
  lemma HalfRemainder(ceiling: nat, i: nat, q: nat, h: nat)
    requires i < 5 && Weighted(ceiling, i) < TWO_55 && Weighted(ceiling, i) == q * 4 + 2 == 100 * h + 50
    ensures JsRemainders(ceiling)[i] == if Weighted(ceiling, i) < TWO_54 then 50 else if q % 2 == 1 then 52 else 48
  {
    hide Spacing, RoundToMultiple, JsRemainders;
    RemainderOf(ceiling, i);
    SmallSpacing(Weighted(ceiling, i));
    HalfCents(Weighted(ceiling, i), q, h);
  }

  /** The remainder that the client computes for a product, given its gap. */
  lemma RemainderOf(ceiling: nat, i: nat)
    requires i < 5
    ensures JsRemainders(ceiling)[i] == Cents(RoundToMultiple(Weighted(ceiling, i), Spacing(Weighted(ceiling, i))))
  {
    hide Spacing, RoundToMultiple;
  }

  /** 35 times a ceiling whose exact second and third remainders tie. */
  lemma ThirdAtTen(ceiling: nat)
    requires 35 * ceiling < TWO_55 && ceiling % 20 == 10
    ensures JsRemainders(ceiling)[2] == if 35 * ceiling < TWO_54 then 50 else if ceiling % 40 == 10 then 52 else 48
  {
    hide JsRemainders;
    var t := ceiling / 20;
    assert 35 * ceiling == 700 * t + 350 && 35 * ceiling == Weighted(ceiling, 2);
    HalfRemainder(ceiling, 2, 175 * t + 87, 7 * t + 3);
    TensModulo(ceiling, t);
  }

  lemma TensModulo(ceiling: nat, t: nat)
    requires ceiling == 20 * t + 10
    ensures (ceiling % 40 == 10) <==> (175 * t + 87) % 2 == 1
  {
    var m := t / 2;
    if t % 2 == 0 {
      SplitQuotient(40, m, 10);
      SplitQuotient(2, 175 * m + 43, 1);
    } else {
      SplitQuotient(40, m, 30);
      SplitQuotient(2, 175 * m + 131, 0);
    }
  }

  lemma CentsNear(n: nat, q: nat, r: nat)
    requires n == 100 * q + r && 2 <= r <= 97
    ensures Cents(n) == r && Cents(n + 2) == r + 2 && Cents(n - 2) == r - 2
  {
  }

  /** 30 times a ceiling whose exact first and fourth remainders tie. */
  lemma FourthAtFive(ceiling: nat)
    requires 35 * ceiling < TWO_55 && ceiling % 20 == 5
    ensures JsRemainders(ceiling)[3] == if 30 * ceiling < TWO_54 then 50 else 52
  {
    hide JsRemainders;
    var t := ceiling / 20;
    assert 30 * ceiling == 600 * t + 150 && 30 * ceiling == Weighted(ceiling, 3);
    SplitQuotient(2, 75 * t + 18, 1);
    HalfRemainder(ceiling, 3, 150 * t + 37, 6 * t + 1);
  }

  lemma FourthAtFifteen(ceiling: nat)
    requires 35 * ceiling < TWO_55 && ceiling % 20 == 15
    ensures JsRemainders(ceiling)[3] == if 30 * ceiling < TWO_54 then 50 else 48
  {
    hide JsRemainders;
    var t := ceiling / 20;
    assert 30 * ceiling == 600 * t + 450 && 30 * ceiling == Weighted(ceiling, 3);
    SplitQuotient(2, 75 * t + 56, 0);
    HalfRemainder(ceiling, 3, 150 * t + 112, 6 * t + 4);
  }

  lemma FirstIsExact(ceiling: nat)
    requires 35 * ceiling < TWO_55
    ensures JsRemainders(ceiling)[0] == Remainders(ceiling)[0]
  {
    hide Spacing, RoundToMultiple, JsRemainders;
    RemainderOf(ceiling, 0);
    SmallSpacing(10 * ceiling);
    assert 10 * ceiling == Weighted(ceiling, 0) && 10 * ceiling < TWO_54 && 10 * ceiling % 2 == 0;
    MultipleStays(10 * ceiling, Spacing(10 * ceiling));
  }

  lemma SecondAtTen(ceiling: nat)
    requires 35 * ceiling < TWO_55 && ceiling % 20 == 10
    ensures JsRemainders(ceiling)[1] == 50
  {
    hide Spacing, RoundToMultiple, JsRemainders;
    var t := ceiling / 20;
    var n := 15 * ceiling;
    assert ceiling == 20 * t + 10;
    assert n == (150 * t + 75) * 2 && n == Weighted(ceiling, 1) && n < TWO_54;
    RemainderOf(ceiling, 1);
    SmallSpacing(n);
    SplitQuotient(2, 150 * t + 75, 0);
    MultipleStays(n, Spacing(n));
    CentsNear(n, 3 * t + 1, 50);
  }

  lemma ThirdAtFours(ceiling: nat)
    requires 35 * ceiling < TWO_55 && ceiling % 4 == 0
    ensures JsRemainders(ceiling)[2] == Remainders(ceiling)[2]
  {
    hide Spacing, RoundToMultiple, JsRemainders;
    var n, t := 35 * ceiling, ceiling / 4;
    assert n == (35 * t) * 4 && n == (70 * t) * 2 && n == Weighted(ceiling, 2);
    RemainderOf(ceiling, 2);
    SmallSpacing(n);
    SplitQuotient(4, 35 * t, 0);
    SplitQuotient(2, 70 * t, 0);
    MultipleStays(n, Spacing(n));
  }

  /**
   Up to 2^55 / 35 the versions disagree exactly where 35 times the ceiling has passed 2^54 and the ceiling is 10
   modulo 40, and where 30 times the ceiling has passed 2^54 and it ends in 5.
   */
  lemma AgreementInTheFirstBands(ceiling: nat)
    requires 35 * ceiling < TWO_55
    ensures Agree(ceiling) <==>
              !(35 * ceiling >= TWO_54 && ceiling % 40 == 10) && !(30 * ceiling >= TWO_54 && ceiling % 10 == 5)
  {
    hide Agree, JsRemainders, Remainders, BarelyMoved;
    BandsBarelyMove(ceiling);
    TiesDecide(ceiling);
    RemaindersAre(ceiling);
    FirstIsExact(ceiling);
    var k := ceiling % 20;
    TwentyAndForty(ceiling);
    if k == 4 || k == 16 { ThirdAtFours(ceiling); }
    if k == 10 {
      SecondAtTen(ceiling);
      ThirdAtTen(ceiling);
    }
    if k == 5 { FourthAtFive(ceiling); }
    if k == 15 { FourthAtFifteen(ceiling); }
  }

  lemma TwentyAndForty(c: nat)
    ensures (c % 40 == 10 ==> c % 20 == 10) && (c % 10 == 5 <==> c % 20 == 5 || c % 20 == 15)
    ensures c % 20 == 4 || c % 20 == 16 ==> c % 4 == 0
  {
  }

  /** A ceiling at which the two versions serve different partitions. */
  lemma ClientDiffersPast54()
    ensures var past := 514_697_100_270_930; past < TWO_53 && 35 * past > TWO_54 && !Agree(past)
  {
    hide Agree;
    AgreementInTheFirstBands(514_697_100_270_930);
  }
}
