/**
 The context budget: a token ceiling split over five partitions by largest remainder.  The backend
 computes it in 128-bit integers, the API client in JavaScript numbers; both are methods here, each
 proved against one definition of the apportionment, which is then proved unique and optimal.
 */
module Budget {
  import opened Sorting
  import opened Wrappers

  const WEIGHTS: seq<nat> := [10, 15, 35, 30, 10]
  const TWO_53: nat := 0x20_0000_0000_0000
  const TWO_64: nat := 0x1_0000_0000_0000_0000
  const TWO_128: nat := 0x1_0000_0000_0000_0000_0000_0000_0000_0000

  function Sum(a: seq<int>): int
    requires |a| == 5
  {
    a[0] + a[1] + a[2] + a[3] + a[4]
  }

  function Weighted(ceiling: nat, i: nat): nat
    requires i < 5
  {
    ceiling * WEIGHTS[i]
  }

  function Floors(ceiling: nat): (r: seq<nat>)
    ensures |r| == 5
  {
    seq(5, i requires 0 <= i < 5 => Weighted(ceiling, i) / 100)
  }

  function Remainders(ceiling: nat): (r: seq<nat>)
    ensures |r| == 5
  {
    seq(5, i requires 0 <= i < 5 => Weighted(ceiling, i) % 100)
  }

  /** Index i is served before index j: larger remainder, and the lower index on a tie. */
  predicate Before(rems: seq<nat>, i: nat, j: nat)
    requires |rems| == 5 && i < 5 && j < 5
  {
    rems[i] > rems[j] || (rems[i] == rems[j] && i < j)
  }

  /**
   Largest-remainder apportionment: every share is its floor or one more, the shares add up to the
   total, and an index that received a left-over unit comes before every index that did not.
   */
  ghost predicate LargestRemainder(floors: seq<nat>, rems: seq<nat>, total: nat, shares: seq<nat>) {
    && |floors| == |rems| == |shares| == 5
    && (forall i | 0 <= i < 5 :: shares[i] == floors[i] || shares[i] == floors[i] + 1)
    && Sum(shares) == total
    && (forall i, j | 0 <= i < 5 && 0 <= j < 5 && shares[i] == floors[i] + 1 && shares[j] == floors[j] ::
          Before(rems, i, j))
  }

  /** The three conditions leave no choice: one apportionment meets them. */
  lemma LargestRemainderUnique(floors: seq<nat>, rems: seq<nat>, total: nat, a: seq<nat>, b: seq<nat>)
    requires LargestRemainder(floors, rems, total, a) && LargestRemainder(floors, rems, total, b)
    ensures a == b
  {
    // Were some unit given to i in a only, equal sums would give some unit to j in b only.
    forall i, j | 0 <= i < 5 && 0 <= j < 5
      ensures !(a[i] == floors[i] + 1 && b[i] == floors[i] && b[j] == floors[j] + 1 && a[j] == floors[j])
    {
      BeforeIsOneWay(rems, i, j);
    }
    if a != b {
      var i :| 0 <= i < 5 && a[i] != b[i];
      if a[i] > b[i] {
        assert exists j :: 0 <= j < 5 && a[j] < b[j] by { SmallerSomewhere(a, b, i); }
      } else {
        assert exists j :: 0 <= j < 5 && b[j] < a[j] by { SmallerSomewhere(b, a, i); }
      }
    }
  }

  lemma BeforeIsOneWay(rems: seq<nat>, i: nat, j: nat)
    requires |rems| == 5 && i < 5 && j < 5
    ensures !(Before(rems, i, j) && Before(rems, j, i))
  {
  }

  lemma SmallerSomewhere(a: seq<nat>, b: seq<nat>, i: nat)
    requires |a| == |b| == 5 && i < 5 && Sum(a) == Sum(b) && a[i] > b[i]
    ensures exists j :: 0 <= j < 5 && a[j] < b[j]
  {
  }

  // ----- handing out the left-over units -----

  function ByRemainder(rems: seq<nat>): (nat, nat) -> bool
    requires |rems| == 5
  {
    (i: nat, j: nat) => if i < 5 && j < 5 then i == j || Before(rems, i, j) else i <= j
  }

  lemma ByRemainderIsTotal(rems: seq<nat>)
    requires |rems| == 5
    ensures TotalOrder(ByRemainder(rems))
  {
  }

  ghost predicate ServingOrder(rems: seq<nat>, order: seq<nat>) {
    && |rems| == |order| == 5
    && (forall p | 0 <= p < 5 :: order[p] < 5)
    && (forall i | 0 <= i < 5 :: i in order)
    && (forall p, q | 0 <= p < q < 5 :: order[p] != order[q] && Before(rems, order[p], order[q]))
  }

  const INDICES: seq<nat> := [0, 1, 2, 3, 4]

  lemma IndicesAreFive(i: nat)
    ensures i < 5 <==> i in INDICES
    ensures |INDICES| == 5 && Distinct(INDICES)
  {
  }

  /** Sorting the five indices by remainder, as both versions do. */
  lemma SortedIndicesServe(rems: seq<nat>)
    requires |rems| == 5
    ensures ServingOrder(rems, Sort(INDICES, ByRemainder(rems)))
  {
    hide *;
    var order := Sort(INDICES, ByRemainder(rems));
    IndicesAreFive(0);
    ByRemainderIsTotal(rems);
    TotalOrderIsPreorder(ByRemainder(rems));
    SortIsSorted(INDICES, ByRemainder(rems));
    SortedServes(rems, order);
  }

  lemma SortedServes(rems: seq<nat>, order: seq<nat>)
    requires |rems| == 5 && |order| == 5 && multiset(order) == multiset(INDICES)
    requires SortedBy(order, ByRemainder(rems))
    ensures ServingOrder(rems, order)
  {
    hide ByRemainder, INDICES;
    forall i: nat ensures i < 5 <==> i in order {
      IndicesAreFive(i);
      SameElements(INDICES, order, i);
    }
    forall p | 0 <= p < 5 ensures order[p] < 5 { assert order[p] in order; }
    IndicesAreFive(0);
    DistinctPermutation(INDICES, order);
    forall p, q | 0 <= p < q < 5 ensures order[p] != order[q] && Before(rems, order[p], order[q]) {
      ByRemainderSays(rems, order[p], order[q]);
    }
  }

  lemma ByRemainderSays(rems: seq<nat>, i: nat, j: nat)
    requires |rems| == 5 && i < 5 && j < 5 && i != j
    ensures ByRemainder(rems)(i, j) == Before(rems, i, j)
  {
  }

  /** The left-over is the sum of the remainders, in hundreds: fewer units than partitions. */
  lemma LeftOver(ceiling: nat)
    ensures 0 <= Sum(Floors(ceiling)) <= ceiling && ceiling - Sum(Floors(ceiling)) < 5
    ensures 100 * (ceiling - Sum(Floors(ceiling))) == Sum(Remainders(ceiling))
  {
  }

  /** Handing one unit each to the first indices of the serving order meets the definition. */
  lemma ServedFirst(floors: seq<nat>, rems: seq<nat>, order: seq<nat>, served: nat, shares: seq<nat>)
    requires |floors| == |shares| == 5 && ServingOrder(rems, order) && served <= 5
    requires forall p | 0 <= p < 5 :: shares[order[p]] == floors[order[p]] + (if p < served then 1 else 0)
    ensures LargestRemainder(floors, rems, Sum(shares), shares)
  {
    forall i, j | 0 <= i < 5 && 0 <= j < 5 && shares[i] == floors[i] + 1 && shares[j] == floors[j]
      ensures Before(rems, i, j)
    {
      assert i in order;
      var p :| 0 <= p < 5 && order[p] == i;
      assert j in order;
      var q :| 0 <= q < 5 && order[q] == j;
    }
    forall i | 0 <= i < 5 ensures shares[i] == floors[i] || shares[i] == floors[i] + 1 {
      assert i in order;
      var p :| 0 <= p < 5 && order[p] == i;
    }
  }

  datatype ContextBudget = ContextBudget(
    ceiling: nat, rules: nat, memories: nat, astSkeletons: nat, activeFiles: nat, tools: nat)
  {
    function Shares(): seq<nat> { [rules, memories, astSkeletons, activeFiles, tools] }
  }

  /** Rust's `as u64`: the low 64 bits. */
  function AsU64(n: nat): nat {
    n % TWO_64
  }

  function SaturatingSub(a: nat, b: nat): nat {
    if a >= b then a - b else 0
  }

  function SaturatingAdd(a: nat, b: nat): nat {
    if a + b < TWO_128 then a + b else TWO_128 - 1
  }

  lemma SumUpdate(a: seq<int>, i: nat, x: int)
    requires |a| == 5 && i < 5
    ensures Sum(a[i := x]) == Sum(a) - a[i] + x
  {
  }

  /** The hand-out loop: one unit to each index in serving order until none is left. */
  method HandOut(floors: seq<nat>, ghost rems: seq<nat>, order: seq<nat>, leftOver: nat)
      returns (shares: seq<nat>, remainder: nat)
    requires |floors| == 5 && ServingOrder(rems, order) && leftOver <= 5
    requires forall i | 0 <= i < 5 :: floors[i] < TWO_64
    ensures remainder == 0
    ensures LargestRemainder(floors, rems, Sum(floors) + leftOver, shares)
  {
    shares, remainder := floors, leftOver;
    ghost var served := 0;
    for at := 0 to 5
      invariant served <= at && remainder == leftOver - served && (remainder == 0 || served == at)
      invariant |shares| == 5 && Sum(shares) == Sum(floors) + served
      invariant forall p | 0 <= p < 5 :: shares[order[p]] == floors[order[p]] + (if p < served then 1 else 0)
    {
      if remainder == 0 { break; }
      var index := order[at];
      assert shares[index] == floors[index];
      SumUpdate(shares, index, shares[index] + 1);
      shares := shares[index := SaturatingAdd(shares[index], 1)];
      remainder := remainder - 1;
      served := served + 1;
    }
    ServedFirst(floors, rems, order, served, shares);
  }

  lemma FloorsBounded(ceiling: nat)
    requires ceiling < TWO_64
    ensures forall i | 0 <= i < 5 :: Weighted(ceiling, i) < TWO_128 && Floors(ceiling)[i] < TWO_64
  {
  }

  /** The backend's version.  Its products stay below 2^128 and its casts lose nothing. */
  method AllocateContextBudget(ceiling: nat) returns (r: ContextBudget)
    requires ceiling < TWO_64
    ensures r.ceiling == ceiling
    ensures LargestRemainder(Floors(ceiling), Remainders(ceiling), ceiling, r.Shares())
  {
    hide *;
    FloorsBounded(ceiling);
    LeftOver(ceiling);
    assert SaturatingSub(ceiling, Sum(Floors(ceiling))) == ceiling - Sum(Floors(ceiling)) by {
      Saturates(ceiling, Sum(Floors(ceiling)));
    }
    SortedIndicesServe(Remainders(ceiling));
    var order := Sort(INDICES, ByRemainder(Remainders(ceiling)));
    var a, rest := HandOut(Floors(ceiling), Remainders(ceiling), order,
                           SaturatingSub(ceiling, Sum(Floors(ceiling))));
    LargestRemainderShape(Floors(ceiling), Remainders(ceiling), ceiling, a);
    assert a == [a[0], a[1], a[2], a[3], a[4]];
    r := ContextBudget(ceiling, AsU64(a[0]), AsU64(a[1]), AsU64(a[2]), AsU64(a[3]), AsU64(a[4]));
    SharesOf(r);
  }

  lemma Saturates(a: nat, b: nat)
    requires b <= a
    ensures SaturatingSub(a, b) == a - b
  {
  }

  lemma SharesOf(r: ContextBudget)
    ensures r.Shares() == [r.rules, r.memories, r.astSkeletons, r.activeFiles, r.tools]
  {
  }

  lemma LargestRemainderShape(floors: seq<nat>, rems: seq<nat>, total: nat, a: seq<nat>)
    requires total < TWO_64 && LargestRemainder(floors, rems, total, a)
    ensures |a| == 5
    ensures forall i | 0 <= i < 5 :: AsU64(a[i]) == a[i]
  {
  }

  // ----- optimality -----

  function Abs(x: int): nat {
    if x >= 0 then x else -x
  }

  /** A hundred times the distance of a split from the exact weighted shares. */
  function Deviation(ceiling: nat, split: seq<int>): nat
    requires |split| == 5
  {
    Abs(100 * split[0] - ceiling * WEIGHTS[0]) + Abs(100 * split[1] - ceiling * WEIGHTS[1])
    + Abs(100 * split[2] - ceiling * WEIGHTS[2]) + Abs(100 * split[3] - ceiling * WEIGHTS[3])
    + Abs(100 * split[4] - ceiling * WEIGHTS[4])
  }

  /**
   One share: where the apportionment chose x* of {0, 1} extra units and t separates the served
   remainders from the others, the deviation lies above its supporting line of slope 100 - 2t.
   */
  lemma SupportingLine(r: int, chosen: int, x: int, t: int)
    requires 0 <= r < 100 && 0 <= t < 100
    requires (chosen == 1 && r >= t) || (chosen == 0 && r <= t)
    ensures Abs(100 * x - r) >= Abs(100 * chosen - r) + (100 - 2 * t) * (x - chosen)
  {
    if x > chosen {
      SteepEnough(t, x - chosen);
    } else if x < chosen {
      SteepEnough(100 - t, chosen - x);
      assert (100 - 2 * t) * (x - chosen) == 100 * (x - chosen) + 2 * (t * (chosen - x));
    }
  }

  lemma SteepEnough(t: int, gap: int)
    requires t >= 0 && gap >= 1
    ensures t * gap >= t
    ensures (100 - 2 * t) * gap == 100 * gap - 2 * (t * gap)
    ensures (100 - t) * gap == 100 * gap - t * gap
  {
  }

  ghost predicate Threshold(rems: seq<nat>, floors: seq<nat>, shares: seq<nat>, t: nat) {
    && |rems| == |floors| == |shares| == 5
    && forall i | 0 <= i < 5 ::
         (shares[i] == floors[i] + 1 && rems[i] >= t) || (shares[i] == floors[i] && rems[i] <= t)
  }

  lemma ThresholdExists(floors: seq<nat>, rems: seq<nat>, total: nat, shares: seq<nat>) returns (t: nat)
    requires LargestRemainder(floors, rems, total, shares)
    requires forall i | 0 <= i < 5 :: rems[i] < 100
    ensures t < 100 && Threshold(rems, floors, shares, t) && |shares| == 5 && Sum(shares) == total
  {
    if k :| 0 <= k < 5 && shares[k] == floors[k] {
      // the largest remainder that was not served
      t := rems[k];
      for i := 0 to 5
        invariant t < 100 && exists m :: 0 <= m < 5 && shares[m] == floors[m] && rems[m] == t
        invariant forall j | 0 <= j < i :: shares[j] == floors[j] ==> rems[j] <= t
      {
        if shares[i] == floors[i] && rems[i] > t { t := rems[i]; }
      }
      var m :| 0 <= m < 5 && shares[m] == floors[m] && rems[m] == t;
      forall i | 0 <= i < 5 && shares[i] == floors[i] + 1 ensures rems[i] >= t {
        assert Before(rems, i, m);
      }
    } else {
      t := 0;
    }
  }

  lemma ShareLine(ceiling: nat, shares: seq<nat>, other: seq<int>, t: nat, i: nat)
    requires i < 5 && t < 100 && |other| == 5
    requires Threshold(Remainders(ceiling), Floors(ceiling), shares, t)
    ensures Abs(100 * other[i] - Weighted(ceiling, i))
              >= Abs(100 * shares[i] - Weighted(ceiling, i)) + (100 - 2 * t) * (other[i] - shares[i])
  {
    var floor: int, r: int := Floors(ceiling)[i], Remainders(ceiling)[i];
    assert Weighted(ceiling, i) == 100 * floor + r;
    SupportingLine(r, shares[i] - floor, other[i] - floor, t);
    assert 100 * other[i] - Weighted(ceiling, i) == 100 * (other[i] - floor) - r;
    assert 100 * shares[i] - Weighted(ceiling, i) == 100 * (shares[i] - floor) - r;
  }

  /** No other integer split of the ceiling is closer to the exact weighted shares. */
  lemma ApportionmentIsOptimal(ceiling: nat, shares: seq<nat>, other: seq<int>)
    requires |shares| == 5 && LargestRemainder(Floors(ceiling), Remainders(ceiling), ceiling, shares)
    requires |other| == 5 && Sum(other) == ceiling
    ensures Deviation(ceiling, shares) <= Deviation(ceiling, other)
  {
    hide *;
    RemaindersSmall(ceiling);
    var t := ThresholdExists(Floors(ceiling), Remainders(ceiling), ceiling, shares);
    ShareLines(ceiling, shares, other, t);
  }

  lemma RemaindersSmall(ceiling: nat)
    ensures forall i | 0 <= i < 5 :: Remainders(ceiling)[i] < 100
  {
  }

  lemma ShareLines(ceiling: nat, shares: seq<nat>, other: seq<int>, t: nat)
    requires t < 100 && |other| == 5
    requires Threshold(Remainders(ceiling), Floors(ceiling), shares, t)
    ensures Deviation(ceiling, other) >= Deviation(ceiling, shares) + (100 - 2 * t) * (Sum(other) - Sum(shares))
  {
    hide Threshold, Floors, Remainders, WEIGHTS, Abs;
    assert |shares| == 5 by { ThresholdShape(ceiling, shares, t); }
    ShareLine(ceiling, shares, other, t, 0);
    ShareLine(ceiling, shares, other, t, 1);
    ShareLine(ceiling, shares, other, t, 2);
    ShareLine(ceiling, shares, other, t, 3);
    ShareLine(ceiling, shares, other, t, 4);
    var k := 100 - 2 * t;
    AddUp(k, other[0] - shares[0], other[1] - shares[1], other[2] - shares[2], other[3] - shares[3],
        other[4] - shares[4]);
  }

  lemma ThresholdShape(ceiling: nat, shares: seq<nat>, t: nat)
    requires Threshold(Remainders(ceiling), Floors(ceiling), shares, t)
    ensures |shares| == 5
  {
  }

  lemma AddUp(k: int, a: int, b: int, c: int, d: int, e: int)
    ensures k * a + k * b + k * c + k * d + k * e == k * (a + b + c + d + e)
  {
  }

  // ----- the apportionment, computed -----

  /** How many indices are served before this one. */
  function Rank(rems: seq<nat>, i: nat): nat
    requires |rems| == 5 && i < 5
  {
    (if Before(rems, 0, i) then 1 else 0) + (if Before(rems, 1, i) then 1 else 0)
        + (if Before(rems, 2, i) then 1 else 0)
    + (if Before(rems, 3, i) then 1 else 0) + (if Before(rems, 4, i) then 1 else 0)
  }

  function Shares(floors: seq<nat>, rems: seq<nat>, total: nat): (r: seq<nat>)
    requires |floors| == |rems| == 5
    ensures |r| == 5
  {
    seq(5, i requires 0 <= i < 5 => floors[i] + Unit(Rank(rems, i), total - Sum(floors)))
  }

  lemma RanksDiffer(rems: seq<nat>, i: nat, j: nat)
    requires |rems| == 5 && i < 5 && j < 5 && Before(rems, i, j)
    ensures Rank(rems, i) < Rank(rems, j) <= 4
  {
  }

  lemma FiveRanks(a: nat, b: nat, c: nat, d: nat, e: nat, n: nat)
    requires a <= 4 && b <= 4 && c <= 4 && d <= 4 && e <= 4 && n <= 5
    requires a != b && a != c && a != d && a != e && b != c && b != d && b != e && c != d && c != e && d != e
    ensures (if a < n then 1 else 0) + (if b < n then 1 else 0) + (if c < n then 1 else 0) + (if d < n then 1 else 0)
            + (if e < n then 1 else 0) == n
  {
  }

  lemma RanksAreOrder(rems: seq<nat>, i: nat, j: nat)
    requires |rems| == 5 && i < 5 && j < 5
    ensures Rank(rems, i) <= 4 && (i != j ==> Rank(rems, i) != Rank(rems, j))
    ensures Rank(rems, i) < Rank(rems, j) ==> Before(rems, i, j)
  {
    hide Rank;
    var other := if i == 0 then 1 else 0;
    if Before(rems, i, other) { RanksDiffer(rems, i, other); } else { RanksDiffer(rems, other, i); }
    if i != j { if Before(rems, i, j) { RanksDiffer(rems, i, j); } else { RanksDiffer(rems, j, i); } }
  }

  /** One unit for each rank below n. */
  function Unit(rank: nat, n: int): nat {
    if rank < n then 1 else 0
  }

  lemma FiveUnits(rems: seq<nat>, n: nat)
    requires |rems| == 5 && n <= 5
    ensures Unit(Rank(rems, 0), n) + Unit(Rank(rems, 1), n) + Unit(Rank(rems, 2), n) + Unit(Rank(rems, 3), n)
            + Unit(Rank(rems, 4), n) == n
  {
    hide Rank, Before;
    forall i, j | 0 <= i < j < 5 ensures Rank(rems, i) <= 4 && Rank(rems, j) <= 4 && Rank(rems, i) != Rank(rems, j) {
      RanksAreOrder(rems, i, j);
      RanksAreOrder(rems, j, i);
    }
    FiveRanks(Rank(rems, 0), Rank(rems, 1), Rank(rems, 2), Rank(rems, 3), Rank(rems, 4), n);
  }

  lemma SharesSum(floors: seq<nat>, rems: seq<nat>, total: nat)
    requires |floors| == |rems| == 5 && 0 <= total - Sum(floors) <= 5
    ensures Sum(Shares(floors, rems, total)) == total
  {
    hide Rank, Unit;
    FiveUnits(rems, total - Sum(floors));
  }

  /** Serving by rank is the apportionment by largest remainder. */
  lemma SharesAreLargest(floors: seq<nat>, rems: seq<nat>, total: nat)
    requires |floors| == |rems| == 5 && 0 <= total - Sum(floors) <= 5
    ensures LargestRemainder(floors, rems, total, Shares(floors, rems, total))
  {
    hide Rank, Before, Sum;
    SharesSum(floors, rems, total);
    forall i, j | 0 <= i < 5 && 0 <= j < 5 && Rank(rems, i) < Rank(rems, j) ensures Before(rems, i, j) {
      RanksAreOrder(rems, i, j);
    }
  }

  // ----- what the shares are -----

  /** An index with nothing left over is never given a unit. */
  lemma UnitsNeedRemainders(floors: seq<nat>, rems: seq<nat>, total: nat, shares: seq<nat>, i: nat)
    requires i < 5 && LargestRemainder(floors, rems, total, shares) && shares[i] == floors[i] + 1
    requires Sum(rems) == 100 * (total - Sum(floors)) && forall j | 0 <= j < 5 :: rems[j] < 100
    ensures rems[i] > 0
  {
    if rems[i] == 0 {
      forall j | 0 <= j < 5 ensures rems[j] <= 99 * (shares[j] - floors[j]) {
        if shares[j] == floors[j] { assert Before(rems, i, j); }
      }
      TooLittleLeft(floors, rems, shares, i);
    }
  }

  lemma TooLittleLeft(floors: seq<nat>, rems: seq<nat>, shares: seq<nat>, i: nat)
    requires |floors| == |rems| == |shares| == 5 && i < 5 && rems[i] == 0 && shares[i] == floors[i] + 1
    requires forall j | 0 <= j < 5 :: shares[j] >= floors[j] && rems[j] <= 99 * (shares[j] - floors[j])
    ensures Sum(rems) < 100 * (Sum(shares) - Sum(floors))
  {
    assert rems[0] <= 99 * (shares[0] - floors[0]) && rems[1] <= 99 * (shares[1] - floors[1]);
    assert rems[2] <= 99 * (shares[2] - floors[2]) && rems[3] <= 99 * (shares[3] - floors[3]);
    assert rems[4] <= 99 * (shares[4] - floors[4]);
  }

  lemma ShareRounds(ceiling: nat, i: nat, shares: seq<nat>)
    requires i < 5 && LargestRemainder(Floors(ceiling), Remainders(ceiling), ceiling, shares)
    ensures -100 < 100 * shares[i] - Weighted(ceiling, i) < 100
  {
    var f, r := Floors(ceiling)[i], Remainders(ceiling)[i];
    assert Weighted(ceiling, i) == 100 * f + r;
    if shares[i] == f + 1 {
      LeftOver(ceiling);
      RemaindersSmall(ceiling);
      UnitsNeedRemainders(Floors(ceiling), Remainders(ceiling), ceiling, shares, i);
    }
  }

  /** Every share is its exact part of the ceiling, rounded down or up: the parts are 10, 15, 35, 30 and 10 per cent. */
  lemma SharesAreParts(ceiling: nat, shares: seq<nat>)
    requires LargestRemainder(Floors(ceiling), Remainders(ceiling), ceiling, shares)
    ensures |shares| == 5 && shares[0] + shares[1] + shares[2] + shares[3] + shares[4] == ceiling
    ensures -100 < 100 * shares[0] - 10 * ceiling < 100 && -100 < 100 * shares[1] - 15 * ceiling < 100
    ensures -100 < 100 * shares[2] - 35 * ceiling < 100 && -100 < 100 * shares[3] - 30 * ceiling < 100
    ensures -100 < 100 * shares[4] - 10 * ceiling < 100
  {
    hide Floors, Remainders, Before;
    ShareRounds(ceiling, 0, shares);
    ShareRounds(ceiling, 1, shares);
    ShareRounds(ceiling, 2, shares);
    ShareRounds(ceiling, 3, shares);
    ShareRounds(ceiling, 4, shares);
  }

  /** In particular a ceiling of whole hundreds is split exactly. */
  lemma HundredsAreExact(k: nat, shares: seq<nat>)
    requires LargestRemainder(Floors(100 * k), Remainders(100 * k), 100 * k, shares)
    ensures shares == [10 * k, 15 * k, 35 * k, 30 * k, 10 * k]
  {
    hide Floors, Remainders, Before, LargestRemainder;
    SharesAreParts(100 * k, shares);
  }
}
