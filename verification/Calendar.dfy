/**
 The day-number to Gregorian-date conversion of the backend's timestamps, against the calendar
 itself: the leap rule of Appendix C of RFC 3339, month lengths, and the day after a date.
 */
module Calendar {

  datatype Date = Date(year: int, month: int, day: int)

  // ----- the calendar -----

  predicate MultipleOf(year: int, n: int)
    requires n > 0
  {
    year % n == 0
  }

  /** Dafny's division by a positive number is the floor, for years before 1 too. */
  function FloorDiv(a: int, n: int): int
    requires n > 0
  {
    a / n
  }

  predicate IsLeap(year: int) {
    MultipleOf(year, 4) && (!MultipleOf(year, 100) || MultipleOf(year, 400))
  }

  function DaysInMonth(year: int, month: int): int {
    if month == 2 then (if IsLeap(year) then 29 else 28)
    else if month in {4, 6, 9, 11} then 30
    else 31
  }

  predicate ValidDate(t: Date) {
    1 <= t.month <= 12 && 1 <= t.day <= DaysInMonth(t.year, t.month)
  }

  function NextDate(t: Date): Date {
    if t.day < DaysInMonth(t.year, t.month) then t.(day := t.day + 1)
    else if t.month < 12 then Date(t.year, t.month + 1, 1)
    else Date(t.year + 1, 1, 1)
  }

  /** Days from 1970-01-01 to 1 January of a year. */
  function DaysBeforeYear(year: int): int {
    365 * (year - 1970) + (FloorDiv(year - 1, 4) - 492) - (FloorDiv(year - 1, 100) - 19) + (FloorDiv(year - 1, 400) - 4)
  }

  function DaysBeforeMonth(year: int, month: int): int
    requires 1 <= month <= 13
  {
    if month == 1 then 0 else DaysBeforeMonth(year, month - 1) + DaysInMonth(year, month - 1)
  }

  function DaysFromCivil(t: Date): int
    requires ValidDate(t)
  {
    DaysBeforeYear(t.year) + DaysBeforeMonth(t.year, t.month) + t.day - 1
  }

  // ----- the conversion -----

  /** Rust's integer division, which truncates toward zero. */
  function TruncDiv(a: int, b: int): int
    requires b > 0
  {
    if a >= 0 then a / b else -((-a) / b)
  }

  function Era(z: int): int {
    TruncDiv(if z >= 0 then z else z - 146_096, 146_097)
  }

  function YearOfEra(dayOfEra: int): int {
    TruncDiv(
      dayOfEra - TruncDiv(dayOfEra, 1_460) + TruncDiv(dayOfEra, 36_524) - TruncDiv(dayOfEra, 146_096), 365)
  }

  function DayOfYear(dayOfEra: int, yearOfEra: int): int {
    dayOfEra - (365 * yearOfEra + TruncDiv(yearOfEra, 4) - TruncDiv(yearOfEra, 100))
  }

  function CivilDate(daysSinceEpoch: int): Date {
    var z := daysSinceEpoch + 719_468;
    var era := Era(z);
    var dayOfEra := z - era * 146_097;
    var yearOfEra := YearOfEra(dayOfEra);
    DateInEra(era, yearOfEra, DayOfYear(dayOfEra, yearOfEra))
  }

  function DateInEra(era: int, yearOfEra: int, dayOfYear: int): Date {
    var year := yearOfEra + era * 400;
    var monthPart := TruncDiv(5 * dayOfYear + 2, 153);
    var day := dayOfYear - TruncDiv(153 * monthPart + 2, 5) + 1;
    var month := monthPart + if monthPart < 10 then 3 else -9;
    Date(year + if month <= 2 then 1 else 0, month, day)
  }

  // ----- the steps -----

  lemma EraSplits(z: int)
    ensures Era(z) == z / 146_097
    ensures 0 <= z - Era(z) * 146_097 < 146_097
  {
  }

  /** Day of the 400-year era on which its year y (counted from March) begins. */
  function YearStart(y: int): int {
    365 * y + FloorDiv(y, 4) - FloorDiv(y, 100) + FloorDiv(y, 400)
  }

  /** Within a century: 25 blocks of four years, the last of them one day shorter. */
  lemma YearFormula(c: int, q: int, s: int)
    requires 0 <= c < 4 && 0 <= q < 25 && 0 <= s < 1_461
    requires 1_461 * q + s < 36_524
    ensures YearOfEra(36_524 * c + 1_461 * q + s) == 100 * c + 4 * q + (if s == 1_460 then 3 else s / 365)
  {
    var doe := 36_524 * c + 1_461 * q + s;
    assert doe == 1_460 * (25 * c + q) + (24 * c + q + s);
    var e := if 24 * c + q + s >= 1_460 then 1 else 0;
    assert doe / 1_460 == 25 * c + q + e;
    assert doe / 36_524 == c;
    assert doe / 146_096 == 0;
    assert doe - doe / 1_460 + doe / 36_524 == 365 * (100 * c + 4 * q) + (s - e);
  }

  lemma YearStartFormula(c: int, q: int, k: int)
    requires 0 <= c < 4 && 0 <= q < 25 && 0 <= k < 4
    ensures YearStart(100 * c + 4 * q + k) == 36_524 * c + 1_461 * q + 365 * k
  {
    var y := 100 * c + 4 * q + k;
    assert y / 4 == 25 * c + q;
    assert y / 100 == c;
    assert y / 400 == 0;
  }

  lemma YearOfEraFinds(doe: int)
    requires 0 <= doe < 146_097
    ensures 0 <= YearOfEra(doe) < 400
    ensures YearStart(YearOfEra(doe)) <= doe < YearStart(YearOfEra(doe) + 1)
  {
    if doe == 146_096 {
      LastDay();
    } else {
      hide YearStart, YearOfEra;
      var c, q, s := CenturySplit(doe);
      YearFormula(c, q, s);
      YearBounds(c, q, s);
    }
  }

  lemma LastDay()
    ensures YearOfEra(146_096) == 399 && YearStart(399) <= 146_096 < YearStart(400)
  {
  }

  lemma CenturySplit(doe: int) returns (c: int, q: int, s: int)
    requires 0 <= doe < 146_096
    ensures 0 <= c < 4 && 0 <= q < 25 && 0 <= s < 1_461
    ensures 1_461 * q + s < 36_524 && doe == 36_524 * c + 1_461 * q + s
  {
    c := doe / 36_524;
    var r := doe % 36_524;
    q, s := r / 1_461, r % 1_461;
    assert r == 1_461 * q + s;
  }

  lemma YearBounds(c: int, q: int, s: int)
    requires 0 <= c < 4 && 0 <= q < 25 && 0 <= s < 1_461
    requires 1_461 * q + s < 36_524
    ensures var y := 100 * c + 4 * q + (if s == 1_460 then 3 else s / 365);
            0 <= y < 400 && YearStart(y) <= 36_524 * c + 1_461 * q + s < YearStart(y + 1)
  {
    hide YearStart;
    var k := if s == 1_460 then 3 else s / 365;
    YearStartFormula(c, q, k);
    if k < 3 {
      YearStartFormula(c, q, k + 1);
    } else if q < 24 {
      YearStartFormula(c, q + 1, 0);
    } else if c < 3 {
      YearStartFormula(c + 1, 0, 0);
    } else {
      LastYearStart();
    }
  }

  lemma LastYearStart()
    ensures YearStart(400) == 146_097
  {
  }

  lemma MonthFinds(doy: int)
    requires 0 <= doy <= 365
    ensures var mp := (5 * doy + 2) / 153;
            0 <= mp <= 11 && (153 * mp + 2) / 5 <= doy < (153 * (mp + 1) + 2) / 5
  {
  }

  function LeapDay(year: int): int {
    if IsLeap(year) then 1 else 0
  }

  lemma MonthStarts(year: int)
    ensures DaysBeforeMonth(year, 1) == 0 && DaysBeforeMonth(year, 2) == 31
    ensures forall m | 3 <= m <= 13 ::
              DaysBeforeMonth(year, m) == 59 + LeapDay(year) + (153 * (m - 3) + 2) / 5
    ensures DaysBeforeMonth(year, 13) == 365 + LeapDay(year)
  {
    assert DaysBeforeMonth(year, 2) == 31;
    assert DaysBeforeMonth(year, 3) == 59 + LeapDay(year);
    assert DaysBeforeMonth(year, 4) == 90 + LeapDay(year);
    assert DaysBeforeMonth(year, 5) == 120 + LeapDay(year);
    assert DaysBeforeMonth(year, 6) == 151 + LeapDay(year);
    assert DaysBeforeMonth(year, 7) == 181 + LeapDay(year);
    assert DaysBeforeMonth(year, 8) == 212 + LeapDay(year);
    assert DaysBeforeMonth(year, 9) == 243 + LeapDay(year);
    assert DaysBeforeMonth(year, 10) == 273 + LeapDay(year);
    assert DaysBeforeMonth(year, 11) == 304 + LeapDay(year);
    assert DaysBeforeMonth(year, 12) == 334 + LeapDay(year);
    assert DaysBeforeMonth(year, 13) == 365 + LeapDay(year);
    forall m | 3 <= m <= 13
      ensures DaysBeforeMonth(year, m) == 59 + LeapDay(year) + (153 * (m - 3) + 2) / 5
    {
      if m == 3 {} else if m == 4 {} else if m == 5 {} else if m == 6 {} else if m == 7 {}
      else if m == 8 {} else if m == 9 {} else if m == 10 {} else if m == 11 {} else if m == 12 {} else {}
    }
  }

  lemma MultiplesNest(year: int)
    ensures MultipleOf(year, 400) ==> MultipleOf(year, 100)
    ensures MultipleOf(year, 100) ==> MultipleOf(year, 4)
  {
  }

  lemma YearLength(year: int)
    ensures DaysBeforeYear(year + 1) == DaysBeforeYear(year) + 365 + LeapDay(year)
  {
    hide FloorDiv, MultipleOf;
    MultiplesNest(year);
    FloorStep(year, 4);
    FloorStep(year, 100);
    FloorStep(year, 400);
  }

  lemma FloorStep(year: int, n: int)
    requires n > 1
    ensures FloorDiv(year, n) == FloorDiv(year - 1, n) + (if MultipleOf(year, n) then 1 else 0)
  {
    var q, r := (year - 1) / n, (year - 1) % n;
    assert year == n * q + (r + 1);
    if r + 1 == n {
      assert year == n * (q + 1) + 0;
      DivUnique(year, n, q + 1, 0);
    } else {
      DivUnique(year, n, q, r + 1);
    }
  }

  lemma DivUnique(a: int, n: int, q: int, r: int)
    requires n > 0 && 0 <= r < n && a == n * q + r
    ensures a / n == q && a % n == r
  {
    var q', r' := a / n, a % n;
    assert n * (q - q') == r' - r;
    ProductSize(n, q - q');
  }

  lemma ProductSize(n: int, k: int)
    requires n > 0
    ensures k > 0 ==> n * k >= n
    ensures k < 0 ==> n * k <= -n
  {
  }

  /** A whole number of eras moves a floor division by a whole number of steps. */
  lemma EraShift(yoe: int, era: int, n: int, k: int)
    requires n > 0 && n * k == 400
    ensures FloorDiv(yoe + era * 400, n) == FloorDiv(yoe, n) + k * era
    ensures MultipleOf(yoe + era * 400, n) == MultipleOf(yoe, n)
  {
  }

  lemma LeapShift(yoe: int, era: int)
    ensures LeapDay(yoe + era * 400) == LeapDay(yoe)
    ensures DaysBeforeYear(yoe + era * 400) == DaysBeforeYear(yoe) + era * 146_097
  {
    hide FloorDiv, MultipleOf;
    EraShift(yoe, era, 4, 100);
    EraShift(yoe, era, 100, 4);
    EraShift(yoe, era, 400, 1);
    EraShift(yoe - 1, era, 4, 100);
    EraShift(yoe - 1, era, 100, 4);
    EraShift(yoe - 1, era, 400, 1);
    assert yoe - 1 + era * 400 == yoe + era * 400 - 1;
  }

  lemma SmallYear(y: int)
    requires 0 <= y < 400
    ensures FloorDiv(y, 400) == 0
  {
  }

  lemma MarchFirstOfEra(yoe: int)
    requires 0 <= yoe < 400
    ensures DaysBeforeYear(yoe) + 59 + LeapDay(yoe) == YearStart(yoe) - 719_468
  {
    hide FloorDiv, MultipleOf;
    SmallYear(yoe);
    MultiplesNest(yoe);
    FloorStep(yoe, 4);
    FloorStep(yoe, 100);
    FloorStep(yoe, 400);
  }

  /** 1 March of an era's year, in the calendar's own count. */
  lemma MarchFirst(era: int, yoe: int)
    requires 0 <= yoe < 400
    ensures var y := yoe + era * 400;
            && DaysBeforeYear(y) + 59 + LeapDay(y) == era * 146_097 + YearStart(yoe) - 719_468
            && YearStart(yoe + 1) - YearStart(yoe) == 365 + LeapDay(y + 1)
  {
    hide *;
    MarchFirstOfEra(yoe);
    LeapShift(yoe, era);
    LeapShift(yoe + 1, era);
    YearStartStep(yoe);
    assert yoe + 1 + era * 400 == yoe + era * 400 + 1;
  }

  lemma YearStartStep(y: int)
    ensures YearStart(y + 1) - YearStart(y) == 365 + LeapDay(y + 1)
  {
    hide FloorDiv, MultipleOf;
    MultiplesNest(y + 1);
    FloorStep(y + 1, 4);
    FloorStep(y + 1, 100);
    FloorStep(y + 1, 400);
  }

  /** The era form's March-based pieces, read as a January-based year and month. */
  lemma DateOfPieces(era: int, yoe: int, doy: int)
    requires 0 <= yoe < 400
    requires 0 <= doy < YearStart(yoe + 1) - YearStart(yoe)
    ensures var mp := (5 * doy + 2) / 153;
            var month := mp + if mp < 10 then 3 else -9;
            var t := Date(yoe + era * 400 + (if month <= 2 then 1 else 0), month, doy - (153 * mp + 2) / 5 + 1);
            ValidDate(t) && DaysFromCivil(t) == era * 146_097 + YearStart(yoe) + doy - 719_468
  {
    hide DaysBeforeYear, DaysInMonth, LeapDay, YearStart, ValidDate, DaysFromCivil;
    var y := yoe + era * 400;
    MarchFirst(era, yoe);
    LeapDayIs(y + 1);
    MonthFinds(doy);
    var mp := (5 * doy + 2) / 153;
    if mp < 10 {
      MarchOnward(y, mp, doy);
    } else {
      JanuaryFebruary(y + 1, mp, doy);
      YearLength(y);
    }
  }

  lemma LeapDayIs(year: int)
    ensures 0 <= LeapDay(year) <= 1
  {
  }

  lemma MarchOnward(year: int, mp: int, doy: int)
    requires 0 <= mp < 10 && (153 * mp + 2) / 5 <= doy < (153 * (mp + 1) + 2) / 5
    ensures var t := Date(year, mp + 3, doy - (153 * mp + 2) / 5 + 1);
            ValidDate(t) && DaysFromCivil(t) == DaysBeforeYear(year) + 59 + LeapDay(year) + doy
  {
    hide DaysBeforeYear, DaysInMonth, LeapDay, DaysBeforeMonth;
    MonthStarts(year);
    MonthWidth(year, mp);
  }

  lemma JanuaryFebruary(year: int, mp: int, doy: int)
    requires 10 <= mp <= 11 && (153 * mp + 2) / 5 <= doy < (153 * (mp + 1) + 2) / 5
    requires doy < 365 + LeapDay(year)
    ensures var t := Date(year, mp - 9, doy - (153 * mp + 2) / 5 + 1);
            ValidDate(t) && DaysFromCivil(t) == DaysBeforeYear(year) - 306 + doy
  {
    hide DaysBeforeYear, MultipleOf;
    MonthStarts(year);
    assert mp == 10 || mp == 11;
  }

  lemma MonthWidth(year: int, mp: int)
    requires 0 <= mp < 10
    ensures (153 * (mp + 1) + 2) / 5 - (153 * mp + 2) / 5 == DaysInMonth(year, mp + 3)
  {
  }

  /** What the nested divisions amount to: an era, a year in it, a day in that year. */
  lemma CivilDatePieces(days: int) returns (era: int, yoe: int, doy: int)
    ensures 0 <= yoe < 400 && 0 <= doy < YearStart(yoe + 1) - YearStart(yoe)
    ensures days == era * 146_097 + YearStart(yoe) + doy - 719_468
    ensures var mp := (5 * doy + 2) / 153;
            var month := mp + if mp < 10 then 3 else -9;
            CivilDate(days) == Date(yoe + era * 400 + (if month <= 2 then 1 else 0), month,
                doy - (153 * mp + 2) / 5 + 1)
  {
    hide YearOfEra, YearStart, Era, DayOfYear, DateInEra, TruncDiv;
    var z := days + 719_468;
    era := Era(z);
    EraSplits(z);
    var doe := z - era * 146_097;
    YearOfEraFinds(doe);
    yoe := YearOfEra(doe);
    doy := DayOfYear(doe, yoe);
    DayOfYearStarts(doe, yoe);
    DateInEraIs(era, yoe, doy);
  }

  lemma DateInEraIs(era: int, yoe: int, doy: int)
    requires doy >= 0
    ensures var mp := (5 * doy + 2) / 153;
            var month := mp + if mp < 10 then 3 else -9;
            DateInEra(era, yoe, doy)
              == Date(yoe + era * 400 + (if month <= 2 then 1 else 0), month, doy - (153 * mp + 2) / 5 + 1)
  {
  }

  lemma DayOfYearStarts(doe: int, yoe: int)
    requires 0 <= yoe < 400
    ensures DayOfYear(doe, yoe) == doe - YearStart(yoe)
  {
  }

  /** Every day number becomes a date of the calendar, and counting days back gives the number. */
  lemma CivilDateCounts(days: int)
    ensures ValidDate(CivilDate(days))
    ensures DaysFromCivil(CivilDate(days)) == days
  {
    hide *;
    var era, yoe, doy := CivilDatePieces(days);
    DateOfPieces(era, yoe, doy);
  }

  lemma NextDateCounts(t: Date)
    requires ValidDate(t)
    ensures ValidDate(NextDate(t)) && DaysFromCivil(NextDate(t)) == DaysFromCivil(t) + 1
  {
    MonthStarts(t.year);
    YearLength(t.year);
  }

  lemma {:induction false} YearsIncrease(y: int, y': int)
    requires y < y'
    ensures DaysBeforeYear(y) + 365 + LeapDay(y) <= DaysBeforeYear(y')
    decreases y' - y
  {
    YearLength(y);
    if y + 1 < y' { YearsIncrease(y + 1, y'); }
  }

  lemma {:induction false} MonthsIncrease(year: int, m: int, m': int)
    requires 1 <= m < m' <= 13
    ensures DaysBeforeMonth(year, m) + DaysInMonth(year, m) <= DaysBeforeMonth(year, m')
    decreases m'
  {
    if m + 1 < m' { MonthsIncrease(year, m, m' - 1); }
  }

  /** Two dates of the calendar with one day count are one date. */
  lemma DaysFromCivilInjective(t: Date, u: Date)
    requires ValidDate(t) && ValidDate(u) && DaysFromCivil(t) == DaysFromCivil(u)
    ensures t == u
  {
    WithinYear(t);
    WithinYear(u);
    if t.year < u.year { YearsIncrease(t.year, u.year); }
    if u.year < t.year { YearsIncrease(u.year, t.year); }
    if t.month < u.month { MonthsIncrease(t.year, t.month, u.month); }
    if u.month < t.month { MonthsIncrease(t.year, u.month, t.month); }
  }

  lemma WithinYear(t: Date)
    requires ValidDate(t)
    ensures DaysBeforeYear(t.year) <= DaysFromCivil(t) < DaysBeforeYear(t.year) + 365 + LeapDay(t.year)
  {
    MonthStarts(t.year);
    MonthsIncrease(t.year, t.month, 13);
    if t.month > 1 { MonthsIncrease(t.year, 1, t.month); }
  }

  lemma EpochDate()
    ensures CivilDate(0) == Date(1970, 1, 1)
  {
  }

  // ----- main results -----

  /** Day 0 is 1970-01-01 and each further day is the next date: this determines the whole conversion. */
  lemma CivilDateIsTheCalendar(days: int)
    ensures CivilDate(0) == Date(1970, 1, 1)
    ensures ValidDate(CivilDate(days))
    ensures CivilDate(days + 1) == NextDate(CivilDate(days))
  {
    hide *;
    EpochDate();
    CivilDateCounts(days);
    CivilDateCounts(days + 1);
    NextDateCounts(CivilDate(days));
    DaysFromCivilInjective(CivilDate(days + 1), NextDate(CivilDate(days)));
  }

  /** The conversion and the day count are inverse to each other, on every day and every date. */
  lemma CivilDateRoundTrips(days: int, t: Date)
    requires ValidDate(t)
    ensures ValidDate(CivilDate(days)) && DaysFromCivil(CivilDate(days)) == days
    ensures CivilDate(DaysFromCivil(t)) == t
  {
    hide *;
    CivilDateCounts(days);
    CivilDateCounts(DaysFromCivil(t));
    DaysFromCivilInjective(CivilDate(DaysFromCivil(t)), t);
  }

  predicate FitsI64(n: int) {
    -0x8000_0000_0000_0000 <= n < 0x8000_0000_0000_0000
  }

  /** Every intermediate of the conversion after the first addition fits, the small ones by far. */
  ghost predicate StepsFit(z: int) {
    var era := Era(z);
    var doe := z - era * 146_097;
    var yoe := YearOfEra(doe);
    var doy := DayOfYear(doe, yoe);
    var part := TruncDiv(5 * doy + 2, 153);
    && (z < 0 ==> FitsI64(z - 146_096)) && FitsI64(era * 146_097) && 0 <= doe < 146_097
    && 0 <= yoe < 400 && FitsI64(era * 400) && FitsI64(yoe + era * 400) && FitsI64(yoe + era * 400 + 1)
    && 0 <= 365 * yoe + TruncDiv(yoe, 4) - TruncDiv(yoe, 100) < 146_097 && 0 <= 365 * yoe < 146_000
    && 0 <= doy < 366 && 2 <= 5 * doy + 2 < 1_832 && 0 <= part <= 11 && 2 <= 153 * part + 2 <= 1_685
    && 1 <= doy - TruncDiv(153 * part + 2, 5) + 1 <= 31
  }

  lemma SmallSteps(doe: int)
    requires 0 <= doe < 146_097
    ensures var yoe := YearOfEra(doe);
            && 0 <= yoe < 400 && 0 <= 365 * yoe + TruncDiv(yoe, 4) - TruncDiv(yoe, 100) < 146_097
            && 0 <= DayOfYear(doe, yoe) < 366
  {
    hide YearOfEra;
    YearOfEraFinds(doe);
  }

  lemma MonthSteps(doy: int)
    requires 0 <= doy < 366
    ensures var part := TruncDiv(5 * doy + 2, 153); 0 <= part <= 11 && 1 <= doy - TruncDiv(153 * part + 2, 5) + 1 <= 31
  {
    MonthFinds(doy);
  }

  lemma EraSteps(z: int)
    requires FitsI64(z)
    ensures 0 <= z - Era(z) * 146_097 < 146_097 && -0x100_0000_0000_0000 <= Era(z) * 400 <= 0x100_0000_0000_0000
  {
    EraSplits(z);
  }

  /**
   On 64-bit day numbers the first addition is the only step that can overflow, for exactly the last 719468 of them:
   after it every intermediate fits.
   */
  lemma OnlyTheFirstAdditionCanOverflow(days: int)
    requires FitsI64(days)
    ensures FitsI64(days + 719_468) <==> days <= 0x7FFF_FFFF_FFFF_FFFF - 719_468
    ensures FitsI64(days + 719_468) ==> StepsFit(days + 719_468)
  {
    var z := days + 719_468;
    hide Era, YearOfEra, DayOfYear, TruncDiv;
    EraSplits(z);
    if FitsI64(z) {
      EraSteps(z);
      SmallSteps(z - Era(z) * 146_097);
      MonthSteps(DayOfYear(z - Era(z) * 146_097, YearOfEra(z - Era(z) * 146_097)));
    }
  }
}
