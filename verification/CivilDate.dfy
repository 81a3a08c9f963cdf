/** The calendar arithmetic of src/timefmt.rs against the Gregorian calendar itself. */
module CivilDate {

  datatype Date = Date(y: int, m: int, d: int)

  // ---------------------------------------------------------------------
  // The proleptic Gregorian calendar.
  // ---------------------------------------------------------------------

  predicate Leap(y: int) {
    y % 4 == 0 && (y % 100 != 0 || y % 400 == 0)
  }

  function MonthLength(y: int, m: int): (r: int) {
    if m == 2 then (if Leap(y) then 29 else 28)
    else if m == 4 || m == 6 || m == 9 || m == 11 then 30
    else 31
  }

  predicate Valid(t: Date) {
    1 <= t.m <= 12 && 1 <= t.d <= MonthLength(t.y, t.m)
  }

  function NextDay(t: Date): (r: Date)
    requires Valid(t)
    ensures Valid(r)
  {
    if t.d < MonthLength(t.y, t.m) then Date(t.y, t.m, t.d + 1)
    else if t.m < 12 then Date(t.y, t.m + 1, 1)
    else Date(t.y + 1, 1, 1)
  }

  /** Lexicographic order. */
  predicate Before(s: Date, t: Date) {
    s.y < t.y || (s.y == t.y && (s.m < t.m || (s.m == t.m && s.d < t.d)))
  }

  // ---------------------------------------------------------------------
  // `civil_from_days`.
  // ---------------------------------------------------------------------

  /** Integer division as `civil_from_days` does it, toward zero. */
  function Quot(a: int, b: int): (r: int)
    requires b > 0
  {
    if a >= 0 then a / b else -((-a) / b)
  }

  function YearOfEra(doe: int): (r: int) {
    (doe - doe / 1460 + doe / 36524 - doe / 146096) / 365
  }

  function CivilFromDays(days: int): (r: Date) {
    var z := days + 719468;
    var era := Quot(if z >= 0 then z else z - 146096, 146097);
    var doe := z - era * 146097;
    var yoe := YearOfEra(doe);
    var y := yoe + era * 400;
    var doy := doe - (365 * yoe + yoe / 4 - yoe / 100);
    var mp := (5 * doy + 2) / 153;
    var d := doy - (153 * mp + 2) / 5 + 1;
    var m := if mp < 10 then mp + 3 else mp - 9;
    Date(if m <= 2 then y + 1 else y, m, d)
  }

  // ---------------------------------------------------------------------
  // Counting days directly.
  // ---------------------------------------------------------------------

  /** Leap years up to and including `y`, up to a constant. */
  function Leaps(y: int): (r: int) {
    y / 4 - y / 100 + y / 400
  }

  /** Days in the months before `m`. */
  function BeforeMonth(y: int, m: int): (r: int)
    requires 1 <= m <= 13
    decreases m
  {
    if m == 1 then 0 else BeforeMonth(y, m - 1) + MonthLength(y, m - 1)
  }

  /** Days from 1970-01-01. */
  function DayCount(t: Date): (r: int)
    requires 1 <= t.m <= 12
  {
    365 * (t.y - 1970) + Leaps(t.y - 1) - Leaps(1969) + BeforeMonth(t.y, t.m) + t.d - 1
  }

  lemma DivStep4(y: int)
    ensures y / 4 - (y - 1) / 4 == if y % 4 == 0 then 1 else 0
  {
  }

  lemma DivStep100(y: int)
    ensures y / 100 - (y - 1) / 100 == if y % 100 == 0 then 1 else 0
  {
  }

  lemma DivStep400(y: int)
    ensures y / 400 - (y - 1) / 400 == if y % 400 == 0 then 1 else 0
  {
  }

  lemma Divides(d: int, k: int)
    requires d == 100 || d == 4
    ensures d * k % d == 0
  {
  }

  lemma Multiples(y: int)
    ensures y % 400 == 0 ==> y % 100 == 0
    ensures y % 100 == 0 ==> y % 4 == 0
  {
    if y % 400 == 0 {
      Divides(100, 4 * (y / 400));
    }
    if y % 100 == 0 {
      Divides(4, 25 * (y / 100));
    }
  }

  lemma YearLength(y: int)
    ensures Leaps(y) - Leaps(y - 1) == if Leap(y) then 1 else 0
  {
    DivStep4(y);
    DivStep100(y);
    DivStep400(y);
    Multiples(y);
  }

  lemma MonthTable(y: int)
    ensures var l := if Leap(y) then 1 else 0;
            && BeforeMonth(y, 1) == 0 && BeforeMonth(y, 2) == 31 && BeforeMonth(y, 3) == 59 + l
            && BeforeMonth(y, 4) == 90 + l && BeforeMonth(y, 5) == 120 + l && BeforeMonth(y, 6) == 151 + l
            && BeforeMonth(y, 7) == 181 + l && BeforeMonth(y, 8) == 212 + l && BeforeMonth(y, 9) == 243 + l
            && BeforeMonth(y, 10) == 273 + l && BeforeMonth(y, 11) == 304 + l && BeforeMonth(y, 12) == 334 + l
            && BeforeMonth(y, 13) == 365 + l
  {
    hide Leap;
    assert BeforeMonth(y, 3) == BeforeMonth(y, 2) + MonthLength(y, 2);
    assert BeforeMonth(y, 5) == BeforeMonth(y, 4) + MonthLength(y, 4);
    assert BeforeMonth(y, 7) == BeforeMonth(y, 6) + MonthLength(y, 6);
    assert BeforeMonth(y, 9) == BeforeMonth(y, 8) + MonthLength(y, 8);
    assert BeforeMonth(y, 11) == BeforeMonth(y, 10) + MonthLength(y, 10);
    assert BeforeMonth(y, 13) == BeforeMonth(y, 12) + MonthLength(y, 12);
  }

  /** The era: 400 years of 146097 days, rounding down. */
  lemma EraSplit(z: int)
    ensures var era := Quot(if z >= 0 then z else z - 146096, 146097);
            0 <= z - era * 146097 < 146097
  {
  }

  /** A day of an era as century `b`, four-year cycle `g` of the century and day `h` of the cycle. */
  lemma YearOfParts(b: int, g: int, h: int)
    requires 0 <= b <= 3 && 0 <= g <= 24 && 0 <= h <= 1460 && 1461 * g + h < 36524
    ensures var j := if h == 1460 then 3 else h / 365;
            YearOfEra(36524 * b + 1461 * g + h) == 100 * b + 4 * g + j
  {
    var doe := 36524 * b + 1461 * g + h;
    var e := (24 * b + g + h) / 1460;
    var j := if h == 1460 then 3 else h / 365;
    assert doe / 36524 == b;
    assert doe / 146096 == 0;
    assert doe / 1460 == 25 * b + g + e;
    assert doe - doe / 1460 + doe / 36524 - doe / 146096 == 365 * (100 * b + 4 * g) + h - e;
    assert 0 <= e <= 1;
    assert (h - e) / 365 == j;
    Shift365(100 * b + 4 * g, h - e);
  }

  lemma Shift365(k: int, x: int)
    ensures (365 * k + x) / 365 == k + x / 365
  {
  }

  /** Quotient and remainder are unique. */
  lemma DivIs(x: int, k: int, q: int, r: int)
    requires 0 <= r < k && x == k * q + r
    ensures x / k == q && x % k == r
  {
    var p := x / k - q;
    assert k * p == r - x % k;
    assert p >= 1 ==> k * p >= k;
    assert p <= -1 ==> k * p <= -k;
  }

  /** The year of an era that starts on 1 March, and the day within it. */
  lemma YearSplit(doe: int)
    requires 0 <= doe < 146097
    ensures var yoe := YearOfEra(doe);
            var doy := doe - (365 * yoe + yoe / 4 - yoe / 100);
            0 <= yoe < 400 && 0 <= doy <= 365 && (doy == 365 ==> Leap(yoe + 1))
  {
    if doe < 146096 {
      hide YearOfEra, Leap;
      var b, r := doe / 36524, doe % 36524;
      var g, h := r / 1461, r % 1461;
      assert doe == 36524 * b + 1461 * g + h && 0 <= b <= 3;
      assert 1461 * g + h < 36524;
      CycleYear(b, g, h);
    } else {
      assert YearOfEra(146096) == 399;
    }
  }

  lemma CycleYear(b: int, g: int, h: int)
    requires 0 <= b <= 3 && 0 <= g <= 24 && 0 <= h <= 1460 && 1461 * g + h < 36524
    ensures var doe := 36524 * b + 1461 * g + h;
            var yoe := YearOfEra(doe);
            var doy := doe - (365 * yoe + yoe / 4 - yoe / 100);
            0 <= yoe < 400 && 0 <= doy <= 365 && (doy == 365 ==> Leap(yoe + 1))
  {
    YearOfParts(b, g, h);
    hide YearOfEra;
    var j := if h == 1460 then 3 else h / 365;
    assert 0 <= j <= 3 && 0 <= h - 365 * j <= 365 && (h - 365 * j == 365 ==> h == 1460);
    var yoe := 100 * b + 4 * g + j;
    DivIs(yoe, 4, 25 * b + g, j);
    DivIs(yoe, 100, b, 4 * g + j);
    if h == 1460 {
      DivIs(yoe + 1, 4, 25 * b + g + 1, 0);
      DivIs(yoe + 1, 100, b, 4 * g + 4);
    }
  }

  /** The day of a month counted from March, and the month's place in the day count. */
  lemma MonthSplit(y: int, doy: int)
    requires 0 <= doy <= 365 && (doy == 365 ==> Leap(y + 1))
    ensures var mp := (5 * doy + 2) / 153;
            var d := doy - (153 * mp + 2) / 5 + 1;
            && 0 <= mp <= 11 && d >= 1
            && (if mp < 10 then
                  && d <= MonthLength(y, mp + 3)
                  && BeforeMonth(y, mp + 3) + d - 1 == 59 + (if Leap(y) then 1 else 0) + doy
                else d <= MonthLength(y + 1, mp - 9) && BeforeMonth(y + 1, mp - 9) + d - 1 == doy - 306)
  {
    MonthTable(y);
    MonthTable(y + 1);
    hide BeforeMonth, Leap;
    var mp := (5 * doy + 2) / 153;
    assert 153 * mp <= 5 * doy + 2 < 153 * mp + 153;
  }

  lemma LeapsPeriod(yoe: int, era: int)
    requires 0 <= yoe < 400
    ensures Leaps(yoe + 400 * era) == 97 * era + yoe / 4 - yoe / 100
    ensures Leap(yoe + 1 + 400 * era) == Leap(yoe + 1)
  {
    hide Leaps, Leap;
    var y := yoe + 400 * era;
    DivIs(y, 4, 100 * era + yoe / 4, yoe % 4);
    DivIs(y, 100, 4 * era + yoe / 100, yoe % 100);
    DivIs(y, 400, era, yoe);
    LeapsOf(y);
    var x := yoe + 1;
    DivIs(x + 400 * era, 4, 100 * era + x / 4, x % 4);
    DivIs(x + 400 * era, 100, 4 * era + x / 100, x % 100);
    DivIs(x + 400 * era, 400, era + x / 400, x % 400);
    SameLeap(x, x + 400 * era);
  }

  lemma LeapsOf(y: int)
    ensures Leaps(y) == y / 4 - y / 100 + y / 400
  {
  }

  lemma SameLeap(a: int, b: int)
    requires a % 4 == b % 4 && a % 100 == b % 100 && a % 400 == b % 400
    ensures Leap(a) == Leap(b)
  {
  }

  /** The conversion is right: a real date whose day count is the input. */
  lemma CivilIsTheDay(days: int)
    ensures Valid(CivilFromDays(days)) && DayCount(CivilFromDays(days)) == days
  {
    hide YearOfEra, Leap, Leaps, BeforeMonth, MonthLength, Quot;
    var z := days + 719468;
    var era := Quot(if z >= 0 then z else z - 146096, 146097);
    var doe := z - era * 146097;
    EraSplit(z);
    YearSplit(doe);
    var yoe := YearOfEra(doe);
    var y := yoe + era * 400;
    var doy := doe - (365 * yoe + yoe / 4 - yoe / 100);
    LeapsPeriod(yoe, era);
    assert yoe + 1 + 400 * era == y + 1 && yoe + 400 * era == y;
    MonthSplit(y, doy);
    YearLength(y);
    Leaps1969();
  }

  lemma Leaps1969()
    ensures Leaps(1969) == 477
  {
  }

  /** Counting is strictly monotone on real dates, so no two dates share a count. */
  lemma CountMonotone(s: Date, t: Date)
    requires Valid(s) && Valid(t) && Before(s, t)
    ensures DayCount(s) < DayCount(t)
  {
    MonthTable(s.y);
    MonthTable(t.y);
    hide Leaps, Leap, BeforeMonth;
    if s.y < t.y {
      YearsMonotone(s.y, t.y);
    }
  }

  lemma {:induction false} YearsMonotone(a: int, b: int)
    requires a < b
    ensures 365 * a + Leaps(a - 1) + 365 + (if Leap(a) then 1 else 0) <= 365 * b + Leaps(b - 1)
    decreases b - a
  {
    hide Leaps, Leap;
    YearLength(a);
    if a + 1 < b {
      YearsMonotone(a + 1, b);
    }
  }

  /** Every real date is reached: the conversion inverts the count. */
  lemma CivilInvertsCount(t: Date)
    requires Valid(t)
    ensures CivilFromDays(DayCount(t)) == t
  {
    hide CivilFromDays, DayCount;
    var c := CivilFromDays(DayCount(t));
    CivilIsTheDay(DayCount(t));
    if Before(c, t) {
      CountMonotone(c, t);
    } else if Before(t, c) {
      CountMonotone(t, c);
    }
  }

  /** Later days are later dates, and the other way round. */
  lemma CivilMonotone(a: int, b: int)
    ensures a < b <==> Before(CivilFromDays(a), CivilFromDays(b))
  {
    hide CivilFromDays, DayCount;
    CivilIsTheDay(a);
    CivilIsTheDay(b);
    var s, t := CivilFromDays(a), CivilFromDays(b);
    if Before(s, t) {
      CountMonotone(s, t);
    } else if Before(t, s) {
      CountMonotone(t, s);
    }
  }

  lemma CountNext(t: Date)
    requires Valid(t)
    ensures DayCount(NextDay(t)) == DayCount(t) + 1
  {
    MonthTable(t.y);
    MonthTable(t.y + 1);
    YearLength(t.y);
    hide Leaps, Leap, BeforeMonth;
    NextMonth(t.y, t.m);
  }

  lemma NextMonth(y: int, m: int)
    requires 1 <= m <= 12
    ensures BeforeMonth(y, m + 1) == BeforeMonth(y, m) + MonthLength(y, m)
  {
  }

  /** Day 0 is 1 January 1970 and each day is followed by the next one of the calendar. */
  lemma CivilStepsThroughTheCalendar(days: int)
    ensures CivilFromDays(0) == Date(1970, 1, 1)
    ensures Valid(CivilFromDays(days)) && CivilFromDays(days + 1) == NextDay(CivilFromDays(days))
  {
    hide CivilFromDays, DayCount, NextDay;
    CivilIsTheDay(days);
    CountNext(CivilFromDays(days));
    CivilInvertsCount(NextDay(CivilFromDays(days)));
    EpochCount();
    CivilInvertsCount(Date(1970, 1, 1));
  }

  lemma EpochCount()
    ensures Valid(Date(1970, 1, 1)) && DayCount(Date(1970, 1, 1)) == 0
  {
  }

  // ---------------------------------------------------------------------
  // Machine integers.
  // ---------------------------------------------------------------------

  const TWO_63: int := 0x8000_0000_0000_0000

  predicate FitsI64(x: int) {
    -TWO_63 <= x < TWO_63
  }

  predicate FitsU64(x: int) {
    0 <= x < 2 * TWO_63
  }

  /** No intermediate value of the year arithmetic on the day of the era leaves 64 unsigned bits. */
  predicate EraFits(doe: int) {
    var yoe := YearOfEra(doe);
    var doy := doe - (365 * yoe + yoe / 4 - yoe / 100);
    var mp := (5 * doy + 2) / 153;
    && FitsU64(doe) && FitsU64(doe - doe / 1460) && FitsU64(doe - doe / 1460 + doe / 36524)
    && FitsU64(doe - doe / 1460 + doe / 36524 - doe / 146096) && FitsU64(365 * yoe + yoe / 4)
    && FitsU64(365 * yoe + yoe / 4 - yoe / 100) && FitsU64(doy) && FitsU64(5 * doy + 2) && FitsU64(153 * mp + 2)
    && FitsU64(doy - (153 * mp + 2) / 5) && FitsU64(if mp < 10 then mp + 3 else mp - 9)
  }

  /** No intermediate value of `civil_from_days` leaves 64 bits. */
  predicate Computes(days: int) {
    var z := days + 719468;
    var era := Quot(if z >= 0 then z else z - 146096, 146097);
    var doe := z - era * 146097;
    && FitsI64(z) && (z < 0 ==> FitsI64(z - 146096)) && FitsI64(era * 146097) && EraFits(doe)
    && FitsI64(era * 400) && FitsI64(YearOfEra(doe) + era * 400) && FitsI64(YearOfEra(doe) + era * 400 + 1)
  }

  lemma EraAlwaysFits(doe: int)
    requires 0 <= doe < 146097
    ensures EraFits(doe) && 0 <= YearOfEra(doe) < 400
  {
    YearSplit(doe);
    var yoe := YearOfEra(doe);
    var doy := doe - (365 * yoe + yoe / 4 - yoe / 100);
    MonthSplit(yoe, doy);
    hide YearOfEra, Leap, BeforeMonth, MonthLength;
    assert doe / 1460 <= doe && doe / 146096 <= 1 && doe - doe / 1460 + doe / 36524 >= doe / 146096;
  }

  /** The conversion overflows exactly on the last 719468 days there are. */
  lemma ComputesIff(days: int)
    requires FitsI64(days)
    ensures Computes(days) <==> days <= TWO_63 - 1 - 719468
  {
    hide EraFits, YearOfEra;
    var z := days + 719468;
    var era := Quot(if z >= 0 then z else z - 146096, 146097);
    EraSplit(z);
    EraAlwaysFits(z - era * 146097);
    hide Quot;
    assert z - 146097 < era * 146097 <= z;
    assert -TWO_63 / 300 < era < TWO_63 / 300;
  }

  // ---------------------------------------------------------------------
  // `stamp`.
  // ---------------------------------------------------------------------

  datatype Stamp = Stamp(date: Date, h: int, mi: int, s: int)

  function StampOf(ms: nat): (r: Stamp) {
    var secs := ms / 1000;
    var days := secs / 86400;
    var rem := secs % 86400;
    Stamp(CivilFromDays(days), rem / 3600, rem % 3600 / 60, rem % 60)
  }

  /** No time in 64 bits of milliseconds overflows. */
  lemma StampComputes(ms: nat)
    requires FitsU64(ms)
    ensures FitsI64(ms / 1000) && FitsI64(ms / 1000 / 86400) && Computes(ms / 1000 / 86400)
  {
    hide Computes;
    assert ms / 1000 / 86400 <= ms / 1000 < TWO_63 / 400;
    ComputesIff(ms / 1000 / 86400);
  }

  /** The fields are in range and recompose to the input's whole seconds. */
  lemma StampRecomposes(ms: nat)
    ensures var t := StampOf(ms);
            && Valid(t.date) && 0 <= t.h < 24 && 0 <= t.mi < 60 && 0 <= t.s < 60
            && ((DayCount(t.date) * 24 + t.h) * 60 + t.mi) * 60 + t.s == ms / 1000
  {
    hide CivilFromDays, DayCount, Valid;
    CivilIsTheDay(ms / 1000 / 86400);
    var rem := ms / 1000 % 86400;
    assert rem % 60 == rem % 3600 % 60;
  }
}
