/** Julian day numbers against an independent calendar: month lengths, leap years and "the next day". */
module Calendar {
  import opened Radix
  import opened Truncation

  datatype YearMonthDay = YearMonthDay(year: int, month: int, day: int)

  function GetJulianDayNumber(year: int, month: int, day: int): int {
    var a := Quot(14 - month, 12);
    var y := year + 4800 - a;
    var m := month + 12 * a - 3;
    day + Quot(153 * m + 2, 5) + y * 365 + Quot(y, 4) - Quot(y, 100) + Quot(y, 400) - 32045
  }

  function GetYearMonthDay(julianDayNumber: int): YearMonthDay {
    var a := julianDayNumber + 32044;
    var b := Quot(4 * a + 3, 146097);
    var c := a - Quot(b * 146097, 4);
    var d := Quot(4 * c + 3, 1461);
    var e := c - Quot(1461 * d, 4);
    var m := Quot(5 * e + 2, 153);
    YearMonthDay(b * 100 + d - 4800 + Quot(m, 10), m + 3 - 12 * Quot(m, 10), e - Quot(153 * m + 2, 5) + 1)
  }

  // ----- the calendar everybody knows -----

  predicate IsLeap(year: int) {
    year % 4 == 0 && (year % 100 != 0 || year % 400 == 0)
  }

  function DaysInMonth(year: int, month: int): int {
    if month == 2 then (if IsLeap(year) then 29 else 28)
    else if month == 4 || month == 6 || month == 9 || month == 11 then 30
    else 31
  }

  predicate IsDate(d: YearMonthDay) {
    1 <= d.month <= 12 && 1 <= d.day <= DaysInMonth(d.year, d.month)
  }

  function NextDate(d: YearMonthDay): YearMonthDay {
    if d.day < DaysInMonth(d.year, d.month) then d.(day := d.day + 1)
    else if d.month < 12 then YearMonthDay(d.year, d.month + 1, 1)
    else YearMonthDay(d.year + 1, 1, 1)
  }

  /** From 1 March of the year -4800 on. */
  predicate Covered(d: YearMonthDay) {
    IsDate(d) && (d.year > -4800 || (d.year == -4800 && d.month >= 3))
  }

  function JulianOf(d: YearMonthDay): int {
    GetJulianDayNumber(d.year, d.month, d.day)
  }

  // ----- years that begin in March -----

  /** Days from 1 March of year 0 to 1 March of year y. */
  function YearStart(y: nat): int {
    365 * y + y / 4 - y / 100 + y / 400
  }

  /** Days from 1 March to the first of the m-th month after March. */
  function MonthStart(m: nat): int {
    (153 * m + 2) / 5
  }

  /** The March-based year ends on a 29 February. */
  predicate LongYear(y: nat) {
    IsLeap(y + 1)
  }

  function MarchYear(d: YearMonthDay): int {
    d.year + 4800 - if d.month <= 2 then 1 else 0
  }

  function MarchMonthOf(month: int): int {
    if month <= 2 then month + 9 else month - 3
  }

  function MarchMonth(d: YearMonthDay): int {
    MarchMonthOf(d.month)
  }

  lemma JulianByMarch(d: YearMonthDay)
    requires Covered(d)
    ensures MarchYear(d) >= 0 && 0 <= MarchMonth(d) <= 11
    ensures JulianOf(d) + 32044 == YearStart(MarchYear(d)) + MonthStart(MarchMonth(d)) + d.day - 1
  {
    var a := Quot(14 - d.month, 12);
    assert a == if d.month <= 2 then 1 else 0;
  }

  /** The day within a March-based year splits into month and day. */
  lemma SplitYear(m: nat, k: nat)
    requires m <= 11 && k < (if m == 11 then 29 else MonthStart(m + 1) - MonthStart(m))
    ensures 0 <= MonthStart(m) + k <= 365 && (5 * (MonthStart(m) + k) + 2) / 153 == m
    ensures MonthStart(m) + k == 365 ==> m == 11 && k == 28
  {
  }

  /** And the other way round. */
  lemma MonthOfDay(e: nat)
    requires e <= 365
    ensures var m := (5 * e + 2) / 153; var k := e - MonthStart(m);
      && m <= 11 && 0 <= k && (m < 11 ==> k < MonthStart(m + 1) - MonthStart(m))
      && (m == 11 ==> k <= 28 && (k == 28 ==> e == 365))
  {
  }

  function CivilMonth(m: nat): int {
    m + 3 - 12 * (m / 10)
  }

  lemma MonthLengths(year: int, m: nat)
    requires m <= 11
    ensures 1 <= CivilMonth(m) <= 12 && (CivilMonth(m) == 2 <==> m == 11) && (CivilMonth(m) <= 2 <==> m >= 10)
    ensures m < 11 ==> DaysInMonth(year, CivilMonth(m)) == MonthStart(m + 1) - MonthStart(m)
  {
    hide IsLeap;
    assert m == 0 || m == 1 || m == 2 || m == 3 || m == 4 || m == 5 || m == 6 || m == 7 || m == 8 || m == 9 || m == 10 || m == 11;
  }

  lemma MarchMonthInverse(month: int)
    requires 1 <= month <= 12
    ensures 0 <= MarchMonthOf(month) <= 11 && CivilMonth(MarchMonthOf(month)) == month
  {
  }

  /** The century of a day count. */
  lemma SplitCentury(q: nat, c: nat)
    requires 4 * c + 3 - q % 4 < 146097
    ensures (4 * (36524 * q + q / 4 + c) + 3) / 146097 == q
    ensures q * 146097 / 4 == 36524 * q + q / 4
  {
    var h, t := q / 4, q % 4;
    assert q == 4 * h + t;
    DivUnique(4 * (36524 * q + h + c) + 3, 146097, q, 4 * c + 3 - t);
    DivUnique(q * 146097, 4, 36524 * q + h, t);
  }

  /** The year of a day count within a century. */
  lemma SplitCenturyDays(r: nat, e: nat)
    requires e <= 365 && (e == 365 ==> r % 4 == 3)
    ensures (4 * (365 * r + r / 4 + e) + 3) / 1461 == r
    ensures 1461 * r / 4 == 365 * r + r / 4
  {
    var h, v := r / 4, r % 4;
    assert r == 4 * h + v;
    DivUnique(4 * (365 * r + h + e) + 3, 1461, r, 4 * e + 3 - v);
    DivUnique(1461 * r, 4, 365 * r + h, v);
  }

  lemma YearDigits(y: nat)
    ensures y / 4 == 25 * (y / 100) + y % 100 / 4 && y / 400 == y / 100 / 4
  {
    var q, r := y / 100, y % 100;
    DivUnique(y, 4, 25 * q + r / 4, r % 4);
    DivUnique(y, 400, q / 4, 100 * (q % 4) + r);
  }

  /** A March-based year and a day in it are recovered from the day count. */
  lemma SplitDays(y: nat, e: nat)
    requires e <= 365 && (e == 365 ==> LongYear(y))
    ensures var a := YearStart(y) + e;
      var b := (4 * a + 3) / 146097; var c := a - b * 146097 / 4;
      var d := (4 * c + 3) / 1461;
      a >= 0 && b == y / 100 && c >= 0 && d == y % 100 && c - 1461 * d / 4 == e
  {
    var q, r := y / 100, y % 100;
    YearDigits(y);
    LongYearDigits(y);
    CenturyDays(q, r, e);
    SplitCentury(q, 365 * r + r / 4 + e);
    SplitCenturyDays(r, e);
  }

  lemma CenturyDays(q: nat, r: nat, e: nat)
    requires r < 100 && e <= 365 && (e == 365 ==> r % 4 == 3 && (r == 99 ==> q % 4 == 3))
    ensures 4 * (365 * r + r / 4 + e) + 3 - q % 4 < 146097
  {
  }

  lemma LongYearDigits(y: nat)
    ensures LongYear(y) ==> y % 100 % 4 == 3 && (y % 100 == 99 ==> y / 100 % 4 == 3)
  {
    var q, r := y / 100, y % 100;
    LeapDigits(q, r);
  }

  lemma LeapDigits(q: nat, r: nat)
    requires r < 100
    ensures IsLeap(100 * q + r + 1) <==> r % 4 == 3 && (r == 99 ==> q % 4 == 3)
  {
    hide IsLeap;
    Successor4(r);
    Successor4(q);
    if r == 99 {
      assert 100 * q + r + 1 == 100 * (q + 1);
      LeapCentury(q + 1);
    } else {
      LeapMiddle(q, r + 1);
    }
  }

  lemma Successor4(x: int)
    ensures (x + 1) % 4 == 0 <==> x % 4 == 3
  {
  }

  lemma LeapMiddle(q: int, x: nat)
    requires 0 < x < 100
    ensures IsLeap(100 * q + x) <==> x % 4 == 0
  {
    DivMulAdd(100, q, x);
    Fours(25 * q, x);
  }

  lemma LeapCentury(q: int)
    ensures IsLeap(100 * q) <==> q % 4 == 0
  {
    DivMulAdd(100, q, 0);
    Fours(25 * q, 0);
    DivUnique(100 * q, 400, q / 4, 100 * (q % 4));
  }

  lemma Fours(k: int, x: int)
    ensures (4 * k + x) % 4 == x % 4
  {
  }

  lemma DayInYear(d: YearMonthDay)
    requires Covered(d)
    ensures var y, m := MarchYear(d), MarchMonth(d); var e := MonthStart(m) + d.day - 1;
      && y >= 0 && 0 <= m <= 11 && 0 <= e <= 365 && (5 * e + 2) / 153 == m && (e == 365 ==> LongYear(y))
  {
    hide IsLeap, JulianOf, CivilMonth;
    var m := MarchMonth(d);
    MarchMonthInverse(d.month);
    MonthLengths(d.year, m);
    SplitYear(m, d.day - 1);
    SameLeap(MarchYear(d));
  }

  /** Every date from 1 March -4800 on comes back from its Julian day number. */
  lemma CivilRoundTrip(d: YearMonthDay)
    requires Covered(d)
    ensures GetYearMonthDay(JulianOf(d)) == d && JulianOf(d) >= -32044
  {
    hide YearStart, JulianOf, IsLeap, GetYearMonthDay, DaysInMonth, LongYear, CivilMonth, MonthStart, MarchYear, MarchMonth;
    var y, m := MarchYear(d), MarchMonth(d);
    JulianByMarch(d);
    DayInYear(d);
    SplitDays(y, MonthStart(m) + d.day - 1);
    var e := MonthStart(m) + d.day - 1;
    var a := YearStart(y) + e;
    var b := (4 * a + 3) / 146097;
    var c := a - b * 146097 / 4;
    ByParts(a, b, c, (4 * c + 3) / 1461, e, m);
    FieldsAgain(d, y, m, e, JulianOf(d));
  }

  lemma FieldsAgain(d: YearMonthDay, y: nat, m: nat, e: int, j: int)
    requires IsDate(d) && y == MarchYear(d) && m == MarchMonth(d) && e == MonthStart(m) + d.day - 1
    requires GetYearMonthDay(j) == YearMonthDay(y / 100 * 100 + y % 100 - 4800 + m / 10, CivilMonth(m), e - MonthStart(m) + 1)
    ensures GetYearMonthDay(j) == d
  {
    hide GetYearMonthDay, DaysInMonth;
    MarchMonthInverse(d.month);
    assert m / 10 == if d.month <= 2 then 1 else 0;
    assert y == y / 100 * 100 + y % 100;
  }

  lemma ByParts(a: nat, b: int, c: nat, g: int, e: nat, m: int)
    requires b == (4 * a + 3) / 146097 && c == a - b * 146097 / 4
    requires g == (4 * c + 3) / 1461 && e == c - 1461 * g / 4 && m == (5 * e + 2) / 153
    ensures GetYearMonthDay(a - 32044) == YearMonthDay(b * 100 + g - 4800 + m / 10, CivilMonth(m), e - MonthStart(m) + 1)
  {
    hide Quot;
    QuotNat(4 * a + 3, 146097);
    QuotNat(b * 146097, 4);
    QuotNat(4 * c + 3, 1461);
    QuotNat(1461 * g, 4);
    QuotNat(5 * e + 2, 153);
    QuotNat(m, 10);
    QuotNat(153 * m + 2, 5);
  }

  /** Every day number from that of 1 March -4800 on is the number of a valid date. */
  lemma JulianRoundTrip(j: int)
    requires j >= -32044
    ensures Covered(GetYearMonthDay(j)) && JulianOf(GetYearMonthDay(j)) == j
  {
    hide YearStart, JulianOf, IsLeap, GetYearMonthDay, DaysInMonth, LongYear, CivilMonth;
    var a := j + 32044;
    var y, e := MarchOfDays(a);
    var m := (5 * e + 2) / 153;
    var year := y - 4800 + m / 10;
    var d := YearMonthDay(year, CivilMonth(m), e - MonthStart(m) + 1);
    DateOfMarch(y, e, d);
    JulianByMarch(d);
    CivilRoundTrip(d);
  }

  /** The March-based year a day count falls in. */
  lemma MarchOfDays(a: nat) returns (y: nat, e: nat)
    ensures a == YearStart(y) + e && e <= 365 && (e == 365 ==> LongYear(y))
  {
    var b := (4 * a + 3) / 146097;
    var c := a - (36524 * b + b / 4);
    var t := b % 4;
    assert 4 * c + 3 == (4 * a + 3) % 146097 + t;
    assert 0 <= c && 4 * c <= 146093 + t;
    var d := (4 * c + 3) / 1461;
    var v := d % 4;
    e := c - (365 * d + d / 4);
    assert 4 * e + 3 == (4 * c + 3) % 1461 + v;
    assert d <= 99;
    y := 100 * b + d;
    assert y / 100 == b && y % 100 == d && y / 4 == 25 * b + d / 4 && y / 400 == b / 4;
    if e == 365 { LongYearAgain(b, d, c); }
  }

  lemma LongYearAgain(b: nat, d: nat, c: nat)
    requires d <= 99 && d % 4 == 3 && c == 365 * d + d / 4 + 365 && 4 * c <= 146093 + b % 4
    ensures LongYear(100 * b + d)
  {
    if d == 99 { assert b % 4 == 3; }
    LeapDigits(b, d);
  }

  lemma DateOfMarch(y: nat, e: nat, d: YearMonthDay)
    requires e <= 365 && (e == 365 ==> LongYear(y))
    requires var m := (5 * e + 2) / 153;
      d == YearMonthDay(y - 4800 + m / 10, CivilMonth(m), e - MonthStart(m) + 1)
    ensures Covered(d) && MarchYear(d) == y && MarchMonth(d) == (5 * e + 2) / 153
  {
    hide IsLeap, MonthStart;
    var m := (5 * e + 2) / 153;
    MonthOfDay(e);
    MonthLengths(d.year, m);
    assert m / 10 == if m >= 10 then 1 else 0;
    if m == 11 { SameLeap(y); }
  }

  /** 4800 years are twelve whole cycles of the calendar. */
  lemma SameLeap(y: nat)
    ensures IsLeap(y - 4799) <==> LongYear(y)
  {
    WholeCycles(y - 4799, 4, 1200);
    WholeCycles(y - 4799, 100, 48);
    WholeCycles(y - 4799, 400, 12);
  }

  lemma WholeCycles(x: int, n: nat, k: int)
    requires n > 0
    ensures (x + n * k) % n == x % n
  {
    Distribute(n, x / n, k);
    DivUnique(x + n * k, n, x / n + k, x % n);
  }

  /** Consecutive day numbers are consecutive dates. */
  lemma NextDay(d: YearMonthDay)
    requires Covered(d)
    ensures Covered(NextDate(d)) && JulianOf(NextDate(d)) == JulianOf(d) + 1
  {
    hide IsLeap, JulianOf, YearStart, CivilMonth;
    var n, y, m := NextDate(d), MarchYear(d), MarchMonth(d);
    JulianByMarch(d);
    MarchMonthInverse(d.month);
    MonthLengths(d.year, m);
    assert MonthStart(0) == 0 && MonthStart(11) == 337;
    if d.month == 2 && n.month == 3 {
      SameLeap(y);
      YearLength(y);
    }
    JulianByMarch(n);
  }

  lemma YearLength(y: nat)
    ensures YearStart(y + 1) - YearStart(y) == if LongYear(y) then 366 else 365
  {
    DivStep(y, 4);
    DivStep(y, 100);
    DivStep(y, 400);
    MultipleOf(y + 1, 4, 25);
    MultipleOf(y + 1, 100, 4);
  }

  lemma MultipleOf(z: nat, n: nat, k: nat)
    requires n > 0 && k > 0
    ensures n * k > 0 && (z % (n * k) == 0 ==> z % n == 0)
  {
    MulMono(n, 1, k);
    if z % (n * k) == 0 {
      var q := z / (n * k);
      assert z == n * (k * q);
      DivUnique(z, n, k * q, 0);
    }
  }

  lemma DivStep(y: nat, n: nat)
    requires n > 0
    ensures (y + 1) / n - y / n == if (y + 1) % n == 0 then 1 else 0
  {
    var q, r := y / n, y % n;
    assert y == n * q + r;
    if r + 1 < n { DivUnique(y + 1, n, q, r + 1); } else { DivUnique(y + 1, n, q + 1, 0); }
  }

  // ----- order -----

  predicate DateBefore(d: YearMonthDay, n: YearMonthDay) {
    || d.year < n.year
    || (d.year == n.year && (d.month < n.month || (d.month == n.month && d.day < n.day)))
  }

  /** Later day numbers are later dates. */
  lemma {:induction false} LaterDay(j: int, k: int)
    requires -32044 <= j < k
    ensures DateBefore(GetYearMonthDay(j), GetYearMonthDay(k))
    decreases k - j
  {
    hide GetYearMonthDay, JulianOf, DaysInMonth;
    JulianRoundTrip(k - 1);
    NextDay(GetYearMonthDay(k - 1));
    CivilRoundTrip(NextDate(GetYearMonthDay(k - 1)));
    if j < k - 1 { LaterDay(j, k - 1); }
  }

  /** Day numbers order dates. */
  lemma DatesInOrder(d: YearMonthDay, n: YearMonthDay)
    requires Covered(d) && Covered(n)
    ensures JulianOf(d) < JulianOf(n) <==> DateBefore(d, n)
  {
    hide GetYearMonthDay, JulianOf, DaysInMonth;
    CivilRoundTrip(d);
    CivilRoundTrip(n);
    if JulianOf(d) < JulianOf(n) { LaterDay(JulianOf(d), JulianOf(n)); }
    if JulianOf(n) < JulianOf(d) { LaterDay(JulianOf(n), JulianOf(d)); }
  }

  // ----- day of the week, day of the year -----

  function WeekDay(julianDayNumber: int): int {
    Rem(julianDayNumber + 1, 7)
  }

  lemma YearShift(month: int)
    ensures -9 <= month <= 2 ==> Quot(14 - month, 12) == 1
    ensures 3 <= month <= 14 ==> Quot(14 - month, 12) == 0
  {
  }

  /** Months beyond the year count in the next or the last one, as far as a February or a March. */
  lemma MonthRolls(year: int, month: int, day: int)
    ensures 13 <= month <= 14 ==> GetJulianDayNumber(year, month, day) == GetJulianDayNumber(year + 1, month - 12, day)
    ensures -9 <= month <= 0 ==> GetJulianDayNumber(year, month, day) == GetJulianDayNumber(year - 1, month + 12, day)
  {
    hide Quot;
    YearShift(month);
    YearShift(month - 12);
    YearShift(month + 12);
  }

  /** 1 January 1970 was a Thursday. */
  lemma EpochWeekDay()
    ensures GetJulianDayNumber(1970, 1, 1) == 2440588 && WeekDay(2440588) == 4
  {
  }

  /** Weekdays follow one another from day -1 on. */
  lemma WeekDays(j: int)
    requires j >= -1
    ensures WeekDay(j + 1) == if WeekDay(j) == 6 then 0 else WeekDay(j) + 1
  {
    QuotNat(j + 1, 7);
    QuotNat(j + 2, 7);
    hide Quot;
    Sevens(j + 1);
  }

  lemma Sevens(x: int)
    ensures x - 7 * (x / 7) == x % 7
    ensures (x + 1) % 7 == if x % 7 == 6 then 0 else x % 7 + 1
    ensures x + 1 - 7 * ((x + 1) / 7) == (x + 1) % 7
  {
  }

  /** On every day the remainder is the right weekday up to a multiple of 7. */
  lemma WeekDayClass(j: int)
    ensures (WeekDay(j) - (j + 1)) % 7 == 0
  {
    var q := Quot(j + 1, 7);
    assert WeekDay(j) - (j + 1) == 7 * -q;
  }

  /** Exactly on which days the remainder is a day of the week: before day -1 only on Sundays. */
  lemma WeekDayRange(j: int)
    ensures WeekDay(j) <= 6
    ensures 0 <= WeekDay(j) <==> j >= -1 || (j + 1) % 7 == 0
  {
  }

  /** Four days before the first, 21 November -4713, the weekday is negative. */
  lemma NegativeWeekDay()
    ensures WeekDay(-3) == -2 && Covered(YearMonthDay(-4713, 11, 21)) && GetYearMonthDay(-3) == YearMonthDay(-4713, 11, 21)
  {
    hide GetYearMonthDay;
    var d := YearMonthDay(-4713, 11, 21);
    assert JulianOf(d) == -3;
    CivilRoundTrip(d);
  }

  /** Days in the months before. */
  function DaysBefore(year: int, month: int): int
    requires 1 <= month
  {
    if month == 1 then 0 else DaysBefore(year, month - 1) + DaysInMonth(year, month - 1)
  }

  lemma {:induction false} MonthsAdd(year: int, month: int)
    requires year > -4800 && 1 <= month <= 12
    ensures JulianOf(YearMonthDay(year, month, 1)) == JulianOf(YearMonthDay(year, 1, 1)) + DaysBefore(year, month)
  {
    if month > 1 {
      hide JulianOf;
      MonthsAdd(year, month - 1);
      WithinMonth(YearMonthDay(year, month - 1, DaysInMonth(year, month - 1)));
      NextDay(YearMonthDay(year, month - 1, DaysInMonth(year, month - 1)));
    }
  }

  lemma WithinMonth(d: YearMonthDay)
    ensures JulianOf(d) == JulianOf(d.(day := 1)) + d.day - 1
  {
  }

  /** The day of the year by day numbers is the day of the year by month lengths. */
  lemma DayOfYear(d: YearMonthDay)
    requires Covered(d) && d.year > -4800
    ensures JulianOf(d) - GetJulianDayNumber(d.year, 1, 1) == DaysBefore(d.year, d.month) + d.day - 1
  {
    MonthsAdd(d.year, d.month);
    WithinMonth(d);
  }

  // ----- 32-bit arithmetic -----

  predicate IsInt(x: int) {
    -0x8000_0000 <= x <= 0x7fff_ffff
  }

  /** The day numbers whose dates can be computed in 32 bits, and the last date whose number can. */
  const MIN_JULIAN: int := -536902956
  const MAX_JULIAN: int := 536838867
  const LAST_DATE: YearMonthDay := YearMonthDay(5874689, 12, 15)

  /** No intermediate value of `getYearMonthDay` leaves the 32-bit range. */
  predicate JulianFits(j: int) {
    var a := j + 32044;
    var b := Quot(4 * a + 3, 146097);
    var c := a - Quot(b * 146097, 4);
    var d := Quot(4 * c + 3, 1461);
    var e := c - Quot(1461 * d, 4);
    var m := Quot(5 * e + 2, 153);
    && IsInt(j) && IsInt(a) && IsInt(4 * a) && IsInt(4 * a + 3) && IsInt(b * 146097) && IsInt(4 * c) && IsInt(4 * c + 3)
    && IsInt(1461 * d) && IsInt(5 * e + 2) && IsInt(153 * m + 2) && IsInt(b * 100 + d)
  }

  /** It stays within 32 bits for exactly these days. */
  lemma FitsInt(j: int)
    ensures JulianFits(j) <==> MIN_JULIAN <= j <= MAX_JULIAN
  {
  }

  /** No intermediate value of `getJulianDayNumber` leaves the 32-bit range. */
  predicate DateFits(year: int, month: int, day: int) {
    var a := Quot(14 - month, 12);
    var y := year + 4800 - a;
    var m := month + 12 * a - 3;
    var p := day + Quot(153 * m + 2, 5);
    && IsInt(year) && IsInt(14 - month) && IsInt(year + 4800) && IsInt(y) && IsInt(month + 12 * a) && IsInt(m)
    && IsInt(153 * m) && IsInt(153 * m + 2) && IsInt(p) && IsInt(y * 365) && IsInt(p + y * 365)
    && IsInt(p + y * 365 + Quot(y, 4)) && IsInt(p + y * 365 + Quot(y, 4) - Quot(y, 100))
    && IsInt(p + y * 365 + Quot(y, 4) - Quot(y, 100) + Quot(y, 400))
    && IsInt(GetJulianDayNumber(year, month, day))
  }

  /** The partial sums, for a March-based year and a day in it. */
  lemma SumsFit(y: nat, p: nat)
    requires p <= 400
    ensures IsInt(p + y * 365 + y / 4) ==> p + y * 365 + y / 4 <= 0x7fff_ffff
    ensures p + y * 365 + y / 4 <= 0x7fff_ffff ==>
      && IsInt(y - 4800) && IsInt(y - 4799) && IsInt(y) && IsInt(y + 1) && IsInt(y * 365) && IsInt(p + y * 365)
      && IsInt(p + y * 365 + y / 4) && IsInt(p + y * 365 + y / 4 - y / 100)
      && IsInt(p + y * 365 + y / 4 - y / 100 + y / 400) && IsInt(p + y * 365 + y / 4 - y / 100 + y / 400 - 32045)
  {
  }

  lemma SmallParts(month: int, day: int, y: nat)
    requires 1 <= month <= 12 && 1 <= day <= 31
    ensures var a := Quot(14 - month, 12);
      var m := month + 12 * a - 3;
      a == (if month <= 2 then 1 else 0) && m == MarchMonthOf(month) && Quot(153 * m + 2, 5) == MonthStart(m)
      && 0 <= day + MonthStart(m) <= 400
      && IsInt(14 - month) && IsInt(month + 12 * a) && IsInt(m) && IsInt(153 * m) && IsInt(153 * m + 2) && IsInt(day + MonthStart(m))
  {
    QuotNat(153 * MarchMonthOf(month) + 2, 5);
  }

  lemma DateFitsParts(month: int, day: int, y: nat)
    requires 1 <= month <= 12 && 1 <= day <= 31
    ensures var year := y - 4800 + if month <= 2 then 1 else 0;
      DateFits(year, month, day) <==> day + MonthStart(MarchMonthOf(month)) + y * 365 + y / 4 <= 0x7fff_ffff
  {
    hide Quot, IsInt, MonthStart, MarchMonthOf;
    SmallParts(month, day, y);
    QuotNat(y, 4);
    QuotNat(y, 100);
    QuotNat(y, 400);
    var p := day + MonthStart(MarchMonthOf(month));
    SumsFit(y, p);
    var year := y - 4800 + if month <= 2 then 1 else 0;
    assert GetJulianDayNumber(year, month, day) == p + y * 365 + y / 4 - y / 100 + y / 400 - 32045;
    if month <= 2 {
      assert year == y - 4799 && year + 4800 == y + 1;
    } else {
      assert year == y - 4800 && year + 4800 == y;
    }
  }

  /** By the largest partial sum. */
  lemma DateFitsSum(d: YearMonthDay)
    requires Covered(d)
    ensures var y := MarchYear(d);
      DateFits(d.year, d.month, d.day) <==> 365 * y + y / 4 + MonthStart(MarchMonth(d)) + d.day <= 0x7fff_ffff
  {
    hide DateFits, IsLeap, MonthStart;
    DateFitsParts(d.month, d.day, MarchYear(d));
  }

  /** For real dates it stays within 32 bits up to exactly this date. */
  lemma LastFittingDate(d: YearMonthDay)
    requires Covered(d)
    ensures Covered(LAST_DATE) && (DateFits(d.year, d.month, d.day) <==> JulianOf(d) <= JulianOf(LAST_DATE))
  {
    assert !IsLeap(5874689);
    LastSum();
    DateFitsSum(d);
    DayInYear(d);
    DayInYear(LAST_DATE);
    DatesInOrder(d, LAST_DATE);
    DatesInOrder(LAST_DATE, d);
    JulianByMarch(d);
    JulianByMarch(LAST_DATE);
    hide IsLeap, JulianOf, DateFits, YearStart, MonthStart, DaysInMonth;
    if MarchYear(d) < MarchYear(LAST_DATE) {
      assert DateBefore(d, LAST_DATE);
    } else if MarchYear(d) > MarchYear(LAST_DATE) {
      assert DateBefore(LAST_DATE, d);
    }
  }

  lemma LastSum()
    ensures MarchYear(LAST_DATE) == 5879489 && MonthStart(MarchMonth(LAST_DATE)) + 15 == 290
    ensures 365 * 5879489 + 5879489 / 4 + 290 == 0x7fff_ffff
  {
  }

  lemma LastJulian()
    ensures JulianOf(LAST_DATE) == 2147407506
  {
  }

  lemma YearFits(d: YearMonthDay)
    requires Covered(d)
    ensures DateFits(d.year, d.month, d.day) ==> IsInt(d.year - 1900)
  {
    hide Quot;
  }

  lemma NumberFits(d: YearMonthDay)
    ensures DateFits(d.year, d.month, d.day) ==> IsInt(JulianOf(d))
  {
    hide Quot;
  }

  /** In that range years are small, and 1 January of each has a number that fits. */
  lemma SmallYears(j: int)
    requires MIN_JULIAN <= j <= MAX_JULIAN
    ensures var d := GetYearMonthDay(j);
      -1500000 <= d.year <= 1500000 && -100 <= d.month <= 100
      && DateFits(d.year, 1, 1) && -600000000 <= GetJulianDayNumber(d.year, 1, 1) <= 600000000
  {
    YearBound(j);
    hide GetYearMonthDay;
    FirstDayFits(GetYearMonthDay(j).year);
  }

  lemma QuotNear(a: int, b: int)
    requires b > 0
    ensures -b < a - b * Quot(a, b) < b
  {
  }

  lemma YearBound(j: int)
    requires MIN_JULIAN <= j <= MAX_JULIAN
    ensures -1500000 <= GetYearMonthDay(j).year <= 1500000 && -100 <= GetYearMonthDay(j).month <= 100
  {
    hide Quot;
    var a := j + 32044;
    var b := Quot(4 * a + 3, 146097);
    QuotNear(4 * a + 3, 146097);
    QuotNear(b * 146097, 4);
    var c := a - Quot(b * 146097, 4);
    var d := Quot(4 * c + 3, 1461);
    QuotNear(4 * c + 3, 1461);
    QuotNear(1461 * d, 4);
    var e := c - Quot(1461 * d, 4);
    var m := Quot(5 * e + 2, 153);
    QuotNear(5 * e + 2, 153);
    QuotNear(m, 10);
  }

  lemma FirstDayFits(year: int)
    requires -1500000 <= year <= 1500000
    ensures DateFits(year, 1, 1) && -600000000 <= GetJulianDayNumber(year, 1, 1) <= 600000000
  {
  }

  /** The year -4800: 1 January lies before the range, and its day number is one too high. */
  lemma FirstYear(d: YearMonthDay)
    requires Covered(d) && d.year == -4800
    ensures JulianOf(d) - GetJulianDayNumber(-4800, 1, 1) == DaysBefore(-4800, d.month) + d.day - 2
  {
    FirstMonths(d.month);
    FirstDayNumber(d);
  }

  lemma FirstDayNumber(d: YearMonthDay)
    requires d.year == -4800 && 3 <= d.month <= 12
    ensures GetJulianDayNumber(-4800, 1, 1) == -32103 && JulianOf(d) == MonthStart(d.month - 3) + d.day - 32045
  {
  }

  lemma FirstMonths(month: int)
    requires 3 <= month <= 12
    ensures DaysBefore(-4800, month) == 60 + MonthStart(month - 3)
  {
    if month > 3 { FirstMonths(month - 1); }
    assert DaysBefore(-4800, 3) == 60;
  }
}
