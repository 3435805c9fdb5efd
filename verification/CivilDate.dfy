/** Civil dates of the proleptic Gregorian calendar and day numbers since 1970-01-01. */
module CivilDate {
  import opened Bytes

  /** Division of 64-bit integers truncates toward zero. */
  function Div(a: int, b: int): int
    requires b > 0
  {
    if a >= 0 then a / b else -((-a) / b)
  }

  datatype Date = Date(y: int, m: int, d: int)

  predicate IsLeap(y: int) { y % 4 == 0 && (y % 100 != 0 || y % 400 == 0) }

  function DaysIn(y: int, m: int): int {
    if m == 2 then if IsLeap(y) then 29 else 28
    else if m == 4 || m == 6 || m == 9 || m == 11 then 30
    else 31
  }

  predicate Valid(a: Date) { 1 <= a.m <= 12 && 1 <= a.d <= DaysIn(a.y, a.m) }

  function DaysFromCivil(a: Date): int {
    var y := if a.m <= 2 then a.y - 1 else a.y;
    var era := Div(if y >= 0 then y else y - 399, 400);
    var yoe := y - era * 400;
    var doy := Div(153 * (if a.m > 2 then a.m - 3 else a.m + 9) + 2, 5) + a.d - 1;
    var doe := yoe * 365 + Div(yoe, 4) - Div(yoe, 100) + doy;
    era * 146097 + doe - 719468
  }

  function CivilFromDays(day: int): Date {
    var z := day + 719468;
    var era := Div(if z >= 0 then z else z - 146096, 146097);
    FromEra(era, z - era * 146097)
  }

  function FromEra(era: int, doe: int): Date {
    var yoe := Div(doe - Div(doe, 1460) + Div(doe, 36524) - Div(doe, 146096), 365);
    FromYear(yoe + era * 400, doe - (365 * yoe + Div(yoe, 4) - Div(yoe, 100)))
  }

  function FromYear(y: int, doy: int): Date {
    var mp := Div(5 * doy + 2, 153);
    var d := doy - Div(153 * mp + 2, 5) + 1;
    var m := if mp < 10 then mp + 3 else mp - 9;
    Date(if m <= 2 then y + 1 else y, m, d)
  }

  /** The eras are those of floor division, also before year 0. */
  lemma EraFloors(x: int, n: int)
    requires n > 0
    ensures Div(if x >= 0 then x else x - (n - 1), n) == x / n
  {
    if x < 0 {
      var q, r := x / n, x % n;
      assert -(x - (n - 1)) == n * (-q) + (n - 1 - r);
      assert (n * (-q) + (n - 1 - r)) / n == -q by { DivUnique(n, -q, n - 1 - r); }
    }
  }

  lemma DivUnique(n: int, q: int, r: int)
    requires n > 0 && 0 <= r < n
    ensures (n * q + r) / n == q && (n * q + r) % n == r
  {
    var q', r' := (n * q + r) / n, (n * q + r) % n;
    assert n * (q - q') == r' - r;
    MulGrows(n, q - q');
  }

  // ----- Years of an era, counted from March -----

  function YearStart(yoe: int): int { 365 * yoe + yoe / 4 - yoe / 100 }

  function YearLen(yoe: int): int { if IsLeap(yoe + 1) then 366 else 365 }

  lemma NextYearStart(yoe: int)
    requires 0 <= yoe < 400
    ensures YearStart(yoe) + YearLen(yoe) == if yoe == 399 then 146097 else YearStart(yoe + 1)
  {
    if yoe % 4 != 3 {
      assert (yoe + 1) / 4 == yoe / 4;
    } else if yoe % 100 != 99 {
      assert (yoe + 1) / 100 == yoe / 100;
    } else {
      assert yoe == 99 || yoe == 199 || yoe == 299 || yoe == 399;
    }
  }

  /** A year of the era as century, four-year group and year; its days counted in the same terms. */
  lemma YearParts(yoe: int)
    requires 0 <= yoe < 400
    ensures var c, q, r := yoe / 100, yoe % 100 / 4, yoe % 4;
      0 <= c < 4 && 0 <= q < 25 && 0 <= r < 4 && yoe == 100 * c + 4 * q + r
        && YearStart(yoe) == 36524 * c + 1461 * q + 365 * r
    ensures YearLen(yoe) == 366 ==> yoe % 4 == 3 && (yoe % 100 != 99 || yoe == 399)
    ensures yoe % 100 == 99 <==> yoe % 100 / 4 == 24 && yoe % 4 == 3
  {
  }

  lemma YearFormula(c: int, q: int, r: int, doy: int)
    requires 0 <= c < 4 && 0 <= q < 25 && 0 <= r < 4 && 0 <= doy < 366
    requires doy == 365 ==> r == 3 && (q < 24 || c == 3)
    ensures var doe := 36524 * c + 1461 * q + 365 * r + doy;
      0 <= doe < 146097 && (doe - doe / 1460 + doe / 36524 - doe / 146096) / 365 == 100 * c + 4 * q + r
  {
    var doe, t := 36524 * c + 1461 * q + 365 * r + doy, 24 * c + q + 365 * r + doy;
    assert doe == 1460 * (25 * c + q) + t && 0 <= t < 2920;
    assert doe / 1460 == 25 * c + q + t / 1460 by {
      if t < 1460 { DivUnique(1460, 25 * c + q, t); } else { DivUnique(1460, 25 * c + q + 1, t - 1460); }
    }
    var w := 1461 * q + 365 * r + doy;
    assert doe / 36524 - doe / 146096 == c by {
      if w < 36524 { DivUnique(36524, c, w); } else { assert doe == 146096; }
    }
    DivUnique(365, 100 * c + 4 * q + r, doy - t / 1460);
  }

  lemma YearOfDay(yoe: int, doy: int)
    requires 0 <= yoe < 400 && 0 <= doy < YearLen(yoe)
    ensures var doe := YearStart(yoe) + doy;
      0 <= doe < 146097 && (doe - doe / 1460 + doe / 36524 - doe / 146096) / 365 == yoe
  {
    YearParts(yoe);
    hide YearStart, YearLen;
    YearFormula(yoe / 100, yoe % 100 / 4, yoe % 4, doy);
  }

  /** Every day of an era falls in one of its years. */
  lemma {:induction false} FindYear(doe: int, n: int) returns (yoe: int)
    requires 0 <= doe < 146097 && 0 <= n < 400 && YearStart(n) <= doe
    ensures 0 <= yoe < 400 && YearStart(yoe) <= doe < YearStart(yoe) + YearLen(yoe)
    decreases 400 - n
  {
    NextYearStart(n);
    if doe < YearStart(n) + YearLen(n) {
      yoe := n;
    } else {
      yoe := FindYear(doe, n + 1);
    }
  }

  // ----- Months of a year, counted from March -----

  function MonthStart(mp: int): int { (153 * mp + 2) / 5 }

  function MonthLen(mp: int, yoe: int): int {
    if mp == 11 then YearLen(yoe) - MonthStart(11) else MonthStart(mp + 1) - MonthStart(mp)
  }

  lemma MonthOfDay(mp: int, yoe: int, k: int)
    requires 0 <= mp < 12 && 0 <= k < MonthLen(mp, yoe)
    ensures var doy := MonthStart(mp) + k; 0 <= doy < YearLen(yoe) && (5 * doy + 2) / 153 == mp
  {
  }

  lemma FindMonth(doy: int, yoe: int) returns (mp: int)
    requires 0 <= doy < YearLen(yoe)
    ensures 0 <= mp < 12 && MonthStart(mp) <= doy < MonthStart(mp) + MonthLen(mp, yoe)
  {
    mp := (5 * doy + 2) / 153;
  }

  lemma LeapPeriod(y: int, k: int)
    ensures IsLeap(y - 400 * k) <==> IsLeap(y)
  {
    DivUnique(4, y / 4 - 100 * k, y % 4);
    DivUnique(100, y / 100 - 4 * k, y % 100);
    DivUnique(400, y / 400 - k, y % 400);
  }

  /** The month lengths are those of the calendar, February's at the end of the shifted year. */
  lemma MonthLens(y: int, m: int)
    requires 1 <= m <= 12
    ensures var mp := if m > 2 then m - 3 else m + 9;
      DaysIn(y, m) == MonthLen(mp, (if m <= 2 then y - 1 else y) % 400)
  {
    hide IsLeap;
    if m == 2 {
      LeapOfEra(y);
    }
  }

  lemma LeapOfEra(y: int)
    ensures IsLeap((y - 1) % 400 + 1) <==> IsLeap(y)
  {
    hide IsLeap;
    LeapPeriod(y, (y - 1) / 400);
  }

  // ----- The two conversions -----

  /** A date in shifted terms: era, year of era from March, month from March, day of month from 0. */
  datatype Shifted = Shifted(era: int, yoe: int, mp: int, k: int)

  predicate InCalendar(s: Shifted) { 0 <= s.yoe < 400 && 0 <= s.mp < 12 && 0 <= s.k < MonthLen(s.mp, s.yoe) }

  function Day(s: Shifted): int {
    s.era * 146097 + YearStart(s.yoe) + MonthStart(s.mp) + s.k - 719468
  }

  function Shift(a: Date): Shifted {
    var y := if a.m <= 2 then a.y - 1 else a.y;
    Shifted(y / 400, y % 400, if a.m > 2 then a.m - 3 else a.m + 9, a.d - 1)
  }

  function Unshift(s: Shifted): Date {
    var m := if s.mp < 10 then s.mp + 3 else s.mp - 9;
    Date(s.era * 400 + s.yoe + if m <= 2 then 1 else 0, m, s.k + 1)
  }

  lemma ShiftValid(a: Date)
    requires 1 <= a.m <= 12
    ensures Valid(a) <==> InCalendar(Shift(a))
    ensures Unshift(Shift(a)) == a
  {
    MonthLens(a.y, a.m);
    hide MonthLen, DaysIn;
  }

  lemma UnshiftValid(s: Shifted)
    requires InCalendar(s)
    ensures Valid(Unshift(s)) && Shift(Unshift(s)) == s
  {
    DivUnique(400, s.era, s.yoe);
    ShiftValid(Unshift(s));
  }

  lemma DaysIsShifted(a: Date)
    requires 1 <= a.m <= 12
    ensures DaysFromCivil(a) == Day(Shift(a))
  {
    var y := if a.m <= 2 then a.y - 1 else a.y;
    EraFloors(y, 400);
  }

  lemma EraIs(era: int, doe: int)
    requires 0 <= doe < 146097
    ensures CivilFromDays(era * 146097 + doe - 719468) == FromEra(era, doe)
  {
    EraFloors(era * 146097 + doe, 146097);
    DivUnique(146097, era, doe);
    hide FromEra;
  }

  lemma YearIs(era: int, yoe: int, doy: int)
    requires 0 <= yoe < 400 && 0 <= doy < YearLen(yoe)
    ensures var doe := YearStart(yoe) + doy; 0 <= doe < 146097 && FromEra(era, doe) == FromYear(yoe + era * 400, doy)
  {
    YearOfDay(yoe, doy);
    DivsPlain(YearStart(yoe) + doy);
    hide FromYear, YearLen;
  }

  /** For days of an era, truncating division is division. */
  lemma DivsPlain(doe: int)
    requires 0 <= doe < 146097
    ensures Div(doe, 1460) == doe / 1460 && Div(doe, 36524) == doe / 36524 && Div(doe, 146096) == doe / 146096
    ensures doe - doe / 1460 + doe / 36524 - doe / 146096 >= 0
  {
  }

  lemma MonthIs(s: Shifted)
    requires InCalendar(s)
    ensures var doy := MonthStart(s.mp) + s.k;
      0 <= doy < YearLen(s.yoe) && FromYear(s.yoe + s.era * 400, doy) == Unshift(s)
  {
    MonthOfDay(s.mp, s.yoe, s.k);
    hide MonthLen, YearLen;
  }

  lemma CivilIsUnshifted(s: Shifted)
    requires InCalendar(s)
    ensures CivilFromDays(Day(s)) == Unshift(s)
  {
    hide FromYear, FromEra, CivilFromDays, YearStart, YearLen, MonthStart, MonthLen, Unshift;
    MonthIs(s);
    YearIs(s.era, s.yoe, MonthStart(s.mp) + s.k);
    EraIs(s.era, YearStart(s.yoe) + (MonthStart(s.mp) + s.k));
  }

  /** Every valid date comes back from its day number. */
  lemma DateRoundTrip(a: Date)
    requires Valid(a)
    ensures CivilFromDays(DaysFromCivil(a)) == a
  {
    hide *;
    ValidMonth(a);
    ShiftValid(a);
    DaysIsShifted(a);
    CivilIsUnshifted(Shift(a));
  }

  lemma ValidMonth(a: Date)
    requires Valid(a)
    ensures 1 <= a.m <= 12
  {
  }

  /** Every day number has a shifted form. */
  lemma FindShifted(z: int) returns (s: Shifted)
    ensures InCalendar(s) && Day(s) == z
  {
    var era, doe := (z + 719468) / 146097, (z + 719468) % 146097;
    var yoe := FindYear(doe, 0);
    var mp := FindMonth(doe - YearStart(yoe), yoe);
    s := Shifted(era, yoe, mp, doe - YearStart(yoe) - MonthStart(mp));
  }

  /** Every day number is that of exactly the valid date it converts to. */
  lemma DayRoundTrip(z: int)
    ensures Valid(CivilFromDays(z)) && DaysFromCivil(CivilFromDays(z)) == z
  {
    hide *;
    var s := FindShifted(z);
    CivilIsUnshifted(s);
    UnshiftValid(s);
    ValidMonth(Unshift(s));
    DaysIsShifted(Unshift(s));
  }

  // ----- Counting days -----

  /** The day after, by the calendar. */
  function NextDay(a: Date): Date {
    if a.d < DaysIn(a.y, a.m) then a.(d := a.d + 1)
    else if a.m < 12 then Date(a.y, a.m + 1, 1)
    else Date(a.y + 1, 1, 1)
  }

  function NextShifted(s: Shifted): Shifted {
    if s.k + 1 < MonthLen(s.mp, s.yoe) then s.(k := s.k + 1)
    else if s.mp < 11 then s.(mp := s.mp + 1, k := 0)
    else if s.yoe < 399 then Shifted(s.era, s.yoe + 1, 0, 0)
    else Shifted(s.era + 1, 0, 0, 0)
  }

  lemma NextShiftedDay(s: Shifted)
    requires InCalendar(s)
    ensures InCalendar(NextShifted(s)) && Day(NextShifted(s)) == Day(s) + 1
  {
    hide YearStart, MonthStart, MonthLen, YearLen;
    if s.k + 1 < MonthLen(s.mp, s.yoe) {
    } else if s.mp < 11 {
      MonthStep(s.mp, s.yoe);
    } else {
      MonthStep(11, s.yoe);
      NextYearStart(s.yoe);
      Starts();
      MonthStep(0, if s.yoe < 399 then s.yoe + 1 else 0);
    }
  }

  lemma Starts()
    ensures YearStart(0) == 0 && MonthStart(0) == 0
  {
  }

  lemma MonthStep(mp: int, yoe: int)
    requires 0 <= mp < 12
    ensures MonthStart(mp) + MonthLen(mp, yoe) == (if mp < 11 then MonthStart(mp + 1) else YearLen(yoe))
      && MonthLen(mp, yoe) > 0
    ensures mp < 11 ==> MonthLen(mp + 1, yoe) > 0
  {
  }

  lemma NextDayShifted(a: Date)
    requires Valid(a)
    ensures Shift(NextDay(a)) == NextShifted(Shift(a)) && 1 <= NextDay(a).m <= 12
  {
    MonthLens(a.y, a.m);
    hide MonthLen, DaysIn;
    var y := if a.m <= 2 then a.y - 1 else a.y;
    if a.m == 2 {
      NextYear(y);
    }
  }

  lemma NextYear(y: int)
    ensures (y + 1) / 400 == (if y % 400 < 399 then y / 400 else y / 400 + 1)
    ensures (y + 1) % 400 == (if y % 400 < 399 then y % 400 + 1 else 0)
  {
  }

  /** Day 0 is 1970-01-01 and the next day has the next number, so the numbers count days. */
  lemma DaysCount(a: Date)
    requires Valid(a)
    ensures Valid(NextDay(a)) && DaysFromCivil(NextDay(a)) == DaysFromCivil(a) + 1
    ensures DaysFromCivil(Date(1970, 1, 1)) == 0
  {
    assert DaysFromCivil(Date(1970, 1, 1)) == 0;
    hide *;
    ValidMonth(a);
    ShiftValid(a);
    NextDayShifted(a);
    NextShiftedDay(Shift(a));
    ShiftValid(NextDay(a));
    DaysIsShifted(a);
    DaysIsShifted(NextDay(a));
  }
}
