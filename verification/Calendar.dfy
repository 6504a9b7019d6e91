/** Julian day numbers and broken-down UTC time, with C's truncating division. */
module Calendar {

  const SECONDS_PER_DAY: int := 86400

  datatype Date = Date(year: int, month: int, day: int)

  datatype DateTime = DateTime(year: int, month: int, day: int, hour: int, minute: int, second: int)

  // ---------------------------------------------------------------- the code

  /** C's quotient and remainder: rounded toward zero. */
  function Quot(a: int, b: int): int
    requires b > 0
  {
    if a >= 0 then a / b else -(-a / b)
  }

  function Rem(a: int, b: int): int
    requires b > 0
  {
    a - b * Quot(a, b)
  }

  /** getJulianDayNumber */
  function JulianDay(d: Date): int {
    var a := Quot(14 - d.month, 12);
    var y := d.year + 4800 - a;
    var m := d.month + 12 * a - 3;
    d.day + Quot(153 * m + 2, 5) + y * 365 + Quot(y, 4) - Quot(y, 100) + Quot(y, 400) - 32045
  }

  /** getYearMonthDay */
  function FromJulianDay(jd: int): Date { OfEra(jd + 32044) }

  /** Day a, from 0, of the era. */
  function OfEra(a: int): Date {
    var b := Quot(4 * a + 3, 146097);
    OfCentury(b, a - Quot(b * 146097, 4))
  }

  /** Day c, from 0, of century b. */
  function OfCentury(b: int, c: int): Date {
    var d := Quot(4 * c + 3, 1461);
    OfYear(b * 100 + d - 4800, c - Quot(1461 * d, 4))
  }

  /** Day e, from 0, of the year that starts on 1 March. */
  function OfYear(year: int, e: int): Date {
    var m := Quot(5 * e + 2, 153);
    Date(year + Quot(m, 10), m + 3 - 12 * Quot(m, 10), e - Quot(153 * m + 2, 5) + 1)
  }

  /** BreakTime */
  function BreakTime(t: int): DateTime {
    var (days, seconds) := DayAndSeconds(t);
    FillHMS(FromJulianDay(days + JulianDay(Date(1970, 1, 1))), seconds)
  }

  function DayAndSeconds(t: int): (int, int) {
    var s, d := Rem(t, SECONDS_PER_DAY), Quot(t, SECONDS_PER_DAY);
    if s < 0 then (d - 1, s + SECONDS_PER_DAY) else (d, s)
  }

  function FillHMS(date: Date, seconds: int): DateTime {
    DateTime(date.year, date.month, date.day, seconds / 60 / 60, seconds / 60 % 60, seconds % 60)
  }

  /** fromUtcTime */
  function FromUtcTime(dt: DateTime): int {
    (JulianDay(Date(dt.year, dt.month, dt.day)) - JulianDay(Date(1970, 1, 1))) * SECONDS_PER_DAY +
    (dt.hour * 3600 + dt.minute * 60 + dt.second)
  }

  // ---------------------------------------------------------------- the Gregorian calendar

  predicate Leap(year: int) { year % 4 == 0 && (year % 100 != 0 || year % 400 == 0) }

  function MonthLength(year: int, month: int): int {
    if month == 2 then (if Leap(year) then 29 else 28)
    else if month == 4 || month == 6 || month == 9 || month == 11 then 30
    else 31
  }

  predicate ValidDate(d: Date) { 1 <= d.month <= 12 && 1 <= d.day <= MonthLength(d.year, d.month) }

  function NextDay(d: Date): Date {
    if d.day < MonthLength(d.year, d.month) then d.(day := d.day + 1)
    else if d.month < 12 then Date(d.year, d.month + 1, 1)
    else Date(d.year + 1, 1, 1)
  }

  /** On or after 1 March of the year -4800, where the numbering starts. */
  predicate InEra(d: Date) { d.year > -4800 || (d.year == -4800 && d.month >= 3) }

  const ERA_START: int := -32044

  // ---------------------------------------------------------------- years from March

  /** A year that starts on 1 March, counted from -4800, a month counted from March, a day counted from 0. */
  datatype Shifted = Shifted(y: int, m: int, e: int)

  /** Days before shifted year y. */
  function YearStart(y: int): int { 365 * y + y / 4 - y / 100 + y / 400 }

  function YearLength(y: int): int { if Leap(y + 1) then 366 else 365 }

  /** Days before month m of a shifted year. */
  function MonthStart(m: int): int { (153 * m + 2) / 5 }

  predicate ValidShifted(s: Shifted) {
    0 <= s.y && 0 <= s.m <= 11 && MonthStart(s.m) <= s.e < (if s.m == 11 then YearLength(s.y) else MonthStart(s.m + 1))
  }

  function ToShifted(d: Date): Shifted {
    if d.month <= 2 then Shifted(d.year + 4799, d.month + 9, MonthStart(d.month + 9) + d.day - 1)
    else Shifted(d.year + 4800, d.month - 3, MonthStart(d.month - 3) + d.day - 1)
  }

  lemma ShiftedValid(d: Date)
    requires ValidDate(d) && InEra(d)
    ensures ValidShifted(ToShifted(d))
    ensures JulianDay(d) == YearStart(ToShifted(d).y) + ToShifted(d).e - 32044
  {
    JulianShifted(d);
    if d.month <= 2 { WinterValid(d); }
  }

  /** January and February end the shifted year, whose length is the leap year's matter. */
  lemma WinterValid(d: Date)
    requires ValidDate(d) && InEra(d) && d.month <= 2
    ensures ValidShifted(ToShifted(d))
  {
    LeapShifts(d.year);
    assert ToShifted(d).y + 1 == d.year + 4800;
  }

  lemma JulianShifted(d: Date)
    requires 1 <= d.month <= 12 && InEra(d)
    ensures JulianDay(d) == YearStart(ToShifted(d).y) + ToShifted(d).e - 32044
  {
    assert Quot(14 - d.month, 12) == if d.month <= 2 then 1 else 0;
  }

  /** YearStart splits over the century and the year in it. */
  lemma YearStartSplits(b: int, d: int)
    requires 0 <= b && 0 <= d < 100
    ensures YearStart(100 * b + d) == 146097 * b / 4 + 1461 * d / 4
  {
    assert (100 * b + d) / 100 == b && (100 * b + d) / 4 == 25 * b + d / 4 && (100 * b + d) / 400 == b / 4;
  }

  lemma DivNext(y: int, k: int)
    requires k == 4 || k == 100 || k == 400
    ensures (y + 1) / k == y / k + if (y + 1) % k == 0 then 1 else 0
  {
  }

  lemma YearStartNext(y: int)
    ensures YearStart(y + 1) == YearStart(y) + YearLength(y)
  {
    DivNext(y, 4);
    DivNext(y, 100);
    DivNext(y, 400);
    assert (y + 1) % 400 == 0 ==> (y + 1) % 100 == 0;
    assert (y + 1) % 100 == 0 ==> (y + 1) % 4 == 0;
  }

  lemma NextShifted(d: Date)
    requires ValidDate(d) && InEra(d)
    ensures ValidDate(NextDay(d)) && InEra(NextDay(d))
    ensures var s, n := ToShifted(d), ToShifted(NextDay(d));
      (n.y == s.y && n.e == s.e + 1) || (n.y == s.y + 1 && n.e == 0 && s.e == YearLength(s.y) - 1)
  {
    LeapShifts(d.year);
    assert d.month == 2 && d.day == MonthLength(d.year, 2) ==> ToShifted(d).e == YearLength(ToShifted(d).y) - 1;
  }

  lemma LeapShifts(year: int)
    ensures Leap(year) <==> Leap(year + 4800)
  {
    ModShifts(year, 4);
    ModShifts(year, 100);
    ModShifts(year, 400);
  }

  lemma ModShifts(year: int, k: int)
    requires k == 4 || k == 100 || k == 400
    ensures (year + 4800) % k == year % k
  {
  }

  /** Consecutive days of the calendar have consecutive numbers. */
  lemma ConsecutiveDays(d: Date)
    requires ValidDate(d) && InEra(d)
    ensures ValidDate(NextDay(d)) && InEra(NextDay(d)) && JulianDay(NextDay(d)) == JulianDay(d) + 1
  {
    NextShifted(d);
    ShiftedValid(d);
    ShiftedValid(NextDay(d));
    YearStartNext(ToShifted(d).y);
  }

  // ---------------------------------------------------------------- the inverse

  /** The century, the year in it, the month and the day are read off the day count, all divisions being of
      non-negative numbers. */
  function Unshift(a: int): Shifted {
    var b := (4 * a + 3) / 146097;
    UnshiftCentury(b, a - 146097 * b / 4)
  }

  function UnshiftCentury(b: int, c: int): Shifted {
    var d := (4 * c + 3) / 1461;
    var e := c - 1461 * d / 4;
    Shifted(100 * b + d, (5 * e + 2) / 153, e)
  }

  function ToDate(s: Shifted): Date {
    Date(s.y - 4800 + s.m / 10, s.m + 3 - 12 * (s.m / 10), s.e - MonthStart(s.m) + 1)
  }

  lemma CenturyRange(a: int)
    requires a >= 0
    ensures var b := (4 * a + 3) / 146097; var c := a - 146097 * b / 4;
      0 <= b && 0 <= c <= 36524 && (c == 36524 ==> b % 4 == 3)
  {
    var b := (4 * a + 3) / 146097;
    assert 146097 * b / 4 == 36524 * b + b / 4;
    assert 146097 * b <= 4 * a + 3 < 146097 * b + 146097;
  }

  lemma YearRange(c: int)
    requires 0 <= c <= 36524
    ensures var d := (4 * c + 3) / 1461; var e := c - 1461 * d / 4;
      0 <= d <= 99 && 0 <= e <= 365 && (e == 365 ==> d % 4 == 3) && (e == 365 && d == 99 ==> c == 36524)
  {
    var d := (4 * c + 3) / 1461;
    assert 1461 * d / 4 == 365 * d + d / 4;
    assert 1461 * d <= 4 * c + 3 < 1461 * d + 1461;
  }

  lemma MonthRange(e: int)
    requires 0 <= e <= 365
    ensures var m := (5 * e + 2) / 153;
      0 <= m <= 11 && MonthStart(m) <= e && (m < 11 ==> e < MonthStart(m + 1))
  {
    var m := (5 * e + 2) / 153;
    assert 0 <= m <= 11;
    assert 153 * m <= 5 * e + 2 < 153 * m + 153;
  }

  /** The last day of a year of 366 days falls in a leap year. */
  lemma LeapCentury(b: int, d: int)
    requires 0 <= b && 0 <= d <= 99 && d % 4 == 3 && (d == 99 ==> b % 4 == 3)
    ensures Leap(100 * b + d + 1)
  {
    var y := 100 * b + d + 1;
    assert y == 4 * (25 * b + (d + 1) / 4);
    if d == 99 {
      assert b == 4 * (b / 4) + 3;
      assert y == 400 * (b / 4 + 1);
    } else {
      ModHundred(b, d + 1);
    }
  }

  lemma ModHundred(b: int, r: int)
    requires 0 <= r < 100
    ensures (100 * b + r) % 100 == r
  {
  }

  /** Every day count from the start of the era on is that of a day of the calendar. */
  lemma UnshiftValid(a: int)
    requires a >= 0
    ensures ValidShifted(Unshift(a)) && YearStart(Unshift(a).y) + Unshift(a).e == a
  {
    var b := (4 * a + 3) / 146097;
    var c := a - 146097 * b / 4;
    var d := (4 * c + 3) / 1461;
    var e := c - 1461 * d / 4;
    CenturyRange(a);
    YearRange(c);
    MonthRange(e);
    YearStartSplits(b, d);
    if e == 365 { LeapCentury(b, d); }
  }

  lemma FromJulianShifts(jd: int)
    requires jd >= ERA_START
    ensures FromJulianDay(jd) == ToDate(Unshift(jd + 32044))
  {
    OfEraShifts(jd + 32044);
  }

  lemma OfEraShifts(a: int)
    requires a >= 0
    ensures OfEra(a) == ToDate(Unshift(a))
  {
    var b, c := EraSplit(a);
    OfCenturyShifts(b, c);
  }

  /** The century of day a, and the day in it. */
  lemma EraSplit(a: int) returns (b: int, c: int)
    requires a >= 0
    ensures 0 <= b && 0 <= c <= 36524
    ensures OfEra(a) == OfCentury(b, c) && Unshift(a) == UnshiftCentury(b, c)
  {
    b := (4 * a + 3) / 146097;
    c := a - 146097 * b / 4;
    CenturyRange(a);
    QuotIsFloor(4 * a + 3, 146097);
    QuotIsFloor(b * 146097, 4);
  }

  lemma QuotIsFloor(a: int, b: int)
    requires a >= 0 && b > 0
    ensures Quot(a, b) == a / b
  {
  }

  lemma OfCenturyShifts(b: int, c: int)
    requires 0 <= b && 0 <= c <= 36524
    ensures OfCentury(b, c) == ToDate(UnshiftCentury(b, c))
  {
    YearRange(c);
    var d := (4 * c + 3) / 1461;
    OfYearShifts(100 * b + d, c - 1461 * d / 4);
  }

  lemma OfYearShifts(y: int, e: int)
    requires 0 <= e <= 365
    ensures OfYear(y - 4800, e) == ToDate(Shifted(y, (5 * e + 2) / 153, e))
  {
    MonthRange(e);
  }

  lemma DateRoundTrip(s: Shifted)
    requires ValidShifted(s)
    ensures ValidDate(ToDate(s)) && InEra(ToDate(s)) && ToShifted(ToDate(s)) == s
  {
    if s.m <= 9 { SpringRoundTrip(s); } else { WinterRoundTrip(s); }
  }

  lemma SpringRoundTrip(s: Shifted)
    requires ValidShifted(s) && s.m <= 9
    ensures ValidDate(ToDate(s)) && InEra(ToDate(s)) && ToShifted(ToDate(s)) == s
  {
    assert ToDate(s) == Date(s.y - 4800, s.m + 3, s.e - MonthStart(s.m) + 1);
  }

  lemma WinterRoundTrip(s: Shifted)
    requires ValidShifted(s) && s.m > 9
    ensures ValidDate(ToDate(s)) && InEra(ToDate(s)) && ToShifted(ToDate(s)) == s
  {
    assert ToDate(s) == Date(s.y - 4799, s.m - 9, s.e - MonthStart(s.m) + 1);
    LeapShifts(s.y - 4799);
  }

  /** Every number from the era's first on is that of the date it is converted to. */
  lemma NumberToDate(jd: int)
    requires jd >= ERA_START
    ensures ValidDate(FromJulianDay(jd)) && InEra(FromJulianDay(jd)) && JulianDay(FromJulianDay(jd)) == jd
  {
    FromJulianShifts(jd);
    UnshiftValid(jd + 32044);
    DateRoundTrip(Unshift(jd + 32044));
    ShiftedValid(FromJulianDay(jd));
  }

  /** A shifted date is determined by its day count. */
  lemma ShiftedUnique(s: Shifted, r: Shifted)
    requires ValidShifted(s) && ValidShifted(r) && YearStart(s.y) + s.e == YearStart(r.y) + r.e
    ensures s == r
  {
    assert s.e < YearLength(s.y) && r.e < YearLength(r.y);
    if s.y < r.y { YearsApart(s.y, r.y); }
    if r.y < s.y { YearsApart(r.y, s.y); }
  }

  lemma {:induction false} YearsApart(y: int, z: int)
    requires y < z
    ensures YearStart(y) + YearLength(y) <= YearStart(z)
    decreases z - y
  {
    YearStartNext(z - 1);
    if y < z - 1 { YearsApart(y, z - 1); }
  }

  lemma YearStartNonNegative(y: int)
    requires y >= 0
    ensures YearStart(y) >= 0
  {
  }

  /** The day count of a valid date of the era is unshifted to that date. */
  lemma UnshiftInverse(s: Shifted, a: int)
    requires ValidShifted(s) && YearStart(s.y) + s.e == a && a >= 0
    ensures Unshift(a) == s
  {
    UnshiftValid(a);
    SameCount(s, Unshift(a), a);
  }

  lemma SameCount(s: Shifted, r: Shifted, a: int)
    requires ValidShifted(s) && ValidShifted(r) && YearStart(s.y) + s.e == a && YearStart(r.y) + r.e == a
    ensures s == r
  {
    ShiftedUnique(s, r);
  }

  lemma ShiftBack(d: Date)
    requires 1 <= d.month <= 12
    ensures ToDate(ToShifted(d)) == d
  {
    assert d.month <= 2 ==> (d.month + 9) / 10 == 1;
    assert d.month > 2 ==> (d.month - 3) / 10 == 0;
  }

  lemma DayCount(d: Date) returns (a: int)
    requires ValidDate(d) && InEra(d)
    ensures a == JulianDay(d) + 32044 >= 0 && Unshift(a) == ToShifted(d)
  {
    ShiftedValid(d);
    var s := ToShifted(d);
    YearStartNonNegative(s.y);
    a := YearStart(s.y) + s.e;
    UnshiftInverse(s, a);
  }

  /** Every valid date of the era survives the round trip through its number. */
  lemma DateToNumber(d: Date)
    requires ValidDate(d) && InEra(d)
    ensures JulianDay(d) >= ERA_START && FromJulianDay(JulianDay(d)) == d
  {
    var a := DayCount(d);
    NumberOfShifted(JulianDay(d), a, ToShifted(d));
    ShiftBack(d);
  }

  lemma NumberOfShifted(jd: int, a: int, s: Shifted)
    requires a == jd + 32044 >= 0 && Unshift(a) == s
    ensures jd >= ERA_START && FromJulianDay(jd) == ToDate(s)
  {
    FromJulianShifts(jd);
  }

  /** The day before the era gets the same number as the era's first day. */
  lemma BeforeEraCollides()
    ensures ValidDate(Date(-4800, 2, 29)) && NextDay(Date(-4800, 2, 29)) == Date(-4800, 3, 1)
    ensures JulianDay(Date(-4800, 2, 29)) == JulianDay(Date(-4800, 3, 1)) == ERA_START
  {
  }

  /** Before the era the truncating divisions leave a negative day count at each stage. */
  lemma NegativeStage(a: int, k: int)
    requires a < 0 && k > 0
    ensures a - Quot(Quot(4 * a + 3, k) * k, 4) < 0
  {
    var n := -(4 * a + 3);
    var q := n / k;
    assert q * k <= n;
    assert Quot(4 * a + 3, k) * k == -(q * k);
    assert q * k / 4 <= n / 4;
  }

  lemma NegativeMonth(year: int, e: int)
    requires e < 0
    ensures OfYear(year, e).day <= 0
  {
    var p := -(5 * e + 2) / 153;
    assert 153 * p <= -(5 * e + 2);
  }

  /** A number before the era is converted to a day that does not exist. */
  lemma BeforeEraInvalid(jd: int)
    requires jd < ERA_START
    ensures FromJulianDay(jd).day <= 0
  {
    var a := jd + 32044;
    var b := Quot(4 * a + 3, 146097);
    NegativeStage(a, 146097);
    var c := a - Quot(b * 146097, 4);
    NegativeCentury(b, c);
  }

  lemma NegativeCentury(b: int, c: int)
    requires c < 0
    ensures OfCentury(b, c).day <= 0
  {
    var d := Quot(4 * c + 3, 1461);
    NegativeStage(c, 1461);
    NegativeMonth(b * 100 + d - 4800, c - Quot(1461 * d, 4));
  }

  /** A number is converted to a valid date, and is the number of that date, exactly from the start of the era on. */
  lemma NumberIffInEra(jd: int)
    ensures ValidDate(FromJulianDay(jd)) <==> jd >= ERA_START
    ensures jd >= ERA_START ==> JulianDay(FromJulianDay(jd)) == jd
  {
    if jd >= ERA_START { NumberToDate(jd); } else { BeforeEraInvalid(jd); }
  }

  /** A valid date survives the round trip through its number exactly when it lies in the era. */
  lemma RoundTripsIffInEra(d: Date)
    requires ValidDate(d)
    ensures FromJulianDay(JulianDay(d)) == d <==> InEra(d)
  {
    if InEra(d) {
      DateToNumber(d);
    } else if JulianDay(d) >= ERA_START {
      NumberToDate(JulianDay(d));
    } else {
      BeforeEraInvalid(JulianDay(d));
    }
  }

  // ---------------------------------------------------------------- time of day

  /** The first second of the era. */
  const FIRST_SECOND: int := (ERA_START - 2440588) * SECONDS_PER_DAY

  /** The day the seconds are counted from, and the day of Julian day number 2451545. */
  lemma EpochDay()
    ensures JulianDay(Date(1970, 1, 1)) == 2440588 && JulianDay(Date(2000, 1, 1)) == 2451545
    ensures FromUtcTime(DateTime(1970, 1, 1, 0, 0, 0)) == 0
  {
  }

  predicate ValidTime(dt: DateTime) {
    ValidDate(Date(dt.year, dt.month, dt.day)) && 0 <= dt.hour < 24 && 0 <= dt.minute < 60 && 0 <= dt.second < 60
  }

  predicate TimeInEra(dt: DateTime) { InEra(Date(dt.year, dt.month, dt.day)) }

  /** BreakTime turns C's truncated quotient into the floor. */
  lemma FloorDay(t: int)
    ensures DayAndSeconds(t) == (t / SECONDS_PER_DAY, t % SECONDS_PER_DAY)
  {
  }

  lemma FilledRange(date: Date, seconds: int)
    requires 0 <= seconds < SECONDS_PER_DAY
    ensures var dt := FillHMS(date, seconds);
      && Date(dt.year, dt.month, dt.day) == date
      && 0 <= dt.hour < 24 && 0 <= dt.minute < 60 && 0 <= dt.second < 60
      && dt.hour * 3600 + dt.minute * 60 + dt.second == seconds
  {
  }

  /** A day of the calendar with a time of day, put together. */
  lemma PutTogether(date: Date, seconds: int)
    requires ValidDate(date) && InEra(date) && 0 <= seconds < SECONDS_PER_DAY
    ensures ValidTime(FillHMS(date, seconds)) && TimeInEra(FillHMS(date, seconds))
    ensures FromUtcTime(FillHMS(date, seconds)) == (JulianDay(date) - 2440588) * SECONDS_PER_DAY + seconds
  {
    EpochDay();
    FilledRange(date, seconds);
  }

  lemma BreakTimeFills(t: int)
    ensures BreakTime(t) == FillHMS(FromJulianDay(t / SECONDS_PER_DAY + 2440588), t % SECONDS_PER_DAY)
  {
    EpochDay();
    FloorDay(t);
  }

  /** Breaking a time down gives a day of the calendar and a time of day. */
  lemma FieldsInRange(t: int)
    requires t >= FIRST_SECOND
    ensures ValidTime(BreakTime(t)) && TimeInEra(BreakTime(t))
  {
    var jd := t / SECONDS_PER_DAY + 2440588;
    BreakTimeFills(t);
    NumberToDate(jd);
    PutTogether(FromJulianDay(jd), t % SECONDS_PER_DAY);
  }

  /** Breaking a time down and putting it together again gives it back. */
  lemma SecondsRoundTrip(t: int)
    requires t >= FIRST_SECOND
    ensures FromUtcTime(BreakTime(t)) == t
  {
    var jd := t / SECONDS_PER_DAY + 2440588;
    BreakTimeFills(t);
    NumberToDate(jd);
    PutTogether(FromJulianDay(jd), t % SECONDS_PER_DAY);
    assert (jd - 2440588) * SECONDS_PER_DAY + t % SECONDS_PER_DAY == t;
  }

  lemma SameDay(t: int, day: int, seconds: int)
    requires 0 <= seconds < SECONDS_PER_DAY && t == day * SECONDS_PER_DAY + seconds
    ensures DayAndSeconds(t) == (day, seconds)
  {
    FloorDay(t);
  }

  lemma FillUndone(dt: DateTime)
    requires 0 <= dt.hour < 24 && 0 <= dt.minute < 60 && 0 <= dt.second < 60
    ensures var n := dt.hour * 3600 + dt.minute * 60 + dt.second;
      0 <= n < SECONDS_PER_DAY && FillHMS(Date(dt.year, dt.month, dt.day), n) == dt
  {
    assert (dt.hour * 3600 + dt.minute * 60 + dt.second) / 60 == dt.hour * 60 + dt.minute;
  }

  /** Putting a valid date and time together and breaking it down gives it back. */
  lemma FieldsRoundTrip(dt: DateTime)
    requires ValidTime(dt) && TimeInEra(dt)
    ensures BreakTime(FromUtcTime(dt)) == dt
  {
    var date := Date(dt.year, dt.month, dt.day);
    var seconds := dt.hour * 3600 + dt.minute * 60 + dt.second;
    TimeOfDay(dt);
    DateToNumber(date);
    FillUndone(dt);
    SameDay(FromUtcTime(dt), JulianDay(date) - 2440588, seconds);
    BreakParts(FromUtcTime(dt), JulianDay(date) - 2440588, seconds);
  }

  lemma TimeOfDay(dt: DateTime)
    ensures FromUtcTime(dt) ==
      (JulianDay(Date(dt.year, dt.month, dt.day)) - 2440588) * SECONDS_PER_DAY +
        (dt.hour * 3600 + dt.minute * 60 + dt.second)
  {
    EpochDay();
  }

  lemma BreakParts(t: int, days: int, seconds: int)
    requires DayAndSeconds(t) == (days, seconds)
    ensures BreakTime(t) == FillHMS(FromJulianDay(days + 2440588), seconds)
  {
    EpochDay();
  }

  /** A time is broken down to fields in range that make it up again exactly from the first second of the era on. */
  lemma SecondsIffInEra(t: int)
    ensures ValidTime(BreakTime(t)) && FromUtcTime(BreakTime(t)) == t <==> t >= FIRST_SECOND
    ensures ValidTime(BreakTime(t)) <==> t >= FIRST_SECOND
  {
    if t >= FIRST_SECOND {
      FieldsInRange(t);
      SecondsRoundTrip(t);
    } else {
      InvalidBefore(t, t / SECONDS_PER_DAY + 2440588);
    }
  }

  lemma InvalidBefore(t: int, jd: int)
    requires t < FIRST_SECOND && jd == t / SECONDS_PER_DAY + 2440588
    ensures !ValidTime(BreakTime(t))
  {
    BreakTimeFills(t);
    BeforeEraInvalid(jd);
    DayOnly(FromJulianDay(jd), t % SECONDS_PER_DAY);
  }

  lemma DayOnly(date: Date, seconds: int)
    requires date.day <= 0
    ensures !ValidTime(FillHMS(date, seconds))
  {
  }

  /** A valid date and time survives the round trip exactly when it lies in the era. */
  lemma FieldsIffInEra(dt: DateTime)
    requires ValidTime(dt)
    ensures BreakTime(FromUtcTime(dt)) == dt <==> TimeInEra(dt)
  {
    var t := FromUtcTime(dt);
    if TimeInEra(dt) {
      FieldsRoundTrip(dt);
    } else if t >= FIRST_SECOND {
      FieldsInRange(t);
    } else {
      InvalidBefore(t, t / SECONDS_PER_DAY + 2440588);
    }
  }
}
