/** Date arithmetic on milliseconds since 1970-01-01T00:00:00Z, as sections 21.4.1 and 21.4.3.4 of ECMA-262 define it
    (day number, year, month and date from time; MakeTime, MakeDay and Date.UTC). */
module Calendar {
  const MS_PER_SECOND := 1000
  const MS_PER_MINUTE := 60000
  const MS_PER_HOUR := 3600000
  const MS_PER_DAY := 86400000

  /** `month` counts from 0, `day` from 1. */
  datatype Date = Date(year: int, month: int, day: int)

  datatype Clock = Clock(hour: int, minute: int, second: int, ms: int)

  datatype Fields = Fields(date: Date, clock: Clock)

  predicate Leap(y: int) {
    y % 4 == 0 && (y % 100 != 0 || y % 400 == 0)
  }

  function DayFromYear(y: int): int {
    365 * (y - 1970) + (y - 1969) / 4 - (y - 1901) / 100 + (y - 1601) / 400
  }

  /** The days of a year before its month `m`; month 12 is the end of the year. */
  function MonthStart(m: int, leap: bool): int
    requires 0 <= m <= 12
  {
    var l := if leap then 1 else 0;
    match m
    case 0 => 0
    case 1 => 31
    case 2 => 59 + l
    case 3 => 90 + l
    case 4 => 120 + l
    case 5 => 151 + l
    case 6 => 181 + l
    case 7 => 212 + l
    case 8 => 243 + l
    case 9 => 273 + l
    case 10 => 304 + l
    case 11 => 334 + l
    case _ => 365 + l
  }

  lemma FourthYear(y: int)
    ensures (y - 1968) / 4 - (y - 1969) / 4 == if y % 4 == 0 then 1 else 0
  {
    var q := y / 4;
    assert (y - 1968) / 4 == q - 492;
    assert (y - 1969) / 4 == if y == 4 * q then q - 493 else q - 492;
  }

  lemma HundredthYear(y: int)
    ensures (y - 1900) / 100 - (y - 1901) / 100 == if y % 100 == 0 then 1 else 0
  {
    var q := y / 100;
    assert (y - 1900) / 100 == q - 19;
    assert (y - 1901) / 100 == if y == 100 * q then q - 20 else q - 19;
  }

  lemma FourHundredthYear(y: int)
    ensures (y - 1600) / 400 - (y - 1601) / 400 == if y % 400 == 0 then 1 else 0
  {
    var q := y / 400;
    assert (y - 1600) / 400 == q - 4;
    assert (y - 1601) / 400 == if y == 400 * q then q - 5 else q - 4;
  }

  lemma TimesFour(n: int)
    ensures 4 * n % 4 == 0
  {
  }

  lemma TimesHundred(n: int)
    ensures 100 * n % 100 == 0
  {
  }

  lemma Hundreds(y: int, n: int)
    requires y == 100 * n
    ensures y % 4 == 0
  {
    TimesFour(25 * n);
  }

  lemma FourHundreds(y: int, n: int)
    requires y == 400 * n
    ensures y % 100 == 0
  {
    TimesHundred(4 * n);
  }

  lemma LeapYears(y: int)
    ensures y % 100 == 0 ==> y % 4 == 0
    ensures y % 400 == 0 ==> y % 100 == 0
  {
    if y % 100 == 0 {
      Hundreds(y, y / 100);
    }
    if y % 400 == 0 {
      FourHundreds(y, y / 400);
    }
  }

  lemma DaysOfYear(y: int)
    ensures DayFromYear(y + 1) - DayFromYear(y)
         == 365 + ((y - 1968) / 4 - (y - 1969) / 4) - ((y - 1900) / 100 - (y - 1901) / 100)
            + ((y - 1600) / 400 - (y - 1601) / 400)
  {
  }

  lemma YearLength(y: int)
    ensures DayFromYear(y + 1) - DayFromYear(y) == MonthStart(12, Leap(y))
  {
    DaysOfYear(y);
    FourthYear(y);
    HundredthYear(y);
    FourHundredthYear(y);
    LeapYears(y);
  }

  lemma {:induction false} YearsAreOrdered(a: int, b: int)
    requires a <= b
    ensures 365 * (b - a) <= DayFromYear(b) - DayFromYear(a) <= 366 * (b - a)
    decreases b - a
  {
    if a < b {
      YearsAreOrdered(a, b - 1);
      YearLength(b - 1);
    }
  }

  /** The year of a day, from a year that does not begin later. */
  function YearFrom(day: int, y: int): (r: int)
    requires DayFromYear(y) <= day
    ensures DayFromYear(r) <= day < DayFromYear(r + 1)
    decreases day - DayFromYear(y)
  {
    YearLength(y);
    if DayFromYear(y + 1) <= day then YearFrom(day, y + 1) else y
  }

  function EarlierYear(day: int): (y: int)
    ensures DayFromYear(y) <= day
  {
    var y := 1970 + day / (if day < 0 then 365 else 366);
    if day < 0 then (YearsAreOrdered(y, 1970); y) else (YearsAreOrdered(1970, y); y)
  }

  function YearOfDay(day: int): (y: int)
    ensures DayFromYear(y) <= day < DayFromYear(y + 1)
  {
    YearFrom(day, EarlierYear(day))
  }

  lemma OneYear(day: int, y: int, r: int)
    requires DayFromYear(y) <= day < DayFromYear(y + 1) && DayFromYear(r) <= day < DayFromYear(r + 1)
    ensures r <= y
  {
    if y < r {
      YearsAreOrdered(y + 1, r);
    }
  }

  lemma YearIsUnique(day: int, y: int)
    requires DayFromYear(y) <= day < DayFromYear(y + 1)
    ensures YearOfDay(day) == y
  {
    OneYear(day, y, YearOfDay(day));
    OneYear(day, YearOfDay(day), y);
  }

  /** The month of a day within its year. */
  function MonthOf(day: int, leap: bool): (m: int)
    requires 0 <= day < MonthStart(12, leap)
    ensures 0 <= m <= 11 && MonthStart(m, leap) <= day < MonthStart(m + 1, leap)
  {
    if day < MonthStart(1, leap) then 0
    else if day < MonthStart(2, leap) then 1
    else if day < MonthStart(3, leap) then 2
    else if day < MonthStart(4, leap) then 3
    else if day < MonthStart(5, leap) then 4
    else if day < MonthStart(6, leap) then 5
    else if day < MonthStart(7, leap) then 6
    else if day < MonthStart(8, leap) then 7
    else if day < MonthStart(9, leap) then 8
    else if day < MonthStart(10, leap) then 9
    else if day < MonthStart(11, leap) then 10
    else 11
  }

  /** The date of a day in the year that begins with day `start`. */
  function DateIn(y: int, start: int, leap: bool, day: int): Date
    requires 0 <= day - start < MonthStart(12, leap)
  {
    var m := MonthOf(day - start, leap);
    Date(y, m, day - start - MonthStart(m, leap) + 1)
  }

  lemma WithinYear(day: int, y: int)
    requires DayFromYear(y) <= day < DayFromYear(y + 1)
    ensures 0 <= day - DayFromYear(y) < MonthStart(12, Leap(y))
  {
    YearLength(y);
  }

  /** The date of a day number. */
  function DateOf(day: int): Date {
    var y := YearOfDay(day);
    WithinYear(day, y);
    DateIn(y, DayFromYear(y), Leap(y), day)
  }

  function ClockOf(t: int): Clock {
    Clock(t / MS_PER_HOUR % 24, t / MS_PER_MINUTE % 60, t / MS_PER_SECOND % 60, t % 1000)
  }

  /** What a time value shows. */
  function FieldsOf(t: int): Fields {
    Fields(DateOf(t / MS_PER_DAY), ClockOf(t))
  }

  function DayIn(start: int, leap: bool, month: int, day: int): int
    requires 0 <= month <= 11
  {
    start + MonthStart(month, leap) + day - 1
  }

  /** The day number of a date; months and days out of range count on. */
  function MakeDay(date: Date): int {
    var y := date.year + date.month / 12;
    DayIn(DayFromYear(y), Leap(y), date.month % 12, date.day)
  }

  function MakeTime(c: Clock): int {
    c.hour * MS_PER_HOUR + c.minute * MS_PER_MINUTE + c.second * MS_PER_SECOND + c.ms
  }

  /** Date.UTC: years 0 to 99 stand for 1900 to 1999. */
  function Utc(f: Fields): int {
    var y := f.date.year;
    MakeDay(f.date.(year := if 0 <= y <= 99 then 1900 + y else y)) * MS_PER_DAY + MakeTime(f.clock)
  }

  predicate ValidIn(leap: bool, month: int, day: int) {
    0 <= month <= 11 && 1 <= day <= MonthStart(month + 1, leap) - MonthStart(month, leap)
  }

  predicate ValidDate(d: Date) {
    ValidIn(Leap(d.year), d.month, d.day)
  }

  predicate ValidClock(c: Clock) {
    0 <= c.hour <= 23 && 0 <= c.minute <= 59 && 0 <= c.second <= 59 && 0 <= c.ms <= 999
  }

  /** A date of the calendar and a time of day. */
  predicate Valid(f: Fields) {
    ValidDate(f.date) && ValidClock(f.clock)
  }

  lemma DateInThenDay(y: int, start: int, leap: bool, day: int)
    requires 0 <= day - start < MonthStart(12, leap)
    ensures var d := DateIn(y, start, leap, day);
            ValidIn(leap, d.month, d.day) && DayIn(start, leap, d.month, d.day) == day
  {
  }

  lemma DayThenDateIn(y: int, start: int, leap: bool, month: int, day: int)
    requires ValidIn(leap, month, day)
    ensures start <= DayIn(start, leap, month, day) < start + MonthStart(12, leap)
    ensures DateIn(y, start, leap, DayIn(start, leap, month, day)) == Date(y, month, day)
  {
    MonthsInOrder(month + 1, 12, leap);
    MonthsInOrder(0, month, leap);
    MonthIsUnique(DayIn(start, leap, month, day) - start, month, leap);
  }

  lemma NoMonthsToCarry(y: int, month: int)
    requires 0 <= month <= 11
    ensures y + month / 12 == y && month % 12 == month
  {
  }

  lemma DateThenDay(day: int)
    ensures ValidDate(DateOf(day)) && MakeDay(DateOf(day)) == day
  {
    var y := YearOfDay(day);
    WithinYear(day, y);
    DateInYear(day, y, DateIn(y, DayFromYear(y), Leap(y), day));
  }

  lemma DateInYear(day: int, y: int, d: Date)
    requires 0 <= day - DayFromYear(y) < MonthStart(12, Leap(y)) && d == DateIn(y, DayFromYear(y), Leap(y), day)
    ensures ValidDate(d) && MakeDay(d) == day
  {
    DateInThenDay(y, DayFromYear(y), Leap(y), day);
    DayOfMonth(d);
  }

  lemma DayOfMonth(d: Date)
    requires 0 <= d.month <= 11
    ensures MakeDay(d) == DayIn(DayFromYear(d.year), Leap(d.year), d.month, d.day)
  {
    NoMonthsToCarry(d.year, d.month);
  }

  lemma DayThenDate(d: Date)
    requires ValidDate(d)
    ensures DateOf(MakeDay(d)) == d
  {
    var y := d.year;
    YearLength(y);
    DayOfMonth(d);
    DayThenDateIn(y, DayFromYear(y), Leap(y), d.month, d.day);
    YearIsUnique(MakeDay(d), y);
  }

  lemma MonthsInOrder(a: int, b: int, leap: bool)
    requires 0 <= a <= b <= 12
    ensures MonthStart(a, leap) <= MonthStart(b, leap)
  {
  }

  lemma MonthIsUnique(day: int, m: int, leap: bool)
    requires 0 <= m <= 11 && 0 <= day < MonthStart(12, leap) && MonthStart(m, leap) <= day < MonthStart(m + 1, leap)
    ensures MonthOf(day, leap) == m
  {
    var r := MonthOf(day, leap);
    if r < m {
      MonthsInOrder(r + 1, m, leap);
    } else if m < r {
      MonthsInOrder(m + 1, r, leap);
    }
  }

  lemma Nested(t: int)
    ensures t / MS_PER_MINUTE == t / MS_PER_SECOND / 60
    ensures t / MS_PER_HOUR == t / MS_PER_MINUTE / 60
    ensures t / MS_PER_DAY == t / MS_PER_HOUR / 24
  {
  }

  lemma TimeThenClock(t: int)
    ensures t == t / MS_PER_DAY * MS_PER_DAY + MakeTime(ClockOf(t)) && ValidClock(ClockOf(t))
  {
    Nested(t);
  }

  lemma By1000(q: int, r: int)
    requires 0 <= r < 1000
    ensures (q * 1000 + r) / 1000 == q && (q * 1000 + r) % 1000 == r
  {
  }

  lemma By60(q: int, r: int)
    requires 0 <= r < 60
    ensures (q * 60 + r) / 60 == q && (q * 60 + r) % 60 == r
  {
  }

  lemma By24(q: int, r: int)
    requires 0 <= r < 24
    ensures (q * 24 + r) / 24 == q && (q * 24 + r) % 24 == r
  {
  }

  lemma ClockThenTime(t: int, day: int, c: Clock)
    requires ValidClock(c) && t == day * MS_PER_DAY + MakeTime(c)
    ensures t / MS_PER_DAY == day && ClockOf(t) == c
  {
    var hours := day * 24 + c.hour;
    var minutes := hours * 60 + c.minute;
    var seconds := minutes * 60 + c.second;
    By24(day, c.hour);
    By60(hours, c.minute);
    By60(minutes, c.second);
    By1000(seconds, c.ms);
    assert t == seconds * 1000 + c.ms;
    Nested(t);
  }

  /** Fields from a time value are valid, and Date.UTC takes them back to it, except in the years 0 to 99. */
  lemma FieldsThenUtc(t: int)
    ensures Valid(FieldsOf(t))
    ensures !(0 <= FieldsOf(t).date.year <= 99) ==> Utc(FieldsOf(t)) == t
  {
    DateThenDay(t / MS_PER_DAY);
    TimeThenClock(t);
  }

  /** Date.UTC of valid fields is the one time value that shows them. */
  lemma UtcThenFields(f: Fields)
    requires Valid(f) && !(0 <= f.date.year <= 99)
    ensures FieldsOf(Utc(f)) == f
  {
    UtcIs(f, MakeDay(f.date));
    TimeThenFields(Utc(f), MakeDay(f.date), f);
  }

  lemma ShiftedUtc(f: Fields, g: Fields)
    requires 0 <= f.date.year <= 99 && g == Fields(Date(1900 + f.date.year, f.date.month, f.date.day), f.clock)
    ensures Utc(f) == Utc(g)
  {
    assert f.date.(year := 1900 + f.date.year) == g.date;
  }

  /** In the years 0 to 99 it is the time value that shows them in the same year of the twentieth century. */
  lemma EarlyYearsAreShifted(f: Fields, g: Fields)
    requires 0 <= f.date.year <= 99 && g == Fields(Date(1900 + f.date.year, f.date.month, f.date.day), f.clock)
    requires Valid(g)
    ensures FieldsOf(Utc(f)) == g
  {
    ShiftedUtc(f, g);
    UtcThenFields(g);
  }

  /** The lengths of the months, and which years are leap years; the count of days starts with 1970. */
  lemma MonthsAndYears(y: int, m: int)
    requires 0 <= m <= 11
    ensures MonthStart(m + 1, Leap(y)) - MonthStart(m, Leap(y))
         == if m in {3, 5, 8, 10} then 30 else if m != 1 then 31 else if Leap(y) then 29 else 28
    ensures Leap(y) <==> if y % 100 == 0 then y % 400 == 0 else y % 4 == 0
    ensures DayFromYear(1970) == 0 && MonthStart(0, Leap(y)) == 0
    ensures DayFromYear(y + 1) - DayFromYear(y) == if Leap(y) then 366 else 365
  {
    LeapYears(y);
    YearLength(y);
  }

  lemma TimeThenFields(t: int, day: int, f: Fields)
    requires Valid(f) && day == MakeDay(f.date) && t == day * MS_PER_DAY + MakeTime(f.clock)
    ensures FieldsOf(t) == f
  {
    DayThenDate(f.date);
    ClockThenTime(t, day, f.clock);
    FieldsFromParts(t, day, f);
  }

  lemma FieldsFromParts(t: int, day: int, f: Fields)
    requires t / MS_PER_DAY == day && DateOf(day) == f.date && ClockOf(t) == f.clock
    ensures FieldsOf(t) == f
  {
  }

  lemma UtcIs(f: Fields, day: int)
    requires !(0 <= f.date.year <= 99) && day == MakeDay(f.date)
    ensures Utc(f) == day * MS_PER_DAY + MakeTime(f.clock)
  {
  }

  // ---------------------------------------------------------------------------------------------
  // Order
  // ---------------------------------------------------------------------------------------------

  predicate DateBefore(d: Date, e: Date) {
    if d.year != e.year then d.year < e.year else if d.month != e.month then d.month < e.month else d.day < e.day
  }

  predicate ClockBefore(c: Clock, d: Clock) {
    if c.hour != d.hour then c.hour < d.hour
    else if c.minute != d.minute then c.minute < d.minute
    else if c.second != d.second then c.second < d.second
    else c.ms < d.ms
  }

  predicate Before(f: Fields, g: Fields) {
    if f.date != g.date then DateBefore(f.date, g.date) else ClockBefore(f.clock, g.clock)
  }

  lemma YearsInOrder(a: int, b: int)
    requires a < b
    ensures YearOfDay(a) <= YearOfDay(b)
  {
    if YearOfDay(b) < YearOfDay(a) {
      YearsAreOrdered(YearOfDay(b) + 1, YearOfDay(a));
    }
  }

  lemma DatesInYear(y: int, start: int, leap: bool, a: int, b: int)
    requires 0 <= a - start < b - start < MonthStart(12, leap)
    ensures DateBefore(DateIn(y, start, leap, a), DateIn(y, start, leap, b))
  {
    var m, n := MonthOf(a - start, leap), MonthOf(b - start, leap);
    if n < m {
      MonthsInOrder(n + 1, m, leap);
    }
  }

  lemma DatesInOrder(a: int, b: int)
    requires a < b
    ensures DateBefore(DateOf(a), DateOf(b))
  {
    YearsInOrder(a, b);
    var y := YearOfDay(a);
    if y == YearOfDay(b) {
      YearLength(y);
      DatesInYear(y, DayFromYear(y), Leap(y), a, b);
    }
  }

  lemma ClocksInOrder(t: int, u: int)
    requires t < u && t / MS_PER_DAY == u / MS_PER_DAY
    ensures ClockBefore(ClockOf(t), ClockOf(u))
  {
    TimeThenClock(t);
    TimeThenClock(u);
  }

  /** Later time values show later fields. */
  lemma FieldsInOrder(t: int, u: int)
    requires t < u
    ensures Before(FieldsOf(t), FieldsOf(u))
  {
    var a, b := t / MS_PER_DAY, u / MS_PER_DAY;
    if a < b {
      DatesInOrder(a, b);
      assert DateOf(a) != DateOf(b);
    } else {
      ClocksInOrder(t, u);
    }
  }

  lemma OneWay(f: Fields, g: Fields)
    requires Before(f, g)
    ensures f != g && !Before(g, f)
  {
  }

  lemma InOrder(t: int, u: int, f: Fields, g: Fields)
    requires t < u && f == FieldsOf(t) && g == FieldsOf(u)
    ensures f != g && !Before(g, f) && Before(f, g)
  {
    FieldsInOrder(t, u);
    OneWay(f, g);
  }

  /** Fields are ordered exactly as the time values are. */
  lemma InOrderExactly(t: int, u: int, f: Fields, g: Fields)
    requires f == FieldsOf(t) && g == FieldsOf(u)
    ensures t < u <==> !(g == f || Before(g, f))
  {
    if t < u {
      InOrder(t, u, f, g);
    } else if u < t {
      InOrder(u, t, g, f);
    } else {
      assert f == g;
    }
  }
}
