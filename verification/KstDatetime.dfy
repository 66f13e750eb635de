/** How the database stores instants: as local datetimes of Korea, nine hours ahead of UTC, in text. */
module KstDatetime {
  import opened Options
  import opened Sequences
  import opened Timestamps
  import opened Calendar
  import opened Decimals

  const KST_OFFSET_MS := 9 * 60 * 60 * 1000
  const MAX_TIME := 8640000000000000

  /** The time value of a valid Date. */
  type TimeValue = t: int | -MAX_TIME <= t <= MAX_TIME

  function Pad(value: nat, length: nat): string {
    PadStart(Decimal(value), length)
  }

  function YearText(y: int): string {
    if y < 0 then "-" + Decimal(-y) else Decimal(y)
  }

  function DateText(year: string, month: string, day: string): string {
    year + ("-" + (month + ("-" + day)))
  }

  function ClockText(hour: string, minute: string, second: string, ms: string): string {
    hour + (":" + (minute + (":" + (second + ("." + ms)))))
  }

  function Text(f: Fields): string
    requires Valid(f)
  {
    DateText(YearText(f.date.year), Pad(f.date.month + 1, 2), Pad(f.date.day, 2)) + " "
    + ClockText(Pad(f.clock.hour, 2), Pad(f.clock.minute, 2), Pad(f.clock.second, 2), Pad(f.clock.ms, 3))
  }

  /** The local date and time of an instant. */
  function Kst(t: int): Fields {
    FieldsOf(t + KST_OFFSET_MS)
  }

  /** Prints an instant; the shifted Date is invalid if it leaves the range of time values. */
  function Format(t: TimeValue): string {
    if t + KST_OFFSET_MS > MAX_TIME then "NaN-NaN-NaN NaN:NaN:NaN.NaN"
    else
      FieldsThenUtc(t + KST_OFFSET_MS);
      Text(Kst(t))
  }

  // ---------------------------------------------------------------------------------------------
  // Parsing
  // ---------------------------------------------------------------------------------------------

  /** White space and line terminators, as `trim` takes them. */
  predicate Blank(c: char) {
    || '\U{9}' <= c <= '\U{D}' || c == ' ' || c == '\U{A0}' || c == '\U{1680}' || '\U{2000}' <= c <= '\U{200A}'
    || c == '\U{2028}' || c == '\U{2029}' || c == '\U{202F}' || c == '\U{205F}' || c == '\U{3000}' || c == '\U{FEFF}'
  }

  function TrimStart(s: string): string {
    if s != [] && Blank(s[0]) then TrimStart(s[1..]) else s
  }

  function TrimEnd(s: string): string {
    if s != [] && Blank(s[|s| - 1]) then TrimEnd(s[..|s| - 1]) else s
  }

  function Trim(s: string): string {
    TrimEnd(TrimStart(s))
  }

  predicate IsDate(s: string) {
    && |s| == 10 && s[4] == '-' && s[7] == '-'
    && AllDigits(s[..4]) && AllDigits(s[5..7]) && AllDigits(s[8..])
  }

  predicate IsTime(s: string) {
    && |s| == 8 && s[2] == ':' && s[5] == ':'
    && AllDigits(s[..2]) && AllDigits(s[3..5]) && AllDigits(s[6..])
  }

  /** A dot and one to six digits, or nothing. */
  predicate IsFraction(s: string) {
    s == "" || (2 <= |s| <= 7 && s[0] == '.' && AllDigits(s[1..]))
  }

  predicate Matches(s: string) {
    |s| >= 19 && IsDate(s[..10]) && (s[10] == ' ' || s[10] == 'T') && IsTime(s[11..19]) && IsFraction(s[19..])
  }

  /** The milliseconds of a fraction: three digits, filled up or cut. */
  function Millis(fraction: string): (r: string)
    requires IsFraction(fraction)
    ensures |r| == 3 && AllDigits(r)
  {
    PadEnd(if fraction == "" then "" else fraction[1..], 3)[..3]
  }

  function DateIn(s: string): Date
    requires IsDate(s)
  {
    Date(Number(s[..4]), Number(s[5..7]) - 1, Number(s[8..]))
  }

  function ClockIn(s: string, ms: string): Clock
    requires IsTime(s) && AllDigits(ms)
  {
    Clock(Number(s[..2]), Number(s[3..5]), Number(s[6..]), Number(ms))
  }

  function FieldsIn(s: string): Fields
    requires Matches(s)
  {
    Fields(DateIn(s[..10]), ClockIn(s[11..19], Millis(s[19..])))
  }

  /** Parses a text; other texts are errors. */
  function Parse(value: string): Option<int> {
    var s := Trim(value);
    if Matches(s) then Some(Utc(FieldsIn(s)) - KST_OFFSET_MS) else None
  }

  /** A matching text with a space between date and time and three digits of milliseconds. */
  function Normal(s: string): string
    requires Matches(s)
  {
    s[..10] + " " + s[11..19] + "." + Millis(s[19..])
  }

  // ---------------------------------------------------------------------------------------------
  // Texts of four-digit years
  // ---------------------------------------------------------------------------------------------

  predicate FourDigits(y: int) {
    1000 <= y <= 9999
  }

  lemma Powers()
    ensures Pow10(1) == 10 && Pow10(2) == 100 && Pow10(3) == 1000 && Pow10(4) == 10000
  {
  }

  /** All parts have their fixed width. */
  lemma TextParts(f: Fields)
    requires Valid(f) && FourDigits(f.date.year)
    ensures YearText(f.date.year) == Fixed(f.date.year, 4)
    ensures Pad(f.date.month + 1, 2) == Fixed(f.date.month + 1, 2) && Pad(f.date.day, 2) == Fixed(f.date.day, 2)
    ensures Pad(f.clock.hour, 2) == Fixed(f.clock.hour, 2) && Pad(f.clock.minute, 2) == Fixed(f.clock.minute, 2)
    ensures Pad(f.clock.second, 2) == Fixed(f.clock.second, 2) && Pad(f.clock.ms, 3) == Fixed(f.clock.ms, 3)
  {
    Powers();
    DecimalIsFixed(f.date.year, 4);
    PadIsFixed(f.date.month + 1, 2);
    PadIsFixed(f.date.day, 2);
    PadIsFixed(f.clock.hour, 2);
    PadIsFixed(f.clock.minute, 2);
    PadIsFixed(f.clock.second, 2);
    PadIsFixed(f.clock.ms, 3);
  }

  function ClockParts(c: Clock): string
    requires ValidClock(c)
  {
    ClockText(Fixed(c.hour, 2), Fixed(c.minute, 2), Fixed(c.second, 2), Fixed(c.ms, 3))
  }

  lemma TextOfParts(f: Fields)
    requires Valid(f) && FourDigits(f.date.year)
    ensures 0 <= f.date.month <= 11 && 1 <= f.date.day <= 31
    ensures Text(f) == DateText(Fixed(f.date.year, 4), Fixed(f.date.month + 1, 2), Fixed(f.date.day, 2)) + " "
                       + ClockParts(f.clock)
  {
    DayRange(f.date);
    TextParts(f);
  }

  lemma DatePartsBack(year: string, month: string, day: string)
    requires |year| == 4 && |month| == 2 && |day| == 2 && AllDigits(year) && AllDigits(month) && AllDigits(day)
    ensures var s := DateText(year, month, day);
            IsDate(s) && s[..4] == year && s[5..7] == month && s[8..] == day
  {
  }

  lemma ClockPartsBack(hour: string, minute: string, second: string, ms: string)
    requires |hour| == 2 && |minute| == 2 && |second| == 2 && |ms| == 3
    requires AllDigits(hour) && AllDigits(minute) && AllDigits(second) && AllDigits(ms)
    ensures var s := ClockText(hour, minute, second, ms);
            && |s| == 12 && IsTime(s[..8]) && s[..8][..2] == hour && s[..8][3..5] == minute && s[..8][6..] == second
            && s[8..] == "." + ms
  {
    var s, seconds := ClockText(hour, minute, second, ms), hour + ":" + minute + ":" + second;
    assert s == seconds + ("." + ms) && |seconds| == 8;
    assert s[..8] == seconds;
  }

  lemma Joins(date: string, separator: char, clock: string)
    requires |date| == 10 && |clock| == 12
    ensures var s := date + [separator] + clock;
            |s| == 23 && s[..10] == date && s[10] == separator && s[11..19] == clock[..8] && s[19..] == clock[8..]
  {
  }

  lemma MillisOf(ms: string)
    requires |ms| == 3 && AllDigits(ms)
    ensures IsFraction("." + ms) && Millis("." + ms) == ms
  {
    assert ("." + ms)[1..] == ms;
  }

  /** The parts of a text are found where they were put. */
  lemma DateReadsBack(d: Date, date: string)
    requires ValidDate(d) && FourDigits(d.year)
    requires date == DateText(Fixed(d.year, 4), Fixed(d.month + 1, 2), Fixed(d.day, 2))
    ensures |date| == 10 && IsDate(date) && DateIn(date) == d
  {
    DatePartsBack(Fixed(d.year, 4), Fixed(d.month + 1, 2), Fixed(d.day, 2));
    DateBack(d, date);
  }

  lemma ClockReadsBack(c: Clock, clock: string)
    requires ValidClock(c) && clock == ClockParts(c)
    ensures |clock| == 12 && IsTime(clock[..8]) && clock[8..] == "." + Fixed(c.ms, 3)
    ensures ClockIn(clock[..8], Fixed(c.ms, 3)) == c
  {
    ClockPartsBack(Fixed(c.hour, 2), Fixed(c.minute, 2), Fixed(c.second, 2), Fixed(c.ms, 3));
    ClockBack(c, clock);
  }

  /** The text of valid fields of a four-digit year is read as these fields. */
  lemma TextReadsBack(f: Fields)
    requires Valid(f) && FourDigits(f.date.year)
    ensures |Text(f)| == 23 && Matches(Text(f)) && FieldsIn(Text(f)) == f
  {
    var d, c := f.date, f.clock;
    TextOfParts(f);
    var date, clock := DateText(Fixed(d.year, 4), Fixed(d.month + 1, 2), Fixed(d.day, 2)), ClockParts(c);
    DateReadsBack(d, date);
    ClockReadsBack(c, clock);
    JoinedReadsBack(f, date, clock, Text(f));
  }

  lemma JoinedReadsBack(f: Fields, date: string, clock: string, s: string)
    requires Valid(f) && IsDate(date) && DateIn(date) == f.date
    requires |clock| == 12 && IsTime(clock[..8]) && clock[8..] == "." + Fixed(f.clock.ms, 3)
    requires ClockIn(clock[..8], Fixed(f.clock.ms, 3)) == f.clock && s == date + " " + clock
    ensures |s| == 23 && Matches(s) && FieldsIn(s) == f
  {
    Joins(date, ' ', clock);
    MillisOf(Fixed(f.clock.ms, 3));
  }

  lemma DayRange(d: Date)
    requires ValidDate(d)
    ensures 0 <= d.month <= 11 && 1 <= d.day <= 31
  {
  }

  lemma {:induction false} PartBack(s: string, n: nat, width: nat)
    requires n < Pow10(width) && s == Fixed(n, width)
    ensures Number(s) == n
  {
    NumberOfFixed(n, width);
  }

  lemma DateBack(d: Date, date: string)
    requires ValidDate(d) && FourDigits(d.year)
    requires IsDate(date) && date[..4] == Fixed(d.year, 4)
    requires date[5..7] == Fixed(d.month + 1, 2) && date[8..] == Fixed(d.day, 2)
    ensures DateIn(date) == d
  {
    Powers();
    DayRange(d);
    PartBack(date[..4], d.year, 4);
    PartBack(date[5..7], d.month + 1, 2);
    PartBack(date[8..], d.day, 2);
  }

  lemma ClockBack(c: Clock, clock: string)
    requires ValidClock(c) && |clock| == 12 && IsTime(clock[..8])
    requires var s := clock[..8];
             s[..2] == Fixed(c.hour, 2) && s[3..5] == Fixed(c.minute, 2) && s[6..] == Fixed(c.second, 2)
    ensures ClockIn(clock[..8], Fixed(c.ms, 3)) == c
  {
    var s := clock[..8];
    Powers();
    PartBack(s[..2], c.hour, 2);
    PartBack(s[3..5], c.minute, 2);
    PartBack(s[6..], c.second, 2);
    PartBack(Fixed(c.ms, 3), c.ms, 3);
  }

  // ---------------------------------------------------------------------------------------------
  // Other years
  // ---------------------------------------------------------------------------------------------

  lemma {:induction false} DecimalsAreDigits(n: nat)
    ensures AllDigits(Decimal(n))
  {
    if n >= 10 {
      DecimalsAreDigits(n / 10);
    }
  }

  lemma TrimStays(s: string)
    requires s != [] && !Blank(s[0]) && !Blank(s[|s| - 1])
    ensures Trim(s) == s
  {
  }

  lemma TextEnds(f: Fields)
    requires Valid(f)
    ensures Text(f) != [] && IsDigit(Text(f)[|Text(f)| - 1]) && YearText(f.date.year) + "-" <= Text(f)
  {
    DecimalsAreDigits(f.clock.ms);
  }

  lemma TextIsTrimmed(f: Fields)
    requires Valid(f)
    ensures Trim(Text(f)) == Text(f)
  {
    TextEnds(f);
    DecimalsAreDigits(if f.date.year < 0 then -f.date.year else f.date.year);
    TrimStays(Text(f));
  }

  lemma MatchesStart(s: string)
    ensures Matches(s) ==> s[4] == '-' && forall i | 0 <= i < 4 :: IsDigit(s[i])
  {
    if Matches(s) {
      assert s[..10][4] == '-' && AllDigits(s[..10][..4]);
      assert forall i | 0 <= i < 4 :: s[..10][..4][i] == s[i];
    }
  }

  /** The text of any other year does not match. */
  lemma OtherYearsDoNotMatch(f: Fields)
    requires Valid(f) && !FourDigits(f.date.year)
    ensures !Matches(Text(f))
  {
    var y, s := f.date.year, Text(f);
    TextEnds(f);
    MatchesStart(s);
    var year := YearText(y) + "-";
    if y < 0 {
      assert s[0] == year[0] == '-';
    } else {
      YearLengths(y);
      DecimalsAreDigits(y);
      if |Decimal(y)| < 4 {
        assert s[|Decimal(y)|] == year[|Decimal(y)|] == '-';
      } else {
        assert s[4] == year[4] == Decimal(y)[4];
      }
    }
  }

  lemma {:induction false} YearLengths(y: nat)
    requires !FourDigits(y)
    ensures |Decimal(y)| != 4
  {
    Powers();
    DecimalLength(y, 3);
    DecimalLength(y, 4);
  }

  // ---------------------------------------------------------------------------------------------
  // Round trips
  // ---------------------------------------------------------------------------------------------

  lemma FarYears(t: int)
    requires t > MAX_TIME
    ensures !FourDigits(FieldsOf(t).date.year)
  {
    var y := FieldsOf(t).date.year;
    if y <= 9999 {
      YearsAreOrdered(y + 1, 10000);
      YearsAreOrdered(1970, 10000);
    }
  }

  lemma NaNIsNotParsed()
    ensures Parse("NaN-NaN-NaN NaN:NaN:NaN.NaN") == None
  {
    TrimStays("NaN-NaN-NaN NaN:NaN:NaN.NaN");
    MatchesStart("NaN-NaN-NaN NaN:NaN:NaN.NaN");
  }

  lemma ParseFields(s: string, f: Fields)
    requires Trim(s) == s && Matches(s) && FieldsIn(s) == f
    ensures Parse(s) == Some(Utc(f) - KST_OFFSET_MS)
  {
  }

  lemma ParseNothing(s: string)
    requires Trim(s) == s && !Matches(s)
    ensures Parse(s) == None
  {
  }

  lemma TextIsParsed(f: Fields, s: string)
    requires Valid(f) && s == Text(f)
    ensures Parse(s) == if FourDigits(f.date.year) then Some(Utc(f) - KST_OFFSET_MS) else None
  {
    TextIsTrimmed(f);
    if FourDigits(f.date.year) {
      TextReadsBack(f);
      ParseFields(s, f);
    } else {
      OtherYearsDoNotMatch(f);
      ParseNothing(s);
    }
  }

  /** Parsing takes a printed instant back to itself exactly if its Korean year has four digits. */
  lemma RoundTripsExactly(t: TimeValue)
    ensures Parse(Format(t)) == Some(t) <==> FourDigits(Kst(t).date.year)
  {
    if t + KST_OFFSET_MS > MAX_TIME {
      FarYears(t + KST_OFFSET_MS);
      NaNIsNotParsed();
    } else {
      RoundTripsWithFields(t, Kst(t), Format(t));
    }
  }

  lemma RoundTripsWithFields(t: TimeValue, f: Fields, s: string)
    requires t + KST_OFFSET_MS <= MAX_TIME && f == Kst(t) && s == Format(t)
    ensures Parse(s) == Some(t) <==> FourDigits(f.date.year)
  {
    PrintedFields(t, f);
    TextIsParsed(f, s);
  }

  lemma PrintedFields(t: TimeValue, f: Fields)
    requires t + KST_OFFSET_MS <= MAX_TIME && f == Kst(t)
    ensures Valid(f) && Format(t) == Text(f) && (FourDigits(f.date.year) ==> Utc(f) - KST_OFFSET_MS == t)
  {
    FieldsThenUtc(t + KST_OFFSET_MS);
  }

  /** What is printed for an instant is what Date.UTC takes to nine hours later. */
  lemma PrintedNineHoursAhead(t: TimeValue)
    requires FourDigits(Kst(t).date.year)
    ensures Matches(Format(t)) && Utc(FieldsIn(Format(t))) == t + 32_400_000
  {
    if t + KST_OFFSET_MS > MAX_TIME {
      FarYears(t + KST_OFFSET_MS);
    } else {
      PrintedFields(t, Kst(t));
      TextReadsBack(Kst(t));
    }
  }

  const LEAP_DAY := Fields(Date(2024, 1, 29), Clock(23, 58, 57, 123))

  lemma LeapDayParts()
    ensures YearText(2024) == "2024" && Pad(2, 2) == "02" && Pad(29, 2) == "29"
    ensures Pad(23, 2) == "23" && Pad(58, 2) == "58" && Pad(57, 2) == "57" && Pad(123, 3) == "123"
  {
    assert Decimal(20) == "20" && Decimal(202) == "202" && Decimal(2024) == "2024";
    assert Decimal(12) == "12" && Decimal(123) == "123";
  }

  lemma LeapDayText()
    ensures Valid(LEAP_DAY) && Text(LEAP_DAY) == "2024-02-29 23:58:57.123"
  {
    LeapDayParts();
    assert DateText("2024", "02", "29") == "2024-02-29";
    assert ClockText("23", "58", "57", "123") == "23:58:57.123";
  }

  lemma LeapDayTime()
    ensures Utc(LEAP_DAY) == 1709251137123
  {
    assert DayFromYear(2024) == 19723;
    assert MakeDay(LEAP_DAY.date) == 19782;
    UtcIs(LEAP_DAY, 19782);
  }

  lemma InKorea(t: TimeValue, f: Fields, s: string)
    requires Valid(f) && FourDigits(f.date.year) && Utc(f) == t + KST_OFFSET_MS <= MAX_TIME && Text(f) == s
    ensures Format(t) == s && Parse(s) == Some(t)
  {
    UtcThenFields(f);
    PrintedFields(t, f);
    TextIsParsed(f, s);
  }

  /** An instant of a leap day in Korea, 1709218737.123 seconds after the start of 1970 in UTC. */
  lemma LeapDayIsPrinted()
    ensures Format(1709218737123) == "2024-02-29 23:58:57.123"
    ensures Parse("2024-02-29 23:58:57.123") == Some(1709218737123)
  {
    LeapDayText();
    LeapDayTime();
    InKorea(1709218737123, LEAP_DAY, "2024-02-29 23:58:57.123");
  }

  const NOON_IN_999 := Fields(Date(999, 5, 15), Clock(12, 0, 0, 0))

  lemma NoonParts()
    ensures YearText(999) == "999" && Pad(6, 2) == "06" && Pad(15, 2) == "15" && Pad(12, 2) == "12"
    ensures Pad(0, 2) == "00" && Pad(0, 3) == "000"
  {
    assert Decimal(9) == "9" && Decimal(99) == "99";
  }

  lemma NoonText()
    ensures Valid(NOON_IN_999) && Text(NOON_IN_999) == "999-06-15 12:00:00.000"
  {
    NoonParts();
    assert DateText("999", "06", "15") == "999-06-15";
    assert ClockText("12", "00", "00", "000") == "12:00:00.000";
  }

  lemma NoonTime()
    ensures -MAX_TIME <= Utc(NOON_IN_999) - KST_OFFSET_MS <= 0
  {
    assert DayFromYear(999) == -354650;
  }

  lemma PrintedButNotParsed(kst: int, f: Fields)
    requires Valid(f) && !FourDigits(f.date.year) && f == FieldsOf(kst)
    requires -MAX_TIME <= kst - KST_OFFSET_MS && kst <= MAX_TIME
    ensures Format(kst - KST_OFFSET_MS) == Text(f) && Parse(Text(f)) == None
  {
    PrintedFields(kst - KST_OFFSET_MS, f);
    TextIsParsed(f, Text(f));
  }

  lemma NotReadBack(f: Fields)
    requires Valid(f) && !FourDigits(f.date.year) && !(0 <= f.date.year <= 99)
    requires -MAX_TIME <= Utc(f) - KST_OFFSET_MS && Utc(f) <= MAX_TIME
    ensures Format(Utc(f) - KST_OFFSET_MS) == Text(f) && Parse(Text(f)) == None
  {
    UtcThenFields(f);
    PrintedButNotParsed(Utc(f), f);
  }

  /** An instant in Korean year 999: its year is printed with three digits, and the text is an error. */
  lemma ThreeDigitYear()
    ensures var t := Utc(NOON_IN_999) - KST_OFFSET_MS;
            -MAX_TIME <= t <= 0 && Format(t) == "999-06-15 12:00:00.000" && Parse(Format(t)) == None
  {
    NoonTime();
    NoonText();
    NotReadBack(NOON_IN_999);
  }

  // ---------------------------------------------------------------------------------------------
  // Order
  // ---------------------------------------------------------------------------------------------

  /** Parts of fixed width decide in their order. */
  lemma {:induction false} PartFirst(m: nat, n: nat, width: nat, a: string, b: string)
    requires m < Pow10(width) && n < Pow10(width)
    ensures Leq(Fixed(m, width) + a, Fixed(n, width) + b) <==> (if m != n then m < n else Leq(a, b))
  {
    NumberOfFixed(m, width);
    NumberOfFixed(n, width);
    FixedInOrder(m, n, width);
    HeadsFirst(Fixed(m, width), Fixed(n, width), a, b);
  }

  lemma {:induction false} SameStart(c: char, a: string, b: string)
    ensures Leq([c] + a, [c] + b) <==> Leq(a, b)
  {
    HeadsFirst([c], [c], a, b);
  }

  function DateParts(y: nat, m: nat, d: nat, rest: string): string {
    Fixed(y, 4) + ("-" + (Fixed(m, 2) + ("-" + (Fixed(d, 2) + rest))))
  }

  lemma {:induction false} DatePartsInOrder(y: nat, m: nat, d: nat, y': nat, m': nat, d': nat, a: string, b: string)
    requires y < 10000 && y' < 10000 && m < 100 && m' < 100 && d < 100 && d' < 100
    ensures Leq(DateParts(y, m, d, a), DateParts(y', m', d', b))
       <==> if y != y' then y < y' else if m != m' then m < m' else if d != d' then d < d' else Leq(a, b)
  {
    Powers();
    var day, day' := Fixed(d, 2) + a, Fixed(d', 2) + b;
    PartFirst(d, d', 2, a, b);
    SameStart('-', day, day');
    var month, month' := Fixed(m, 2) + ("-" + day), Fixed(m', 2) + ("-" + day');
    PartFirst(m, m', 2, "-" + day, "-" + day');
    SameStart('-', month, month');
    PartFirst(y, y', 4, "-" + month, "-" + month');
  }

  lemma ClockPartsInOrder(c: Clock, d: Clock)
    requires ValidClock(c) && ValidClock(d)
    ensures Leq(ClockParts(c), ClockParts(d)) <==> c == d || ClockBefore(c, d)
  {
    Powers();
    var ms, ms' := Fixed(c.ms, 3), Fixed(d.ms, 3);
    var second, second' := Fixed(c.second, 2) + ("." + ms), Fixed(d.second, 2) + ("." + ms');
    var minute, minute' := Fixed(c.minute, 2) + (":" + second), Fixed(d.minute, 2) + (":" + second');
    PartFirst(c.hour, d.hour, 2, ":" + minute, ":" + minute');
    SameStart(':', minute, minute');
    PartFirst(c.minute, d.minute, 2, ":" + second, ":" + second');
    SameStart(':', second, second');
    PartFirst(c.second, d.second, 2, "." + ms, "." + ms');
    SameStart('.', ms, ms');
    FixedInOrder(c.ms, d.ms, 3);
  }

  lemma Nest(year: string, month: string, day: string, rest: string)
    ensures DateText(year, month, day) + rest == year + ("-" + (month + ("-" + (day + rest))))
  {
    Associate(year, "-" + (month + ("-" + day)), rest);
    Associate("-", month + ("-" + day), rest);
    Associate(month, "-" + day, rest);
    Associate("-", day, rest);
  }

  lemma TextIsNested(f: Fields)
    requires Valid(f) && FourDigits(f.date.year)
    ensures 0 <= f.date.month <= 11 && 1 <= f.date.day <= 31
    ensures Text(f) == DateParts(f.date.year, f.date.month + 1, f.date.day, " " + ClockParts(f.clock))
  {
    TextOfParts(f);
    var year, month, day := Fixed(f.date.year, 4), Fixed(f.date.month + 1, 2), Fixed(f.date.day, 2);
    Associate(DateText(year, month, day), " ", ClockParts(f.clock));
    Nest(year, month, day, " " + ClockParts(f.clock));
  }

  lemma NestedInOrder(d: Date, e: Date, b: Clock, c: Clock)
    requires FourDigits(d.year) && FourDigits(e.year) && ValidClock(b) && ValidClock(c)
    requires 0 <= d.month <= 11 && 1 <= d.day <= 31 && 0 <= e.month <= 11 && 1 <= e.day <= 31
    ensures Leq(DateParts(d.year, d.month + 1, d.day, " " + ClockParts(b)),
                DateParts(e.year, e.month + 1, e.day, " " + ClockParts(c)))
       <==> Fields(d, b) == Fields(e, c) || Before(Fields(d, b), Fields(e, c))
  {
    DatePartsInOrder(d.year, d.month + 1, d.day, e.year, e.month + 1, e.day, " " + ClockParts(b), " " + ClockParts(c));
    SameStart(' ', ClockParts(b), ClockParts(c));
    ClockPartsInOrder(b, c);
  }

  lemma PrintedAsText(t: TimeValue, f: Fields)
    requires f == Kst(t) && FourDigits(f.date.year)
    ensures Valid(f) && Format(t) == Text(f)
  {
    FieldsThenUtc(t + KST_OFFSET_MS);
    if t + KST_OFFSET_MS > MAX_TIME {
      FarYears(t + KST_OFFSET_MS);
    }
  }

  /** The text of these fields, part by part. */
  ghost predicate Spells(s: string, f: Fields) {
    && FourDigits(f.date.year) && 0 <= f.date.month <= 11 && 1 <= f.date.day <= 31 && ValidClock(f.clock)
    && s == DateParts(f.date.year, f.date.month + 1, f.date.day, " " + ClockParts(f.clock))
  }

  lemma PrintedSpells(t: TimeValue, f: Fields)
    requires f == Kst(t) && FourDigits(f.date.year)
    ensures Spells(Format(t), f)
  {
    PrintedAsText(t, f);
    TextIsNested(f);
  }

  lemma {:induction false} SpelledInOrder(s: string, u: string, f: Fields, g: Fields)
    requires Spells(s, f) && Spells(u, g)
    ensures Leq(s, u) <==> f == g || Before(f, g)
  {
    NestedInOrder(f.date, g.date, f.clock, g.clock);
  }

  /** Instants of four-digit years are in the order of their texts. */
  lemma FormatKeepsOrder(t: TimeValue, u: TimeValue)
    requires FourDigits(Kst(t).date.year) && FourDigits(Kst(u).date.year)
    ensures t < u <==> Less(Format(t), Format(u))
  {
    PrintedInOrder(t, u, Kst(t), Kst(u), Format(t), Format(u));
  }

  lemma PrintedInOrder(t: TimeValue, u: TimeValue, f: Fields, g: Fields, s: string, z: string)
    requires f == Kst(t) && g == Kst(u) && s == Format(t) && z == Format(u)
    requires FourDigits(f.date.year) && FourDigits(g.date.year)
    ensures t < u <==> Less(s, z)
  {
    PrintedSpells(t, f);
    PrintedSpells(u, g);
    SpelledInOrder(z, s, g, f);
    InOrderExactly(t + KST_OFFSET_MS, u + KST_OFFSET_MS, f, g);
  }

  // ---------------------------------------------------------------------------------------------
  // From text to text
  // ---------------------------------------------------------------------------------------------

  lemma Cuts(date: string, clock: string, ms: string)
    requires |date| == 10 && |clock| == 8 && |ms| == 3
    ensures var s := date + " " + clock + "." + ms;
            |s| == 23 && s[..10] == date && s[10] == ' ' && s[11..19] == clock && s[19..] == "." + ms
  {
  }

  lemma {:induction false} PartDigits(s: string, n: nat)
    requires AllDigits(s) && Number(s) == n
    ensures Fixed(n, |s|) == s
  {
    FixedOfNumber(s);
  }

  lemma DateDigitsBack(s: string, d: Date)
    requires IsDate(s) && DateIn(s) == d
    ensures d.year >= 0 && d.month >= -1 && d.day >= 0
    ensures DateText(Fixed(d.year, 4), Fixed(d.month + 1, 2), Fixed(d.day, 2)) == s
  {
    PartDigits(s[..4], d.year);
    PartDigits(s[5..7], d.month + 1);
    PartDigits(s[8..], d.day);
    DatePieces(s);
  }

  lemma DatePieces(s: string)
    requires IsDate(s)
    ensures s == DateText(s[..4], s[5..7], s[8..])
  {
  }

  lemma ClockDigitsBack(s: string, ms: string, c: Clock)
    requires IsTime(s) && |ms| == 3 && AllDigits(ms) && ClockIn(s, ms) == c && ValidClock(c)
    ensures ClockParts(c) == s + "." + ms
  {
    PartDigits(s[..2], c.hour);
    PartDigits(s[3..5], c.minute);
    PartDigits(s[6..], c.second);
    PartDigits(ms, c.ms);
    ClockPieces(s, ms);
  }

  lemma ClockPieces(s: string, ms: string)
    requires IsTime(s)
    ensures s + "." + ms == ClockText(s[..2], s[3..5], s[6..], ms)
  {
    assert s == s[..2] + (":" + (s[3..5] + (":" + s[6..])));
  }

  /** The text of valid fields that were read is the normal form of what was read. */
  lemma ValidFieldsPrintBack(s: string, f: Fields)
    requires Matches(s) && f == FieldsIn(s) && Valid(f) && FourDigits(f.date.year)
    ensures Text(f) == Normal(s)
  {
    var ms := Millis(s[19..]);
    TextOfParts(f);
    DateDigitsBack(s[..10], f.date);
    ClockDigitsBack(s[11..19], ms, f.clock);
    Associate(s[..10] + " ", s[11..19] + ".", ms);
    Associate(s[..10] + " ", s[11..19], ".");
  }

  lemma NormalIsRead(s: string)
    requires Matches(s)
    ensures Matches(Normal(s)) && FieldsIn(Normal(s)) == FieldsIn(s)
  {
    var ms := Millis(s[19..]);
    Cuts(s[..10], s[11..19], ms);
    MillisOf(ms);
  }

  /** Everything that is read lies within the range of time values. */
  lemma ReadTimesAreInRange(f: Fields)
    requires 0 <= f.date.year <= 9999 && -1 <= f.date.month <= 98 && 0 <= f.date.day <= 99
    requires 0 <= f.clock.hour <= 99 && 0 <= f.clock.minute <= 99 && 0 <= f.clock.second <= 99 && 0 <= f.clock.ms <= 999
    ensures -MAX_TIME <= Utc(f) - KST_OFFSET_MS && Utc(f) <= MAX_TIME
  {
    var y := f.date.year;
    var date := f.date.(year := if y <= 99 then 1900 + y else y);
    ReadDaysAreInRange(date);
    assert Utc(f) == MakeDay(date) * MS_PER_DAY + MakeTime(f.clock);
  }

  lemma ReadDaysAreInRange(d: Date)
    requires 0 <= d.year <= 9999 && -1 <= d.month <= 98 && 0 <= d.day <= 99
    ensures -10000000 <= MakeDay(d) <= 10000000
  {
    var y := d.year + d.month / 12;
    YearIsInRange(y);
    MonthsInOrder(0, d.month % 12, Leap(y));
    MonthsInOrder(d.month % 12, 12, Leap(y));
  }

  lemma YearIsInRange(y: int)
    requires -1 <= y <= 10010
    ensures -1000000 <= DayFromYear(y) <= 3000000
  {
    if y <= 1970 {
      YearsAreOrdered(y, 1970);
    } else {
      YearsAreOrdered(1970, y);
    }
  }

  lemma ReadFieldsAreBounded(s: string)
    requires Matches(s)
    ensures var f := FieldsIn(s);
            && 0 <= f.date.year <= 9999 && -1 <= f.date.month <= 98 && 0 <= f.date.day <= 99
            && 0 <= f.clock.hour <= 99 && 0 <= f.clock.minute <= 99 && 0 <= f.clock.second <= 99
            && 0 <= f.clock.ms <= 999
  {
    Powers();
    FixedOfNumber(s[..10][..4]);
    FixedOfNumber(s[..10][5..7]);
    FixedOfNumber(s[..10][8..]);
    FixedOfNumber(s[11..19][..2]);
    FixedOfNumber(s[11..19][3..5]);
    FixedOfNumber(s[11..19][6..]);
    FixedOfNumber(Millis(s[19..]));
  }

  lemma ParsedTimesAreInRange(value: string)
    requires Parse(value).Some?
    ensures -MAX_TIME <= Parse(value).value <= MAX_TIME - KST_OFFSET_MS
  {
    ReadFieldsAreBounded(Trim(value));
    ReadTimesAreInRange(FieldsIn(Trim(value)));
  }

  /** Printing a parsed text gives its normal form exactly if the text is a date of the calendar and a time of
      day, in a year from 1000. */
  lemma PrintsTheNormalFormExactly(value: string)
    requires Parse(value).Some?
    ensures -MAX_TIME <= Parse(value).value <= MAX_TIME
    ensures var f := FieldsIn(Trim(value));
            Format(Parse(value).value) == Normal(Trim(value)) <==> Valid(f) && f.date.year >= 1000
  {
    var s, t := Trim(value), Parse(value).value;
    var f := FieldsIn(s);
    ParsedTimesAreInRange(value);
    ReadFieldsAreBounded(s);
    FieldsThenUtc(Utc(f));
    assert Kst(t) == FieldsOf(Utc(f)) && Format(t) == Text(Kst(t));
    NormalIsRead(s);
    if FourDigits(Kst(t).date.year) {
      TextReadsBack(Kst(t));
    } else {
      OtherYearsDoNotMatch(Kst(t));
    }
    if Valid(f) && f.date.year >= 1000 {
      UtcThenFields(f);
      ValidFieldsPrintBack(s, f);
    }
  }

  // ---------------------------------------------------------------------------------------------
  // Which texts are read, and as what
  // ---------------------------------------------------------------------------------------------

  const WHITE_SPACE := "\U{9}\U{A}\U{B}\U{C}\U{D} \U{A0}\U{1680}\U{2000}\U{2001}\U{2002}\U{2003}\U{2004}\U{2005}"
                       + "\U{2006}\U{2007}\U{2008}\U{2009}\U{200A}\U{2028}\U{2029}\U{202F}\U{205F}\U{3000}\U{FEFF}"

  /** The pieces of a datetime as it is written; without a fraction there is no dot either. */
  datatype Pieces = Pieces(year: string, month: string, day: string, separator: char,
                           hour: string, minute: string, second: string, fraction: string)

  predicate Digits(s: string, n: nat) {
    |s| == n && AllDigits(s)
  }

  predicate Proper(p: Pieces) {
    && Digits(p.year, 4) && Digits(p.month, 2) && Digits(p.day, 2) && p.separator in {' ', 'T'}
    && Digits(p.hour, 2) && Digits(p.minute, 2) && Digits(p.second, 2)
    && |p.fraction| <= 6 && AllDigits(p.fraction)
  }

  function Written(p: Pieces): string {
    p.year + "-" + p.month + "-" + p.day + [p.separator] + p.hour + ":" + p.minute + ":" + p.second
    + if p.fraction == "" then "" else "." + p.fraction
  }

  /** Up to six digits of a fraction of a second in whole milliseconds; what is left over is cut off. */
  function MillisIn(fraction: string): nat
    requires AllDigits(fraction)
  {
    match |fraction|
    case 0 => 0
    case 1 => 100 * Number(fraction)
    case 2 => 10 * Number(fraction)
    case 3 => Number(fraction)
    case 4 => Number(fraction) / 10
    case 5 => Number(fraction) / 100
    case _ => Number(fraction) / 1000
  }

  /** The instant that is written, nine hours before Date.UTC of the same fields. */
  function Meant(p: Pieces): int
    requires Proper(p)
  {
    Utc(Fields(Date(Number(p.year), Number(p.month) - 1, Number(p.day)),
               Clock(Number(p.hour), Number(p.minute), Number(p.second), MillisIn(p.fraction)))) - 32_400_000
  }

  lemma BlankIsWhiteSpace(c: char)
    ensures Blank(c) <==> c in WHITE_SPACE
  {
    var s := WHITE_SPACE;
    assert |s| == 25;
    if '\U{9}' <= c <= '\U{D}' {
      assert s[c as int - 9] == c;
    } else if '\U{2000}' <= c <= '\U{200A}' {
      assert s[c as int - 0x2000 + 8] == c;
    } else if Blank(c) {
      assert s[5] == ' ' && s[6] == '\U{A0}' && s[7] == '\U{1680}' && s[19] == '\U{2028}' && s[20] == '\U{2029}';
      assert s[21] == '\U{202F}' && s[22] == '\U{205F}' && s[23] == '\U{3000}' && s[24] == '\U{FEFF}';
    }
  }

  lemma {:induction false} TrimStartTakes(before: string, s: string)
    requires (forall c <- before :: Blank(c)) && s != [] && !Blank(s[0])
    ensures TrimStart(before + s) == s
  {
    if before == [] {
      assert before + s == s;
    } else {
      assert before[0] in before && (before + s)[1..] == before[1..] + s;
      TrimStartTakes(before[1..], s);
    }
  }

  lemma {:induction false} TrimEndTakes(s: string, after: string)
    requires (forall c <- after :: Blank(c)) && s != [] && !Blank(s[|s| - 1])
    ensures TrimEnd(s + after) == s
  {
    if after == [] {
      assert s + after == s;
    } else {
      var n := |after| - 1;
      assert after[n] in after && (s + after)[..|s + after| - 1] == s + after[..n];
      TrimEndTakes(s, after[..n]);
    }
  }

  lemma {:induction false} TrimStartLeaves(s: string) returns (before: string)
    ensures s == before + TrimStart(s) && forall c <- before :: Blank(c)
  {
    before := [];
    if s != [] && Blank(s[0]) {
      var rest := TrimStartLeaves(s[1..]);
      before := [s[0]] + rest;
    }
  }

  lemma {:induction false} TrimEndLeaves(s: string) returns (after: string)
    ensures s == TrimEnd(s) + after && forall c <- after :: Blank(c)
  {
    after := [];
    if s != [] && Blank(s[|s| - 1]) {
      var rest := TrimEndLeaves(s[..|s| - 1]);
      after := rest + [s[|s| - 1]];
    }
  }

  lemma {:induction false} OneDigitLess(s: string)
    requires s != [] && AllDigits(s)
    ensures Number(s[..|s| - 1]) == Number(s) / 10
  {
  }

  lemma {:induction false} OneZeroMore(s: string)
    requires AllDigits(s)
    ensures AllDigits(s + "0") && Number(s + "0") == 10 * Number(s)
  {
    assert (s + "0")[..|s|] == s;
  }

  lemma {:induction false} FilledUp(s: string)
    requires 1 <= |s| <= 3 && AllDigits(s)
    ensures |PadEnd(s, 3)| == 3 && AllDigits(PadEnd(s, 3))
    ensures Number(PadEnd(s, 3)) == if |s| == 1 then 100 * Number(s) else if |s| == 2 then 10 * Number(s) else Number(s)
  {
    if |s| == 2 {
      OneZeroMore(s);
      assert PadEnd(s, 3) == s + "0";
    } else if |s| == 1 {
      OneZeroMore(s);
      OneZeroMore(s + "0");
      assert PadEnd(s, 3) == s + "0" + "0";
    }
  }

  lemma {:induction false} CutOff(s: string)
    requires 4 <= |s| <= 6 && AllDigits(s)
    ensures Number(s[..3]) == Number(s) / (if |s| == 4 then 10 else if |s| == 5 then 100 else 1000)
  {
    OneDigitLess(s[..4]);
    assert s[..4][..3] == s[..3];
    if |s| >= 5 {
      OneDigitLess(s[..5]);
      assert s[..5][..4] == s[..4];
    }
    if |s| == 6 {
      OneDigitLess(s);
    }
    assert s[..|s|] == s;
  }

  lemma {:induction false} MillisAreCut(s: string)
    requires 1 <= |s| <= 6 && AllDigits(s)
    ensures IsFraction("." + s) && Number(Millis("." + s)) == MillisIn(s)
  {
    assert ("." + s)[1..] == s;
    if |s| <= 3 {
      FilledUp(s);
      assert PadEnd(s, 3)[..3] == PadEnd(s, 3);
    } else {
      CutOff(s);
    }
  }

  lemma NoMillis()
    ensures Number(Millis("")) == 0
  {
    assert PadEnd("", 3)[..3] == "000" && Number("0") == 0 && Number("00") == 0;
    assert "000"[..2] == "00" && "00"[..1] == "0";
  }

  lemma WrittenParts(p: Pieces, fraction: string)
    requires Proper(p) && fraction == if p.fraction == "" then "" else "." + p.fraction
    ensures var s := Written(p);
            && |s| == 19 + |fraction| && s[..10] == p.year + "-" + p.month + "-" + p.day && s[10] == p.separator
            && s[11..19] == p.hour + ":" + p.minute + ":" + p.second && s[19..] == fraction
  {
    var date := p.year + "-" + p.month + "-" + p.day;
    var clock := p.hour + ":" + p.minute + ":" + p.second;
    assert |date| == 10 && |clock| == 8;
    assert Written(p) == date + [p.separator] + clock + fraction;
  }

  lemma WrittenDateIsRead(p: Pieces, date: string)
    requires Proper(p) && date == p.year + "-" + p.month + "-" + p.day
    ensures IsDate(date) && DateIn(date) == Date(Number(p.year), Number(p.month) - 1, Number(p.day))
  {
    PartsOf(p.year, "-", p.month, "-", p.day);
  }

  lemma {:induction false} WrittenTimeIsRead(p: Pieces, time: string, ms: string)
    requires Proper(p) && time == p.hour + ":" + p.minute + ":" + p.second
    requires AllDigits(ms) && Number(ms) == MillisIn(p.fraction)
    ensures IsTime(time)
         && ClockIn(time, ms) == Clock(Number(p.hour), Number(p.minute), Number(p.second), MillisIn(p.fraction))
  {
    PartsOf(p.hour, ":", p.minute, ":", p.second);
  }

  lemma {:induction false} WrittenFractionIsRead(p: Pieces, fraction: string)
    requires Proper(p) && fraction == if p.fraction == "" then "" else "." + p.fraction
    ensures IsFraction(fraction) && Number(Millis(fraction)) == MillisIn(p.fraction)
  {
    if p.fraction == "" {
      NoMillis();
    } else {
      MillisAreCut(p.fraction);
    }
  }

  lemma WrittenIsRead(p: Pieces)
    requires Proper(p)
    ensures Matches(Written(p)) && Utc(FieldsIn(Written(p))) - KST_OFFSET_MS == Meant(p)
  {
    var fraction := if p.fraction == "" then "" else "." + p.fraction;
    WrittenParts(p, fraction);
    WrittenFractionIsRead(p, fraction);
    WrittenDateIsRead(p, p.year + "-" + p.month + "-" + p.day);
    WrittenTimeIsRead(p, p.hour + ":" + p.minute + ":" + p.second, Millis(fraction));
  }

  lemma PartsOf(a: string, x: string, b: string, y: string, c: string)
    requires |x| == |y| == 1
    ensures var s := a + x + b + y + c;
            && s[..|a|] == a && s[|a|..|a| + 1] == x && s[|a| + 1..|a| + 1 + |b|] == b
            && s[|a| + 1 + |b|..|a| + 2 + |b|] == y && s[|a| + |b| + 2..] == c
  {
  }

  lemma {:induction false} TrimTakes(before: string, s: string, after: string)
    requires s != [] && !Blank(s[0]) && !Blank(s[|s| - 1])
    requires (forall c <- before :: Blank(c)) && forall c <- after :: Blank(c)
    ensures Trim(before + s + after) == s
  {
    Associate(before, s, after);
    assert (s + after)[0] == s[0];
    TrimStartTakes(before, s + after);
    TrimEndTakes(s, after);
  }

  lemma MatchingEnds(s: string)
    requires Matches(s)
    ensures s != [] && !Blank(s[0]) && !Blank(s[|s| - 1])
  {
    assert s[0] == s[..10][..4][0];
    DigitIsNotBlank(s[0]);
    LastIsDigit(s);
    DigitIsNotBlank(s[|s| - 1]);
  }

  lemma AllBlank(s: string)
    requires forall c <- s :: c in WHITE_SPACE
    ensures forall c <- s :: Blank(c)
  {
    forall c <- s ensures Blank(c) {
      BlankIsWhiteSpace(c);
    }
  }

  lemma {:induction false} ReadAmongSpace(before: string, s: string, after: string, t: int)
    requires Matches(s) && Utc(FieldsIn(s)) - KST_OFFSET_MS == t
    requires (forall c <- before :: c in WHITE_SPACE) && forall c <- after :: c in WHITE_SPACE
    ensures Parse(before + s + after) == Some(t)
  {
    MatchingEnds(s);
    AllBlank(before);
    AllBlank(after);
    TrimTakes(before, s, after);
  }

  /** A written datetime is read as the instant it means, whatever white space stands around it. */
  lemma WrittenIsParsed(before: string, p: Pieces, after: string)
    requires Proper(p) && (forall c <- before :: c in WHITE_SPACE) && forall c <- after :: c in WHITE_SPACE
    ensures Parse(before + Written(p) + after) == Some(Meant(p))
  {
    WrittenIsRead(p);
    ReadAmongSpace(before, Written(p), after, Meant(p));
  }

  lemma DigitIsNotBlank(c: char)
    requires IsDigit(c)
    ensures !Blank(c)
  {
  }

  lemma LastIsDigit(s: string)
    requires Matches(s)
    ensures IsDigit(s[|s| - 1])
  {
    if |s| == 19 {
      assert s[18] == s[11..19][6..][1];
    } else {
      assert s[|s| - 1] == s[19..][1..][|s| - 21];
    }
  }

  lemma AllWhiteSpace(s: string)
    requires forall c <- s :: Blank(c)
    ensures forall c <- s :: c in WHITE_SPACE
  {
    forall c <- s ensures c in WHITE_SPACE {
      BlankIsWhiteSpace(c);
    }
  }

  /** Nothing else is read. */
  lemma ParsedIsWritten(value: string) returns (before: string, p: Pieces, after: string)
    requires Parse(value).Some?
    ensures Proper(p) && value == before + Written(p) + after
    ensures (forall c <- before :: c in WHITE_SPACE) && forall c <- after :: c in WHITE_SPACE
  {
    before := TrimStartLeaves(value);
    after := TrimEndLeaves(TrimStart(value));
    Associate(before, Trim(value), after);
    AllWhiteSpace(before);
    AllWhiteSpace(after);
    p := PiecesOf(Trim(value));
  }

  lemma DatePiecesInRow(s: string)
    requires IsDate(s)
    ensures s == s[..4] + "-" + s[5..7] + "-" + s[8..]
  {
  }

  lemma TimePiecesInRow(s: string)
    requires IsTime(s)
    ensures s == s[..2] + ":" + s[3..5] + ":" + s[6..]
  {
  }

  lemma FractionIsDotted(s: string)
    requires IsFraction(s)
    ensures s == if s == "" then "" else "." + s[1..]
  {
  }

  lemma InARow(s: string)
    requires |s| >= 19
    ensures s == s[..10] + [s[10]] + s[11..19] + s[19..]
  {
    assert s == s[..10] + s[10..11] + s[11..19] + s[19..];
  }

  lemma WrittenWith(p: Pieces, date: string, clock: string, fraction: string)
    requires date == p.year + "-" + p.month + "-" + p.day && clock == p.hour + ":" + p.minute + ":" + p.second
    requires fraction == if p.fraction == "" then "" else "." + p.fraction
    ensures Written(p) == date + [p.separator] + clock + fraction
  {
  }

  lemma PiecesOf(s: string) returns (p: Pieces)
    requires Matches(s)
    ensures Proper(p) && Written(p) == s
  {
    var date, clock, fraction := s[..10], s[11..19], s[19..];
    DatePiecesInRow(date);
    TimePiecesInRow(clock);
    FractionIsDotted(fraction);
    p := Pieces(date[..4], date[5..7], date[8..], s[10], clock[..2], clock[3..5], clock[6..],
                if fraction == "" then "" else fraction[1..]);
    WrittenWith(p, date, clock, fraction);
    InARow(s);
  }
}
