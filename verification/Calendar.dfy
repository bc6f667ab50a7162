/** Decimal text, and what can be read back from it. */
module Text {

  function Digit(d: int): char
    requires 0 <= d < 10
  {
    "0123456789"[d]
  }

  predicate IsDigit(c: char) {
    '0' <= c <= '9'
  }

  function DigitValue(c: char): int
    requires IsDigit(c)
  {
    c as int - '0' as int
  }

  lemma DigitIsDigit(d: int)
    requires 0 <= d < 10
    ensures IsDigit(Digit(d)) && DigitValue(Digit(d)) == d
  {
  }

  function NatText(n: nat): (s: string)
    ensures s != []
  {
    if n < 10 then [Digit(n)] else NatText(n / 10) + [Digit(n % 10)]
  }

  function IntText(n: int): string {
    if n < 0 then "-" + NatText(-n) else NatText(n)
  }

  /** The number written in decimal digits. */
  function ParseNat(s: string): (n: nat)
    requires forall i :: 0 <= i < |s| ==> IsDigit(s[i])
  {
    if s == [] then 0 else 10 * ParseNat(s[..|s| - 1]) + DigitValue(s[|s| - 1])
  }

  lemma {:induction false} ParseNatText(n: nat)
    ensures forall i :: 0 <= i < |NatText(n)| ==> IsDigit(NatText(n)[i])
    ensures ParseNat(NatText(n)) == n
  {
    var s := NatText(n);
    if n < 10 {
      DigitIsDigit(n);
      assert s[..|s| - 1] == [];
    } else {
      ParseNatText(n / 10);
      DigitIsDigit(n % 10);
      assert s[..|s| - 1] == NatText(n / 10);
    }
  }

  lemma IntTextSign(n: int)
    ensures IntText(n) != [] && (IntText(n)[0] == '-' <==> n < 0)
  {
    if n >= 0 {
      ParseNatText(n);
      assert IsDigit(NatText(n)[0]);
    }
  }

  lemma IntTextInjective(a: int, b: int)
    requires IntText(a) == IntText(b)
    ensures a == b
  {
    IntTextSign(a);
    IntTextSign(b);
    var x, y := if a < 0 then -a else a, if b < 0 then -b else b;
    ParseNatText(x);
    ParseNatText(y);
    if a < 0 {
      assert NatText(x) == IntText(a)[1..] && NatText(y) == IntText(b)[1..];
    }
  }

  /** Texts with tails of equal length are equal part by part. */
  lemma SplitTail(a: string, b: string, tailA: string, tailB: string)
    requires |tailA| == |tailB| && a + tailA == b + tailB
    ensures a == b && tailA == tailB
  {
    var s := a + tailA;
    assert a == s[..|a|] && tailA == s[|a|..];
    assert b == (b + tailB)[..|b|] && tailB == (b + tailB)[|b|..];
  }

  /** `String(n).padStart(2, '0')`. */
  function Pad2(n: nat): string {
    if n < 10 then "0" + NatText(n) else NatText(n)
  }

  lemma Pad2Facts(n: nat)
    requires n < 100
    ensures Pad2(n) == [Digit(n / 10), Digit(n % 10)]
  {
    if n >= 10 {
      assert NatText(n / 10) == [Digit(n / 10)];
    }
  }

  lemma Pad2Injective(a: nat, b: nat)
    requires a < 100 && b < 100 && Pad2(a) == Pad2(b)
    ensures a == b
  {
    Pad2Facts(a);
    Pad2Facts(b);
    DigitIsDigit(a / 10);
    DigitIsDigit(a % 10);
    DigitIsDigit(b / 10);
    DigitIsDigit(b % 10);
    assert Pad2(a)[0] == Pad2(b)[0] && Pad2(a)[1] == Pad2(b)[1];
  }
}

/** Days, years, months and dates as section 21.4.1 of ECMA-262 defines them. */
module Calendar {

  const MS_PER_MINUTE := 60_000
  const MS_PER_HOUR := 3_600_000
  const MS_PER_DAY := 86_400_000

  /** The largest time value a `Date` can hold. */
  const MAX_TIME := 8_640_000_000_000_000

  predicate IsLeap(y: int) {
    y % 4 == 0 && (y % 100 != 0 || y % 400 == 0)
  }

  function DaysInYear(y: int): int {
    if IsLeap(y) then 366 else 365
  }

  function DayFromYear(y: int): int {
    365 * (y - 1970) + (y - 1969) / 4 - (y - 1901) / 100 + (y - 1601) / 400
  }

  lemma QuarterStep(y: int)
    ensures (y - 1968) / 4 == (y - 1969) / 4 + if y % 4 == 0 then 1 else 0
  {
  }

  lemma CenturyStep(y: int)
    ensures (y - 1900) / 100 == (y - 1901) / 100 + if y % 100 == 0 then 1 else 0
  {
  }

  lemma FourCenturyStep(y: int)
    ensures (y - 1600) / 400 == (y - 1601) / 400 + if y % 400 == 0 then 1 else 0
  {
  }

  lemma CenturiesAreQuarters(y: int)
    ensures y % 100 == 0 ==> y % 4 == 0
    ensures y % 400 == 0 ==> y % 100 == 0
  {
  }

  lemma NextYear(y: int)
    ensures DayFromYear(y + 1) == DayFromYear(y) + DaysInYear(y)
  {
    QuarterStep(y);
    CenturyStep(y);
    FourCenturyStep(y);
    CenturiesAreQuarters(y);
    var q, c, f := (y - 1969) / 4, (y - 1901) / 100, (y - 1601) / 400;
    assert DayFromYear(y) == 365 * (y - 1970) + q - c + f;
    assert DayFromYear(y + 1) == 365 * (y - 1969) + (y - 1968) / 4 - (y - 1900) / 100 + (y - 1600) / 400;
  }

  lemma {:induction false} YearsGrow(y: int, z: int)
    requires y <= z
    ensures DayFromYear(y) + 365 * (z - y) <= DayFromYear(z)
    decreases z - y
  {
    hide DayFromYear, IsLeap;
    if y < z {
      YearsGrow(y, z - 1);
      NextYear(z - 1);
    }
  }

  function YearUpFrom(day: int, y: int): (r: int)
    requires DayFromYear(y) <= day
    ensures DayFromYear(r) <= day < DayFromYear(r + 1)
    decreases day - DayFromYear(y)
  {
    NextYear(y);
    if day < DayFromYear(y + 1) then y else YearUpFrom(day, y + 1)
  }

  function YearDownFrom(day: int, y: int): (r: int)
    requires day < DayFromYear(y + 1)
    ensures DayFromYear(r) <= day < DayFromYear(r + 1)
    decreases DayFromYear(y + 1) - day
  {
    NextYear(y);
    if DayFromYear(y) <= day then y else YearDownFrom(day, y - 1)
  }

  /** YearFromTime, on days: the year whose days include this one. */
  function YearOf(day: int): (y: int)
    ensures DayFromYear(y) <= day < DayFromYear(y + 1)
  {
    if DayFromYear(1970) <= day then YearUpFrom(day, 1970) else YearDownFrom(day, 1969)
  }

  lemma YearIsUnique(day: int, y: int)
    requires DayFromYear(y) <= day < DayFromYear(y + 1)
    ensures y == YearOf(day)
  {
    var z := YearOf(day);
    if y < z {
      YearsGrow(y + 1, z);
    } else if z < y {
      YearsGrow(z + 1, y);
    }
  }

  /** Days of the year before month `m` (0 to 12). */
  function MonthStart(m: int, leap: bool): int
    requires 0 <= m <= 12
  {
    [0, 31, 59, 90, 120, 151, 181, 212, 243, 273, 304, 334, 365][m] + if leap && m >= 2 then 1 else 0
  }

  lemma MonthLength(m: int, leap: bool)
    requires 0 <= m < 12
    ensures 0 < MonthStart(m + 1, leap) - MonthStart(m, leap) <= 31
  {
  }

  lemma MonthStartRange(m: int, leap: bool)
    requires 0 <= m < 12
    ensures 0 <= MonthStart(m, false) <= 334
    ensures MonthStart(m, false) <= MonthStart(m, leap) <= MonthStart(m, false) + 1
  {
  }

  function MonthFrom(dayInYear: int, leap: bool, m: int): (r: int)
    requires 0 <= m < 12 && MonthStart(m, leap) <= dayInYear < MonthStart(12, leap)
    ensures m <= r < 12 && MonthStart(r, leap) <= dayInYear < MonthStart(r + 1, leap)
    decreases 12 - m
  {
    if dayInYear < MonthStart(m + 1, leap) then m else MonthFrom(dayInYear, leap, m + 1)
  }

  function DayInYear(day: int): (d: int)
    ensures 0 <= d < DaysInYear(YearOf(day))
  {
    NextYear(YearOf(day));
    day - DayFromYear(YearOf(day))
  }

  function MonthOf(day: int): (m: int)
    ensures 0 <= m < 12
    ensures MonthStart(m, IsLeap(YearOf(day))) <= DayInYear(day) < MonthStart(m + 1, IsLeap(YearOf(day)))
  {
    MonthFrom(DayInYear(day), IsLeap(YearOf(day)), 0)
  }

  function DateOf(day: int): (d: int)
    ensures 1 <= d <= 31
  {
    var leap := IsLeap(YearOf(day));
    MonthLength(MonthOf(day), leap);
    DayInYear(day) - MonthStart(MonthOf(day), leap) + 1
  }

  function MakeDay(year: int, month: int, date: int): int
    requires 0 <= month < 12
  {
    DayFromYear(year) + MonthStart(month, IsLeap(year)) + date - 1
  }

  /** Day 0 is the first of January 1970; a year later it is 365 or, every fourth year but three times in four centuries, 366 days on. */
  lemma DaysAreCounted(y: int)
    ensures MakeDay(1970, 0, 1) == 0
    ensures MakeDay(y + 1, 0, 1) == MakeDay(y, 0, 1) + if y % 400 == 0 || (y % 4 == 0 && y % 100 != 0) then 366 else 365
  {
    NextYear(y);
    FourCenturyStep(y);
    CenturiesAreQuarters(y);
  }

  ghost predicate HasDays(month: int, leap: bool, days: int) {
    match month
    case 1 => days == if leap then 29 else 28
    case 3 => days == 30
    case 5 => days == 30
    case 8 => days == 30
    case 10 => days == 30
    case _ => days == 31
  }

  /** Each month of a year, 0 for January, has its own number of days, and they follow one another. */
  lemma MonthsAreCounted(year: int, month: int, date: int)
    requires 0 <= month < 12
    ensures month < 11 ==> HasDays(month, IsLeap(year), MakeDay(year, month + 1, 1) - MakeDay(year, month, 1))
    ensures month == 11 ==> HasDays(month, IsLeap(year), MakeDay(year + 1, 0, 1) - MakeDay(year, month, 1))
    ensures MakeDay(year, month, date) == MakeDay(year, month, 1) + date - 1
  {
    NextYear(year);
  }

  /** Year, month and date name the day they were taken from. */
  lemma CivilRoundTrip(day: int)
    ensures MakeDay(YearOf(day), MonthOf(day), DateOf(day)) == day
  {
  }

  /** Conversely, a date that exists is read back as itself. */
  lemma CivilIsRead(year: int, month: int, date: int)
    requires 0 <= month < 12 && 1 <= date <= MonthStart(month + 1, IsLeap(year)) - MonthStart(month, IsLeap(year))
    ensures var day := MakeDay(year, month, date); YearOf(day) == year && MonthOf(day) == month && DateOf(day) == date
  {
    var day, leap := MakeDay(year, month, date), IsLeap(year);
    NextYear(year);
    assert MonthStart(month + 1, leap) <= MonthStart(12, leap);
    YearIsUnique(day, year);
    MonthIsUnique(DayInYear(day), leap, month, MonthOf(day));
  }

  lemma MonthIsUnique(dayInYear: int, leap: bool, m: int, n: int)
    requires 0 <= m < 12 && MonthStart(m, leap) <= dayInYear < MonthStart(m + 1, leap)
    requires 0 <= n < 12 && MonthStart(n, leap) <= dayInYear < MonthStart(n + 1, leap)
    ensures m == n
  {
  }

  lemma MakeDayRange(y: int, m: int, d: int)
    requires 0 <= m < 12 && 1 <= d <= 31
    ensures 0 <= MonthStart(m, false) <= 334
    ensures var early := DayFromYear(y) + MonthStart(m, false) + d - 1; early <= MakeDay(y, m, d) <= early + 1
  {
    MonthStartRange(m, IsLeap(y));
  }

  /** The day moved by whole years keeps its place in the year, up to one leap day. */
  lemma SameDateLaterYear(day: int, years: nat)
    ensures var later := MakeDay(YearOf(day) + years, MonthOf(day), DateOf(day));
      && later >= day + 365 * years - 1
      && DayFromYear(YearOf(day) + years) <= later <= DayFromYear(YearOf(day) + years) + 365
  {
    hide *;
    var y, m, d := YearOf(day), MonthOf(day), DateOf(day);
    CivilRoundTrip(day);
    YearsGrow(y, y + years);
    MakeDayRange(y, m, d);
    MakeDayRange(y + years, m, d);
    Shifted(day, MakeDay(y + years, m, d), DayFromYear(y), DayFromYear(y + years), MonthStart(m, false), d, years);
  }

  lemma Shifted(day: int, later: int, year: int, laterYear: int, month: int, date: int, years: nat)
    requires year + month + date - 1 <= day <= year + month + date
    requires laterYear + month + date - 1 <= later <= laterYear + month + date
    requires laterYear >= year + 365 * years && 0 <= month <= 334 && 1 <= date <= 31
    ensures later >= day + 365 * years - 1 && laterYear <= later <= laterYear + 365
  {
  }

  /** `Date.UTC` reads the years 0 to 99 as 1900 to 1999. */
  function FullYear(year: int): int {
    if 0 <= year <= 99 then year + 1900 else year
  }

  function DateUtc(year: int, month: int, date: int): int
    requires 0 <= month < 12
  {
    MakeDay(FullYear(year), month, date) * MS_PER_DAY
  }
}

/** `localDayBounds` and `formatLocalDateAndTime`: when do two instants fall on "the same day"? */
module LocalTime {
  import opened Wrappers
  import opened Text
  import opened Calendar

  const OFFSET_MS := 3 * MS_PER_HOUR

  /** The time value a `Date` holds; anything out of range makes it invalid. */
  type Instant = t: int | -MAX_TIME <= t <= MAX_TIME

  function TimeClip(t: int): Option<Instant> {
    if -MAX_TIME <= t <= MAX_TIME then Some(t) else None
  }

  function LocalDay(utc: int): int {
    (utc + OFFSET_MS) / MS_PER_DAY
  }

  function LocalYear(utc: int): int {
    YearOf(LocalDay(utc))
  }

  /** `localDayBounds`; `None` is an invalid `Date`. */
  function LocalDayBounds(utc: Instant): (Option<Instant>, Option<Instant>) {
    if TimeClip(utc + OFFSET_MS).None? then (None, None)
    else
      var day := LocalDay(utc);
      RangeFrom(DateUtc(YearOf(day), MonthOf(day), DateOf(day)) - OFFSET_MS)
  }

  function RangeFrom(start: int): (Option<Instant>, Option<Instant>) {
    var from := TimeClip(start);
    (from, if from.None? then None else TimeClip(from.value + MS_PER_DAY))
  }

  function MonthAndDate(month: nat, date: nat): string {
    "-" + Pad2(month) + ("-" + Pad2(date))
  }

  function DateText(day: int): string {
    IntText(YearOf(day)) + MonthAndDate(MonthOf(day) + 1, DateOf(day))
  }

  function MinuteAndPeriod(minute: nat, pm: bool): string {
    ":" + Pad2(minute) + if pm then " PM" else " AM"
  }

  function Hour12(hour24: nat): nat {
    if hour24 % 12 == 0 then 12 else hour24 % 12
  }

  function TimeText(msInDay: nat): string {
    var hour24 := msInDay / MS_PER_HOUR;
    NatText(Hour12(hour24)) + MinuteAndPeriod(msInDay / MS_PER_MINUTE % 60, hour24 >= 12)
  }

  /** `formatLocalDateAndTime`; every field of an invalid `Date` prints as NaN. */
  function FormatLocalDateAndTime(utc: Instant): (string, string) {
    if TimeClip(utc + OFFSET_MS).None? then ("NaN-NaN-NaN", "NaN:NaN AM")
    else (DateText(LocalDay(utc)), TimeText((utc + OFFSET_MS) % MS_PER_DAY))
  }

  // ----- the printed date names the day

  lemma MonthAndDateInjective(m: nat, d: nat, n: nat, e: nat)
    requires m < 100 && d < 100 && n < 100 && e < 100
    ensures |MonthAndDate(m, d)| == |MonthAndDate(n, e)| == 6
    ensures MonthAndDate(m, d) == MonthAndDate(n, e) ==> m == n && d == e
  {
    Pad2Facts(m);
    Pad2Facts(d);
    Pad2Facts(n);
    Pad2Facts(e);
    if MonthAndDate(m, d) == MonthAndDate(n, e) {
      SplitTail("-" + Pad2(m), "-" + Pad2(n), "-" + Pad2(d), "-" + Pad2(e));
      SplitTail("-", "-", Pad2(m), Pad2(n));
      SplitTail("-", "-", Pad2(d), Pad2(e));
      Pad2Injective(m, n);
      Pad2Injective(d, e);
    }
  }

  lemma DateTextNamesDay(a: int, b: int)
    requires DateText(a) == DateText(b)
    ensures a == b
  {
    var (m, d, n, e) := (MonthOf(a) + 1, DateOf(a), MonthOf(b) + 1, DateOf(b));
    MonthAndDateInjective(m, d, n, e);
    SplitTail(IntText(YearOf(a)), IntText(YearOf(b)), MonthAndDate(m, d), MonthAndDate(n, e));
    IntTextInjective(YearOf(a), YearOf(b));
    CivilRoundTrip(a);
    CivilRoundTrip(b);
  }

  lemma MinuteAndPeriodInjective(a: nat, am: bool, b: nat, bm: bool)
    requires a < 100 && b < 100
    ensures |MinuteAndPeriod(a, am)| == |MinuteAndPeriod(b, bm)| == 6
    ensures MinuteAndPeriod(a, am) == MinuteAndPeriod(b, bm) ==> a == b && am == bm
  {
    Pad2Facts(a);
    Pad2Facts(b);
    if MinuteAndPeriod(a, am) == MinuteAndPeriod(b, bm) {
      SplitTail(":" + Pad2(a), ":" + Pad2(b), if am then " PM" else " AM", if bm then " PM" else " AM");
      SplitTail(":", ":", Pad2(a), Pad2(b));
      Pad2Injective(a, b);
      assert " PM"[1] != " AM"[1];
    }
  }

  /** The half day and the twelve-hour clock together name the hour. */
  lemma TwelveHourClock(a: int, b: int)
    requires 0 <= a < 24 && 0 <= b < 24 && (a >= 12 <==> b >= 12)
    requires Hour12(a) == Hour12(b)
    ensures a == b
  {
  }

  lemma TimeTextNamesMinute(a: nat, b: nat)
    requires a < MS_PER_DAY && b < MS_PER_DAY && TimeText(a) == TimeText(b)
    ensures a / MS_PER_MINUTE == b / MS_PER_MINUTE
  {
    var ha, hb := a / MS_PER_HOUR, b / MS_PER_HOUR;
    var ma, mb := a / MS_PER_MINUTE % 60, b / MS_PER_MINUTE % 60;
    MinuteAndPeriodInjective(ma, ha >= 12, mb, hb >= 12);
    SplitTail(NatText(Hour12(ha)), NatText(Hour12(hb)), MinuteAndPeriod(ma, ha >= 12), MinuteAndPeriod(mb, hb >= 12));
    ParseNatText(Hour12(ha));
    ParseNatText(Hour12(hb));
    TwelveHourClock(ha, hb);
    MinutesOfHour(a);
    MinutesOfHour(b);
  }

  lemma MinutesOfHour(a: nat)
    ensures a / MS_PER_MINUTE == 60 * (a / MS_PER_HOUR) + a / MS_PER_MINUTE % 60
  {
  }

  predicate Printable(utc: Instant) {
    utc + OFFSET_MS <= MAX_TIME
  }

  /** The printed pair determines the instant to the minute, and nothing finer. */
  lemma PrintedPairNamesMinute(a: Instant, b: Instant)
    requires Printable(a) && Printable(b)
    ensures FormatLocalDateAndTime(a) == FormatLocalDateAndTime(b)
      <==> (a + OFFSET_MS) / MS_PER_MINUTE == (b + OFFSET_MS) / MS_PER_MINUTE
  {
    var x, y := a + OFFSET_MS, b + OFFSET_MS;
    MinutesSplit(x);
    MinutesSplit(y);
    if FormatLocalDateAndTime(a) == FormatLocalDateAndTime(b) {
      DateTextNamesDay(LocalDay(a), LocalDay(b));
      TimeTextNamesMinute(x % MS_PER_DAY, y % MS_PER_DAY);
    }
    if x / MS_PER_MINUTE == y / MS_PER_MINUTE {
      SameMinuteSameText(x, y);
    }
  }

  lemma MinutesSplit(x: int)
    ensures x / MS_PER_MINUTE == 1440 * (x / MS_PER_DAY) + x % MS_PER_DAY / MS_PER_MINUTE
    ensures 0 <= x % MS_PER_DAY / MS_PER_MINUTE < 1440
  {
  }

  lemma SameMinuteSameText(x: int, y: int)
    requires x / MS_PER_MINUTE == y / MS_PER_MINUTE
    ensures x / MS_PER_DAY == y / MS_PER_DAY && TimeText(x % MS_PER_DAY) == TimeText(y % MS_PER_DAY)
  {
    MinutesSplit(x);
    MinutesSplit(y);
    var a, b := x % MS_PER_DAY, y % MS_PER_DAY;
    MinutesOfHour(a);
    MinutesOfHour(b);
    assert a / MS_PER_MINUTE == b / MS_PER_MINUTE;
    assert a / MS_PER_HOUR == b / MS_PER_HOUR;
  }

  // ----- what is printed

  /** At most two digits, the first a zero if one is enough. */
  ghost function Two(n: nat): string
    requires n < 100
  {
    [Digit(n / 10)] + [Digit(n % 10)]
  }

  ghost predicate PrintsDate(day: int, text: string, month: nat, date: nat) {
    && 1 <= month <= 12 && 1 <= date <= 31
    && exists year :: MakeDay(year, month - 1, date) == day && text == IntText(year) + "-" + Two(month) + "-" + Two(date)
  }

  /** Twelve hours from 12 to 11, before noon and after it. */
  ghost predicate PrintsTime(minutes: int, text: string, hour: nat, minute: nat, pm: bool) {
    && 1 <= hour <= 12 && minute < 60
    && minutes == (if pm then 720 else 0) + (if hour == 12 then 0 else 60 * hour) + minute
    && text == NatText(hour) + ":" + Two(minute) + if pm then " PM" else " AM"
  }

  /** The date and the time of day three hours ahead of UTC; an instant too late for that has none. */
  lemma PrintsLocal(utc: Instant)
    ensures var (date, time) := FormatLocalDateAndTime(utc); var local := utc + 3 * 60 * 60 * 1000;
      if local > MAX_TIME then date == "NaN-NaN-NaN" && time == "NaN:NaN AM"
      else
        && (exists month, day :: PrintsDate(local / 86_400_000, date, month, day))
        && (exists hour, minute, pm :: PrintsTime(local % 86_400_000 / 60_000, time, hour, minute, pm))
  {
    if Printable(utc) {
      var month, day := PrintsItsDate(LocalDay(utc));
      var hour, minute, pm := PrintsItsTime((utc + OFFSET_MS) % MS_PER_DAY);
      hide DateText, TimeText, PrintsDate, PrintsTime;
      assert PrintsDate((utc + 3 * 60 * 60 * 1000) / 86_400_000, FormatLocalDateAndTime(utc).0, month, day);
      assert PrintsTime((utc + 3 * 60 * 60 * 1000) % 86_400_000 / 60_000, FormatLocalDateAndTime(utc).1, hour, minute, pm);
    }
  }

  lemma PrintsItsDate(day: int) returns (month: nat, date: nat)
    ensures PrintsDate(day, DateText(day), month, date)
  {
    CivilRoundTrip(day);
    month, date := MonthOf(day) + 1, DateOf(day);
    var year := YearOf(day);
    hide *;
    MonthFits(day);
    DateTextIs(day);
    Dashed(IntText(year), Two(month), Two(date));
    DatePrinted(day, IntText(year) + "-" + Two(month) + "-" + Two(date), year, month, date);
  }

  lemma MonthFits(day: int)
    ensures 1 <= MonthOf(day) + 1 <= 12 && 1 <= DateOf(day) <= 31
  {
  }

  lemma DateTextIs(day: int)
    ensures DateText(day) == IntText(YearOf(day)) + ("-" + Two(MonthOf(day) + 1) + ("-" + Two(DateOf(day))))
  {
    Pad2Facts(MonthOf(day) + 1);
    Pad2Facts(DateOf(day));
    hide YearOf, MonthOf, DateOf, IntText, Pad2;
  }

  lemma DatePrinted(day: int, text: string, year: int, month: nat, date: nat)
    requires 1 <= month <= 12 && 1 <= date <= 31 && MakeDay(year, month - 1, date) == day
    requires text == IntText(year) + "-" + Two(month) + "-" + Two(date)
    ensures PrintsDate(day, text, month, date)
  {
    hide MakeDay, IntText, Two;
  }

  lemma Dashed(a: string, b: string, c: string)
    ensures a + ("-" + b + ("-" + c)) == a + "-" + b + "-" + c
  {
  }

  lemma PrintsItsTime(ms: nat) returns (hour: nat, minute: nat, pm: bool)
    requires ms < 86_400_000
    ensures PrintsTime(ms / 60_000, TimeText(ms), hour, minute, pm)
  {
    var hour24 := ms / MS_PER_HOUR;
    minute := ms / MS_PER_MINUTE % 60;
    MinutesOfHour(ms);
    HourIsTwelve(hour24);
    Pad2Facts(minute);
    hide Hour12, NatText, Pad2;
    hour, pm := Hour12(hour24), hour24 >= 12;
    assert TimeText(ms) == NatText(hour) + ":" + Two(minute) + if pm then " PM" else " AM";
  }

  lemma HourIsTwelve(hour24: nat)
    requires hour24 < 24
    ensures 1 <= Hour12(hour24) <= 12
    ensures 60 * hour24 == (if hour24 >= 12 then 720 else 0) + if Hour12(hour24) == 12 then 0 else 60 * Hour12(hour24)
  {
  }

  // ----- the range of a day

  ghost predicate HasBounds(utc: Instant) {
    LocalDayBounds(utc).0.Some? && LocalDayBounds(utc).1.Some?
  }

  ghost predicate YearMisread(utc: Instant) {
    0 <= LocalYear(utc) <= 99
  }

  function DayStart(day: int): int {
    day * MS_PER_DAY - OFFSET_MS
  }

  /** The day `Date.UTC` makes of the fields of a day in the years 0 to 99. */
  function MisreadDay(day: int): int {
    MakeDay(YearOf(day) + 1900, MonthOf(day), DateOf(day))
  }

  /** The day whose start `localDayBounds` takes for the midnight of `day`. */
  function ReadDay(day: int): int {
    if 0 <= YearOf(day) <= 99 then MisreadDay(day) else day
  }

  lemma LocalMidnight(day: int)
    ensures DateUtc(YearOf(day), MonthOf(day), DateOf(day)) - OFFSET_MS == DayStart(ReadDay(day))
  {
    var y, m, d := YearOf(day), MonthOf(day), DateOf(day);
    assert MakeDay(y, m, d) == day by {
      CivilRoundTrip(day);
    }
    assert FullYear(y) == (if 0 <= y <= 99 then y + 1900 else y);
    assert MakeDay(FullYear(y), m, d) == ReadDay(day);
  }

  lemma BoundsOf(utc: Instant)
    requires Printable(utc)
    ensures LocalDayBounds(utc) == RangeFrom(DayStart(ReadDay(LocalDay(utc))))
  {
    LocalMidnight(LocalDay(utc));
  }

  lemma InDay(utc: int, day: int)
    ensures DayStart(day) <= utc < DayStart(day) + MS_PER_DAY <==> LocalDay(utc) == day
  {
  }

  /** An instant lies in its own 24-hour range exactly when its local year is not one `Date.UTC` misreads. */
  lemma OwnDayContains(utc: Instant)
    requires HasBounds(utc)
    ensures var (from, to) := LocalDayBounds(utc);
      from.value <= utc < to.value <==> !YearMisread(utc)
  {
    BoundsOf(utc);
    InDay(utc, LocalDay(utc));
    InDay(utc, ReadDay(LocalDay(utc)));
    if YearMisread(utc) {
      SameDateLaterYear(LocalDay(utc), 1900);
    }
  }

  /** A range is 24 hours from the local midnight of the date that `Date.UTC` makes of the printed one. */
  lemma BoundsAre(utc: Instant)
    requires HasBounds(utc)
    ensures var day := (utc + 3 * 60 * 60 * 1000) / 86_400_000; var (from, to) := LocalDayBounds(utc); var year := YearOf(day);
      && to.value == from.value + 24 * 60 * 60 * 1000
      && from.value == MakeDay(if 0 <= year <= 99 then year + 1900 else year, MonthOf(day), DateOf(day)) * 86_400_000 - 3 * 60 * 60 * 1000
  {
    hide *;
    HasBoundsMeans(utc);
    BoundsOf(utc);
    ReadDayIs(LocalDay(utc));
    RangeIs(ReadDay(LocalDay(utc)));
    LocalDayIs(utc);
  }

  lemma HasBoundsMeans(utc: Instant)
    requires HasBounds(utc)
    ensures Printable(utc) && LocalDayBounds(utc).0.Some? && LocalDayBounds(utc).1.Some?
  {
    hide YearOf, MonthOf, DateOf, MakeDay, RangeFrom;
  }

  lemma LocalDayIs(utc: int)
    ensures LocalDay(utc) == (utc + 3 * 60 * 60 * 1000) / 86_400_000
  {
  }

  lemma ReadDayIs(day: int)
    ensures ReadDay(day) == MakeDay(if 0 <= YearOf(day) <= 99 then YearOf(day) + 1900 else YearOf(day), MonthOf(day), DateOf(day))
  {
    CivilRoundTrip(day);
    hide YearOf, MonthOf, DateOf, MakeDay;
  }

  lemma RangeIs(day: int)
    ensures var (from, to) := RangeFrom(DayStart(day));
      from.Some? && to.Some? ==>
        from.value == day * 86_400_000 - 3 * 60 * 60 * 1000 && to.value == from.value + 24 * 60 * 60 * 1000
  {
  }

  lemma SameStartSameDay(a: int, b: int)
    ensures DayStart(a) == DayStart(b) <==> a == b
  {
  }

  /** Away from those years: same range exactly when the same date is printed. */
  lemma SameDayAgreement(a: Instant, b: Instant)
    requires HasBounds(a) && HasBounds(b) && !YearMisread(a) && !YearMisread(b)
    ensures LocalDayBounds(a) == LocalDayBounds(b) <==> FormatLocalDateAndTime(a).0 == FormatLocalDateAndTime(b).0
  {
    BoundsOf(a);
    BoundsOf(b);
    SameStartSameDay(LocalDay(a), LocalDay(b));
    if FormatLocalDateAndTime(a).0 == FormatLocalDateAndTime(b).0 {
      DateTextNamesDay(LocalDay(a), LocalDay(b));
    }
  }

  /** ... and two ranges that share an instant are the same range. */
  lemma RangesPartition(a: Instant, b: Instant, t: int)
    requires HasBounds(a) && HasBounds(b) && !YearMisread(a) && !YearMisread(b)
    requires LocalDayBounds(a).0.value <= t < LocalDayBounds(a).1.value
    requires LocalDayBounds(b).0.value <= t < LocalDayBounds(b).1.value
    ensures LocalDayBounds(a) == LocalDayBounds(b)
  {
    hide YearOf, MonthOf, DateOf, MakeDay, DayFromYear, LocalDay;
    BoundsOf(a);
    BoundsOf(b);
    InDay(t, LocalDay(a));
    InDay(t, LocalDay(b));
  }

  /** Every instant of a misread year shares its range with one printed nineteen centuries later. */
  lemma MisreadYearsDisagree(utc: Instant) returns (later: Instant)
    requires HasBounds(utc) && YearMisread(utc)
    ensures HasBounds(later) && LocalDayBounds(later) == LocalDayBounds(utc)
    ensures FormatLocalDateAndTime(later).0 != FormatLocalDateAndTime(utc).0
  {
    var day := LocalDay(utc);
    var readDay := MisreadDay(day);
    BoundsOf(utc);
    later := DayStart(readDay);
    InDay(later, readDay);
    MisreadLandsInItsCentury(day);
    assert ReadDay(readDay) == readDay;
    BoundsOf(later);
    if DateText(readDay) == DateText(day) {
      DateTextNamesDay(readDay, day);
    }
  }

  lemma MisreadDayIs(day: int)
    ensures MisreadDay(day) == MakeDay(YearOf(day) + 1900, MonthOf(day), DateOf(day))
  {
  }

  lemma MisreadLandsInItsCentury(day: int)
    requires 0 <= YearOf(day) <= 99
    ensures 1900 <= YearOf(MisreadDay(day)) <= 2000
  {
    MisreadDayIs(day);
    hide *;
    var y := YearOf(day);
    SameDateLaterYear(day, 1900);
    YearsGrow(1900, y + 1900);
    YearsGrow(y + 1900, 1999);
    Between(DayFromYear(1900), DayFromYear(y + 1900), DayFromYear(1999), MisreadDay(day), y);
    BetweenYears(MisreadDay(day));
  }

  lemma Between(low: int, year: int, high: int, day: int, y: int)
    requires 0 <= y <= 99 && low + 365 * y <= year && year + 365 * (99 - y) <= high
    requires year <= day <= year + 365
    ensures low <= day <= high + 365
  {
  }

  lemma BetweenYears(day: int)
    requires DayFromYear(1900) <= day <= DayFromYear(1999) + 365
    ensures 1900 <= YearOf(day) <= 2000
  {
    hide *;
    YearsGrow(1999, 2001);
    if YearOf(day) < 1900 {
      YearsGrow(YearOf(day) + 1, 1900);
    } else if YearOf(day) > 2000 {
      YearsGrow(2001, YearOf(day));
    }
  }

  lemma DayRange(utc: int)
    ensures var day := LocalDay(utc);
      -MAX_TIME + 21 * MS_PER_HOUR <= utc < MAX_TIME - 3 * MS_PER_HOUR
      <==> -MAX_TIME <= DayStart(day) && DayStart(day) + MS_PER_DAY <= MAX_TIME
  {
  }

  /** When the two `Date`s returned are valid at all: all but the first 21 and the last 3 hours of the range. */
  lemma BoundsExistExactly(utc: Instant)
    ensures HasBounds(utc) <==> -MAX_TIME + 21 * MS_PER_HOUR <= utc < MAX_TIME - 3 * MS_PER_HOUR
  {
    hide YearOf, MonthOf, DateOf, MakeDay, DayFromYear, LocalDay, MisreadDay;
    var day := LocalDay(utc);
    DayRange(utc);
    if Printable(utc) {
      BoundsOf(utc);
      if YearMisread(utc) {
        MisreadLandsInItsCentury(day);
        NearDays(day);
        NearDays(MisreadDay(day));
      }
    }
  }

  lemma NearDays(day: int)
    requires 0 <= YearOf(day) <= 2000
    ensures -1_000_000 < day < 1_000_000
  {
    YearsGrow(0, YearOf(day));
    YearsGrow(YearOf(day) + 1, 2001);
  }
}
