/** Cursor sort values: what survives being written into a cursor and read back. */
module CursorValues {
  import opened Wrappers
  import opened Text
  import opened Calendar

  /** A sort column holds numbers, DateTimes or Strings; a text may also read as an impossible date. */
  datatype SortValue = NumberValue(x: real) | DateValue(t: int) | TextValue(s: string) | InvalidDate

  const MAX_SAFE_INTEGER := 9_007_199_254_740_991

  // ----- toISOString

  datatype Fields = Fields(year: int, month: int, date: int, hour: int, minute: int, second: int, ms: int)

  predicate ValidFields(f: Fields) {
    && 0 <= f.year <= 9999 && 1 <= f.month <= 12
    && 1 <= f.date <= MonthStart(f.month, IsLeap(f.year)) - MonthStart(f.month - 1, IsLeap(f.year))
    && 0 <= f.hour < 24 && 0 <= f.minute < 60 && 0 <= f.second < 60 && 0 <= f.ms < 1000
  }

  function FieldsOf(t: int): (f: Fields)
    ensures 1 <= f.month <= 12 && 1 <= f.date <= 31
    ensures 0 <= f.hour < 24 && 0 <= f.minute < 60 && 0 <= f.second < 60 && 0 <= f.ms < 1000
  {
    var day, r := t / MS_PER_DAY, t % MS_PER_DAY;
    Fields(YearOf(day), MonthOf(day) + 1, DateOf(day), r / 3_600_000, r / 60_000 % 60, r / 1000 % 60, r % 1000)
  }

  function TimeOf(f: Fields): int
    requires 1 <= f.month <= 12
  {
    MakeDay(f.year, f.month - 1, f.date) * MS_PER_DAY + f.hour * 3_600_000 + f.minute * 60_000 + f.second * 1000 + f.ms
  }

  lemma ClockParts(r: int)
    requires 0 <= r < MS_PER_DAY
    ensures r == r / 3_600_000 * 3_600_000 + r / 60_000 % 60 * 60_000 + r / 1000 % 60 * 1000 + r % 1000
  {
    Seconds(r);
    Minutes(r);
    Hours(r);
  }

  lemma Seconds(r: int)
    ensures r == 1000 * (r / 1000) + r % 1000
  {
  }

  lemma Minutes(r: int)
    ensures r / 1000 == 60 * (r / 60_000) + r / 1000 % 60
  {
    var q := r / 1000;
    assert q / 60 == r / 60_000;
  }

  lemma Hours(r: int)
    ensures r / 60_000 == 60 * (r / 3_600_000) + r / 60_000 % 60
  {
    var q := r / 60_000;
    assert q / 60 == r / 3_600_000;
  }

  lemma FieldsRoundTrip(t: int)
    ensures TimeOf(FieldsOf(t)) == t
  {
    CivilRoundTrip(t / MS_PER_DAY);
    ClockParts(t % MS_PER_DAY);
  }

  /** From the month on: `-MM-DDTHH:mm:ss.sssZ`. */
  function ClockText(f: Fields): string
    requires 1 <= f.month <= 12 && 1 <= f.date <= 31
    requires 0 <= f.hour < 24 && 0 <= f.minute < 60 && 0 <= f.second < 60 && 0 <= f.ms < 1000
  {
    Clock(Digit(f.month / 10), Digit(f.month % 10), Digit(f.date / 10), Digit(f.date % 10),
          Digit(f.hour / 10), Digit(f.hour % 10), Digit(f.minute / 10), Digit(f.minute % 10),
          Digit(f.second / 10), Digit(f.second % 10), Digit(f.ms / 100), Digit(f.ms / 10 % 10), Digit(f.ms % 10))
  }

  function Clock(m: char, m': char, d: char, d': char, h: char, h': char, n: char, n': char, s: char, s': char,
                 f: char, f': char, f'': char): string
  {
    ['-', m, m', '-', d, d', 'T', h, h', ':', n, n', ':', s, s', '.', f, f', f'', 'Z']
  }

  /** Years 0 to 9999 take four digits; the others a sign and six. */
  function YearText(y: int): string {
    if 0 <= y <= 9999 then [Digit(y / 1000), Digit(y / 100 % 10), Digit(y / 10 % 10), Digit(y % 10)]
    else
      var n := if y < 0 then -y else y;
      [if y < 0 then '-' else '+', Digit(n / 100_000 % 10), Digit(n / 10_000 % 10), Digit(n / 1000 % 10),
       Digit(n / 100 % 10), Digit(n / 10 % 10), Digit(n % 10)]
  }

  function ToISOString(t: int): string {
    YearText(FieldsOf(t).year) + ClockText(FieldsOf(t))
  }

  // ----- the pattern, and reading a text that fits it

  predicate IsClockText(c: string) {
    && |c| >= 16 && c[0] == '-' && IsDigit(c[1]) && IsDigit(c[2]) && c[3] == '-' && IsDigit(c[4]) && IsDigit(c[5])
    && c[6] == 'T' && IsDigit(c[7]) && IsDigit(c[8]) && c[9] == ':' && IsDigit(c[10]) && IsDigit(c[11])
    && c[12] == ':' && IsDigit(c[13]) && IsDigit(c[14]) && c[|c| - 1] == 'Z'
    && (|c| == 16 || (|c| >= 18 && c[15] == '.' && forall i :: 16 <= i < |c| - 1 ==> IsDigit(c[i])))
  }

  /** `ISO_DATETIME_PATTERN`. */
  predicate IsIsoDateTime(s: string) {
    |s| >= 20 && IsDigit(s[0]) && IsDigit(s[1]) && IsDigit(s[2]) && IsDigit(s[3]) && IsClockText(s[4..])
  }

  function TwoDigits(a: char, b: char): int
    requires IsDigit(a) && IsDigit(b)
  {
    10 * DigitValue(a) + DigitValue(b)
  }

  function FractionMs(c: string): int
    requires IsClockText(c)
  {
    (if |c| > 17 then 100 * DigitValue(c[16]) else 0)
    + (if |c| > 18 then 10 * DigitValue(c[17]) else 0)
    + (if |c| > 19 then DigitValue(c[18]) else 0)
  }

  function ReadFields(s: string): Fields
    requires IsIsoDateTime(s)
  {
    var c := s[4..];
    Fields(100 * TwoDigits(s[0], s[1]) + TwoDigits(s[2], s[3]), TwoDigits(c[1], c[2]), TwoDigits(c[4], c[5]),
           TwoDigits(c[7], c[8]), TwoDigits(c[10], c[11]), TwoDigits(c[13], c[14]), FractionMs(c))
  }

  function NewDate(s: string): SortValue
    requires IsIsoDateTime(s)
  {
    var f := ReadFields(s);
    if ValidFields(f) then DateValue(TimeOf(f)) else InvalidDate
  }

  predicate AllDigits(s: string) {
    s != [] && forall i :: 0 <= i < |s| ==> IsDigit(s[i])
  }

  function DigitsPart(s: string): string {
    if s != [] && s[0] == '-' then s[1..] else s
  }

  function ReadInt(s: string): int
    requires AllDigits(DigitsPart(s))
  {
    if s[0] == '-' then 0 - ParseNat(DigitsPart(s)) else ParseNat(s)
  }

  // ----- numbers as text

  /** `Number` and `String` between texts and finite doubles: `toNumber` is `None` where `Number` is not finite. */
  datatype Numbers = Numbers(isDouble: real -> bool, toNumber: string -> Option<real>, toText: real -> string)

  /** Digits, and the signs, point and exponent mark a printed number may have. */
  predicate NumberShaped(s: string) {
    forall i :: 0 <= i < |s| ==> IsDigit(s[i]) || s[i] == '.' || s[i] == 'e' || s[i] == '+' || s[i] == '-'
  }

  predicate IsSafe(n: int) {
    -MAX_SAFE_INTEGER <= n <= MAX_SAFE_INTEGER
  }

  /**
   * Sections 6.1.6.1.20 and 7.1.4.1 of ECMA-262: a double is read back from the text it prints as, only doubles
   * are read, and safe integers print as their digits.
   */
  ghost predicate Lawful(f: Numbers) {
    && (forall x | f.isDouble(x) :: f.toNumber(f.toText(x)) == Some(x) && NumberShaped(f.toText(x)))
    && (forall s | f.toNumber(s).Some? :: f.isDouble(f.toNumber(s).value))
    && (forall n: int | IsSafe(n) :: f.isDouble(n as real) && f.toText(n as real) == IntText(n))
  }

  /** `Number.isFinite(asNumber) && String(asNumber) === value`. */
  predicate IsNumberText(f: Numbers, s: string) {
    f.toNumber(s).Some? && f.toText(f.toNumber(s).value) == s
  }

  ghost predicate PrintsSomeDouble(f: Numbers, s: string) {
    exists x :: f.isDouble(x) && f.toText(x) == s
  }

  /** The texts taken for numbers are exactly those that some number prints as: "1.5" and "1e+21", not "1.50" or "0x10". */
  lemma NumberTextExactly(f: Numbers, s: string)
    requires Lawful(f)
    ensures IsNumberText(f, s) <==> PrintsSomeDouble(f, s)
  {
    if IsNumberText(f, s) {
      var x := f.toNumber(s).value;
      assert f.isDouble(x) && f.toText(x) == s;
    }
    if PrintsSomeDouble(f, s) {
      var x :| f.isDouble(x) && f.toText(x) == s;
      assert f.toNumber(s) == Some(x);
    }
  }

  predicate ReadsAsSafe(s: string) {
    AllDigits(DigitsPart(s)) && IsSafe(ReadInt(s)) && IntText(ReadInt(s)) == s
  }

  /** The safe integers alone, which already meet the laws. */
  const SAFE_INTEGERS := Numbers(
    (x: real) => x == x.Floor as real && IsSafe(x.Floor),
    (s: string) => if ReadsAsSafe(s) then Some(ReadInt(s) as real) else None,
    (x: real) => IntText(x.Floor))

  lemma DigitsOfIntText(n: int)
    ensures AllDigits(DigitsPart(IntText(n)))
    ensures DigitsPart(IntText(n)) == NatText(if n < 0 then -n else n)
  {
    IntTextSign(n);
    ParseNatText(if n < 0 then -n else n);
  }

  lemma IntTextIsRead(n: int)
    requires IsSafe(n)
    ensures ReadsAsSafe(IntText(n)) && ReadInt(IntText(n)) == n
  {
    DigitsOfIntText(n);
    IntTextSign(n);
    ParseNatText(if n < 0 then -n else n);
  }

  lemma IntTextIsShaped(n: int)
    ensures NumberShaped(IntText(n))
  {
    ParseNatText(if n < 0 then -n else n);
  }

  lemma LawsCanBeMet()
    ensures Lawful(SAFE_INTEGERS)
  {
    hide ReadsAsSafe, NumberShaped, IntText, ReadInt;
    var f := SAFE_INTEGERS;
    forall n: int | IsSafe(n) ensures f.isDouble(n as real) && f.toText(n as real) == IntText(n) {
      assert (n as real).Floor == n;
    }
    forall x | f.isDouble(x) ensures f.toNumber(f.toText(x)) == Some(x) && NumberShaped(f.toText(x)) {
      IntTextIsRead(x.Floor);
      IntTextIsShaped(x.Floor);
    }
    forall s | f.toNumber(s).Some? ensures f.isDouble(f.toNumber(s).value) {
      SafeIsRead(s);
      assert (ReadInt(s) as real).Floor == ReadInt(s);
    }
  }

  lemma SafeIsRead(s: string)
    requires ReadsAsSafe(s)
    ensures AllDigits(DigitsPart(s)) && IsSafe(ReadInt(s))
  {
  }

  /** `coerceCursorSortValue`. */
  function CoerceCursorSortValue(f: Numbers, s: string): SortValue {
    if IsIsoDateTime(s) then NewDate(s)
    else if IsNumberText(f, s) then NumberValue(f.toNumber(s).value)
    else TextValue(s)
  }

  /** `encodeCursorSortValue`. */
  function EncodeCursorSortValue(f: Numbers, v: SortValue): string {
    match v
    case NumberValue(x) => f.toText(x)
    case DateValue(t) => ToISOString(t)
    case TextValue(s) => s
    case InvalidDate => "Invalid Date"
  }

  // ----- round trips, exactly

  lemma ShapedIsNoDate(s: string)
    requires NumberShaped(s)
    ensures !IsIsoDateTime(s)
  {
    if |s| >= 20 {
      assert s[4..][6] == s[10];
    }
  }

  /** Every number a column can hold survives the cursor. */
  lemma NumberRoundTrip(f: Numbers, x: real)
    requires Lawful(f)
    ensures CoerceCursorSortValue(f, EncodeCursorSortValue(f, NumberValue(x))) == NumberValue(x) <==> f.isDouble(x)
  {
    if f.isDouble(x) {
      ShapedIsNoDate(f.toText(x));
    }
  }

  /** A text column loses what a number prints as: a department named "1.5" comes back as the number. */
  lemma NumberTextIsMisread(f: Numbers, x: real)
    requires Lawful(f) && f.isDouble(x)
    ensures CoerceCursorSortValue(f, EncodeCursorSortValue(f, TextValue(f.toText(x)))) == NumberValue(x)
  {
    NumberRoundTrip(f, x);
  }

  lemma TwoDigitsOf(n: int)
    requires 0 <= n < 100
    ensures IsDigit(Digit(n / 10)) && IsDigit(Digit(n % 10)) && TwoDigits(Digit(n / 10), Digit(n % 10)) == n
  {
    DigitIsDigit(n / 10);
    DigitIsDigit(n % 10);
  }

  lemma ThreeDigitsOf(n: int)
    requires 0 <= n < 1000
    ensures IsDigit(Digit(n / 100)) && IsDigit(Digit(n / 10 % 10)) && IsDigit(Digit(n % 10))
    ensures 100 * DigitValue(Digit(n / 100)) + 10 * DigitValue(Digit(n / 10 % 10)) + DigitValue(Digit(n % 10)) == n
  {
    ThreeParts(n);
    hide Digit, DigitValue, IsDigit;
    DigitIsDigit(n / 100);
    DigitIsDigit(n / 10 % 10);
    DigitIsDigit(n % 10);
  }

  lemma ThreeParts(n: int)
    requires 0 <= n < 1000
    ensures n == 100 * (n / 100) + 10 * (n / 10 % 10) + n % 10
    ensures 0 <= n / 100 < 10 && 0 <= n / 10 % 10 < 10
  {
    var tens := n / 10;
    assert tens == 10 * (tens / 10) + tens % 10 && tens / 10 == n / 100;
  }

  lemma FourParts(y: int)
    requires 0 <= y <= 9999
    ensures y / 1000 == y / 100 / 10 && y / 10 % 10 == y % 100 / 10 && y % 10 == y % 100 % 10 && y == 100 * (y / 100) + y % 100
    ensures 0 <= y / 100 < 100 && 0 <= y % 100 < 100
  {
    CenturyParts(y / 100, y % 100);
  }

  lemma CenturyParts(c: int, r: int)
    requires 0 <= c < 100 && 0 <= r < 100
    ensures (100 * c + r) / 1000 == c / 10
    ensures (100 * c + r) / 10 % 10 == r / 10
    ensures (100 * c + r) % 10 == r % 10
  {
    var n, tens := 100 * c + r, 10 * c + r / 10;
    Tenth(n, tens, r % 10);
    Tenth(tens, c, r / 10);
    Thousandth(n, c / 10, 100 * (c % 10) + r);
  }

  lemma Tenth(n: int, q: int, r: int)
    requires n == 10 * q + r && 0 <= r < 10
    ensures n / 10 == q && n % 10 == r
  {
  }

  lemma Thousandth(n: int, q: int, r: int)
    requires n == 1000 * q + r && 0 <= r < 1000
    ensures n / 1000 == q
  {
  }

  lemma ClockReads(m: char, m': char, d: char, d': char, h: char, h': char, n: char, n': char, s: char, s': char,
                   f: char, f': char, f'': char)
    requires IsDigit(m) && IsDigit(m') && IsDigit(d) && IsDigit(d') && IsDigit(h) && IsDigit(h')
    requires IsDigit(n) && IsDigit(n') && IsDigit(s) && IsDigit(s') && IsDigit(f) && IsDigit(f') && IsDigit(f'')
    ensures var c := Clock(m, m', d, d', h, h', n, n', s, s', f, f', f'');
      && IsClockText(c) && TwoDigits(c[1], c[2]) == TwoDigits(m, m') && TwoDigits(c[4], c[5]) == TwoDigits(d, d')
      && TwoDigits(c[7], c[8]) == TwoDigits(h, h') && TwoDigits(c[10], c[11]) == TwoDigits(n, n')
      && TwoDigits(c[13], c[14]) == TwoDigits(s, s')
      && FractionMs(c) == 100 * DigitValue(f) + 10 * DigitValue(f') + DigitValue(f'')
  {
  }

  lemma ClockTextReads(f: Fields)
    requires 1 <= f.month <= 12 && 1 <= f.date <= 31
    requires 0 <= f.hour < 24 && 0 <= f.minute < 60 && 0 <= f.second < 60 && 0 <= f.ms < 1000
    ensures var c := ClockText(f);
      && IsClockText(c) && TwoDigits(c[1], c[2]) == f.month && TwoDigits(c[4], c[5]) == f.date && TwoDigits(c[7], c[8]) == f.hour
      && TwoDigits(c[10], c[11]) == f.minute && TwoDigits(c[13], c[14]) == f.second && FractionMs(c) == f.ms
  {
    TwoDigitsOf(f.month);
    TwoDigitsOf(f.date);
    TwoDigitsOf(f.hour);
    TwoDigitsOf(f.minute);
    TwoDigitsOf(f.second);
    ThreeDigitsOf(f.ms);
    ClockReads(Digit(f.month / 10), Digit(f.month % 10), Digit(f.date / 10), Digit(f.date % 10),
               Digit(f.hour / 10), Digit(f.hour % 10), Digit(f.minute / 10), Digit(f.minute % 10),
               Digit(f.second / 10), Digit(f.second % 10), Digit(f.ms / 100), Digit(f.ms / 10 % 10), Digit(f.ms % 10));
  }

  lemma YearTextReads(y: int)
    requires 0 <= y <= 9999
    ensures var s := YearText(y);
      |s| == 4 && (forall i :: 0 <= i < 4 ==> IsDigit(s[i])) && 100 * TwoDigits(s[0], s[1]) + TwoDigits(s[2], s[3]) == y
  {
    FourParts(y);
    hide Digit, DigitValue, IsDigit, TwoDigits;
    TwoDigitsOf(y / 100);
    TwoDigitsOf(y % 100);
  }

  lemma SixParts(n: int)
    requires 0 <= n <= 999_999
    ensures n / 100_000 % 10 == n / 1000 / 100 && n / 10_000 % 10 == n / 1000 / 10 % 10 && n / 1000 % 10 == n / 1000 % 10
    ensures n / 100 % 10 == n % 1000 / 100 && n / 10 % 10 == n % 1000 / 10 % 10 && n % 10 == n % 1000 % 10
  {
    var k, r := n / 1000, n % 1000;
    assert n == 1000 * k + r;
    Quotients(n, k, r);
  }

  lemma Quotients(n: int, k: int, r: int)
    requires n == 1000 * k + r && 0 <= r < 1000 && 0 <= k < 1000
    ensures n / 100_000 == k / 100 && n / 10_000 == k / 10
    ensures n / 100 % 10 == r / 100 && n / 10 % 10 == r / 10 % 10 && n % 10 == r % 10
  {
    Tenth(n, 100 * k + r / 10, r % 10);
    Tenth(100 * k + r / 10, 10 * k + r / 100, r / 10 % 10);
    Tenth(10 * k + r / 100, k, r / 100);
  }

  /** A sign and six digits for a year that has not four. */
  lemma LongYearReads(y: int)
    requires -999_999 <= y < 0 || 9999 < y <= 999_999
    ensures var s := YearText(y);
      && |s| == 7 && s[0] == (if y < 0 then '-' else '+') && (forall i :: 1 <= i < 7 ==> IsDigit(s[i]))
      && 1000 * (100 * DigitValue(s[1]) + 10 * DigitValue(s[2]) + DigitValue(s[3]))
         + 100 * DigitValue(s[4]) + 10 * DigitValue(s[5]) + DigitValue(s[6]) == if y < 0 then -y else y
  {
    var n := if y < 0 then -y else y;
    SixParts(n);
    hide Digit, DigitValue, IsDigit;
    ThreeDigitsOf(n / 1000);
    ThreeDigitsOf(n % 1000);
  }

  lemma IsoReads(t: int)
    requires 0 <= YearOf(t / MS_PER_DAY) <= 9999
    ensures IsIsoDateTime(ToISOString(t)) && ReadFields(ToISOString(t)) == FieldsOf(t)
  {
    var f, s := FieldsOf(t), ToISOString(t);
    YearTextReads(f.year);
    ClockTextReads(f);
    assert s[4..] == ClockText(f) && s[..4] == YearText(f.year);
  }

  ghost predicate HasDigits(s: string) {
    && |s| == 24 && IsDigit(s[0]) && IsDigit(s[1]) && IsDigit(s[2]) && IsDigit(s[3])
    && IsDigit(s[5]) && IsDigit(s[6]) && IsDigit(s[8]) && IsDigit(s[9]) && IsDigit(s[11]) && IsDigit(s[12])
    && IsDigit(s[14]) && IsDigit(s[15]) && IsDigit(s[17]) && IsDigit(s[18])
    && IsDigit(s[20]) && IsDigit(s[21]) && IsDigit(s[22])
  }

  /** `YYYY-MM-DDTHH:mm:ss.sssZ`. */
  ghost predicate Spells(s: string, f: Fields) {
    && HasDigits(s) && s[4] == s[7] == '-' && s[10] == 'T' && s[13] == s[16] == ':' && s[19] == '.' && s[23] == 'Z'
    && 100 * TwoDigits(s[0], s[1]) + TwoDigits(s[2], s[3]) == f.year
    && TwoDigits(s[5], s[6]) == f.month && TwoDigits(s[8], s[9]) == f.date
    && TwoDigits(s[11], s[12]) == f.hour && TwoDigits(s[14], s[15]) == f.minute && TwoDigits(s[17], s[18]) == f.second
    && 100 * DigitValue(s[20]) + 10 * DigitValue(s[21]) + DigitValue(s[22]) == f.ms
  }

  lemma Spelled(s: string, year: string, c: string, f: Fields)
    requires s == year + c && |year| == 4 && |c| == 20 && IsClockText(c)
    requires forall i :: 0 <= i < 4 ==> IsDigit(year[i])
    requires 100 * TwoDigits(year[0], year[1]) + TwoDigits(year[2], year[3]) == f.year
    requires TwoDigits(c[1], c[2]) == f.month && TwoDigits(c[4], c[5]) == f.date && TwoDigits(c[7], c[8]) == f.hour
    requires TwoDigits(c[10], c[11]) == f.minute && TwoDigits(c[13], c[14]) == f.second && FractionMs(c) == f.ms
    ensures Spells(s, f)
  {
    assert forall i :: 0 <= i < 4 ==> s[i] == year[i];
    assert forall i :: 4 <= i < 24 ==> s[i] == c[i - 4];
    hide IsDigit;
  }

  lemma IsoTextIs(t: int)
    requires 0 <= YearOf(t / MS_PER_DAY) <= 9999
    ensures Spells(ToISOString(t), FieldsOf(t))
  {
    var f := FieldsOf(t);
    YearTextReads(f.year);
    ClockTextReads(f);
    hide YearText, TwoDigits, DigitValue, FractionMs, IsClockText, Digit, IsDigit, YearOf, MonthOf, DateOf;
    Spelled(ToISOString(t), YearText(f.year), ClockText(f), f);
  }

  /** `YYYY-MM-DDTHH:mm:ss`. */
  ghost predicate IsHead(h: string) {
    && |h| == 19 && h[4] == '-' && h[7] == '-' && h[10] == 'T' && h[13] == ':' && h[16] == ':'
    && AllDigits(h[..4]) && AllDigits(h[5..7]) && AllDigits(h[8..10]) && AllDigits(h[11..13]) && AllDigits(h[14..16]) && AllDigits(h[17..])
  }

  /** Nothing, or a point and at least one digit. */
  ghost predicate IsFraction(f: string) {
    f == "" || (f[0] == '.' && AllDigits(f[1..]))
  }

  /** The pattern: a head, perhaps a fraction of a second, and a Z. */
  lemma PatternExactly(s: string)
    ensures IsIsoDateTime(s) <==> |s| >= 20 && IsHead(s[..19]) && IsFraction(s[19..|s| - 1]) && s[|s| - 1] == 'Z'
  {
    if |s| >= 20 {
      HeadIs(s);
      TailIs(s);
      hide IsDigit, AllDigits, IsHead, IsFraction;
    }
  }

  lemma HeadIs(s: string)
    requires |s| >= 20
    ensures IsHead(s[..19]) <==>
      && IsDigit(s[0]) && IsDigit(s[1]) && IsDigit(s[2]) && IsDigit(s[3]) && s[4] == '-' && IsDigit(s[5]) && IsDigit(s[6])
      && s[7] == '-' && IsDigit(s[8]) && IsDigit(s[9]) && s[10] == 'T' && IsDigit(s[11]) && IsDigit(s[12]) && s[13] == ':'
      && IsDigit(s[14]) && IsDigit(s[15]) && s[16] == ':' && IsDigit(s[17]) && IsDigit(s[18])
  {
    var h := s[..19];
    hide IsDigit, AllDigits;
    FourDigits(h[..4], s[0], s[1], s[2], s[3]);
    TwoOf(h[5..7], s[5], s[6]);
    TwoOf(h[8..10], s[8], s[9]);
    TwoOf(h[11..13], s[11], s[12]);
    TwoOf(h[14..16], s[14], s[15]);
    TwoOf(h[17..], s[17], s[18]);
  }

  lemma FourDigits(t: string, a: char, b: char, c: char, d: char)
    requires t == [a, b, c, d]
    ensures AllDigits(t) <==> IsDigit(a) && IsDigit(b) && IsDigit(c) && IsDigit(d)
  {
    assert t[0] == a && t[1] == b && t[2] == c && t[3] == d;
  }

  lemma TwoOf(t: string, a: char, b: char)
    requires t == [a, b]
    ensures AllDigits(t) <==> IsDigit(a) && IsDigit(b)
  {
    assert t[0] == a && t[1] == b;
  }

  lemma TailIs(s: string)
    requires |s| >= 20
    ensures var c := s[4..];
      IsFraction(s[19..|s| - 1])
      <==> |c| == 16 || (|c| >= 18 && c[15] == '.' && forall i :: 16 <= i < |c| - 1 ==> IsDigit(c[i]))
  {
    var c, fraction := s[4..], s[19..|s| - 1];
    if |s| > 20 {
      assert fraction[0] == c[15];
      assert forall i :: 0 <= i < |fraction| - 1 ==> fraction[1..][i] == c[i + 16];
      assert forall i :: 16 <= i < |c| - 1 ==> c[i] == fraction[1..][i - 16];
    }
  }

  /** A fraction counts to the millisecond; digits that are missing are zeros. */
  lemma FractionIs(c: string, fraction: string)
    requires IsClockText(c) && c[15..|c| - 1] == fraction
    ensures fraction == "" ==> FractionMs(c) == 0
    ensures |fraction| == 2 ==> IsDigit(fraction[1]) && FractionMs(c) == 100 * DigitValue(fraction[1])
    ensures |fraction| == 3 ==>
      IsDigit(fraction[1]) && IsDigit(fraction[2]) && FractionMs(c) == 100 * DigitValue(fraction[1]) + 10 * DigitValue(fraction[2])
    ensures |fraction| >= 4 ==>
      && IsDigit(fraction[1]) && IsDigit(fraction[2]) && IsDigit(fraction[3])
      && FractionMs(c) == 100 * DigitValue(fraction[1]) + 10 * DigitValue(fraction[2]) + DigitValue(fraction[3])
  {
    assert forall i :: 0 <= i < |fraction| ==> fraction[i] == c[i + 15];
  }

  /** A moment that exists: the date is one of its month, and the clock shows it. */
  ghost predicate Exists(f: Fields) {
    && 1 <= f.month <= 12 && 1 <= f.date <= 31 && MonthOf(MakeDay(f.year, f.month - 1, f.date)) == f.month - 1
    && 0 <= f.hour <= 23 && 0 <= f.minute <= 59 && 0 <= f.second <= 59 && 0 <= f.ms <= 999
  }

  lemma SpelledIsRead(s: string, f: Fields)
    requires Spells(s, f)
    ensures IsIsoDateTime(s) && ReadFields(s) == f
  {
    var c := s[4..];
    assert |c| == 20 && c[0] == s[4] && c[1] == s[5] && c[2] == s[6] && c[3] == s[7] && c[4] == s[8] && c[5] == s[9] && c[6] == s[10]
      && c[7] == s[11] && c[8] == s[12] && c[9] == s[13] && c[10] == s[14] && c[11] == s[15] && c[12] == s[16] && c[13] == s[17]
      && c[14] == s[18] && c[15] == s[19] && c[16] == s[20] && c[17] == s[21] && c[18] == s[22] && c[19] == s[23];
    hide IsDigit;
  }

  lemma ExistsExactly(f: Fields)
    requires 0 <= f.year <= 9999
    ensures Exists(f) <==> ValidFields(f)
  {
    hide MonthOf, MakeDay, MonthStart, IsLeap, YearOf, DateOf;
    if 1 <= f.month <= 12 {
      MonthLength(f.month - 1, IsLeap(f.year));
      if 1 <= f.date <= 31 {
        DateExists(f.year, f.month - 1, f.date);
      }
    }
  }

  lemma DateExists(year: int, month: int, date: int)
    requires 0 <= month < 12 && 1 <= date <= 31
    ensures MonthOf(MakeDay(year, month, date)) == month
      <==> date <= MonthStart(month + 1, IsLeap(year)) - MonthStart(month, IsLeap(year))
  {
    hide MonthOf, MakeDay, MonthStart, IsLeap;
    if date <= MonthStart(month + 1, IsLeap(year)) - MonthStart(month, IsLeap(year)) {
      CivilIsRead(year, month, date);
    } else {
      BeyondMonth(year, month, date);
    }
  }

  /** A date past the end of its month is one of the next. */
  lemma BeyondMonth(year: int, month: int, date: int)
    requires 0 <= month < 12 && MonthStart(month + 1, IsLeap(year)) - MonthStart(month, IsLeap(year)) < date <= 31
    ensures MonthOf(MakeDay(year, month, date)) != month
  {
    var leap, rest := IsLeap(year), date - (MonthStart(month + 1, IsLeap(year)) - MonthStart(month, IsLeap(year)));
    assert month < 11 && rest <= 3;
    CivilIsRead(year, month + 1, rest);
    assert MakeDay(year, month, date) == MakeDay(year, month + 1, rest);
  }

  /** A text of that form is read as the moment it spells, if there is one. */
  lemma SpelledDates(s: string, f: Fields)
    requires Spells(s, f)
    ensures IsIsoDateTime(s) && NewDate(s) == if Exists(f) then DateValue(TimeOf(f)) else InvalidDate
  {
    SpelledIsRead(s, f);
    assert 0 <= f.year <= 9999;
    ExistsExactly(f);
    hide Spells, Exists, ValidFields, TimeOf, ReadFields, IsIsoDateTime;
  }

  lemma FieldsAreValid(t: int)
    requires 0 <= YearOf(t / MS_PER_DAY) <= 9999
    ensures ValidFields(FieldsOf(t))
  {
  }

  lemma DateRoundTrip(f: Numbers, t: int)
    ensures CoerceCursorSortValue(f, ToISOString(t)) == DateValue(t) <==> 0 <= YearOf(t / MS_PER_DAY) <= 9999
  {
    var y := YearOf(t / MS_PER_DAY);
    if 0 <= y <= 9999 {
      IsoReads(t);
      FieldsAreValid(t);
      FieldsRoundTrip(t);
    } else {
      assert ToISOString(t)[0] == YearText(y)[0] && !IsDigit(YearText(y)[0]);
    }
  }

  /** The exact contract: which sort values a cursor carries faithfully. */
  ghost predicate Carried(f: Numbers, v: SortValue) {
    match v
    case NumberValue(x) => f.isDouble(x)
    case DateValue(t) => 0 <= YearOf(t / MS_PER_DAY) <= 9999
    case TextValue(s) => !IsIsoDateTime(s) && !PrintsSomeDouble(f, s)
    case InvalidDate => false
  }

  lemma CarriedExactly(f: Numbers, v: SortValue)
    requires Lawful(f)
    ensures CoerceCursorSortValue(f, EncodeCursorSortValue(f, v)) == v <==> Carried(f, v)
  {
    match v
    case NumberValue(x) => NumberRoundTrip(f, x);
    case DateValue(t) => DateRoundTrip(f, t);
    case TextValue(s) => NumberTextExactly(f, s);
    case InvalidDate =>
      assert EncodeCursorSortValue(f, v)[0] == 'I';
  }
}

/** `BaseRepository.findMany` with its default order, and what following `nextCursor` to the end returns. */
module Paging {
  import opened Wrappers
  import opened Seqs
  import opened CursorValues

  datatype Row = Row(id: string, sortValue: SortValue, fields: map<string, string>)

  /** The column's order as the database compares it; rows of equal rank are tied. */
  type Rank = SortValue -> real

  /** Cursor text decodes to these parts; text that does not decode counts as no cursor. */
  datatype CursorParts = CursorParts(sortValue: string, id: string)

  datatype FindManyOptions = FindManyOptions(limit: Option<nat>, cursor: Option<CursorParts>, where_: Row -> bool)

  datatype PageResult = PageResult(data: seq<Row>, nextCursor: Option<CursorParts>, hasNextPage: bool)

  const DEFAULT_LIMIT := 20

  function Key(rank: Rank): Row -> real {
    (row: Row) => rank(row.sortValue)
  }

  /** The rows a position still has ahead of it. */
  function Ahead(rows: seq<Row>, where_: Row -> bool, rank: Rank, after: Option<real>): seq<Row> {
    Filter(rows, (row: Row) => where_(row) && (after.Some? ==> rank(row.sortValue) > after.value))
  }

  function PositionOf(numbers: Numbers, rank: Rank, cursor: Option<CursorParts>): Option<real> {
    if cursor.None? then None else Some(rank(CoerceCursorSortValue(numbers, cursor.value.sortValue)))
  }

  ghost predicate Ordered(rows: seq<Row>, rank: Rank, full: seq<Row>) {
    multiset(full) == multiset(rows) && SortedBy(full, Key(rank))
  }

  function Take<T>(s: seq<T>, n: nat): seq<T> {
    if |s| <= n then s else s[..n]
  }

  /** The database may break ties as it likes, differently on every query. */
  method Query(rows: seq<Row>, where_: Row -> bool, rank: Rank, after: Option<real>, take: nat) returns (r: seq<Row>)
    ensures exists full :: Ordered(Ahead(rows, where_, rank, after), rank, full) && r == Take(full, take)
  {
    var ordered := StableSort(Ahead(rows, where_, rank, after), Key(rank));
    StableSortSorts(Ahead(rows, where_, rank, after), Key(rank));
    r := Take(ordered, take);
    assert Ordered(Ahead(rows, where_, rank, after), rank, ordered);
  }

  /** The first rows of `full`, and a cursor naming the last of them exactly when there are more. */
  ghost predicate PageOf(numbers: Numbers, ahead: seq<Row>, rank: Rank, limit: nat, page: PageResult, full: seq<Row>) {
    && Ordered(ahead, rank, full)
    && page.data == Take(full, limit)
    && (page.hasNextPage <==> |full| > limit)
    && page.nextCursor == if |full| > limit > 0
         then Some(CursorParts(EncodeCursorSortValue(numbers, full[limit - 1].sortValue), full[limit - 1].id)) else None
  }

  method FindMany(numbers: Numbers, rows: seq<Row>, options: FindManyOptions, rank: Rank) returns (page: PageResult)
    ensures var limit := if options.limit.Some? then options.limit.value else 20;
      exists full :: PageOf(numbers, Ahead(rows, options.where_, rank, PositionOf(numbers, rank, options.cursor)), rank,
                            limit, page, full)
  {
    var limit := if options.limit.Some? then options.limit.value else DEFAULT_LIMIT;
    ghost var ahead := Ahead(rows, options.where_, rank, PositionOf(numbers, rank, options.cursor));
    var found := Query(rows, options.where_, rank, PositionOf(numbers, rank, options.cursor), limit + 1);
    ghost var full :| Ordered(ahead, rank, full) && found == Take(full, limit + 1);
    TakesOneMore(full, limit);
    hide *;
    var hasNextPage := |found| > limit;
    var data := if hasNextPage then found[..limit] else found;
    var nextCursor := None;
    if hasNextPage && |data| > 0 {
      var last := data[|data| - 1];
      nextCursor := Some(CursorParts(EncodeCursorSortValue(numbers, last.sortValue), last.id));
    }
    page := PageResult(data, nextCursor, hasNextPage);
    IsPage(numbers, ahead, rank, limit, page, full);
  }

  /** Reading one row more than a page tells whether there is another page. */
  lemma TakesOneMore(full: seq<Row>, limit: nat)
    ensures |Take(full, limit + 1)| > limit <==> |full| > limit
    ensures Take(full, limit) == if |full| > limit then Take(full, limit + 1)[..limit] else Take(full, limit + 1)
    ensures |full| > limit > 0 ==> |Take(full, limit)| == limit && Take(full, limit)[limit - 1] == full[limit - 1]
  {
  }

  lemma IsPage(numbers: Numbers, ahead: seq<Row>, rank: Rank, limit: nat, page: PageResult, full: seq<Row>)
    requires Ordered(ahead, rank, full) && page.data == Take(full, limit) && (page.hasNextPage <==> |full| > limit)
    requires page.nextCursor == if |full| > limit > 0
      then Some(CursorParts(EncodeCursorSortValue(numbers, full[limit - 1].sortValue), full[limit - 1].id)) else None
    ensures PageOf(numbers, ahead, rank, limit, page, full)
  {
  }

  // ----- sorted rows have one key sequence

  lemma SameCount(s: seq<Row>, t: seq<Row>, p: Row -> bool)
    requires multiset(s) == multiset(t)
    ensures multiset(Filter(s, p)) == multiset(Filter(t, p))
    ensures |Filter(s, p)| == |Filter(t, p)|
  {
    FilterMultiset(s, p);
    FilterMultiset(t, p);
    hide Filter;
    assert |multiset(Filter(s, p))| == |multiset(Filter(t, p))|;
  }

  function UpTo(rank: Rank, c: real): Row -> bool {
    (row: Row) => rank(row.sortValue) <= c
  }

  lemma FilterSplit(s: seq<Row>, n: nat, p: Row -> bool)
    requires n <= |s|
    ensures Filter(s, p) == Filter(s[..n], p) + Filter(s[n..], p)
  {
    hide *;
    TakeDrop(s, n);
    FilterConcat(s[..n], s[n..], p);
  }

  lemma TakeDrop(s: seq<Row>, n: nat)
    requires n <= |s|
    ensures s[..n] + s[n..] == s
  {
  }

  lemma KeyNotAbove(s: seq<Row>, t: seq<Row>, rank: Rank, i: nat)
    requires multiset(s) == multiset(t) && SortedBy(s, Key(rank)) && SortedBy(t, Key(rank))
    requires i < |s| == |t|
    ensures rank(t[i].sortValue) <= rank(s[i].sortValue)
  {
    hide Filter;
    var c := rank(s[i].sortValue);
    if rank(t[i].sortValue) > c {
      var p := UpTo(rank, c);
      SameCount(s, t, p);
      FilterSplit(s, i + 1, p);
      forall x | x in s[..i + 1] ensures p(x) {
        var k :| 0 <= k < i + 1 && s[k] == x;
        assert Key(rank)(s[k]) <= Key(rank)(s[i]);
      }
      FilterAll(s[..i + 1], p);
      FilterSplit(t, i, p);
      FilterMembers(t[..i], p);
      forall x | x in t[i..] ensures !p(x) {
        var k :| 0 <= k < |t| - i && t[i..][k] == x;
        assert Key(rank)(t[i]) <= Key(rank)(t[i + k]);
      }
      FilterNone(t[i..], p);
      assert false;
    }
  }

  /** Sorting a table two ways gives the same keys in the same places; only tied rows can trade places. */
  lemma SameKeys(s: seq<Row>, t: seq<Row>, rank: Rank)
    requires multiset(s) == multiset(t) && SortedBy(s, Key(rank)) && SortedBy(t, Key(rank))
    ensures |s| == |t| && forall i :: 0 <= i < |s| ==> rank(s[i].sortValue) == rank(t[i].sortValue)
  {
    assert |s| == |multiset(s)| == |multiset(t)| == |t|;
    forall i | 0 <= i < |s| ensures rank(s[i].sortValue) == rank(t[i].sortValue) {
      KeyNotAbove(s, t, rank, i);
      KeyNotAbove(t, s, rank, i);
    }
  }

  // ----- where a position cuts the sorted table

  /** `s[..m]` is at or before position `after`, the rest ahead of it. */
  ghost predicate Cuts(s: seq<Row>, rank: Rank, after: Option<real>, m: nat) {
    && m <= |s|
    && (after.None? ==> m == 0)
    && (after.Some? ==> forall i :: 0 <= i < |s| ==> (rank(s[i].sortValue) <= after.value <==> i < m))
  }

  /** Just behind the last row tied with the `k`-th. */
  function CutBehind(s: seq<Row>, rank: Rank, k: nat): (m: nat)
    requires k < |s|
    ensures k < m <= |s|
    decreases |s| - k
  {
    if k + 1 < |s| && rank(s[k + 1].sortValue) == rank(s[k].sortValue) then CutBehind(s, rank, k + 1) else k + 1
  }

  /** The cut a key makes: just behind its last tied row. */
  lemma CutAt(s: seq<Row>, rank: Rank, k: nat) returns (m: nat)
    requires SortedBy(s, Key(rank)) && k < |s|
    ensures k < m == CutBehind(s, rank, k) && Cuts(s, rank, Some(rank(s[k].sortValue)), m)
    ensures m == k + 1 <==> k + 1 == |s| || rank(s[k + 1].sortValue) != rank(s[k].sortValue)
  {
    var c := rank(s[k].sortValue);
    m := k + 1;
    while m < |s| && rank(s[m].sortValue) <= c
      invariant k < m <= |s|
      invariant forall i :: 0 <= i < m ==> rank(s[i].sortValue) <= c
      invariant m == k + 1 || rank(s[k + 1].sortValue) == c
      invariant rank(s[m - 1].sortValue) == c && CutBehind(s, rank, m - 1) == CutBehind(s, rank, k)
    {
      assert Key(rank)(s[k]) <= Key(rank)(s[m]);
      m := m + 1;
    }
    forall i | 0 <= i < k ensures rank(s[i].sortValue) <= c {
      assert Key(rank)(s[i]) <= Key(rank)(s[k]);
    }
    forall i | m <= i < |s| ensures rank(s[i].sortValue) > c {
      assert Key(rank)(s[m]) <= Key(rank)(s[i]);
    }
    if k + 1 < |s| {
      assert Key(rank)(s[k]) <= Key(rank)(s[k + 1]);
    }
  }

  /** What is ahead of a position is what follows its cut. */
  lemma AheadIsTail(rows: seq<Row>, where_: Row -> bool, rank: Rank, s: seq<Row>, after: Option<real>, m: nat)
    requires Ordered(Filter(rows, where_), rank, s) && Cuts(s, rank, after, m)
    ensures multiset(Ahead(rows, where_, rank, after)) == multiset(s[m..])
  {
    var later := (row: Row) => after.Some? ==> rank(row.sortValue) > after.value;
    FilterFilter(rows, where_, later, (row: Row) => where_(row) && (after.Some? ==> rank(row.sortValue) > after.value));
    SameCount(Filter(rows, where_), s, later);
    FilterSplit(s, m, later);
    forall x | x in s[..m] ensures !later(x) {
      var k :| 0 <= k < m && s[k] == x;
    }
    forall x | x in s[m..] ensures later(x) {
      var k :| 0 <= k < |s| - m && s[m..][k] == x;
      assert s[m + k] == x;
    }
    FilterNone(s[..m], later);
    FilterAll(s[m..], later);
    assert Filter(s, later) == s[m..];
  }

  // ----- following `nextCursor` to the end

  /** Two tied rows stand either side of position `b`. */
  ghost predicate TieAt(s: seq<Row>, rank: Rank, b: int) {
    0 < b < |s| && rank(s[b - 1].sortValue) == rank(s[b].sortValue)
  }

  /** None of the first `j` page boundaries separates tied rows. */
  ghost predicate CleanUpTo(s: seq<Row>, rank: Rank, limit: nat, j: nat) {
    forall i: nat :: i <= j ==> !TieAt(s, rank, i * limit)
  }

  ghost predicate CleanBoundaries(s: seq<Row>, rank: Rank, limit: nat) {
    forall i: nat :: !TieAt(s, rank, i * limit)
  }

  /** After `j` full pages: what was returned, and where the position cuts the sorted table. */
  ghost predicate Walked(s: seq<Row>, rank: Rank, limit: nat, j: nat, out: seq<Row>, after: Option<real>, m: nat) {
    && Cuts(s, rank, after, m) && SortedBy(out, Key(rank))
    && |out| == j * limit <= m && multiset(out) <= multiset(s[..m])
    && (|out| == m <==> CleanUpTo(s, rank, limit, j))
  }

  lemma InPrefix(s: seq<Row>, out: seq<Row>, m: nat, x: Row) returns (k: nat)
    requires m <= |s| && multiset(out) <= multiset(s[..m]) && x in out
    ensures k < m && s[k] == x
  {
    assert x in multiset(out);
    assert x in s[..m];
    k :| 0 <= k < m && s[k] == x;
  }

  /** Pages come in order: what was returned is at or before the position, the next page after it. */
  lemma PagesConcatSorted(s: seq<Row>, rank: Rank, after: Option<real>, m: nat, out: seq<Row>, full: seq<Row>, page: seq<Row>)
    requires Cuts(s, rank, after, m) && SortedBy(out, Key(rank)) && SortedBy(full, Key(rank)) && page <= full
    requires multiset(out) <= multiset(s[..m]) && multiset(full) == multiset(s[m..])
    ensures SortedBy(out + page, Key(rank))
  {
    var all := out + page;
    SameMembers(full, s[m..]);
    forall i, j | 0 <= i < j < |all| ensures Key(rank)(all[i]) <= Key(rank)(all[j]) {
      if i < |out| <= j {
        var a := InPrefix(s, out, m, out[i]);
        assert page[j - |out|] == full[j - |out|] && full[j - |out|] in s[m..];
        var b :| 0 <= b < |s| - m && s[m..][b] == full[j - |out|];
        assert s[m + b] == all[j];
      }
    }
  }

  /** The rows of a full page are all between its cut and the next. */
  lemma PageBetweenCuts(s: seq<Row>, rank: Rank, m: nat, n: nat, full: seq<Row>, limit: nat)
    requires m <= n <= |s| && SortedBy(full, Key(rank)) && multiset(full) == multiset(s[m..])
    requires 0 < limit <= |full| && Cuts(s, rank, Some(rank(full[limit - 1].sortValue)), n)
    ensures multiset(full[..limit]) <= multiset(s[m..n])
  {
    var page, between, after := full[..limit], s[m..n], s[n..];
    var c := rank(full[limit - 1].sortValue);
    forall x | x in page ensures x !in after {
      UpToLast(full, rank, limit, x);
      NotBehindCut(s, rank, c, n, x);
    }
    assert page + full[limit..] == full;
    assert between + after == s[m..];
    hide *;
    InFirstPart(page, full[limit..], between, after);
  }

  lemma UpToLast(full: seq<Row>, rank: Rank, limit: nat, x: Row)
    requires SortedBy(full, Key(rank)) && 0 < limit <= |full| && x in full[..limit]
    ensures rank(x.sortValue) <= rank(full[limit - 1].sortValue)
  {
    var k :| 0 <= k < limit && full[..limit][k] == x;
    assert Key(rank)(full[k]) <= Key(rank)(full[limit - 1]);
  }

  lemma NotBehindCut(s: seq<Row>, rank: Rank, c: real, n: nat, x: Row)
    requires Cuts(s, rank, Some(c), n) && rank(x.sortValue) <= c
    ensures x !in s[n..]
  {
    forall i | 0 <= i < |s| - n ensures s[n..][i] != x {
      assert rank(s[n + i].sortValue) > c;
    }
  }

  lemma InFirstPart<T(!new)>(page: seq<T>, rest: seq<T>, between: seq<T>, after: seq<T>)
    requires multiset(page + rest) == multiset(between + after)
    requires forall x :: x in page ==> x !in after
    ensures multiset(page) <= multiset(between)
  {
    forall x ensures multiset(page)[x] <= multiset(between)[x] {
      if x in page {
        assert multiset(page + rest)[x] == multiset(between)[x] + multiset(after)[x];
      }
    }
  }

  lemma Advance(s: seq<Row>, rank: Rank, limit: nat, j: nat, out: seq<Row>, after: Option<real>, m: nat, full: seq<Row>) returns (n: nat)
    requires SortedBy(s, Key(rank)) && Walked(s, rank, limit, j, out, after, m)
    requires SortedBy(full, Key(rank)) && multiset(full) == multiset(s[m..]) && |full| > limit > 0
    ensures m < n <= |s| && Walked(s, rank, limit, j + 1, out + full[..limit], Some(rank(full[limit - 1].sortValue)), n)
    ensures m + limit < |s| && n == CutBehind(s, rank, m + limit - 1)
  {
    SamePlaces(s, rank, m, full);
    n := CutAt(s, rank, m + limit - 1);
    PagesConcatSorted(s, rank, after, m, out, full, full[..limit]);
    PageBetweenCuts(s, rank, m, n, full, limit);
    assert s[..n] == s[..m] + s[m..n];
    hide SortedBy, CutBehind, Cuts, CleanUpTo;
    CleanStep(s, rank, limit, j, |out|, m, n);
  }

  /** However the rows behind a cut are sorted, each has the key of the row at its place in the sorted table. */
  lemma SamePlaces(s: seq<Row>, rank: Rank, m: nat, full: seq<Row>)
    requires SortedBy(s, Key(rank)) && m <= |s| && SortedBy(full, Key(rank)) && multiset(full) == multiset(s[m..])
    ensures |full| == |s| - m && forall i :: 0 <= i < |full| ==> rank(full[i].sortValue) == rank(s[m + i].sortValue)
  {
    TailSorted(s, rank, m);
    SameKeys(full, s[m..], rank);
    forall i | 0 <= i < |full| ensures rank(full[i].sortValue) == rank(s[m + i].sortValue) {
      assert s[m..][i] == s[m + i];
    }
  }

  lemma CleanStep(s: seq<Row>, rank: Rank, limit: nat, j: nat, returned: nat, m: nat, n: nat)
    requires returned == j * limit <= m && (returned == m <==> CleanUpTo(s, rank, limit, j))
    requires 0 < limit && m + limit < |s| && m + limit <= n && (n == m + limit <==> !TieAt(s, rank, m + limit))
    ensures returned + limit == (j + 1) * limit <= n
    ensures returned + limit == n <==> CleanUpTo(s, rank, limit, j + 1)
  {
    assert (j + 1) * limit == j * limit + limit;
    if returned + limit == n {
      forall i: nat | i <= j + 1 ensures !TieAt(s, rank, i * limit) {
        assert i <= j || i == j + 1;
      }
    }
    if CleanUpTo(s, rank, limit, j + 1) {
      assert CleanUpTo(s, rank, limit, j);
      assert !TieAt(s, rank, (j + 1) * limit);
    }
  }

  lemma TailSorted(s: seq<Row>, rank: Rank, m: nat)
    requires SortedBy(s, Key(rank)) && m <= |s|
    ensures SortedBy(s[m..], Key(rank))
  {
    forall i, j | 0 <= i < j < |s| - m ensures Key(rank)(s[m..][i]) <= Key(rank)(s[m..][j]) {
      assert Key(rank)(s[m + i]) <= Key(rank)(s[m + j]);
    }
  }

  lemma Finish(s: seq<Row>, rank: Rank, limit: nat, j: nat, out: seq<Row>, after: Option<real>, m: nat, full: seq<Row>)
    requires SortedBy(s, Key(rank)) && Walked(s, rank, limit, j, out, after, m)
    requires SortedBy(full, Key(rank)) && multiset(full) == multiset(s[m..]) && |full| <= limit
    ensures SortedBy(out + full, Key(rank)) && multiset(out + full) <= multiset(s)
    ensures multiset(out + full) == multiset(s) <==> CleanBoundaries(s, rank, limit)
  {
    PagesConcatSorted(s, rank, after, m, out, full, full);
    CompleteWhenNoneLost(s, m, out, full);
    NoLaterBoundary(s, rank, limit, j);
    assert CleanBoundaries(s, rank, limit) ==> CleanUpTo(s, rank, limit, j);
  }

  lemma CompleteWhenNoneLost(s: seq<Row>, m: nat, out: seq<Row>, full: seq<Row>)
    requires m <= |s| && multiset(out) <= multiset(s[..m]) && multiset(full) == multiset(s[m..])
    ensures |full| == |s| - m && multiset(out + full) <= multiset(s)
    ensures multiset(out + full) == multiset(s) <==> |out| == m
  {
    assert s == s[..m] + s[m..];
    assert |full| == |multiset(full)| == |s[m..]|;
    assert |multiset(s)| == |s| && |multiset(out + full)| == |out + full|;
    if |out| == m {
      SubMultisetSize(multiset(out), multiset(s[..m]));
    }
  }

  lemma NoLaterBoundary(s: seq<Row>, rank: Rank, limit: nat, j: nat)
    ensures CleanUpTo(s, rank, limit, j) && |s| <= j * limit + limit ==> CleanBoundaries(s, rank, limit)
  {
    if CleanUpTo(s, rank, limit, j) && |s| <= j * limit + limit {
      forall i: nat ensures !TieAt(s, rank, i * limit) {
        if i > j {
          assert i * limit >= (j + 1) * limit == j * limit + limit;
        }
      }
    }
  }

  lemma SubMultisetSize<T>(a: multiset<T>, b: multiset<T>)
    requires a <= b && |a| == |b|
    ensures a == b
  {
    assert b == a + (b - a);
  }

  // ----- the rows whose keys become cursors

  ghost predicate TiedAreCarried(numbers: Numbers, s: seq<Row>, rank: Rank, k: nat)
    requires k < |s|
  {
    forall i :: 0 <= i < |s| && rank(s[i].sortValue) == rank(s[k].sortValue) ==> Carried(numbers, s[i].sortValue)
  }

  /** From the cut `m` on, every key that can end a full page, and so become a cursor, comes back as itself. */
  ghost predicate CursorsCarried(numbers: Numbers, s: seq<Row>, rank: Rank, limit: nat, m: nat)
    requires limit > 0
    decreases |s| - m
  {
    m + limit < |s| ==>
      TiedAreCarried(numbers, s, rank, m + limit - 1) && CursorsCarried(numbers, s, rank, limit, CutBehind(s, rank, m + limit - 1))
  }

  /** Without ties at the boundaries these are the rows at the positions `limit - 1`, `2 * limit - 1`, ... */
  lemma CursorsAtBoundaries(numbers: Numbers, s: seq<Row>, rank: Rank, limit: nat)
    requires limit > 0 && CleanBoundaries(s, rank, limit)
    ensures CursorsCarried(numbers, s, rank, limit, 0)
      <==> forall j: nat :: 0 < j ==> BoundaryCarried(numbers, s, rank, limit, j)
  {
    CursorsAtLaterBoundaries(numbers, s, rank, limit, 0);
    hide CursorsCarried, BoundaryCarried;
  }

  /** How many rows `j` full pages hold. */
  function Pages(limit: nat, j: nat): nat {
    j * limit
  }

  lemma PagesGrow(limit: nat, j: nat, k: nat)
    ensures Pages(limit, j + 1) == Pages(limit, j) + limit
    ensures j <= k ==> Pages(limit, j) <= Pages(limit, k)
  {
    if j <= k {
      assert k * limit == j * limit + (k - j) * limit;
    }
  }

  ghost predicate BoundaryCarried(numbers: Numbers, s: seq<Row>, rank: Rank, limit: nat, j: nat) {
    0 < Pages(limit, j) < |s| ==> TiedAreCarried(numbers, s, rank, Pages(limit, j) - 1)
  }

  lemma NothingTiedBehind(s: seq<Row>, rank: Rank, limit: nat, j: nat)
    requires CleanBoundaries(s, rank, limit) && 0 < Pages(limit, j) < |s|
    ensures CutBehind(s, rank, Pages(limit, j) - 1) == Pages(limit, j)
  {
    assert !TieAt(s, rank, j * limit);
  }

  lemma {:induction false} CursorsAtLaterBoundaries(numbers: Numbers, s: seq<Row>, rank: Rank, limit: nat, from: nat)
    requires limit > 0 && CleanBoundaries(s, rank, limit)
    ensures CursorsCarried(numbers, s, rank, limit, Pages(limit, from))
      <==> forall j: nat :: from < j ==> BoundaryCarried(numbers, s, rank, limit, j)
    decreases |s| - Pages(limit, from)
  {
    hide TiedAreCarried, CutBehind, TieAt, CleanBoundaries, Pages;
    PagesGrow(limit, from, from);
    if Pages(limit, from + 1) < |s| {
      NothingTiedBehind(s, rank, limit, from + 1);
      CursorsAtLaterBoundaries(numbers, s, rank, limit, from + 1);
      assert BoundaryCarried(numbers, s, rank, limit, from + 1)
        <==> TiedAreCarried(numbers, s, rank, Pages(limit, from) + limit - 1);
      assert CursorsCarried(numbers, s, rank, limit, Pages(limit, from))
        <==> BoundaryCarried(numbers, s, rank, limit, from + 1) && CursorsCarried(numbers, s, rank, limit, Pages(limit, from + 1));
    } else {
      forall j: nat | from < j ensures BoundaryCarried(numbers, s, rank, limit, j) {
        PagesGrow(limit, from + 1, j);
      }
    }
  }

  /** A table whose keys all come back as themselves can be walked with any limit. */
  lemma {:induction false} AllCarriedSuffices(numbers: Numbers, s: seq<Row>, rank: Rank, limit: nat, m: nat)
    requires limit > 0 && forall i :: 0 <= i < |s| ==> Carried(numbers, s[i].sortValue)
    ensures CursorsCarried(numbers, s, rank, limit, m)
    decreases |s| - m
  {
    if m + limit < |s| {
      AllCarriedSuffices(numbers, s, rank, limit, CutBehind(s, rank, m + limit - 1));
    }
  }

  ghost predicate DistinctKeys(rows: seq<Row>, rank: Rank) {
    forall i, j :: 0 <= i < j < |rows| ==> rank(rows[i].sortValue) != rank(rows[j].sortValue)
  }

  /**
   * Every page in turn. The pages are in order and never repeat a row; they miss none exactly when no
   * multiple of the limit falls between tied rows of the sorted table, whatever the ties' own order.
   */
  method WalkAll(numbers: Numbers, rows: seq<Row>, where_: Row -> bool, limit: nat, rank: Rank) returns (all: seq<Row>)
    requires limit >= 1 && Lawful(numbers)
    requires CursorsCarried(numbers, StableSort(Filter(rows, where_), Key(rank)), rank, limit, 0)
    ensures SortedBy(all, Key(rank)) && multiset(all) <= multiset(Filter(rows, where_))
    ensures multiset(all) == multiset(Filter(rows, where_))
      <==> CleanBoundaries(StableSort(Filter(rows, where_), Key(rank)), rank, limit)
  {
    hide *;
    ghost var s := StableSort(Filter(rows, where_), Key(rank));
    WalkStarts(numbers, rows, where_, rank, limit);
    all := [];
    var cursor := None;
    ghost var m, j := 0, 0;
    while true
      invariant m <= |s| && Walked(s, rank, limit, j, all, PositionOf(numbers, rank, cursor), m)
      invariant CursorsCarried(numbers, s, rank, limit, m)
      decreases |s| - m
    {
      ghost var after := PositionOf(numbers, rank, cursor);
      var page := FindMany(numbers, rows, FindManyOptions(Some(limit), cursor, where_), rank);
      ghost var full :| PageOf(numbers, Ahead(rows, where_, rank, after), rank, limit, page, full);
      if page.nextCursor.None? {
        LastPage(numbers, rows, where_, s, rank, limit, j, all, after, m, full, page);
        all := all + page.data;
        return;
      }
      m := NextPage(numbers, rows, where_, s, rank, limit, j, all, after, m, full, page);
      all := all + page.data;
      cursor, j := page.nextCursor, j + 1;
    }
  }

  lemma WalkStarts(numbers: Numbers, rows: seq<Row>, where_: Row -> bool, rank: Rank, limit: nat)
    ensures var s := StableSort(Filter(rows, where_), Key(rank));
      Ordered(Filter(rows, where_), rank, s) && Walked(s, rank, limit, 0, [], PositionOf(numbers, rank, None), 0)
  {
    hide Filter, StableSort;
    StableSortSorts(Filter(rows, where_), Key(rank));
    NothingWalked(StableSort(Filter(rows, where_), Key(rank)), rank, limit);
  }

  lemma NothingWalked(s: seq<Row>, rank: Rank, limit: nat)
    ensures Walked(s, rank, limit, 0, [], None, 0)
  {
    assert !TieAt(s, rank, 0);
  }

  lemma LastPage(numbers: Numbers, rows: seq<Row>, where_: Row -> bool, s: seq<Row>, rank: Rank, limit: nat, j: nat,
                 out: seq<Row>, after: Option<real>, m: nat, full: seq<Row>, page: PageResult)
    requires Ordered(Filter(rows, where_), rank, s) && Walked(s, rank, limit, j, out, after, m)
    requires PageOf(numbers, Ahead(rows, where_, rank, after), rank, limit, page, full) && page.nextCursor.None? && limit > 0
    ensures SortedBy(out + page.data, Key(rank)) && multiset(out + page.data) <= multiset(Filter(rows, where_))
    ensures multiset(out + page.data) == multiset(Filter(rows, where_)) <==> CleanBoundaries(s, rank, limit)
  {
    AheadIsTail(rows, where_, rank, s, after, m);
    Finish(s, rank, limit, j, out, after, m, full);
  }

  lemma NextPage(numbers: Numbers, rows: seq<Row>, where_: Row -> bool, s: seq<Row>, rank: Rank, limit: nat, j: nat,
                 out: seq<Row>, after: Option<real>, m: nat, full: seq<Row>, page: PageResult) returns (n: nat)
    requires limit > 0 && Lawful(numbers) && CursorsCarried(numbers, s, rank, limit, m)
    requires Ordered(Filter(rows, where_), rank, s) && Walked(s, rank, limit, j, out, after, m)
    requires PageOf(numbers, Ahead(rows, where_, rank, after), rank, limit, page, full) && page.nextCursor.Some?
    ensures m < n <= |s| && Walked(s, rank, limit, j + 1, out + page.data, PositionOf(numbers, rank, page.nextCursor), n)
    ensures CursorsCarried(numbers, s, rank, limit, n)
  {
    hide *;
    PageMeans(numbers, Ahead(rows, where_, rank, after), rank, limit, page, full);
    OrderedParts(rows, where_, rank, s, after, full);
    CutExists(s, rank, limit, j, out, after, m);
    AheadIsTail(rows, where_, rank, s, after, m);
    n := Advance(s, rank, limit, j, out, after, m, full);
    LastRowIsCarried(numbers, s, rank, limit, m, full);
    CursorPosition(numbers, rank, full[limit - 1]);
    TakesFirst(full, limit);
  }

  lemma PageMeans(numbers: Numbers, ahead: seq<Row>, rank: Rank, limit: nat, page: PageResult, full: seq<Row>)
    requires PageOf(numbers, ahead, rank, limit, page, full) && page.nextCursor.Some?
    ensures Ordered(ahead, rank, full) && |full| > limit > 0 && page.data == Take(full, limit)
    ensures page.nextCursor == Some(CursorParts(EncodeCursorSortValue(numbers, full[limit - 1].sortValue), full[limit - 1].id))
  {
  }

  lemma OrderedParts(rows: seq<Row>, where_: Row -> bool, rank: Rank, s: seq<Row>, after: Option<real>, full: seq<Row>)
    requires Ordered(Filter(rows, where_), rank, s) && Ordered(Ahead(rows, where_, rank, after), rank, full)
    ensures multiset(s) == multiset(Filter(rows, where_)) && SortedBy(s, Key(rank))
    ensures multiset(full) == multiset(Ahead(rows, where_, rank, after)) && SortedBy(full, Key(rank))
  {
  }

  lemma CutExists(s: seq<Row>, rank: Rank, limit: nat, j: nat, out: seq<Row>, after: Option<real>, m: nat)
    requires Walked(s, rank, limit, j, out, after, m)
    ensures Cuts(s, rank, after, m) && m <= |s|
  {
  }

  lemma CursorPosition(numbers: Numbers, rank: Rank, row: Row)
    requires CoerceCursorSortValue(numbers, EncodeCursorSortValue(numbers, row.sortValue)) == row.sortValue
    ensures PositionOf(numbers, rank, Some(CursorParts(EncodeCursorSortValue(numbers, row.sortValue), row.id))) == Some(rank(row.sortValue))
  {
  }

  lemma TakesFirst<T>(s: seq<T>, n: nat)
    requires n < |s|
    ensures Take(s, n) == s[..n]
  {
  }

  /** The last row of a full page is tied with the one at its place in the sorted table. */
  lemma LastRowIsCarried(numbers: Numbers, s: seq<Row>, rank: Rank, limit: nat, m: nat, full: seq<Row>)
    requires Lawful(numbers) && 0 < limit && m + limit < |s| && CursorsCarried(numbers, s, rank, limit, m)
    requires SortedBy(s, Key(rank)) && SortedBy(full, Key(rank)) && multiset(full) == multiset(s[m..]) && limit < |full|
    ensures CoerceCursorSortValue(numbers, EncodeCursorSortValue(numbers, full[limit - 1].sortValue)) == full[limit - 1].sortValue
    ensures CursorsCarried(numbers, s, rank, limit, CutBehind(s, rank, m + limit - 1))
  {
    SamePlaces(s, rank, m, full);
    SameMembers(full, s[m..]);
    var last := full[limit - 1];
    assert last in s[m..];
    var i :| 0 <= i < |s| - m && s[m..][i] == last;
    assert s[m + i] == last;
    CarriedExactly(numbers, last.sortValue);
    hide SortedBy, Key, CutBehind, CoerceCursorSortValue, EncodeCursorSortValue, Carried;
  }

  /** With distinct sort values the walk is exactly the sorted list. */
  lemma DistinctMeansExact(s: seq<Row>, all: seq<Row>, rank: Rank, limit: nat)
    requires SortedBy(s, Key(rank)) && DistinctKeys(s, rank)
    ensures CleanBoundaries(s, rank, limit)
    ensures SortedBy(all, Key(rank)) && multiset(all) == multiset(s) ==> all == s
  {
    if SortedBy(all, Key(rank)) && multiset(all) == multiset(s) {
      SameKeys(s, all, rank);
      SameMembers(all, s);
      forall i | 0 <= i < |s| ensures all[i] == s[i] {
        assert all[i] in s;
        var k :| 0 <= k < |s| && s[k] == all[i];
      }
    }
  }
}
