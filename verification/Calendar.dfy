// UTC calendar arithmetic: `Date.UTC`, `toISOString().slice(0, 10)` and `getUTCDay` as
// section 21.4.1 of ECMA-262 defines them, and the date helpers of the metrics scripts on top.
// A day is counted from 1970-01-01; a time is a day times MS_PER_DAY.
module Calendar {
  import opened Prelude

  const MS_PER_DAY: int := 86_400_000

  // ---- Days, months, years ----

  datatype Civil = Civil(year: int, month: int, day: int)

  predicate Leap(y: int) {
    y % 4 == 0 && (y % 100 != 0 || y % 400 == 0)
  }

  function MonthLength(leap: bool, m: int): int {
    if m == 2 then (if leap then 29 else 28)
    else if m == 4 || m == 6 || m == 9 || m == 11 then 30
    else 31
  }

  predicate ValidCivil(c: Civil) {
    1 <= c.month <= 12 && 1 <= c.day <= MonthLength(Leap(c.year), c.month)
  }

  function DayFromYear(y: int): int {
    365 * (y - 1970) + (y - 1969) / 4 - (y - 1901) / 100 + (y - 1601) / 400
  }

  /** Days of the year before month `m`, counted from 0. */
  function MonthStart(leap: bool, m: int): int {
    var l := if leap then 1 else 0;
    if m <= 0 then 0 else if m == 1 then 31 else if m == 2 then 59 + l else if m == 3 then 90 + l
    else if m == 4 then 120 + l else if m == 5 then 151 + l else if m == 6 then 181 + l
    else if m == 7 then 212 + l else if m == 8 then 243 + l else if m == 9 then 273 + l
    else if m == 10 then 304 + l else if m == 11 then 334 + l else 365 + l
  }

  lemma MonthSteps(leap: bool, m: int)
    requires 0 <= m <= 11
    ensures MonthStart(leap, m + 1) == MonthStart(leap, m) + MonthLength(leap, m + 1)
    ensures 28 <= MonthLength(leap, m + 1) <= 31 && MonthStart(leap, m + 1) <= MonthStart(leap, 12)
  {
  }

  lemma MonthEnds(leap: bool, m: int)
    requires 0 <= m <= 11
    ensures 0 <= MonthStart(leap, m) && MonthStart(leap, 12) == if leap then 366 else 365
  {
  }

  lemma MonthUnique(leap: bool, m: int, d: int)
    requires 0 <= m <= 11 && MonthStart(leap, m) <= d < MonthStart(leap, m + 1)
    ensures MonthOfYearDay(leap, d) == m
  {
  }

  function DayNumber(c: Civil): int {
    DayFromYear(c.year) + MonthStart(Leap(c.year), c.month - 1) + c.day - 1
  }

  lemma YearLength(y: int)
    ensures DayFromYear(y + 1) == DayFromYear(y) + (if Leap(y) then 366 else 365)
  {
    LeapBy4(y);
    LeapBy100(y);
    LeapBy400(y);
  }

  lemma LeapBy4(y: int)
    ensures (y - 1968) / 4 == (y - 1969) / 4 + (if y % 4 == 0 then 1 else 0)
  {
  }

  lemma LeapBy100(y: int)
    ensures (y - 1900) / 100 == (y - 1901) / 100 + (if y % 100 == 0 then 1 else 0)
  {
  }

  lemma LeapBy400(y: int)
    ensures (y - 1600) / 400 == (y - 1601) / 400 + (if y % 400 == 0 then 1 else 0)
    ensures y % 400 == 0 ==> y % 100 == 0
    ensures y % 100 == 0 ==> y % 4 == 0
  {
  }

  /** The year holding day `n`, found by walking from year `y`. */
  function SeekYear(n: int, y: int): (r: int)
    ensures DayFromYear(r) <= n < DayFromYear(r + 1)
    decreases if n < DayFromYear(y) then DayFromYear(y) - n
              else if n >= DayFromYear(y + 1) then n - DayFromYear(y + 1) + 1 else 0
  {
    hide DayFromYear, Leap;
    YearLength(y - 1);
    YearLength(y);
    YearLength(y + 1);
    if n < DayFromYear(y) then SeekYear(n, y - 1)
    else if n >= DayFromYear(y + 1) then SeekYear(n, y + 1)
    else y
  }

  function YearOfDay(n: int): (r: int)
    ensures DayFromYear(r) <= n < DayFromYear(r + 1)
  {
    SeekYear(n, 1970 + n / 366)
  }

  lemma {:induction false} YearsAscend(a: int, b: int)
    requires a < b
    ensures DayFromYear(a) + 365 <= DayFromYear(b)
    decreases b - a
  {
    YearLength(a);
    if a + 1 < b {
      YearsAscend(a + 1, b);
    }
  }

  lemma YearUnique(n: int, y: int)
    requires DayFromYear(y) <= n < DayFromYear(y + 1)
    ensures YearOfDay(n) == y
  {
    var r := YearOfDay(n);
    if r < y && r + 1 < y { YearsAscend(r + 1, y); }
    if y < r && y + 1 < r { YearsAscend(y + 1, r); }
  }

  function MonthOfYearDay(leap: bool, d: int): (m: int)
    ensures 0 <= m <= 11
    ensures 0 <= d < MonthStart(leap, 12) ==> MonthStart(leap, m) <= d < MonthStart(leap, m + 1)
  {
    if d < MonthStart(leap, 1) then 0 else if d < MonthStart(leap, 2) then 1
    else if d < MonthStart(leap, 3) then 2 else if d < MonthStart(leap, 4) then 3
    else if d < MonthStart(leap, 5) then 4 else if d < MonthStart(leap, 6) then 5
    else if d < MonthStart(leap, 7) then 6 else if d < MonthStart(leap, 8) then 7
    else if d < MonthStart(leap, 9) then 8 else if d < MonthStart(leap, 10) then 9
    else if d < MonthStart(leap, 11) then 10 else 11
  }

  function CivilIn(y: int, n: int): Civil {
    var d := n - DayFromYear(y);
    var m := MonthOfYearDay(Leap(y), d);
    Civil(y, m + 1, d - MonthStart(Leap(y), m) + 1)
  }

  lemma CivilInIsValid(y: int, n: int)
    requires DayFromYear(y) <= n < DayFromYear(y + 1)
    ensures ValidCivil(CivilIn(y, n)) && DayNumber(CivilIn(y, n)) == n
  {
    hide DayFromYear, Leap;
    YearLength(y);
    MonthSteps(Leap(y), MonthOfYearDay(Leap(y), n - DayFromYear(y)));
  }

  function CivilOfDay(n: int): (c: Civil)
    ensures ValidCivil(c) && DayNumber(c) == n
  {
    var y := YearOfDay(n);
    CivilInIsValid(y, n);
    CivilIn(y, n)
  }

  /** Every valid calendar date is found again from its day number. */
  lemma CivilRoundTrip(c: Civil)
    requires ValidCivil(c)
    ensures CivilOfDay(DayNumber(c)) == c
  {
    hide DayFromYear, Leap, MonthStart, MonthLength, YearOfDay, MonthOfYearDay;
    YearLength(c.year);
    MonthSteps(Leap(c.year), c.month - 1);
    MonthEnds(Leap(c.year), c.month - 1);
    YearUnique(DayNumber(c), c.year);
    MonthUnique(Leap(c.year), c.month - 1, DayNumber(c) - DayFromYear(c.year));
  }

  function NextCivil(c: Civil): Civil {
    if c.day < MonthLength(Leap(c.year), c.month) then Civil(c.year, c.month, c.day + 1)
    else if c.month < 12 then Civil(c.year, c.month + 1, 1)
    else Civil(c.year + 1, 1, 1)
  }

  /** The day number is the calendar's own count: 0 on 1970-01-01, one more on each following date. */
  lemma DayNumberCounts(c: Civil)
    requires ValidCivil(c)
    ensures ValidCivil(NextCivil(c)) && DayNumber(NextCivil(c)) == DayNumber(c) + 1
    ensures DayNumber(Civil(1970, 1, 1)) == 0
  {
    assert DayFromYear(1970) == 0;
    hide DayFromYear, Leap;
    YearLength(c.year);
  }

  lemma DayNumberOrder(a: Civil, b: Civil)
    requires ValidCivil(a) && ValidCivil(b)
    ensures DayNumber(a) < DayNumber(b) <==>
            a.year < b.year || (a.year == b.year && (a.month < b.month || (a.month == b.month && a.day < b.day)))
  {
    hide DayFromYear, Leap, MonthLength;
    YearLength(a.year);
    YearLength(b.year);
    MonthSteps(Leap(a.year), a.month - 1);
    MonthSteps(Leap(b.year), b.month - 1);
    if a.year + 1 < b.year { YearsAscend(a.year + 1, b.year); }
    if b.year + 1 < a.year { YearsAscend(b.year + 1, a.year); }
  }

  // ---- Text ----

  predicate IsDigit(c: char) {
    '0' <= c <= '9'
  }

  function DigitValue(c: char): nat
    requires IsDigit(c)
  {
    c as int - '0' as int
  }

  function Digit(n: nat): (c: char)
    requires n < 10
    ensures IsDigit(c) && DigitValue(c) == n
  {
    ('0' as int + n) as char
  }

  function Pad2(n: nat): (s: string)
    requires n < 100
    ensures |s| == 2
  {
    [Digit(n / 10), Digit(n % 10)]
  }

  function Pad4(n: nat): (s: string)
    requires n < 10_000
    ensures |s| == 4
  {
    Pad2(n / 100) + Pad2(n % 100)
  }

  /** `/^(\d{4})-(\d{2})-(\d{2})$/`. */
  predicate IsoShape(s: string) {
    && |s| == 10
    && IsDigit(s[0]) && IsDigit(s[1]) && IsDigit(s[2]) && IsDigit(s[3]) && s[4] == '-'
    && IsDigit(s[5]) && IsDigit(s[6]) && s[7] == '-' && IsDigit(s[8]) && IsDigit(s[9])
  }

  function Value2(a: char, b: char): (n: nat)
    requires IsDigit(a) && IsDigit(b)
    ensures n < 100
  {
    10 * DigitValue(a) + DigitValue(b)
  }

  /** The three matched numbers, whether or not they name a date. */
  function Matched(s: string): Civil
    requires IsoShape(s)
  {
    Civil(100 * Value2(s[0], s[1]) + Value2(s[2], s[3]), Value2(s[5], s[6]), Value2(s[8], s[9]))
  }

  /** `toISOString().slice(0, 10)`: outside years 0 to 9999 the year takes a sign and six digits. */
  function CivilText(c: Civil): (s: string)
    requires ValidCivil(c)
    ensures |s| == 10
  {
    if 0 <= c.year < 10_000 then
      Pad4(c.year) + "-" + Pad2(c.month) + "-" + Pad2(c.day)
    else
      var y := if c.year < 0 then -c.year else c.year;
      [if c.year < 0 then '-' else '+'] + Pad2(y / 10_000 % 100) + Pad4(y % 10_000) + "-" + Pad2(c.month)
  }

  function IsoDate(day: int): (s: string)
    ensures |s| == 10
  {
    CivilText(CivilOfDay(day))
  }

  lemma TextMatches(c: Civil)
    requires ValidCivil(c) && 0 <= c.year < 10_000
    ensures IsoShape(CivilText(c)) && Matched(CivilText(c)) == c
  {
  }

  lemma SignedText(c: Civil)
    requires ValidCivil(c)
    ensures !(0 <= c.year < 10_000) ==> !IsDigit(CivilText(c)[0])
  {
    hide Leap, MonthLength, Pad2, Pad4;
  }

  lemma MatchedText(s: string)
    requires IsoShape(s) && ValidCivil(Matched(s))
    ensures CivilText(Matched(s)) == s
  {
    hide Leap;
    var y := Value2(s[2], s[3]);
    assert Matched(s).year / 100 == Value2(s[0], s[1]) && Matched(s).year % 100 == y;
    Pad2Value(s[0], s[1]);
    Pad2Value(s[2], s[3]);
    Pad2Value(s[5], s[6]);
    Pad2Value(s[8], s[9]);
    assert s == [s[0], s[1]] + [s[2], s[3]] + "-" + [s[5], s[6]] + "-" + [s[8], s[9]];
  }

  lemma Pad2Value(a: char, b: char)
    requires IsDigit(a) && IsDigit(b)
    ensures Pad2(Value2(a, b)) == [a, b]
  {
    assert Value2(a, b) / 10 == DigitValue(a) && Value2(a, b) % 10 == DigitValue(b);
  }

  lemma MatchedBounds(s: string)
    requires IsoShape(s)
    ensures var c := Matched(s); 0 <= c.year < 10_000 && 0 <= c.month < 100 && 0 <= c.day < 100
  {
  }

  /** Byte order on shaped text is the order of the matched numbers. */
  lemma ShapeOrder(s: string, t: string)
    requires IsoShape(s) && IsoShape(t)
    ensures var a, b := Matched(s), Matched(t);
            StrLess(s, t) <==>
            a.year < b.year || (a.year == b.year && (a.month < b.month || (a.month == b.month && a.day < b.day)))
  {
    Cut(s, t, 4);
    Cut(s[4..], t[4..], 1);
    Cut(s[5..], t[5..], 2);
    Cut(s[7..], t[7..], 1);
    assert s[4..][1..] == s[5..] && t[4..][1..] == t[5..] && s[4..][..1] == "-" == t[4..][..1];
    assert s[5..][2..] == s[7..] && t[5..][2..] == t[7..];
    assert s[7..][1..] == s[8..] && t[7..][1..] == t[8..] && s[7..][..1] == "-" == t[7..][..1];
    StrAsym("-", "-");
    assert s[..4] == s[..2] + s[2..4] && t[..4] == t[..2] + t[2..4];
    StrLessConcat(s[..2], s[2..4], t[..2], t[2..4]);
    Pair(s[..2], t[..2]);
    Pair(s[2..4], t[2..4]);
    Pair(s[5..][..2], t[5..][..2]);
    Pair(s[8..], t[8..]);
  }

  lemma Cut(s: string, t: string, k: nat)
    requires k <= |s| && k <= |t|
    ensures StrLess(s, t) <==> StrLess(s[..k], t[..k]) || (s[..k] == t[..k] && StrLess(s[k..], t[k..]))
  {
    assert s == s[..k] + s[k..] && t == t[..k] + t[k..];
    StrLessConcat(s[..k], s[k..], t[..k], t[k..]);
  }

  lemma Pair(p: string, q: string)
    requires |p| == |q| == 2 && IsDigit(p[0]) && IsDigit(p[1]) && IsDigit(q[0]) && IsDigit(q[1])
    ensures StrLess(p, q) <==> Value2(p[0], p[1]) < Value2(q[0], q[1])
    ensures p == q <==> Value2(p[0], p[1]) == Value2(q[0], q[1])
  {
    assert StrLess(p, q) <==> p[0] < q[0] || (p[0] == q[0] && StrLess(p[1..], q[1..]));
    assert StrLess(p[1..], q[1..]) <==> p[1] < q[1];
  }

  /** Printed days of years 0 to 9999 sort as their days do. */
  lemma IsoDateOrder(m: int, n: int)
    requires DayFromYear(0) <= m < DayFromYear(10_000) && DayFromYear(0) <= n < DayFromYear(10_000)
    ensures StrLess(IsoDate(m), IsoDate(n)) <==> m < n
    ensures IsoShape(IsoDate(m)) && (IsoDate(m) == IsoDate(n) <==> m == n)
  {
    YearInRange(m);
    YearInRange(n);
    TextMatches(CivilOfDay(m));
    TextMatches(CivilOfDay(n));
    ShapeOrder(IsoDate(m), IsoDate(n));
    DayNumberOrder(CivilOfDay(m), CivilOfDay(n));
  }

  lemma YearInRange(n: int)
    requires DayFromYear(0) <= n < DayFromYear(10_000)
    ensures 0 <= CivilOfDay(n).year < 10_000
  {
    var y := YearOfDay(n);
    if y < 0 && y + 1 < 0 { YearsAscend(y + 1, 0); }
    if y > 10_000 { YearsAscend(10_000, y); }
  }

  // ---- Date.UTC and the scripts' validators ----

  /** MakeDay of section 21.4.1.28: months past 11 carry into the year, days past the month run on. */
  function MakeDay(year: int, month: int, date: int): int {
    var y := year + month / 12;
    DayFromYear(y) + MonthStart(Leap(y), month % 12) + date - 1
  }

  /** The day of `Date.UTC(year, month, date)`: years 0 to 99 mean 1900 to 1999. */
  function DateUtc(year: int, month: int, date: int): int {
    MakeDay(if 0 <= year <= 99 then 1900 + year else year, month, date)
  }

  datatype DateError = NotShaped | NotReal | OutOfRange

  function UtcDayStart(date: string): Result<int, DateError> {
    if !IsoShape(date) then Err(NotShaped)
    else
      var c := Matched(date);
      var day := DateUtc(c.year, c.month - 1, c.day);
      if IsoDate(day) != date then Err(NotReal) else Ok(day * MS_PER_DAY)
  }

  /** A real calendar date of the years 0100 to 9999. */
  predicate RealDate(s: string) {
    IsoShape(s) && ValidCivil(Matched(s)) && Matched(s).year >= 100
  }

  /** Days since 1970-01-01. */
  function DayOf(s: string): int
    requires RealDate(s)
  {
    DayNumber(Matched(s))
  }

  const FIRST_DAY: int := DayFromYear(100)
  const LAST_DAY: int := DayFromYear(10_000) - 1

  lemma DateUtcOfReal(date: string)
    requires RealDate(date)
    ensures var c := Matched(date); DateUtc(c.year, c.month - 1, c.day) == DayOf(date)
  {
    hide DayFromYear, Leap, MonthLength, MonthStart;
    var c := Matched(date);
    assert (c.month - 1) / 12 == 0 && (c.month - 1) % 12 == c.month - 1;
  }

  lemma UtcDayStartAccepts(date: string)
    ensures UtcDayStart(date).Ok? <==> RealDate(date)
    ensures RealDate(date) ==> UtcDayStart(date) == Ok(DayOf(date) * MS_PER_DAY)
  {
    hide DayFromYear, Leap, MonthLength, MonthStart, Value2, CivilText, DateUtc, CivilOfDay;
    if IsoShape(date) {
      var c := Matched(date);
      var day := DateUtc(c.year, c.month - 1, c.day);
      if RealDate(date) {
        DateUtcOfReal(date);
        CivilRoundTrip(c);
        MatchedText(date);
      } else if IsoDate(day) == date {
        RoundTripMatches(day, date);
        if c.year <= 99 {
          YearLowerBound(c);
        }
      }
    }
  }

  lemma RoundTripMatches(day: int, date: string)
    requires IsoShape(date) && IsoDate(day) == date
    ensures CivilOfDay(day) == Matched(date)
  {
    hide DayFromYear, Leap, MonthLength, MonthStart, CivilOfDay, Pad2;
    var c := CivilOfDay(day);
    SignedText(c);
    TextMatches(c);
  }

  /** A two-digit year was read as 19xx, so it cannot come back as itself. */
  lemma YearLowerBound(c: Civil)
    requires 0 <= c.year <= 99 && 0 <= c.month <= 99 && 0 <= c.day <= 99
    ensures CivilOfDay(DateUtc(c.year, c.month - 1, c.day)).year >= 1800
  {
    var y := 1900 + c.year + (c.month - 1) / 12;
    var day := DateUtc(c.year, c.month - 1, c.day);
    assert day >= DayFromYear(y) - 1;
    assert y >= 1899;
    YearsAscend(1800, y);
    var r := CivilOfDay(day).year;
    if r < 1800 && r + 1 < 1800 { YearsAscend(r + 1, 1800); }
  }

  lemma RealDateRange(s: string)
    requires RealDate(s)
    ensures FIRST_DAY <= DayOf(s) <= LAST_DAY && IsoDate(DayOf(s)) == s
  {
    hide DayFromYear, Leap, CivilOfDay, Value2, CivilText;
    var c := Matched(s);
    CivilRoundTrip(c);
    MatchedText(s);
    MonthSteps(Leap(c.year), c.month - 1);
    YearLength(c.year);
    assert 100 <= c.year < 10_000 by { MatchedBounds(s); }
    if c.year > 100 { YearsAscend(100, c.year); }
    if c.year + 1 < 10_000 { YearsAscend(c.year + 1, 10_000); }
  }

  lemma DayIsReal(n: int)
    requires FIRST_DAY <= n <= LAST_DAY
    ensures RealDate(IsoDate(n)) && DayOf(IsoDate(n)) == n
  {
    YearsAscend(0, 100);
    YearInRange(n);
    TextMatches(CivilOfDay(n));
    var y := YearOfDay(n);
    if y < 100 && y + 1 < 100 { YearsAscend(y + 1, 100); }
  }

  /** `compareStrings` orders real dates by their day, so by their time. */
  lemma RealDateOrder(a: string, b: string)
    requires RealDate(a) && RealDate(b)
    ensures StrLess(a, b) <==> DayOf(a) < DayOf(b)
    ensures a == b <==> DayOf(a) == DayOf(b)
  {
    RealDateRange(a);
    RealDateRange(b);
    YearsAscend(0, 100);
    IsoDateOrder(DayOf(a), DayOf(b));
  }

  // ---- Stepping and weeks ----

  /** The last day of the time range, 8.64e15 ms either side of 1970 (section 21.4.1.1 of ECMA-262). */
  const MAX_DAY: int := 100_000_000

  /** `addDays`; `daysBefore(date, n)` is a step of `-n`. `toISOString` throws past the time range. */
  function AddDays(date: string, delta: int): Result<string, DateError> {
    match UtcDayStart(date)
    case Ok(start) =>
      var time := start + delta * MS_PER_DAY;
      if time < -MAX_DAY * MS_PER_DAY || time > MAX_DAY * MS_PER_DAY then Err(OutOfRange)
      else Ok(IsoDate(time / MS_PER_DAY))
    case Err(e) => Err(e)
  }

  lemma DayBounds()
    ensures -1_000_000 < FIRST_DAY && LAST_DAY < 3_000_000
  {
  }

  lemma StepTimes(day: int, delta: int)
    ensures day * MS_PER_DAY + delta * MS_PER_DAY == (day + delta) * MS_PER_DAY
    ensures -MAX_DAY * MS_PER_DAY <= (day + delta) * MS_PER_DAY <= MAX_DAY * MS_PER_DAY
       <==> -MAX_DAY <= day + delta <= MAX_DAY
    ensures (day + delta) * MS_PER_DAY / MS_PER_DAY == day + delta
  {
  }

  /** Stepping from a real date reaches exactly the date that many days on, and throws iff it leaves the range. */
  lemma AddDaysSteps(date: string, delta: int)
    ensures AddDays(date, delta).Ok? <==> RealDate(date) && -MAX_DAY <= DayOf(date) + delta <= MAX_DAY
    ensures AddDays(date, delta).Ok? ==> AddDays(date, delta) == Ok(IsoDate(DayOf(date) + delta))
    ensures RealDate(date) && AddDays(date, delta).Err? ==> AddDays(date, delta) == Err(OutOfRange)
    ensures RealDate(date) && -1000 <= delta <= 1000 ==> AddDays(date, delta).Ok?
    ensures RealDate(date) && FIRST_DAY <= DayOf(date) + delta <= LAST_DAY ==>
              && AddDays(date, delta).Ok?
              && var next := AddDays(date, delta).value;
                 RealDate(next) && DayOf(next) == DayOf(date) + delta && AddDays(next, -delta) == Ok(date)
  {
    hide DayFromYear, RealDate, UtcDayStart, DayOf, IsoDate;
    UtcDayStartAccepts(date);
    if RealDate(date) {
      var day := DayOf(date);
      DayBounds();
      RealDateRange(date);
      StepTimes(day, delta);
      if FIRST_DAY <= day + delta <= LAST_DAY {
        DayIsReal(day + delta);
        var next := IsoDate(day + delta);
        UtcDayStartAccepts(next);
        StepTimes(day + delta, -delta);
      }
    }
  }

  /** `getUTCDay`: 0 is Sunday. */
  function WeekDay(day: int): int {
    (day + 4) % 7
  }

  function UtcMonday(date: string): Result<string, DateError> {
    if !IsoShape(date) then Err(NotShaped)
    else
      var c := Matched(date);
      var day := DateUtc(c.year, c.month - 1, c.day);
      if IsoDate(day) != date then Err(NotReal)
      else Ok(IsoDate(day - (WeekDay(day) + 6) % 7))
  }

  /** The one Monday of the seven days ending on `day`. */
  function MondayOf(day: int): (m: int)
    ensures m <= day <= m + 6 && WeekDay(m) == 1
    ensures forall k :: day - 6 <= k <= day && WeekDay(k) == 1 ==> k == m
  {
    day - (WeekDay(day) + 6) % 7
  }

  lemma UtcMondayIsMonday(date: string)
    ensures UtcMonday(date).Ok? <==> RealDate(date)
    ensures RealDate(date) ==> UtcMonday(date) == Ok(IsoDate(MondayOf(DayOf(date))))
  {
    hide DayFromYear, Leap, MonthLength, MonthStart, Value2, CivilText, DateUtc, CivilOfDay, IsoDate, DayOf;
    UtcDayStartAccepts(date);
    if RealDate(date) {
      DateUtcOfReal(date);
    }
  }

  lemma MondayMonotone(a: int, b: int)
    requires a <= b
    ensures MondayOf(a) <= MondayOf(b)
    ensures MondayOf(MondayOf(a)) == MondayOf(a)
    ensures MondayOf(a) == MondayOf(b) ==> b - a <= 6
  {
  }

  /** `utcMonday` never moves a later date to an earlier week, text order included. */
  lemma UtcMondayMonotone(a: string, b: string)
    requires RealDate(a) && RealDate(b) && StrLeq(a, b)
    ensures UtcMonday(a).Ok? && UtcMonday(b).Ok? && StrLeq(UtcMonday(a).value, UtcMonday(b).value)
  {
    hide DayFromYear, RealDate, UtcMonday, DayOf, IsoDate, MondayOf;
    UtcMondayIsMonday(a);
    UtcMondayIsMonday(b);
    RealDateOrder(b, a);
    MondayMonotone(DayOf(a), DayOf(b));
    MondayPrintable(a);
    MondayPrintable(b);
    IsoDateOrder(MondayOf(DayOf(b)), MondayOf(DayOf(a)));
  }

  lemma MondayPrintable(a: string)
    requires RealDate(a)
    ensures DayFromYear(0) <= MondayOf(DayOf(a)) < DayFromYear(10_000)
  {
    RealDateRange(a);
    YearsAscend(0, 100);
  }

  /** The first Monday of year 0100 is its fourth day; an earlier date's Monday has a year the validator refuses. */
  lemma MondayIsReal(a: string)
    requires RealDate(a)
    ensures UtcMonday(a).Ok? && (RealDate(UtcMonday(a).value) <==> MondayOf(DayOf(a)) >= FIRST_DAY)
  {
    hide DayFromYear, RealDate, UtcMonday, DayOf, IsoDate, MondayOf;
    UtcMondayIsMonday(a);
    RealDateRange(a);
    MondayPrintable(a);
    var m := MondayOf(DayOf(a));
    if m >= FIRST_DAY {
      DayIsReal(m);
    }
    if RealDate(IsoDate(m)) {
      var n := DayOf(IsoDate(m));
      RealDateRange(IsoDate(m));
      YearsAscend(0, 100);
      IsoDateOrder(n, m);
    }
  }
}
