/** The timestamp of the health endpoint: seconds since the Unix epoch as a UTC date and time
    in the proleptic Gregorian calendar, written in the extended format of ISO 8601-1:2019
    section 5.4.2 (the profile of RFC 3339 section 5.6). */
module Calendar {
  import opened Text
  import opened Numbers

  const U64_MAX: nat := 0xFFFF_FFFF_FFFF_FFFF
  const I64_MAX: int := 0x7FFF_FFFF_FFFF_FFFF
  const I64_MIN: int := -I64_MAX - 1

  datatype Stamp = Stamp(year: int, month: int, day: int, hour: int, minute: int, second: int)

  /** Days since 0000-03-01, as the source computes them, clamping where it clamps. */
  function ShiftedDays(secs: nat): int {
    SaturatingAdd(if secs / 86_400 <= I64_MAX then secs / 86_400 else I64_MAX, 719_468, I64_MIN, I64_MAX)
  }

  /** The civil-from-days chain. All divisions in the source have non-negative operands or
      are `div_euclid`/`rem_euclid`, so they are Dafny's own. */
  function Civil(secs: nat): Stamp {
    var rem := secs % 86_400;
    var z := ShiftedDays(secs);
    var era := z / 146_097;
    var doe := z % 146_097;
    var yoe := YearOfEra(doe);
    var doy := doe - (365 * yoe + yoe / 4 - yoe / 100);
    var mp := (5 * doy + 2) / 153;
    var day := doy - (153 * mp + 2) / 5 + 1;
    var month := if mp < 10 then mp + 3 else mp - 9;
    var year := if month <= 2 then yoe + era * 400 + 1 else yoe + era * 400;
    Stamp(year, month, day, rem / 3600, rem % 3600 / 60, rem % 60)
  }

  function YearOfEra(doe: int): int {
    Adjusted(doe) / 365
  }

  function Adjusted(doe: int): int {
    doe - doe / 1460 + doe / 36_524 - doe / 146_096
  }

  // ---------------------------------------------------------------- the naive calendar

  predicate IsLeap(year: int) {
    year % 4 == 0 && (year % 100 != 0 || year % 400 == 0)
  }

  function DaysInYear(year: int): int {
    if IsLeap(year) then 366 else 365
  }

  function DaysInMonth(year: int, month: int): int {
    if month == 2 then (if IsLeap(year) then 29 else 28)
    else if month == 4 || month == 6 || month == 9 || month == 11 then 30
    else 31
  }

  predicate ValidDate(s: Stamp) {
    1 <= s.month <= 12 && 1 <= s.day <= DaysInMonth(s.year, s.month)
  }

  predicate ValidTime(s: Stamp) {
    0 <= s.hour < 24 && 0 <= s.minute < 60 && 0 <= s.second < 60
  }

  /** Days from 1970-01-01 to the first day of a year, counted year by year. */
  function DaysBeforeYear(year: int): int
    requires year >= 1970
    decreases year
  {
    if year == 1970 then 0 else DaysBeforeYear(year - 1) + DaysInYear(year - 1)
  }

  /** Days in the year before a month, counted month by month. */
  function DaysBeforeMonth(year: int, month: int): int
    requires 1 <= month <= 13
    decreases month
  {
    if month == 1 then 0 else DaysBeforeMonth(year, month - 1) + DaysInMonth(year, month - 1)
  }

  function NaiveDays(s: Stamp): int
    requires s.year >= 1970 && ValidDate(s)
  {
    DaysBeforeYear(s.year) + DaysBeforeMonth(s.year, s.month) + s.day - 1
  }

  function NaiveSeconds(s: Stamp): int
    requires s.year >= 1970 && ValidDate(s)
  {
    NaiveDays(s) * 86_400 + s.hour * 3600 + s.minute * 60 + s.second
  }

  // ---------------------------------------------------------------- closed forms

  /** Leap days up to and including a year. */
  function LeapDays(year: int): int {
    year / 4 - year / 100 + year / 400
  }

  lemma QuotientStep(year: int, n: int)
    requires n == 4 || n == 100 || n == 400
    ensures year / n - (year - 1) / n == if year % n == 0 then 1 else 0
  {
  }

  lemma LeapStep(year: int)
    ensures LeapDays(year) - LeapDays(year - 1) == if IsLeap(year) then 1 else 0
  {
    QuotientStep(year, 4);
    QuotientStep(year, 100);
    QuotientStep(year, 400);
    CenturyYears(year);
  }

  lemma CenturyYears(year: int)
    ensures year % 400 == 0 ==> year % 100 == 0
    ensures year % 100 == 0 ==> year % 4 == 0
  {
  }

  lemma {:induction false} YearsClosed(year: int)
    requires year >= 1970
    ensures DaysBeforeYear(year) == 365 * (year - 1970) + LeapDays(year - 1) - 477
    decreases year
  {
    if year > 1970 {
      YearsClosed(year - 1);
      LeapStep(year - 1);
    }
  }

  lemma MonthsClosed(year: int, month: int)
    requires 1 <= month <= 13
    ensures month >= 3 ==> DaysBeforeMonth(year, month) == DaysInYear(year) - 306 + (153 * (month - 3) + 2) / 5
    ensures month <= 2 ==> DaysBeforeMonth(year, month) == if month == 1 then 0 else 31
  {
    var f := m requires 1 <= m <= 13 => DaysBeforeMonth(year, m);
    assert f(1) == 0 && f(2) == 31 && f(3) == DaysInYear(year) - 306;
    assert f(4) == f(3) + 31 && f(5) == f(4) + 30 && f(6) == f(5) + 31 && f(7) == f(6) + 30 && f(8) == f(7) + 31;
    assert f(9) == f(8) + 31 && f(10) == f(9) + 30 && f(11) == f(10) + 31 && f(12) == f(11) + 30 && f(13) == f(12) + 31;
  }

  /** First day of a year of the era, which starts on the first of March. */
  function YearStart(y: int): int {
    365 * y + LeapDays(y)
  }

  lemma AdjustedMonotone(a: int, b: int)
    requires 0 <= a <= b
    ensures Adjusted(a) <= Adjusted(b)
  {
    assert b / 1460 - a / 1460 <= b - a;
    assert a / 146_096 == a / 36_524 / 4;
    assert b / 146_096 == b / 36_524 / 4;
    assert a / 36_524 <= b / 36_524;
  }

  /** On the first day of a year the adjusted count has reached 365 times the year, and on the
      day before it has not. */
  lemma AdjustedAtYearStart(y: int, c: int, q: int, k: int)
    requires y == 100 * c + 4 * q + k && 0 <= c < 4 && 0 <= q < 25 && 0 <= k < 4
    ensures Adjusted(YearStart(y)) >= 365 * y
    ensures y > 0 ==> Adjusted(YearStart(y) - 1) < 365 * y
  {
    var start := 36_524 * c + 1461 * q + 365 * k;
    assert y / 4 == 25 * c + q && y / 100 == c && y / 400 == 0;
    assert YearStart(y) == start;
    assert 0 <= 1461 * q + 365 * k < 36_524;
    assert start / 36_524 == c && start / 146_096 == 0;
    assert start == 1460 * (25 * c + q) + (24 * c + q + 365 * k);
    assert start / 1460 == 25 * c + q;
    if y > 0 {
      var last := start - 1;
      if q == 0 && k == 0 {
        assert last == 36_524 * (c - 1) + 36_523;
        assert last / 36_524 == c - 1 && last / 146_096 == 0;
        assert last == 1460 * (25 * c) + (24 * c - 1);
        assert last / 1460 == 25 * c;
      } else {
        assert last / 36_524 == c && last / 146_096 == 0;
        assert last == 1460 * (25 * c + q) + (24 * c + q + 365 * k - 1);
        assert last / 1460 == 25 * c + q;
      }
    }
  }

  lemma AdjustedAtYear(y: int)
    requires 0 <= y < 400
    ensures Adjusted(YearStart(y)) >= 365 * y
    ensures y > 0 ==> Adjusted(YearStart(y) - 1) < 365 * y
  {
    AdjustedAtYearStart(y, y / 100, y % 100 / 4, y % 4);
  }

  lemma AdjustedRange(doe: int)
    requires 0 <= doe < 146_097
    ensures 0 <= Adjusted(doe) < 146_000
  {
    AdjustedMonotone(0, doe);
    AdjustedMonotone(doe, 146_096);
  }

  lemma NotBeforeYear(doe: int, y: int)
    requires 0 <= doe < YearStart(y) && 0 < y < 400
    ensures Adjusted(doe) < 365 * y
  {
    var last := YearStart(y) - 1;
    AdjustedAtYear(y);
    AdjustedMonotone(doe, last);
    Chain(Adjusted(doe), Adjusted(last), 365 * y);
  }

  lemma Chain(a: int, b: int, c: int)
    requires a <= b < c
    ensures a < c
  {
  }

  lemma YearStartPositive(y: int)
    requires 0 <= y < 400
    ensures YearStart(y) >= 0
  {
  }

  lemma NotAfterYear(doe: int, y: int)
    requires YearStart(y) <= doe && 0 <= y < 400
    ensures Adjusted(doe) >= 365 * y
  {
    var first := YearStart(y);
    YearStartPositive(y);
    AdjustedAtYear(y);
    AdjustedMonotone(first, doe);
    Chain(-Adjusted(doe), -Adjusted(first), -365 * y + 1);
  }

  lemma Quotient(x: int, y: int)
    requires y == x / 365
    ensures 365 * y <= x < 365 * y + 365
  {
  }

  lemma YearNotLate(doe: int, y: int)
    requires 0 <= doe && 0 <= y < 400 && 365 * y <= Adjusted(doe)
    ensures YearStart(y) <= doe
  {
    if 0 < y && doe < YearStart(y) {
      NotBeforeYear(doe, y);
    }
  }

  lemma YearNotEarly(doe: int, y: int)
    requires 0 <= doe < 146_097 && 0 <= y < 400 && Adjusted(doe) < 365 * (y + 1)
    ensures doe < YearStart(y + 1)
  {
    if y < 399 && doe >= YearStart(y + 1) {
      NotAfterYear(doe, y + 1);
    }
  }

  /** The computed year of the era is the year the day falls in. */
  lemma YearOfEraExact(doe: int, y: int)
    requires 0 <= doe < 146_097 && y == YearOfEra(doe)
    ensures 0 <= y < 400 && YearStart(y) <= doe < YearStart(y + 1)
  {
    AdjustedRange(doe);
    Quotient(Adjusted(doe), y);
    YearNotLate(doe, y);
    YearNotEarly(doe, y);
  }

  // ---------------------------------------------------------------- correctness

  /** The clamps never act on a u64 number of seconds. */
  lemma ShiftedDaysExact(secs: nat)
    requires secs <= U64_MAX
    ensures ShiftedDays(secs) == secs / 86_400 + 719_468 < I64_MAX
  {
  }

  /** Month and day of a day in a year that starts on the first of March. */
  lemma MonthAndDay(year: int, doy: int)
    requires 0 <= doy <= 365 && (doy == 365 ==> IsLeap(year + 1))
    ensures var mp := (5 * doy + 2) / 153;
            var month := if mp < 10 then mp + 3 else mp - 9;
            var day := doy - (153 * mp + 2) / 5 + 1;
            var y := if month <= 2 then year + 1 else year;
            && 0 <= mp < 12 && 1 <= month <= 12 && 1 <= day <= DaysInMonth(y, month)
  {
    var mp := (5 * doy + 2) / 153;
    assert 153 * mp <= 5 * doy + 2 < 153 * mp + 153;
    if mp == 0 {} else if mp == 1 {} else if mp == 2 {} else if mp == 3 {} else if mp == 4 {} else if mp == 5 {}
    else if mp == 6 {} else if mp == 7 {} else if mp == 8 {} else if mp == 9 {} else if mp == 10 {}
    else { assert mp == 11; }
  }

  lemma WithinEra(yoe: int)
    requires 0 <= yoe < 400
    ensures LeapDays(yoe) == yoe / 4 - yoe / 100
  {
    assert yoe / 400 == 0;
  }

  /** A day count in the shifted calendar is its year's first day plus the day of the year. */
  lemma ShiftedYear(z: int, era: int, doe: int, yoe: int) returns (year: int, doy: int)
    requires era == z / 146_097 && doe == z % 146_097 && yoe == YearOfEra(doe)
    ensures year == yoe + era * 400 && doy == doe - (365 * yoe + yoe / 4 - yoe / 100)
    ensures z == 365 * year + LeapDays(year) + doy
    ensures 0 <= doy <= 365 && (doy == 365 ==> IsLeap(year + 1))
  {
    YearOfEraExact(doe, yoe);
    year := yoe + era * 400;
    doy := doe - (365 * yoe + yoe / 4 - yoe / 100);
    WithinEra(yoe);
    EraLeapDays(yoe, era);
    EraLeapDays(yoe + 1, era);
    LeapStep(year + 1);
    assert z == 146_097 * era + doe;
  }

  predicate InI64(x: int) {
    I64_MIN <= x <= I64_MAX
  }

  /** The clamps never act, and no value on the way to the date leaves the range of an i64. */
  lemma NothingClamped(secs: nat)
    requires secs <= U64_MAX
    ensures ShiftedDays(secs) == secs / 86_400 + 719_468 < I64_MAX
    ensures var z := ShiftedDays(secs);
            var era, doe := z / 146_097, z % 146_097;
            var yoe := YearOfEra(doe);
            var doy := doe - (365 * yoe + yoe / 4 - yoe / 100);
            var mp := (5 * doy + 2) / 153;
            && InI64(era) && InI64(doe) && InI64(doe - doe / 1460) && InI64(doe - doe / 1460 + doe / 36_524)
            && InI64(Adjusted(doe)) && InI64(yoe) && InI64(era * 400) && InI64(yoe + era * 400)
            && InI64(365 * yoe) && InI64(365 * yoe + yoe / 4) && InI64(365 * yoe + yoe / 4 - yoe / 100)
            && InI64(doy) && InI64(5 * doy) && InI64(5 * doy + 2) && InI64(mp)
            && InI64(153 * mp) && InI64(153 * mp + 2) && InI64(doy - (153 * mp + 2) / 5) && InI64(doy - (153 * mp + 2) / 5 + 1)
            && InI64(mp + 3) && InI64(mp - 9) && InI64(yoe + era * 400 + 1)
  {
    ShiftedDaysExact(secs);
    var z := ShiftedDays(secs);
    var era, doe := z / 146_097, z % 146_097;
    var yoe := YearOfEra(doe);
    YearOfEraExact(doe, yoe);
    AdjustedRange(doe);
    var year, doy := ShiftedYear(z, era, doe, yoe);
    SmallSteps(doy);
  }

  lemma SmallSteps(doy: int)
    requires 0 <= doy <= 365
    ensures var mp := (5 * doy + 2) / 153; 0 <= mp < 12 && 0 <= 153 * mp + 2 <= 5 * doy + 4
  {
  }

  /** From the year that starts in March to the date, and back by the naive count. */
  lemma DateOf(z: int, year: int, doy: int, s: Stamp)
    requires z == 365 * year + LeapDays(year) + doy && z >= 719_468
    requires 0 <= doy <= 365 && (doy == 365 ==> IsLeap(year + 1))
    requires var mp := (5 * doy + 2) / 153;
             && s.month == (if mp < 10 then mp + 3 else mp - 9)
             && s.day == doy - (153 * mp + 2) / 5 + 1
             && s.year == (if s.month <= 2 then year + 1 else year)
    ensures s.year >= 1970 && ValidDate(s) && NaiveDays(s) == z - 719_468
  {
    MonthAndDay(year, doy);
    YearReached(z, year, doy);
    var mp := (5 * doy + 2) / 153;
    assert doy < 306 ==> mp < 10;
    YearsClosed(s.year);
    MonthsClosed(s.year, s.month);
    LeapStep(s.year);
    if s.month <= 2 {
      assert s.year == year + 1;
      assert mp == 10 || mp == 11;
    } else {
      assert mp == s.month - 3;
    }
  }

  lemma YearReached(z: int, year: int, doy: int)
    requires z == 365 * year + LeapDays(year) + doy && z >= 719_468 && 0 <= doy <= 365
    ensures year >= 1969 && (year == 1969 ==> doy >= 306)
  {
    assert LeapDays(1969) == 477 && LeapDays(1968) == 477;
    if year < 1969 {
      LeapDaysMonotone(year, 1968);
    }
  }

  /** For every u64 the result is a real date and time of day, and the naive calendar counts
      from the epoch to it in exactly the given number of seconds. */
  lemma CivilCorrect(secs: nat)
    requires secs <= U64_MAX
    ensures var s := Civil(secs); s.year >= 1970 && ValidDate(s) && ValidTime(s) && NaiveSeconds(s) == secs
  {
    ShiftedDaysExact(secs);
    var z := ShiftedDays(secs);
    var year, doy := ShiftedYear(z, z / 146_097, z % 146_097, YearOfEra(z % 146_097));
    DateOf(z, year, doy, Civil(secs));
    TimeOfDay(secs % 86_400);
  }

  lemma TimeOfDay(rem: int)
    requires 0 <= rem < 86_400
    ensures rem / 3600 < 24 && rem % 3600 / 60 < 60
    ensures rem / 3600 * 3600 + rem % 3600 / 60 * 60 + rem % 60 == rem
  {
    assert rem % 3600 % 60 == rem % 60;
  }

  lemma EraLeapDays(y: int, era: int)
    ensures LeapDays(y + 400 * era) == LeapDays(y) + 97 * era
  {
    assert (y + 400 * era) / 4 == y / 4 + 100 * era;
    assert (y + 400 * era) / 100 == y / 100 + 4 * era;
    assert (y + 400 * era) / 400 == y / 400 + era;
  }

  lemma LeapDaysMonotone(a: int, b: int)
    requires a <= b
    ensures LeapDays(a) <= LeapDays(b)
    decreases b - a
  {
    if a < b {
      LeapDaysMonotone(a, b - 1);
      LeapStep(b);
    }
  }

  // ---------------------------------------------------------------- order

  function Fields(s: Stamp): (f: seq<int>)
    ensures |f| == 6
  {
    [s.year, s.month, s.day, s.hour, s.minute, s.second]
  }

  /** Lexicographic order from the i-th field on. */
  predicate EarlierFrom(a: seq<int>, b: seq<int>, i: nat)
    requires |a| == |b| && i <= |a|
    decreases |a| - i
  {
    i < |a| && (a[i] < b[i] || (a[i] == b[i] && EarlierFrom(a, b, i + 1)))
  }

  predicate Earlier(a: Stamp, b: Stamp) {
    EarlierFrom(Fields(a), Fields(b), 0)
  }

  lemma {:induction false} YearsGrow(a: int, b: int)
    requires 1970 <= a < b
    ensures DaysBeforeYear(a) + DaysInYear(a) <= DaysBeforeYear(b)
    decreases b
  {
    if a < b - 1 {
      YearsGrow(a, b - 1);
    }
  }

  lemma {:induction false} MonthsGrow(year: int, a: int, b: int)
    requires 1 <= a < b <= 13
    ensures DaysBeforeMonth(year, a) + DaysInMonth(year, a) <= DaysBeforeMonth(year, b)
    decreases b
  {
    if a < b - 1 {
      MonthsGrow(year, a, b - 1);
    }
  }

  lemma EarlierMeaning(a: Stamp, b: Stamp)
    ensures Earlier(a, b) <==>
      || a.year < b.year
      || (a.year == b.year && (a.month < b.month
      || (a.month == b.month && (a.day < b.day
      || (a.day == b.day && (a.hour < b.hour
      || (a.hour == b.hour && (a.minute < b.minute
      || (a.minute == b.minute && a.second < b.second)))))))))
  {
    var f, g := Fields(a), Fields(b);
    assert EarlierFrom(f, g, 5) <==> a.second < b.second;
    assert EarlierFrom(f, g, 3) <==> a.hour < b.hour || (a.hour == b.hour && EarlierFrom(f, g, 4));
    assert EarlierFrom(f, g, 2) <==> a.day < b.day || (a.day == b.day && EarlierFrom(f, g, 3));
    assert EarlierFrom(f, g, 1) <==> a.month < b.month || (a.month == b.month && EarlierFrom(f, g, 2));
  }

  /** The naive count respects the order of dates and times. */
  lemma NaiveOrder(a: Stamp, b: Stamp)
    requires a.year >= 1970 && ValidDate(a) && ValidTime(a)
    requires b.year >= 1970 && ValidDate(b) && ValidTime(b)
    requires Earlier(a, b)
    ensures NaiveSeconds(a) < NaiveSeconds(b)
  {
    EarlierMeaning(a, b);
    if (a.year, a.month, a.day) != (b.year, b.month, b.day) {
      DateOrder(a, b);
    }
  }

  lemma DateOrder(a: Stamp, b: Stamp)
    requires a.year >= 1970 && ValidDate(a) && b.year >= 1970 && ValidDate(b)
    requires a.year < b.year || (a.year == b.year && (a.month < b.month || (a.month == b.month && a.day < b.day)))
    ensures NaiveDays(a) < NaiveDays(b)
  {
    if a.year < b.year {
      YearsGrow(a.year, b.year);
      MonthsGrow(a.year, a.month, 13);
      MonthsClosed(a.year, 13);
      MonthsClosed(b.year, b.month);
    } else if a.month < b.month {
      MonthsGrow(a.year, a.month, b.month);
    }
  }

  /** Later instants have lexicographically later timestamps. */
  lemma CivilMonotone(s: nat, t: nat)
    requires s < t <= U64_MAX
    ensures Earlier(Civil(s), Civil(t))
  {
    CivilCorrect(s);
    CivilCorrect(t);
    var a, b := Civil(s), Civil(t);
    if !Earlier(a, b) {
      if a == b {
      } else {
        Trichotomy(Fields(a), Fields(b), 0);
        NaiveOrder(b, a);
      }
    }
  }

  lemma {:induction false} Trichotomy(a: seq<int>, b: seq<int>, i: nat)
    requires |a| == |b| && i <= |a| && a[i..] != b[i..]
    ensures EarlierFrom(a, b, i) || EarlierFrom(b, a, i)
    decreases |a| - i
  {
    if i < |a| && a[i] == b[i] {
      assert a[i..] == [a[i]] + a[i + 1..] && b[i..] == [b[i]] + b[i + 1..];
      Trichotomy(a, b, i + 1);
    }
  }

  // ---------------------------------------------------------------- text

  function Zeros(n: nat): string {
    if n == 0 then "" else "0" + Zeros(n - 1)
  }

  /** `{n:0w}`: decimal, filled with zeros on the left up to a width. */
  function Padded(n: nat, w: nat): string {
    var d := Decimal(n);
    if |d| >= w then d else Zeros(w - |d|) + d
  }

  function Width(i: nat): nat {
    if i == 0 then 4 else 2
  }

  const SEPARATORS: string := "--T::Z"

  predicate Printable(f: seq<int>) {
    |f| == 6 && forall i :: 0 <= i < 6 ==> f[i] >= 0
  }

  function TextFrom(f: seq<int>, i: nat): string
    requires Printable(f) && i <= 6
    decreases 6 - i
  {
    if i == 6 then "" else Padded(f[i], Width(i)) + [SEPARATORS[i]] + TextFrom(f, i + 1)
  }

  /** `iso8601_from_unix`. */
  function Iso8601(secs: nat): string
    requires secs <= U64_MAX
  {
    CivilCorrect(secs);
    TextFrom(Fields(Civil(secs)), 0)
  }

  function Pow10(w: nat): nat {
    if w == 0 then 1 else 10 * Pow10(w - 1)
  }

  /** Exactly w digits of a number below ten to the w. */
  lemma PaddedLength(n: nat, w: nat)
    requires w >= 1
    ensures |Padded(n, w)| == w <==> n < Pow10(w)
    ensures |Padded(n, w)| >= w
  {
    DecimalLength(n, w);
    if |Decimal(n)| < w {
      ZerosLength(w - |Decimal(n)|);
    }
  }

  /** The last digit, and the digits before it. */
  lemma PaddedDigits(n: nat, w: nat)
    requires w >= 2 && n < Pow10(w)
    ensures Padded(n, w) == Padded(n / 10, w - 1) + [DigitChar(n % 10)]
  {
    DecimalLength(n, w);
    if n < 10 {
      ZerosSnoc(w - 2);
    } else {
      DecimalLength(n / 10, w - 1);
      assert Decimal(n) == Decimal(n / 10) + [DigitChar(n % 10)];
    }
  }

  lemma {:induction false} ZerosLength(n: nat)
    ensures |Zeros(n)| == n
  {
    if n > 0 {
      ZerosLength(n - 1);
    }
  }

  lemma {:induction false} ZerosSnoc(n: nat)
    ensures Zeros(n) + "0" == Zeros(n + 1)
  {
    if n > 0 {
      ZerosSnoc(n - 1);
      assert Zeros(n) + "0" == "0" + (Zeros(n - 1) + "0");
    }
  }

  lemma {:induction false} DecimalLength(n: nat, w: nat)
    requires w >= 1
    ensures |Decimal(n)| <= w <==> n < Pow10(w)
    decreases n
  {
    if n >= 10 {
      if w > 1 {
        DecimalLength(n / 10, w - 1);
      } else {
        assert Pow10(1) == 10 * Pow10(0);
        assert |Decimal(n)| >= 2;
      }
    } else {
      Pow10AtLeast(w);
    }
  }

  lemma {:induction false} Pow10AtLeast(w: nat)
    requires w >= 1
    ensures Pow10(w) >= 10
  {
    if w > 1 {
      Pow10AtLeast(w - 1);
    }
  }

  /** The order of texts as sequences of characters. */
  predicate TextLess(a: string, b: string)
    decreases a
  {
    a != [] && b != [] && (a[0] < b[0] || (a[0] == b[0] && TextLess(a[1..], b[1..])))
  }

  lemma {:induction false} TextLessHead(a: string, b: string, x: string, y: string)
    requires TextLess(a, b)
    ensures TextLess(a + x, b + y)
    decreases |a|
  {
    assert (a + x)[1..] == a[1..] + x && (b + y)[1..] == b[1..] + y;
    if a[0] == b[0] {
      TextLessHead(a[1..], b[1..], x, y);
    }
  }

  lemma {:induction false} TextLessTail(p: string, a: string, b: string)
    requires TextLess(a, b)
    ensures TextLess(p + a, p + b)
    decreases |p|
  {
    if p == "" {
      assert p + a == a && p + b == b;
    } else {
      TextLessTail(p[1..], a, b);
      assert (p + a)[1..] == p[1..] + a && (p + b)[1..] == p[1..] + b;
    }
  }

  lemma DigitOrder(c: nat, d: nat)
    requires c < d < 10
    ensures TextLess([DigitChar(c)], [DigitChar(d)])
  {
  }

  lemma {:induction false} PaddedOrder(n: nat, m: nat, w: nat)
    requires w >= 1 && n < m < Pow10(w)
    ensures TextLess(Padded(n, w), Padded(m, w))
    decreases w
  {
    if w == 1 {
      assert Pow10(1) == 10 * Pow10(0);
      DigitOrder(n, m);
    } else {
      PaddedDigits(n, w);
      PaddedDigits(m, w);
      if n / 10 < m / 10 {
        PaddedOrder(n / 10, m / 10, w - 1);
        TextLessHead(Padded(n / 10, w - 1), Padded(m / 10, w - 1), [DigitChar(n % 10)], [DigitChar(m % 10)]);
      } else {
        LastDigitDecides(n, m);
        DigitOrder(n % 10, m % 10);
        TextLessTail(Padded(n / 10, w - 1), [DigitChar(n % 10)], [DigitChar(m % 10)]);
      }
    }
  }

  lemma LastDigitDecides(n: nat, m: nat)
    requires n < m && n / 10 >= m / 10
    ensures n / 10 == m / 10 && n % 10 < m % 10
  {
  }

  /** Years and all smaller fields fit their printed width. */
  predicate Fits(f: seq<int>) {
    Printable(f) && forall i :: 0 <= i < 6 ==> f[i] < Pow10(Width(i))
  }

  lemma {:induction false} TextOrder(a: seq<int>, b: seq<int>, i: nat)
    requires Fits(a) && Fits(b) && i <= 6 && EarlierFrom(a, b, i)
    ensures TextLess(TextFrom(a, i), TextFrom(b, i))
    decreases 6 - i
  {
    TextParts(a, i);
    TextParts(b, i);
    if a[i] < b[i] {
      PaddedOrder(a[i], b[i], Width(i));
      TextLessHead(Padded(a[i], Width(i)), Padded(b[i], Width(i)),
                   [SEPARATORS[i]] + TextFrom(a, i + 1), [SEPARATORS[i]] + TextFrom(b, i + 1));
    } else {
      TextOrder(a, b, i + 1);
      TextLessTail(Padded(a[i], Width(i)) + [SEPARATORS[i]], TextFrom(a, i + 1), TextFrom(b, i + 1));
    }
  }

  lemma TextParts(f: seq<int>, i: nat)
    requires Printable(f) && i < 6
    ensures TextFrom(f, i) == Padded(f[i], Width(i)) + ([SEPARATORS[i]] + TextFrom(f, i + 1))
    ensures TextFrom(f, i) == Padded(f[i], Width(i)) + [SEPARATORS[i]] + TextFrom(f, i + 1)
  {
  }

  /** 10000-01-01T00:00:00Z, the first instant whose year needs five digits. */
  const YEAR_10000: nat := 253_402_300_800

  lemma FirstFiveDigitInstant(first: Stamp)
    requires first == Stamp(10_000, 1, 1, 0, 0, 0)
    ensures NaiveSeconds(first) == YEAR_10000
  {
    YearsClosed(10_000);
  }

  lemma FourDigitYears(secs: nat)
    requires secs <= U64_MAX
    ensures Civil(secs).year < 10_000 <==> secs < YEAR_10000
  {
    CivilCorrect(secs);
    FiveDigitsFrom(Civil(secs), secs);
  }

  lemma FiveDigitsFrom(s: Stamp, secs: nat)
    requires s.year >= 1970 && ValidDate(s) && ValidTime(s) && NaiveSeconds(s) == secs
    ensures s.year < 10_000 <==> secs < YEAR_10000
  {
    var first := Stamp(10_000, 1, 1, 0, 0, 0);
    FirstFiveDigitInstant(first);
    EarlierMeaning(s, first);
    EarlierMeaning(first, s);
    if s.year < 10_000 {
      NaiveOrder(s, first);
    } else if s != first {
      NaiveOrder(first, s);
    }
  }

  lemma SmallPowers()
    ensures Pow10(2) == 100 && Pow10(4) == 10_000
  {
    assert Pow10(1) == 10 * Pow10(0);
    assert Pow10(3) == 10 * Pow10(2);
  }

  /** The text has the 20 characters RFC 3339 prescribes exactly until the year 9999 ends. */
  lemma IsoLength(secs: nat)
    requires secs <= U64_MAX
    ensures |Iso8601(secs)| == 20 <==> secs < YEAR_10000
  {
    CivilCorrect(secs);
    FourDigitYears(secs);
    SmallPowers();
    var f := Fields(Civil(secs));
    PaddedLength(f[0], 4);
    TwoDigits(f, 1);
    assert TextFrom(f, 0) == Padded(f[0], 4) + [SEPARATORS[0]] + TextFrom(f, 1);
  }

  lemma {:induction false} TwoDigits(f: seq<int>, i: nat)
    requires Printable(f) && 1 <= i <= 6 && forall k :: 1 <= k < 6 ==> f[k] < 100
    ensures |TextFrom(f, i)| == 3 * (6 - i)
    decreases 6 - i
  {
    if i < 6 {
      SmallPowers();
      PaddedLength(f[i], 2);
      TwoDigits(f, i + 1);
    }
  }

  lemma FieldsFit(s: Stamp)
    requires 1970 <= s.year < 10_000 && ValidDate(s) && ValidTime(s)
    ensures Fits(Fields(s))
  {
    SmallPowers();
  }

  lemma {:induction false} PaddedValue(n: nat, w: nat)
    requires w >= 1 && n < Pow10(w)
    ensures IsNumber(Padded(n, w)) && DigitsValue(Padded(n, w)) == n
    decreases w
  {
    if w == 1 {
      DecimalLength(n, 1);
      DecimalValue(n);
    } else {
      PaddedDigits(n, w);
      assert Pow10(w) == 10 * Pow10(w - 1);
      PaddedValue(n / 10, w - 1);
      OneDigitMore(Padded(n / 10, w - 1), n % 10);
    }
  }

  lemma OneDigitMore(s: string, d: nat)
    requires IsNumber(s) && d < 10
    ensures IsNumber(s + [DigitChar(d)]) && DigitsValue(s + [DigitChar(d)]) == 10 * DigitsValue(s) + d
  {
    assert (s + [DigitChar(d)])[..|s|] == s;
  }

  /** The digits from `from` to `to` are a number. */
  predicate Reads(text: string, from: nat, to: nat, n: int) {
    from <= to <= |text| && IsNumber(text[from..to]) && DigitsValue(text[from..to]) == n
  }

  lemma FieldAt(f: seq<int>, i: nat, text: string, from: nat)
    requires Fits(f) && i < 6 && from <= |text| && text[from..] == TextFrom(f, i)
    ensures var to := from + Width(i);
      to < |text| && Reads(text, from, to, f[i]) && text[to] == SEPARATORS[i] && text[to + 1..] == TextFrom(f, i + 1)
  {
    var to := from + Width(i);
    PaddedLength(f[i], Width(i));
    PaddedValue(f[i], Width(i));
    TextParts(f, i);
    var rest := [SEPARATORS[i]] + TextFrom(f, i + 1);
    assert text[from..][..Width(i)] == text[from..to] && text[from..][Width(i)..] == text[to..];
    assert text[to..][1..] == text[to + 1..];
  }

  /** `YYYY-MM-DDT`, and these numbers. */
  predicate DateAt(text: string, year: int, month: int, day: int) {
    && |text| == 20
    && Reads(text, 0, 4, year) && text[4] == '-' && Reads(text, 5, 7, month) && text[7] == '-'
    && Reads(text, 8, 10, day) && text[10] == 'T'
  }

  /** `hh:mm:ssZ` behind that, and these numbers. */
  predicate TimeAt(text: string, hour: int, minute: int, second: int) {
    && |text| == 20
    && Reads(text, 11, 13, hour) && text[13] == ':' && Reads(text, 14, 16, minute) && text[16] == ':'
    && Reads(text, 17, 19, second) && text[19] == 'Z'
  }

  lemma TwoFieldsAt(f: seq<int>, i: nat, text: string, from: nat, next: nat)
    requires Fits(f) && i < 5 && from <= |text| && text[from..] == TextFrom(f, i) && next == from + Width(i) + 1
    ensures next + Width(i + 1) < |text|
    ensures Reads(text, from, next - 1, f[i]) && text[next - 1] == SEPARATORS[i]
    ensures Reads(text, next, next + Width(i + 1), f[i + 1]) && text[next + Width(i + 1)] == SEPARATORS[i + 1]
    ensures text[next + Width(i + 1) + 1..] == TextFrom(f, i + 2)
  {
    FieldAt(f, i, text, from);
    FieldAt(f, i + 1, text, next);
  }

  lemma YearAndMonthRead(f: seq<int>, text: string)
    requires Fits(f) && |text| == 20 && text[0..] == TextFrom(f, 0)
    ensures Reads(text, 0, 4, f[0]) && text[4] == '-' && Reads(text, 5, 7, f[1]) && text[7] == '-'
    ensures text[8..] == TextFrom(f, 2)
  {
    TwoFieldsAt(f, 0, text, 0, 5);
  }

  lemma DayAndHourRead(f: seq<int>, text: string)
    requires Fits(f) && |text| == 20 && text[8..] == TextFrom(f, 2)
    ensures Reads(text, 8, 10, f[2]) && text[10] == 'T' && Reads(text, 11, 13, f[3]) && text[13] == ':'
    ensures text[14..] == TextFrom(f, 4)
  {
    TwoFieldsAt(f, 2, text, 8, 11);
  }

  lemma MinuteAndSecondRead(f: seq<int>, text: string)
    requires Fits(f) && |text| == 20 && text[14..] == TextFrom(f, 4)
    ensures Reads(text, 14, 16, f[4]) && text[16] == ':' && Reads(text, 17, 19, f[5]) && text[19] == 'Z'
  {
    TwoFieldsAt(f, 4, text, 14, 17);
  }

  lemma FieldsRead(f: seq<int>, text: string)
    requires Fits(f) && |text| == 20 && text == TextFrom(f, 0)
    ensures DateAt(text, f[0], f[1], f[2]) && TimeAt(text, f[3], f[4], f[5])
  {
    assert text[0..] == text;
    YearAndMonthRead(f, text);
    DayAndHourRead(f, text);
    MinuteAndSecondRead(f, text);
  }

  /** Until the year 9999 ends the text is `YYYY-MM-DDThh:mm:ssZ`, and its digits read back as
      the fields of the date and time. */
  lemma IsoReadsBack(secs: nat)
    requires secs < YEAR_10000
    ensures var text, s := Iso8601(secs), Civil(secs);
      DateAt(text, s.year, s.month, s.day) && TimeAt(text, s.hour, s.minute, s.second)
  {
    CivilCorrect(secs);
    FourDigitYears(secs);
    FieldsFit(Civil(secs));
    IsoLength(secs);
    FieldsRead(Fields(Civil(secs)), Iso8601(secs));
  }

  /** And until then, sorting the texts sorts the instants. */
  lemma IsoOrder(s: nat, t: nat)
    requires s < t < YEAR_10000
    ensures TextLess(Iso8601(s), Iso8601(t))
  {
    CivilCorrect(s);
    CivilCorrect(t);
    FourDigitYears(s);
    FourDigitYears(t);
    CivilMonotone(s, t);
    FieldsFit(Civil(s));
    FieldsFit(Civil(t));
    TextOrder(Fields(Civil(s)), Fields(Civil(t)), 0);
  }
}
