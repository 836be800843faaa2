/**
  The bucket keys of scripts/src/base-backup.ts: what `utcDay`, `utcWeek` and `utcMonth`
  make of a completion time, and when two backups share a week key.

  Days are numbered from 1970-01-01 in the proleptic Gregorian calendar, as in `Date`.
*/
module Calendar {

  const MILLIS_PER_DAY := 86_400_000

  /** An ISO 8601 date-time text: the date and time of day it spells, and its offset. */
  datatype Timestamp = Timestamp(year: int, month: int, day: int, millis: int, offsetMillis: int) {
    predicate Valid() {
      && 0 <= year <= 9999
      && 1 <= month <= 12
      && 1 <= day <= MonthLength(year, month)
      && 0 <= millis < MILLIS_PER_DAY
      && -MILLIS_PER_DAY < offsetMillis < MILLIS_PER_DAY
    }

    /** `Date.parse`: milliseconds since 1970-01-01T00:00Z. */
    function Instant(): int {
      DayNumber(year, month, day) * MILLIS_PER_DAY + millis - offsetMillis
    }
  }

  // ---------- Calendar ----------

  function DaysBeforeYear(year: int): int {
    365 * (year - 1) + (year - 1) / 4 - (year - 1) / 100 + (year - 1) / 400
  }

  predicate LeapYear(year: int) {
    year % 4 == 0 && (year % 100 != 0 || year % 400 == 0)
  }

  function DaysBeforeMonth(year: int, month: int): int
    requires 1 <= month <= 12
  {
    [0, 31, 59, 90, 120, 151, 181, 212, 243, 273, 304, 334][month - 1]
    + if month > 2 && LeapYear(year) then 1 else 0
  }

  function MonthLength(year: int, month: int): int
    requires 1 <= month <= 12
  {
    [31, 28, 31, 30, 31, 30, 31, 31, 30, 31, 30, 31][month - 1] + if month == 2 && LeapYear(year) then 1 else 0
  }

  /** Days from 1970-01-01 to a date of the proleptic Gregorian calendar. */
  function DayNumber(year: int, month: int, day: int): int {
    if 1 <= month <= 12 then DaysBeforeYear(year) + DaysBeforeMonth(year, month) + day - 1 - 719_162 else 0
  }

  /** The day containing an instant, as `Date` breaks an instant down in UTC. */
  function InstantDay(instant: int): int {
    instant / MILLIS_PER_DAY
  }

  /** `getUTCDay`: 1970-01-01 was a Thursday. */
  function WeekDay(day: int): int {
    (day + 4) % 7
  }

  datatype Date = Date(year: int, month: int, day: int)

  /** The year a day lies in, by cycles of 400, 100, 4 and 1 years. */
  function YearOf(day: int): int {
    var n := day + 719_162;
    var inCycle := n % 146_097;
    var century := if inCycle / 36_524 < 3 then inCycle / 36_524 else 3;
    var inCentury := inCycle - century * 36_524;
    var inFour := inCentury % 1_461;
    var year := if inFour / 365 < 3 then inFour / 365 else 3;
    400 * (n / 146_097) + 100 * century + 4 * (inCentury / 1_461) + year + 1
  }

  function MonthFrom(year: int, dayOfYear: int, month: int): (m: int)
    requires 1 <= month <= 12
    ensures month <= m <= 12
    ensures DaysBeforeMonth(year, month) <= dayOfYear ==> DaysBeforeMonth(year, m) <= dayOfYear
    ensures m == 12 || dayOfYear < DaysBeforeMonth(year, m + 1)
    decreases 12 - month
  {
    if month == 12 || dayOfYear < DaysBeforeMonth(year, month + 1) then month else MonthFrom(year, dayOfYear, month + 1)
  }

  /** The date a day is, as the getters of `Date` and `toISOString` break it down. */
  function DateOf(day: int): Date {
    var year := YearOf(day);
    var dayOfYear := day - DayNumber(year, 1, 1);
    var month := MonthFrom(year, dayOfYear, 1);
    Date(year, month, dayOfYear - DaysBeforeMonth(year, month) + 1)
  }

  /** `Date.UTC` in days: it takes a year of 0 to 99 for one of 1900 to 1999. */
  function DateUtc(year: int, month: int, day: int): int {
    DayNumber(if 0 <= year <= 99 then 1900 + year else year, month, day)
  }

  /**
    The first ten characters of a date's ISO text, as a number.  A year outside 0000 to
    9999 is written with a sign and six digits, which leaves no room for the day.
  */
  function TenCharacters(d: Date): int {
    (d.year * 12 + d.month - 1) * 31 + if 0 <= d.year <= 9999 then d.day - 1 else 0
  }

  /** `utcDay` slices the date out of the text: one key per (year, month, day). */
  function UtcDay(t: Timestamp): int {
    TenCharacters(Date(t.year, t.month, t.day))
  }

  /** `utcMonth` slices the year and month out of the text. */
  function UtcMonth(t: Timestamp): int {
    t.year * 12 + t.month - 1
  }

  /** `utcWeek` goes through the instant, has `Date.UTC` find the Monday and slices its text. */
  function UtcWeek(t: Timestamp): int {
    var day := InstantDay(t.Instant());
    var daysAfterMonday := (WeekDay(day) + 6) % 7;
    var date := DateOf(day);
    TenCharacters(DateOf(DateUtc(date.year, date.month, date.day - daysAfterMonday)))
  }

  // ---------- The calendar is right ----------

  /** Going on by one adds one to the quotient exactly at a multiple. */
  lemma {:induction false} NextQuotients(year: int)
    ensures year / 4 == (year - 1) / 4 + if year % 4 == 0 then 1 else 0
    ensures year / 100 == (year - 1) / 100 + if year % 100 == 0 then 1 else 0
    ensures year / 400 == (year - 1) / 400 + if year % 400 == 0 then 1 else 0
  {
  }

  lemma {:induction false} Multiples(year: int)
    ensures year % 100 == 0 ==> year % 4 == 0
    ensures year % 400 == 0 ==> year % 100 == 0
  {
    assert year == 4 * (25 * (year / 100)) + year % 100;
    assert year == 100 * (4 * (year / 400)) + year % 400;
  }

  lemma {:induction false} NextYear(year: int)
    ensures DaysBeforeYear(year + 1) == DaysBeforeYear(year) + if LeapYear(year) then 366 else 365
  {
    NextQuotients(year);
    Multiples(year);
  }

  lemma {:induction false} YearsAscend(a: int, b: int)
    requires a <= b
    ensures DaysBeforeYear(a) <= DaysBeforeYear(b)
    decreases b - a
  {
    if a < b {
      YearsAscend(a, b - 1);
      NextYear(b - 1);
    }
  }

  lemma {:induction false} CycleDays(q: int, century: int, four: int, year: int)
    requires 0 <= century <= 3 && 0 <= four <= 24 && 0 <= year <= 3
    ensures DaysBeforeYear(400 * q + 100 * century + 4 * four + year + 1) == 146_097 * q + 36_524 * century + 1_461 * four + 365 * year
  {
    var y := 400 * q + 100 * century + 4 * four + year;
    assert y / 400 == q;
    assert y / 100 == 4 * q + century;
    assert y / 4 == 100 * q + 25 * century + four;
  }

  lemma {:induction false} CycleEnds(q: int, century: int, four: int, year: int, rest: int)
    requires 0 <= century <= 3 && 0 <= four <= 24 && 0 <= year <= 3 && 0 <= rest
    requires year < 3 ==> rest < 365
    requires year == 3 && four < 24 ==> rest < 366
    requires year == 3 && four == 24 ==> rest < if century < 3 then 365 else 366
    ensures var y := 400 * q + 100 * century + 4 * four + year + 1;
            var n := 146_097 * q + 36_524 * century + 1_461 * four + 365 * year + rest;
            DaysBeforeYear(y) <= n < DaysBeforeYear(y + 1)
  {
    hide DaysBeforeYear;
    CycleDays(q, century, four, year);
    if year < 3 {
      CycleDays(q, century, four, year + 1);
    } else if four < 24 {
      CycleDays(q, century, four + 1, 0);
    } else if century < 3 {
      CycleDays(q, century + 1, 0, 0);
    } else {
      CycleDays(q + 1, 0, 0, 0);
    }
  }

  /** `YearOf` is the year that contains the day. */
  lemma {:induction false} YearContains(day: int)
    ensures DaysBeforeYear(YearOf(day)) <= day + 719_162 < DaysBeforeYear(YearOf(day) + 1)
  {
    hide DaysBeforeYear;
    var n := day + 719_162;
    var q, inCycle := n / 146_097, n % 146_097;
    var century := if inCycle / 36_524 < 3 then inCycle / 36_524 else 3;
    var inCentury := inCycle - century * 36_524;
    var four, inFour := inCentury / 1_461, inCentury % 1_461;
    var year := if inFour / 365 < 3 then inFour / 365 else 3;
    CenturyParts(inCycle, century, inCentury);
    FourParts(inCentury, four, inFour, year);
    CycleEnds(q, century, four, year, inFour - 365 * year);
  }

  lemma {:induction false} CenturyParts(inCycle: int, century: int, inCentury: int)
    requires 0 <= inCycle < 146_097 && century == (if inCycle / 36_524 < 3 then inCycle / 36_524 else 3)
    requires inCentury == inCycle - century * 36_524
    ensures 0 <= century <= 3 && 0 <= inCentury < if century < 3 then 36_524 else 36_525
  {
  }

  lemma {:induction false} FourParts(inCentury: int, four: int, inFour: int, year: int)
    requires 0 <= inCentury < 36_525 && four == inCentury / 1_461 && inFour == inCentury % 1_461
    requires year == if inFour / 365 < 3 then inFour / 365 else 3
    ensures 0 <= four <= 24 && 0 <= year <= 3 && inCentury == 1_461 * four + inFour
    ensures 0 <= inFour - 365 * year < if year < 3 then 365 else 366
    ensures inCentury < 36_524 && four == 24 ==> inFour < 1_460
  {
  }

  lemma {:induction false} MonthDays(year: int, month: int)
    requires 1 <= month <= 12
    ensures DaysBeforeMonth(year, month) + MonthLength(year, month)
         == if month < 12 then DaysBeforeMonth(year, month + 1) else if LeapYear(year) then 366 else 365
  {
  }

  /** Breaking a day down gives a real date, and that date is the day. */
  lemma {:induction false} DateOfDay(day: int)
    ensures var d := DateOf(day);
            && 1 <= d.month <= 12 && 1 <= d.day <= MonthLength(d.year, d.month)
            && DayNumber(d.year, d.month, d.day) == day
  {
    YearContains(day);
    var d := DateOf(day);
    NextYear(d.year);
    hide YearOf, DaysBeforeYear, LeapYear;
    MonthDays(d.year, d.month);
    assert DaysBeforeMonth(d.year, 1) == 0;
  }

  lemma {:induction false} YearWithin(day: int, low: int, high: int)
    requires DayNumber(low, 1, 1) <= day < DayNumber(high, 1, 1)
    ensures low <= DateOf(day).year < high
  {
    YearContains(day);
    hide YearOf, DaysBeforeYear;
    var year := YearOf(day);
    if year < low { YearsAscend(year + 1, low); }
    if high <= year { YearsAscend(high, year); }
  }

  lemma {:induction false} MonthsAscend(year: int, a: int, b: int)
    requires 1 <= a <= b <= 12
    ensures DaysBeforeMonth(year, a) <= DaysBeforeMonth(year, b)
  {
    hide LeapYear;
  }

  /** The other way round: a real date is what its day breaks down to. */
  lemma {:induction false} DayOfDate(d: Date)
    requires 1 <= d.month <= 12 && 1 <= d.day <= MonthLength(d.year, d.month)
    ensures DateOf(DayNumber(d.year, d.month, d.day)) == d
  {
    hide YearOf, DaysBeforeYear, LeapYear, MonthLength, DaysBeforeMonth;
    var day := DayNumber(d.year, d.month, d.day);
    NextYear(d.year);
    MonthDays(d.year, d.month);
    MonthsAscend(d.year, 1, d.month);
    YearEnds(d.year, d.month);
    YearEnds(d.year + 1, 1);
    YearWithin(day, d.year, d.year + 1);
    var month := DateOf(day).month;
    if month < d.month { MonthsAscend(d.year, month + 1, d.month); }
    if d.month < month { MonthsAscend(d.year, d.month + 1, month); }
  }

  lemma {:induction false} YearEnds(year: int, month: int)
    requires 1 <= month <= 12
    ensures DaysBeforeMonth(year, 1) == 0
    ensures DaysBeforeMonth(year, month) + MonthLength(year, month) <= if LeapYear(year) then 366 else 365
  {
    hide LeapYear;
  }

  lemma {:induction false} SlicesDiffer(d: Date, e: Date)
    requires 1 <= d.month <= 12 && 1 <= d.day <= 31 && 1 <= e.month <= 12 && 1 <= e.day <= 31
    requires TenCharacters(d) == TenCharacters(e) && (0 <= d.year <= 9999 || 0 <= e.year <= 9999)
    ensures d == e
  {
  }

  // ---------- Week keys ----------

  /** One Monday-to-Sunday week holds the UTC days of both. */
  ghost predicate SameWeek(a: Timestamp, b: Timestamp) {
    exists monday: int :: WeekDay(monday) == 1
      && monday <= InstantDay(a.Instant()) < monday + 7
      && monday <= InstantDay(b.Instant()) < monday + 7
  }

  /**
    Which of three calendars `Date.UTC` moves a UTC date by: none, the one of the years 1
    to 99 and of year 0 from March, or that of January and February of year 0, which
    has a February 29 where 1900 has none.
  */
  function Era(d: Date): int {
    if d.year < 0 || d.year > 99 then 0 else if d.year == 0 && d.month <= 2 then 2 else 1
  }

  function EraShift(era: int): int {
    if era == 0 then 0 else 693_959 + era
  }

  function MondayOn(day: int): int {
    day - (WeekDay(day) + 6) % 7
  }

  /** The day `utcWeek` names: the Monday, moved by what `Date.UTC` does to the year. */
  function NamedDay(day: int): int {
    MondayOn(day) + EraShift(Era(DateOf(day)))
  }

  lemma {:induction false} MovedCentury(year: int)
    requires 0 <= year <= 99
    ensures DaysBeforeYear(1900 + year) == DaysBeforeYear(year) + if year == 0 then 693_961 else 693_960
    ensures LeapYear(1900 + year) <==> LeapYear(year) && year != 0
  {
    if year > 0 {
      assert (1899 + year) / 400 == 4 && (year - 1) / 400 == 0;
      assert (1899 + year) / 100 == 18 + 1 || year == 0;
      assert (1899 + year) / 4 == 474 + (year + 3) / 4;
    }
  }

  lemma {:induction false} DateUtcMoves(d: Date, back: int)
    requires 1 <= d.month <= 12
    ensures DateUtc(d.year, d.month, d.day - back) == DayNumber(d.year, d.month, d.day) - back + EraShift(Era(d))
  {
    if 0 <= d.year <= 99 {
      MovedCentury(d.year);
      hide DaysBeforeYear, LeapYear;
      assert d.year == 0 ==> LeapYear(0) by { YearZero(); }
    }
  }

  lemma {:induction false} YearZero()
    ensures LeapYear(0)
  {
  }

  lemma {:induction false} WeekNames(t: Timestamp)
    ensures UtcWeek(t) == TenCharacters(DateOf(NamedDay(InstantDay(t.Instant()))))
  {
    hide DateOf, DateUtc, TenCharacters, InstantDay, Era, EraShift, DayNumber;
    var day := InstantDay(t.Instant());
    DateOfDay(day);
    DateUtcMoves(DateOf(day), (WeekDay(day) + 6) % 7);
  }

  /** An offset of less than a day takes a valid text at most one day out of years 0000 to 9999. */
  lemma {:induction false} ValidDays(t: Timestamp)
    requires t.Valid()
    ensures DayNumber(0, 1, 1) - 1 <= InstantDay(t.Instant()) <= DayNumber(10000, 1, 1)
  {
    YearsAscend(0, t.year);
    YearsAscend(t.year + 1, 10000);
    NextYear(t.year);
    MonthDays(t.year, t.month);
    var day := DayNumber(t.year, t.month, t.day);
    hide DaysBeforeYear;
    assert DayNumber(0, 1, 1) <= day < DayNumber(10000, 1, 1) by {
      assert 0 <= DaysBeforeMonth(t.year, t.month);
      assert DaysBeforeMonth(t.year, t.month) + MonthLength(t.year, t.month) <= if LeapYear(t.year) then 366 else 365;
    }
    assert t.Instant() == day * MILLIS_PER_DAY + (t.millis - t.offsetMillis);
  }

  /** The day named for a valid text is in years 0000 to 9999 but for the one day before them. */
  lemma {:induction false} NamedYears(day: int)
    requires DayNumber(0, 1, 1) <= day <= DayNumber(10000, 1, 1)
    ensures 0 <= DateOf(NamedDay(day)).year <= 9999
  {
    Landmarks();
    hide DateOf, DayNumber;
    MondayOf(day, MondayOn(day));
    if day < DayNumber(100, 1, 1) {
      YearWithin(day, 0, 100);
    } else {
      YearWithin(day, 100, 10001);
      assert MondayOn(day) < DayNumber(10000, 1, 1);
    }
    YearWithin(NamedDay(day), 0, 10000);
  }

  lemma {:induction false} Landmarks()
    ensures DayNumber(0, 1, 1) == -719_528 && DayNumber(100, 1, 1) == -683_003
    ensures DayNumber(10000, 1, 1) == 2_932_897 && DayNumber(10001, 1, 1) == 2_933_263
    ensures DayNumber(-1, 12, 31) == -719_529 && DayNumber(-1, 12, 27) == -719_533
    ensures DayNumber(99, 12, 31) == -683_004 && DayNumber(99, 12, 28) == -683_007 && DayNumber(1999, 12, 28) == 10_953
  {
  }

  /** The day before them: its text has no room for the day, and its year keeps it from all others. */
  lemma {:induction false} DayBefore()
    ensures var day := DayNumber(0, 1, 1) - 1;
            && DateOf(day) == Date(-1, 12, 31) && DateOf(NamedDay(day)) == Date(-1, 12, 27)
            && TenCharacters(DateOf(NamedDay(day))) < 0
  {
    hide DateOf, DayNumber, LeapYear;
    Landmarks();
    DayOfDate(Date(-1, 12, 31));
    DayOfDate(Date(-1, 12, 27));
    assert MondayOn(-719_529) == -719_533;
  }

  lemma {:induction false} KeysNameDays(a: Timestamp, b: Timestamp)
    requires a.Valid() && b.Valid()
    ensures UtcWeek(a) == UtcWeek(b) <==> NamedDay(InstantDay(a.Instant())) == NamedDay(InstantDay(b.Instant()))
  {
    hide DateOf, NamedDay, TenCharacters, UtcWeek, InstantDay, DayNumber;
    WeekNames(a);
    WeekNames(b);
    ValidDays(a);
    ValidDays(b);
    var i, j := InstantDay(a.Instant()), InstantDay(b.Instant());
    var first := DayNumber(0, 1, 1);
    DayBefore();
    if first <= i { NamedYears(i); }
    if first <= j { NamedYears(j); }
    DateOfDay(NamedDay(i));
    DateOfDay(NamedDay(j));
    if UtcWeek(a) == UtcWeek(b) && (first <= i || first <= j) {
      SlicesDiffer(DateOf(NamedDay(i)), DateOf(NamedDay(j)));
    }
  }

  /** The named day is a Monday, a Tuesday or a Wednesday, as the era has it, so it tells the era. */
  lemma {:induction false} NamedAlike(i: int, j: int)
    ensures NamedDay(i) == NamedDay(j) <==> MondayOn(i) == MondayOn(j) && Era(DateOf(i)) == Era(DateOf(j))
  {
    hide DateOf;
    MondayOf(i, MondayOn(i));
    MondayOf(j, MondayOn(j));
  }

  /**
    Week keys, exactly: the keys of two texts the schema accepts are equal if and only if
    one Monday-to-Sunday week holds both UTC days and `Date.UTC` moves both dates alike,
    as it does when both UTC years are 100 or later.
  */
  lemma {:induction false} WeekKeysAgreeIff(a: Timestamp, b: Timestamp)
    requires a.Valid() && b.Valid()
    ensures UtcWeek(a) == UtcWeek(b) <==>
              SameWeek(a, b) && Era(DateOf(InstantDay(a.Instant()))) == Era(DateOf(InstantDay(b.Instant())))
  {
    hide UtcWeek, DateOf, Era, InstantDay, WeekDay, NamedDay, MondayOn;
    KeysNameDays(a, b);
    NamedAlike(InstantDay(a.Instant()), InstantDay(b.Instant()));
    SameMonday(a, b);
  }

  lemma {:induction false} SameMonday(a: Timestamp, b: Timestamp)
    ensures SameWeek(a, b) <==> MondayOn(InstantDay(a.Instant())) == MondayOn(InstantDay(b.Instant()))
  {
    var i, j := InstantDay(a.Instant()), InstantDay(b.Instant());
    MondayOf(i, MondayOn(i));
    MondayOf(j, MondayOn(j));
    hide InstantDay, WeekDay, MondayOn;
    if SameWeek(a, b) {
      var monday: int :| WeekDay(monday) == 1 && monday <= i < monday + 7 && monday <= j < monday + 7;
      OneMonday(monday, MondayOn(i), i);
      OneMonday(monday, MondayOn(j), j);
    }
  }

  /** For the years in use the keys are those of the weeks. */
  lemma {:induction false} WeekKeysAgreeIffSameWeek(a: Timestamp, b: Timestamp)
    requires a.Valid() && b.Valid()
    requires DateOf(InstantDay(a.Instant())).year >= 100 && DateOf(InstantDay(b.Instant())).year >= 100
    ensures UtcWeek(a) == UtcWeek(b) <==> SameWeek(a, b)
  {
    hide UtcWeek, DateOf, SameWeek;
    WeekKeysAgreeIff(a, b);
  }

  /** A Thursday and the Friday after it, in one week, have the keys 1999-12-28 and 0099-12-28. */
  lemma {:induction false} RemappedYearSplitsWeek()
    ensures var a, b := Timestamp(99, 12, 31, 0, 0), Timestamp(100, 1, 1, 0, 0);
            && a.Valid() && b.Valid() && SameWeek(a, b)
            && UtcWeek(a) == TenCharacters(Date(1999, 12, 28)) && UtcWeek(b) == TenCharacters(Date(99, 12, 28))
            && UtcWeek(a) != UtcWeek(b)
  {
    var a, b := Timestamp(99, 12, 31, 0, 0), Timestamp(100, 1, 1, 0, 0);
    hide DateOf, DayNumber, UtcWeek, LeapYear;
    Landmarks();
    DayOfDate(Date(99, 12, 31));
    DayOfDate(Date(100, 1, 1));
    DayOfDate(Date(99, 12, 28));
    DayOfDate(Date(1999, 12, 28));
    WeekNames(a);
    WeekNames(b);
    assert InstantDay(a.Instant()) == -683_004 && InstantDay(b.Instant()) == -683_003;
    assert WeekDay(-683_007) == 1 && MondayOn(-683_004) == -683_007 && MondayOn(-683_003) == -683_007;
  }

  lemma {:induction false} MondayOf(day: int, monday: int)
    requires monday == day - (WeekDay(day) + 6) % 7
    ensures WeekDay(monday) == 1 && monday <= day < monday + 7
  {
  }

  lemma {:induction false} OneMonday(m: int, n: int, day: int)
    requires WeekDay(m) == 1 && m <= day < m + 7 && WeekDay(n) == 1 && n <= day < n + 7
    ensures m == n
  {
  }

  /** A day key is the date the text spells, and a month key its year and month. */
  lemma {:induction false} DayKeysAgreeIff(a: Timestamp, b: Timestamp)
    requires a.Valid() && b.Valid()
    ensures UtcDay(a) == UtcDay(b) <==> a.year == b.year && a.month == b.month && a.day == b.day
    ensures UtcMonth(a) == UtcMonth(b) <==> a.year == b.year && a.month == b.month
  {
    hide TenCharacters;
    if UtcDay(a) == UtcDay(b) { SlicesDiffer(Date(a.year, a.month, a.day), Date(b.year, b.month, b.day)); }
  }

  /** The day a text spells is the UTC day of its instant exactly when its offset crosses no midnight. */
  lemma {:induction false} TextDayIsUtcDay(t: Timestamp)
    requires t.Valid()
    ensures (InstantDay(t.Instant()) == DayNumber(t.year, t.month, t.day))
            <==> (0 <= t.millis - t.offsetMillis < MILLIS_PER_DAY)
  {
    var shift := t.millis - t.offsetMillis;
    assert t.Instant() == DayNumber(t.year, t.month, t.day) * MILLIS_PER_DAY + shift;
  }

  /** One instant, spelled with two offsets, falls into two "UTC" days and months but one week. */
  lemma {:induction false} OffsetTextSplitsOneInstant()
    ensures var a := Timestamp(2026, 3, 1, 3_600_000, 7_200_000);
            var b := Timestamp(2026, 2, 28, 82_800_000, 0);
            && a.Valid() && b.Valid() && a.Instant() == b.Instant()
            && UtcDay(a) != UtcDay(b) && UtcMonth(a) != UtcMonth(b) && UtcWeek(a) == UtcWeek(b)
  {
    hide UtcWeek, DateOf;
    var a, b := Timestamp(2026, 3, 1, 3_600_000, 7_200_000), Timestamp(2026, 2, 28, 82_800_000, 0);
    assert a.Instant() == b.Instant();
    WeekNames(a);
    WeekNames(b);
  }
}
