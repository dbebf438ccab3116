/**
 * Time values and the proleptic Gregorian calendar, as far as the forecast
 * core needs them: `new Date(ms).toISOString().split('T')[0]` (the local
 * "today" string) and `new Date(ms).getUTCHours()` (the now-marker hour).
 * A time value is an integer number of milliseconds since 1970-01-01T00:00Z.
 */
module Calendar {
  import opened Basics
  import opened Numbers

  const MsPerHour: int := 3600000
  const MsPerDay: int := 86400000

  /** The largest magnitude of a valid ECMAScript time value; beyond it a Date is invalid. */
  const MaxTimeValue: int := 8640000000000000
  const DaysEachSide: int := 100000000

  /** Days from 0000-03-01 (the start of a March-based era) to 1970-01-01. */
  const EpochShift: int := 719468

  const DaysPer400Years: int := 146097

  datatype Civil = Civil(year: int, month: int, day: int)

  predicate ValidShape(c: Civil)
  {
    1 <= c.month <= 12 && 1 <= c.day <= 31
  }

  /** The Gregorian leap-year rule: every fourth year, except centuries not divisible by 400. */
  predicate IsLeapYear(y: int)
  {
    (y % 4 == 0 && y % 100 != 0) || y % 400 == 0
  }

  /** The length of month `m` of year `y`. */
  function DaysInMonth(y: int, m: int): int
  {
    if m == 2 then (if IsLeapYear(y) then 29 else 28)
    else if m == 4 || m == 6 || m == 9 || m == 11 then 30
    else 31
  }

  /** A date that names a real calendar day (no February 30th, no April 31st). */
  predicate IsCalendarDate(c: Civil)
  {
    1 <= c.month <= 12 && 1 <= c.day <= DaysInMonth(c.year, c.month)
  }

  /** Days from the start of a March-based era to the start of its year number `yoe`. */
  function DaysBeforeYearOfEra(yoe: int): int
  {
    365 * yoe + yoe / 4 - yoe / 100
  }

  datatype EraDay = EraDay(yoe: int, doy: int)

  /**
   * Splits a day of a 400-year era into the year of the era and the day of
   * that (March-based) year, by whole centuries, four-year cycles and years.
   * The last century and the last year of a cycle each absorb a leap day.
   */
  function SplitEraDay(doe: int): (s: EraDay)
    requires 0 <= doe < DaysPer400Years
    ensures 0 <= s.yoe < 400 && 0 <= s.doy <= 365
    ensures DaysBeforeYearOfEra(s.yoe) + s.doy == doe
    ensures s.doy == 365 ==> LongEraYear(s.yoe)
  {
    var c := if doe / 36524 < 3 then doe / 36524 else 3;
    var r1 := doe - 36524 * c;
    var q := r1 / 1461;
    var r2 := r1 - 1461 * q;
    var y := if r2 / 365 < 3 then r2 / 365 else 3;
    var yoe := 100 * c + 4 * q + y;
    assert yoe / 4 == 25 * c + q;
    assert yoe / 100 == c;
    EraDay(yoe, r2 - 365 * y)
  }

  /** Month number of a March-based month index (0 = March .. 11 = February). */
  function MonthOfIndex(mp: int): int
  {
    if mp < 10 then mp + 3 else mp - 9
  }

  /**
   * Day `doy` of a March-based year falls in month index `(5·doy + 2) / 153`,
   * on a day no later than that month's last; only the 366th day reaches
   * February 29th.
   */
  lemma MonthOfDayOfYear(doy: int)
    requires 0 <= doy <= 365
    ensures var mp := (5 * doy + 2) / 153;
      var d := doy - (153 * mp + 2) / 5 + 1;
      && 0 <= mp <= 11
      && 1 <= d <= DaysInMonth(0, MonthOfIndex(mp))  // year 0 is a leap year
      && (mp == 11 && d == 29 ==> doy == 365)
  {
    var mp := (5 * doy + 2) / 153;
    assert 153 * mp <= 5 * doy + 2 < 153 * (mp + 1);
    if mp == 0 {} else if mp == 1 {} else if mp == 2 {} else if mp == 3 {}
    else if mp == 4 {} else if mp == 5 {} else if mp == 6 {} else if mp == 7 {}
    else if mp == 8 {} else if mp == 9 {} else if mp == 10 {} else {}
  }

  /** Civil date of the day `z` days after 1970-01-01 (negative `z` before it). */
  function CivilFromDays(z: int): (c: Civil)
    ensures ValidShape(c)
    ensures IsCalendarDate(c)
  {
    var shifted := z + EpochShift;
    var era := shifted / DaysPer400Years;
    var s := SplitEraDay(shifted % DaysPer400Years);
    var mp := (5 * s.doy + 2) / 153;
    var d := s.doy - (153 * mp + 2) / 5 + 1;
    var m := MonthOfIndex(mp);
    MonthOfDayOfYear(s.doy);
    LongEraYearIsLeap(s.yoe, era);
    Civil(s.yoe + 400 * era + (if m <= 2 then 1 else 0), m, d)
  }

  /** Day number (days after 1970-01-01) of a civil date. */
  function DaysFromCivil(c: Civil): int
  {
    var y := c.year - (if c.month <= 2 then 1 else 0);
    var era := y / 400;
    var yoe := y % 400;
    var mp := if c.month > 2 then c.month - 3 else c.month + 9;
    var doy := (153 * mp + 2) / 5 + c.day - 1;
    era * DaysPer400Years + DaysBeforeYearOfEra(yoe) + doy - EpochShift
  }

  /** Every day number is recovered from its civil date: the conversion loses nothing. */
  lemma CivilFromDaysInverse(z: int)
    ensures DaysFromCivil(CivilFromDays(z)) == z
  {
    var shifted := z + EpochShift;
    var era := shifted / DaysPer400Years;
    var s := SplitEraDay(shifted % DaysPer400Years);
    CivilFromDaysParts(z, era, s.yoe, s.doy);
    DaysFromCivilOfParts(CivilFromDays(z), era, s.yoe, s.doy);
  }

  /** The civil date of day `z` carries the era, year of the era and day of the year it was built from. */
  lemma CivilFromDaysParts(z: int, era: int, yoe: int, doy: int)
    requires era == (z + EpochShift) / DaysPer400Years
    requires SplitEraDay((z + EpochShift) % DaysPer400Years) == EraDay(yoe, doy)
    ensures var mp := (5 * doy + 2) / 153;
      var m := MonthOfIndex(mp);
      CivilFromDays(z) == Civil(yoe + 400 * era + (if m <= 2 then 1 else 0), m, doy - (153 * mp + 2) / 5 + 1)
    ensures var c := CivilFromDays(z);
      && c.year - (if c.month <= 2 then 1 else 0) == yoe + 400 * era
      && (153 * (if c.month > 2 then c.month - 3 else c.month + 9) + 2) / 5 + c.day - 1 == doy
  {
    MonthOfDayOfYear(doy);
    var mp := (5 * doy + 2) / 153;
    var m := MonthOfIndex(mp);
    assert CivilFromDays(z) == Civil(yoe + 400 * era + (if m <= 2 then 1 else 0), m, doy - (153 * mp + 2) / 5 + 1);
    assert (if m > 2 then m - 3 else m + 9) == mp;
  }

  /** The day number of a date, given its era, year of the era and day of the year. */
  lemma DaysFromCivilOfParts(c: Civil, era: int, yoe: int, doy: int)
    requires 0 <= yoe < 400
    requires c.year - (if c.month <= 2 then 1 else 0) == yoe + 400 * era
    requires (153 * (if c.month > 2 then c.month - 3 else c.month + 9) + 2) / 5 + c.day - 1 == doy
    ensures DaysFromCivil(c) == era * DaysPer400Years + DaysBeforeYearOfEra(yoe) + doy - EpochShift
  {
    DivModUnique(yoe + 400 * era, 400, era, yoe);
  }

  /** Distinct days have distinct civil dates. */
  lemma CivilFromDaysInjective(z1: int, z2: int)
    requires CivilFromDays(z1) == CivilFromDays(z2)
    ensures z1 == z2
  {
    CivilFromDaysInverse(z1);
    CivilFromDaysInverse(z2);
  }

  /** Whether day 366 exists in March-based year `yoe` of an era (its February has 29 days). */
  predicate LongEraYear(yoe: int)
  {
    (yoe + 1) % 4 == 0 && ((yoe + 1) % 100 != 0 || yoe == 399)
  }

  /** The split of an era day, given the century, four-year cycle and year it passes through. */
  lemma SplitEraDayFromParts(doe: int, c: int, q: int, y: int)
    requires 0 <= doe < DaysPer400Years
    requires (if doe / 36524 < 3 then doe / 36524 else 3) == c
    requires (doe - 36524 * c) / 1461 == q
    requires (if (doe - 36524 * c - 1461 * q) / 365 < 3 then (doe - 36524 * c - 1461 * q) / 365 else 3) == y
    ensures SplitEraDay(doe) == EraDay(100 * c + 4 * q + y, doe - 36524 * c - 1461 * q - 365 * y)
  {
  }

  /**
   * A year of an era as whole centuries, four-year cycles and years, and the
   * days before it counted the same way; only the last year of a cycle can
   * have a 366th day, and of the last cycle of a century only in the era's
   * last century.
   */
  lemma EraYearParts(yoe: int) returns (c: int, q: int, y: int)
    requires 0 <= yoe < 400
    ensures yoe == 100 * c + 4 * q + y && 0 <= c < 4 && 0 <= q < 25 && 0 <= y < 4
    ensures DaysBeforeYearOfEra(yoe) == 36524 * c + 1461 * q + 365 * y
    ensures LongEraYear(yoe) ==> y == 3 && (q < 24 || c == 3)
  {
    c := yoe / 100;
    q := (yoe % 100) / 4;
    y := yoe % 4;
    assert yoe == 100 * c + 4 * q + y;
    DivModUnique(yoe, 4, 25 * c + q, y);
    if LongEraYear(yoe) && q == 24 && y == 3 {
      DivModUnique(yoe + 1, 100, c + 1, 0);
    }
  }

  /** Splitting an era day undoes `DaysBeforeYearOfEra(yoe) + doy` for every day the year has. */
  lemma SplitEraDayUnique(yoe: int, doy: int)
    requires 0 <= yoe < 400 && 0 <= doy <= 365 && (doy == 365 ==> LongEraYear(yoe))
    ensures DaysBeforeYearOfEra(yoe) + doy < DaysPer400Years
    ensures SplitEraDay(DaysBeforeYearOfEra(yoe) + doy) == EraDay(yoe, doy)
  {
    var c, q, y := EraYearParts(yoe);
    var r2 := 365 * y + doy;
    var r1 := 1461 * q + r2;
    var doe := 36524 * c + r1;
    assert r1 < 36524 || c == 3;
    assert (if doe / 36524 < 3 then doe / 36524 else 3) == c by {
      if c < 3 {
        DivModUnique(doe, 36524, c, r1);
      } else {
        DivModUnique(doe, 36524, doe / 36524, doe % 36524);
      }
    }
    assert r1 / 1461 == q by {
      DivModUnique(r1, 1461, q, r2);
    }
    assert (if r2 / 365 < 3 then r2 / 365 else 3) == y by {
      if doy < 365 {
        DivModUnique(r2, 365, y, doy);
      } else {
        DivModUnique(r2, 365, 4, 0);
      }
    }
    SplitEraDayFromParts(doe, c, q, y);
  }

  /** The month index and day of month are read back from the day of the March-based year they give. */
  lemma DayOfYearRoundTrip(mp: int, day: int)
    requires 0 <= mp <= 11 && 1 <= day <= DaysInMonth(0, MonthOfIndex(mp))
    ensures var doy := (153 * mp + 2) / 5 + day - 1;
      && 0 <= doy <= 365
      && (doy == 365 <==> mp == 11 && day == 29)
      && (5 * doy + 2) / 153 == mp
      && doy - (153 * mp + 2) / 5 + 1 == day
  {
    if mp == 0 {} else if mp == 1 {} else if mp == 2 {} else if mp == 3 {}
    else if mp == 4 {} else if mp == 5 {} else if mp == 6 {} else if mp == 7 {}
    else if mp == 8 {} else if mp == 9 {} else if mp == 10 {} else {}
  }

  /** A February 29th lies in a March-based era year that has a 366th day. */
  lemma LeapDayYearIsLong(year: int)
    requires IsLeapYear(year)
    ensures LongEraYear((year - 1) % 400)
  {
    var yoe := (year - 1) % 400;
    var era := (year - 1) / 400;
    var r := yoe + 1;
    assert year == 400 * era + r;
    DivModUnique(year, 4, 100 * era + r / 4, r % 4);
    DivModUnique(year, 100, 4 * era + r / 100, r % 100);
    DivModUnique(year, 400, era + r / 400, r % 400);
  }

  /** The civil date of day `z`, given as its era, year of era and day of (March-based) year. */
  lemma CivilOfEraDayOfYear(z: int, era: int, yoe: int, doy: int)
    requires 0 <= yoe < 400 && 0 <= doy <= 365 && (doy == 365 ==> LongEraYear(yoe))
    requires z == era * DaysPer400Years + DaysBeforeYearOfEra(yoe) + doy - EpochShift
    ensures var mp := (5 * doy + 2) / 153;
      var m := MonthOfIndex(mp);
      CivilFromDays(z) == Civil(yoe + 400 * era + (if m <= 2 then 1 else 0), m, doy - (153 * mp + 2) / 5 + 1)
  {
    SplitEraDayUnique(yoe, doy);
    var doe := DaysBeforeYearOfEra(yoe) + doy;
    var shifted := z + EpochShift;
    assert shifted == DaysPer400Years * era + doe;
    DivModUnique(shifted, DaysPer400Years, era, doe);
    CivilFromDaysParts(z, era, yoe, doy);
  }

  /**
   * The civil date of day `z`, given as its era, year of era, March-based
   * month index and day of month: the conversion reads those parts back.
   */
  lemma CivilOfEraDay(z: int, year: int, era: int, yoe: int, mp: int, day: int)
    requires 0 <= yoe < 400 && 0 <= mp <= 11 && 1 <= day <= DaysInMonth(0, MonthOfIndex(mp))
    requires mp == 11 && day == 29 ==> LongEraYear(yoe)
    requires z == era * DaysPer400Years + DaysBeforeYearOfEra(yoe) + (153 * mp + 2) / 5 + day - 1 - EpochShift
    requires year == yoe + 400 * era + (if mp >= 10 then 1 else 0)
    ensures CivilFromDays(z) == Civil(year, MonthOfIndex(mp), day)
  {
    var doy := (153 * mp + 2) / 5 + day - 1;
    assert 0 <= doy <= 365 && (doy == 365 ==> LongEraYear(yoe))
      && (5 * doy + 2) / 153 == mp && doy - (153 * mp + 2) / 5 + 1 == day by {
      DayOfYearRoundTrip(mp, day);
    }
    CivilOfEraDayOfYear(z, era, yoe, doy);
  }

  /** The calendar year that ends a long era year (its February) is a Gregorian leap year. */
  lemma LongEraYearIsLeap(yoe: int, era: int)
    requires 0 <= yoe < 400
    ensures LongEraYear(yoe) ==> IsLeapYear(yoe + 400 * era + 1)
  {
    if LongEraYear(yoe) {
      var r := yoe + 1;
      var year := r + 400 * era;
      DivModUnique(year, 4, 100 * era + r / 4, r % 4);
      DivModUnique(year, 100, 4 * era + r / 100, r % 100);
      DivModUnique(year, 400, era + r / 400, r % 400);
    }
  }

  /**
   * The other half of the round trip: every real calendar date is the civil
   * date of its own day number, so the two conversions are inverse bijections
   * between day numbers and calendar dates.
   */
  lemma CalendarDateRoundTrip(c: Civil)
    requires IsCalendarDate(c)
    ensures CivilFromDays(DaysFromCivil(c)) == c
  {
    var y := c.year - (if c.month <= 2 then 1 else 0);
    var mp := if c.month > 2 then c.month - 3 else c.month + 9;
    assert MonthOfIndex(mp) == c.month;
    assert DaysInMonth(c.year, c.month) <= DaysInMonth(0, c.month);
    if mp == 11 && c.day == 29 {
      LeapDayYearIsLong(c.year);
    }
    CivilOfEraDay(DaysFromCivil(c), c.year, y / 400, y % 400, mp, c.day);
  }

  // ---------------------------------------------------------- ISO date text

  /** The year field of `toISOString`: four digits, or a sign and six digits outside 0..9999. */
  function YearText(y: int): (s: string)
    ensures 0 <= y <= 9999 ==> |s| == 4 && AllDigits(s) && ParseDecimal(s) == y
  {
    if 0 <= y <= 9999 then
      assert Pow10(4) == 10000;
      PaddedRoundTrip(y, 4);
      PadDigits(y, 4)
    else if y < 0 then "-" + PadDigits(-y, 6)
    else "+" + PadDigits(y, 6)
  }

  /** The date part of `toISOString`: `YYYY-MM-DD`. */
  function IsoDate(c: Civil): (s: string)
    requires ValidShape(c)
    ensures 0 <= c.year <= 9999 ==> |s| == 10 && s[4] == '-' && s[7] == '-'
  {
    YearText(c.year) + "-" + PadDigits(c.month, 2) + "-" + PadDigits(c.day, 2)
  }

  /** A `YYYY-MM-DD` string: four digits, a dash, two digits, a dash, two digits. */
  predicate IsDateText(s: string)
  {
    && |s| == 10 && s[4] == '-' && s[7] == '-'
    && AllDigits(s[..4]) && AllDigits(s[5..7]) && AllDigits(s[8..])
  }

  /** Reading a `YYYY-MM-DD` string back into its fields (`split('-').map(Number)`). */
  function ParseIsoDate(s: string): (c: Civil)
    requires IsDateText(s)
    ensures 0 <= c.year <= 9999 && 0 <= c.month <= 99 && 0 <= c.day <= 99
  {
    ParsePadRoundTrip(s[..4]);
    ParsePadRoundTrip(s[5..7]);
    ParsePadRoundTrip(s[8..]);
    assert Pow10(2) == 100 && Pow10(4) == 10000;
    Civil(ParseDecimal(s[..4]), ParseDecimal(s[5..7]), ParseDecimal(s[8..]))
  }

  /** A date text whose month and day are in range is written back unchanged: it is `IsoDate` of what it reads as. */
  lemma DateTextRoundTrip(s: string)
    requires IsDateText(s) && ValidShape(ParseIsoDate(s))
    ensures IsoDate(ParseIsoDate(s)) == s
  {
    var c := ParseIsoDate(s);
    assert YearText(c.year) == s[..4] by {
      ParsePadRoundTrip(s[..4]);
    }
    assert PadDigits(c.month, 2) == s[5..7] by {
      ParsePadRoundTrip(s[5..7]);
    }
    assert PadDigits(c.day, 2) == s[8..] by {
      ParsePadRoundTrip(s[8..]);
    }
    assert s == s[..4] + "-" + s[5..7] + "-" + s[8..];
  }

  /** A civil date of a four-digit year is written as `YYYY-MM-DD` and read back unchanged. */
  lemma IsoDateRoundTrip(c: Civil)
    requires ValidShape(c) && 0 <= c.year <= 9999
    ensures IsDateText(IsoDate(c))
    ensures ParseIsoDate(IsoDate(c)) == c
  {
    var month := PadDigits(c.month, 2);
    var day := PadDigits(c.day, 2);
    assert ParseDecimal(month) == c.month by {
      TwoDigitsRoundTrip(c.month);
    }
    assert ParseDecimal(day) == c.day by {
      TwoDigitsRoundTrip(c.day);
    }
    DateTextOfFields(c, YearText(c.year), month, day, IsoDate(c));
  }

  /** A date text assembled from a four-digit year and two-digit month and day reads back as those fields. */
  lemma DateTextOfFields(c: Civil, year: string, month: string, day: string, s: string)
    requires |year| == 4 && AllDigits(year) && |month| == 2 && AllDigits(month) && |day| == 2 && AllDigits(day)
    requires ParseDecimal(year) == c.year && ParseDecimal(month) == c.month && ParseDecimal(day) == c.day
    requires s == year + "-" + month + "-" + day
    ensures IsDateText(s) && ParseIsoDate(s) == c
  {
    assert s[..4] == year && s[4] == '-' && s[7] == '-';
    assert s[5..7] == month;
    assert s[8..] == day;
  }

  // ------------------------------------------------------------ time values

  /** A time value the `Date` object accepts: at most 10^8 days either side of the epoch. */
  predicate ValidTime(t: int): (valid: bool)
    ensures valid ==> -DaysEachSide <= DayNumber(t) <= DaysEachSide
    ensures -DaysEachSide < DayNumber(t) < DaysEachSide ==> valid
  {
    -MaxTimeValue <= t <= MaxTimeValue
  }

  /** The UTC day number of a time value (whole days since the epoch, rounded down). */
  function DayNumber(t: int): (d: int)
    ensures d * MsPerDay <= t < d * MsPerDay + MsPerDay
  {
    t / MsPerDay
  }

  /** A UTC offset that may be absent, read as `offset || 0` or a default parameter of 0: absent means UTC. */
  function OffsetOrZero(offset: Option<int>): (seconds: int)
    ensures offset.None? ==> seconds == 0
    ensures offset.Some? ==> seconds == offset.value
  {
    if offset.Some? then offset.value else 0
  }

  /**
   * `new Date(nowMs + offsetSeconds * 1000).toISOString().split('T')[0]`;
   * `None` when the Date is invalid and `toISOString` throws.
   */
  function LocalDateText(nowMs: int, offsetSeconds: int): (r: Option<string>)
    ensures r.Some? <==> ValidTime(nowMs + offsetSeconds * 1000)
  {
    var t := nowMs + offsetSeconds * 1000;
    if ValidTime(t) then Some(IsoDate(CivilFromDays(DayNumber(t)))) else None
  }

  /**
   * `new Date(t).getUTCHours()`: the whole hours elapsed since the start of
   * the UTC day containing `t`; `None` stands for NaN (an invalid Date).
   */
  function HourOfDay(t: int): (h: Option<int>)
    ensures h.Some? <==> ValidTime(t)
    ensures h.Some? ==> 0 <= h.value < 24
    ensures h.Some? ==>
      DayNumber(t) * MsPerDay + h.value * MsPerHour <= t < DayNumber(t) * MsPerDay + (h.value + 1) * MsPerHour
  {
    if ValidTime(t) then Some((t % MsPerDay) / MsPerHour) else None
  }

  lemma EpochDay()
    ensures CivilFromDays(0) == Civil(1970, 1, 1)
  {
    assert EpochShift / DaysPer400Years == 4 && EpochShift % DaysPer400Years == 135080;
    assert SplitEraDay(135080) == EraDay(369, 306);
  }

  lemma EpochIsNewYear1970()
    ensures LocalDateText(0, 0) == Some("1970-01-01")
  {
    EpochDay();
    assert DayNumber(0) == 0;
    Pad1970();
    Pad01();
    assert YearText(1970) == PadDigits(1970, 4);
    assert IsoDate(Civil(1970, 1, 1)) == "1970-01-01";
    assert LocalDateText(0, 0) == Some(IsoDate(CivilFromDays(0)));
  }

  lemma Pad1970()
    ensures PadDigits(1970, 4) == "1970"
  {
    assert PadDigits(1, 1) == "1";
    assert PadDigits(19, 2) == "19";
    assert PadDigits(197, 3) == "197";
  }

  lemma Pad01()
    ensures PadDigits(1, 2) == "01"
  {
    assert PadDigits(0, 1) == "0";
  }

  lemma Pad2026()
    ensures PadDigits(2026, 4) == "2026"
  {
    assert PadDigits(2, 1) == "2";
    assert PadDigits(20, 2) == "20";
    assert PadDigits(202, 3) == "202";
  }

  lemma Pad10()
    ensures PadDigits(10, 2) == "10"
  {
    assert PadDigits(1, 1) == "1";
  }

  /** 2000 is a leap year: 28 February and 1 March are two days apart. */
  lemma LeapDay2000()
    ensures DaysFromCivil(Civil(2000, 3, 1)) - DaysFromCivil(Civil(2000, 2, 28)) == 2
    ensures CivilFromDays(11017) == Civil(2000, 3, 1)
  {
    assert 730485 / DaysPer400Years == 5 && 730485 % DaysPer400Years == 0;
    assert SplitEraDay(0) == EraDay(0, 0);
    assert 1999 / 400 == 4 && 1999 % 400 == 399;
    assert DaysBeforeYearOfEra(399) == 145731;
    assert DaysFromCivil(Civil(2000, 2, 28)) == 11015;
    assert 2000 / 400 == 5 && 2000 % 400 == 0;
    assert DaysFromCivil(Civil(2000, 3, 1)) == 11017;
  }

  lemma Day20736()
    ensures CivilFromDays(20736) == Civil(2026, 10, 10)
  {
    assert 740204 / DaysPer400Years == 5 && 740204 % DaysPer400Years == 9719;
    assert SplitEraDay(9719) == EraDay(26, 223);
  }

  lemma TenthOctober2026Text()
    ensures IsoDate(Civil(2026, 10, 10)) == "2026-10-10"
  {
    Pad2026();
    Pad10();
    assert YearText(2026) == PadDigits(2026, 4);
  }

  lemma AfternoonInstant()
    ensures DayNumber(1791666000000 + -25200 * 1000) == 20736
    ensures (1791666000000 + -25200 * 1000) % MsPerDay == 14 * MsPerHour
  {
    DivModUnique(1791666000000 + -25200 * 1000, MsPerDay, 20736, 14 * MsPerHour);
  }

  /** 14:00 on 10 October 2026 at UTC-7 (offset -25200 s). */
  lemma AfternoonAtUtcMinus7()
    ensures LocalDateText(1791666000000, -25200) == Some("2026-10-10")
    ensures HourOfDay(1791666000000 + -25200 * 1000) == Some(14)
  {
    AfternoonInstant();
    Day20736();
    TenthOctober2026Text();
  }
}
