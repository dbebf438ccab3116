/**
 * The daily summary row: which forecast days get a card, and what each card
 * shows (date, rounded high and low, precipitation total, icon, label).
 */
module DailyCards {
  import opened Basics
  import opened Numbers
  import opened Calendar
  import opened WeatherCodes

  /** The `daily` block of a forecast response: one entry per day in every column. */
  datatype Daily = Daily(
    time: seq<string>,
    tempMax: seq<real>,
    tempMin: seq<real>,
    precipSum: seq<real>,
    weatherCode: seq<int>)

  predicate Rectangular(d: Daily)
  {
    && |d.tempMax| == |d.time| && |d.tempMin| == |d.time|
    && |d.precipSum| == |d.time| && |d.weatherCode| == |d.time|
  }

  /** What one card shows; the weekday name is locale text and not part of the model. */
  datatype DayCard = DayCard(
    date: string,
    dateLabel: Option<string>,
    high: int,
    low: int,
    precip: string,
    icon: Icon,
    summary: string)

  // ------------------------------------------------------------ start day

  /** Index of the first day at or after `i` that is not before `today`, or `|days|`. */
  function FirstNotBefore(days: seq<string>, today: string, i: nat): (k: nat)
    requires i <= |days|
    ensures i <= k <= |days|
    ensures forall j | i <= j < k :: JsLess(days[j], today)
    ensures k < |days| ==> !JsLess(days[k], today)
    decreases |days| - i
  {
    if i == |days| then i
    else if !JsLess(days[i], today) then i
    else FirstNotBefore(days, today, i + 1)
  }

  /**
   * The first card's index: the first day whose date string is not
   * lexicographically below today's; when every day is earlier, the row
   * falls back to starting at the first day.
   */
  function DailyStart(days: seq<string>, today: string): (start: nat)
    ensures (forall j | 0 <= j < |days| :: JsLess(days[j], today)) ==> start == 0
    ensures (exists j | 0 <= j < |days| :: !JsLess(days[j], today)) ==>
      && start < |days|
      && !JsLess(days[start], today)
      && (forall j | 0 <= j < start :: JsLess(days[j], today))
  {
    var k := FirstNotBefore(days, today, 0);
    if k < |days| then k else 0
  }

  /** In a strictly ascending list of days that lists today, the row starts exactly at today. */
  lemma StartsAtToday(days: seq<string>, today: string, k: nat)
    requires forall i, j | 0 <= i < j < |days| :: JsLess(days[i], days[j])
    requires k < |days| && days[k] == today
    ensures DailyStart(days, today) == k
  {
    JsLessIrreflexive(today);
    assert !JsLess(days[k], today);
    var start := DailyStart(days, today);
    assert start <= k;
    assert forall j | 0 <= j < k :: JsLess(days[j], days[k]);
  }

  // ------------------------------------------------------------ card text

  /** `x.toFixed(2)` for a non-negative `x`: whole part, a point, two decimals. */
  function FixedTwo(x: real): (s: string)
    requires x >= 0.0
    ensures |s| >= 4 && s[|s| - 3] == '.'
    ensures AllDigits(s[..|s| - 3]) && AllDigits(s[|s| - 2..])
  {
    var n := Hundredths(x);
    var s := Decimal(n / 100) + "." + PadDigits(n % 100, 2);
    assert s[..|s| - 3] == Decimal(n / 100);
    assert s[|s| - 2..] == PadDigits(n % 100, 2);
    s
  }

  /** Whole part, a point and two padded digits read back as the number of hundredths they write. */
  lemma HundredthsTextReadsBack(n: nat)
    ensures var s := Decimal(n / 100) + "." + PadDigits(n % 100, 2);
      ParseDecimal(s[..|s| - 3]) * 100 + ParseDecimal(s[|s| - 2..]) == n
  {
    var whole := Decimal(n / 100);
    var cents := PadDigits(n % 100, 2);
    var s := whole + "." + cents;
    assert |s| == |whole| + 3;
    assert s[..|whole|] == whole;
    assert s[|whole| + 1..] == cents;
    assert ParseDecimal(whole) == n / 100 by {
      DecimalRoundTrip(n / 100);
    }
    assert ParseDecimal(cents) == n % 100 by {
      TwoDigitsRoundTrip(n % 100);
    }
  }

  /** The two-decimal text reads back as `x` rounded to hundredths. */
  lemma FixedTwoReadsBack(x: real)
    requires x >= 0.0
    ensures var s := FixedTwo(x);
      ParseDecimal(s[..|s| - 3]) * 100 + ParseDecimal(s[|s| - 2..]) == Hundredths(x)
  {
    HundredthsTextReadsBack(Hundredths(x));
  }

  /** The card's precipitation line: blank on a dry day, else the total to two decimals. */
  function PrecipText(total: real): (s: string)
    ensures total <= 0.0 ==> s == ""
    ensures total > 0.0 ==> |s| >= 7 && s[|s| - 3..] == " in" && s[..|s| - 3] == FixedTwo(total)
  {
    if total > 0.0 then FixedTwo(total) + " in" else ""
  }

  /** The year `new Date(year, month - 1, day)` uses: years 0 to 99 are read as 1900 to 1999. */
  function ConstructorYear(y: int): int
  {
    if 0 <= y <= 99 then 1900 + y else y
  }

  /**
   * Of the two-digit years only 0 changes its leap rule when read as a
   * 1900s year: 1900 is a common year, while 1904 .. 1996 keep theirs.
   */
  lemma TwoDigitYearLeap(y: int)
    requires 0 <= y <= 99
    ensures IsLeapYear(ConstructorYear(y)) <==> IsLeapYear(y) && y != 0
  {
    DivModUnique(y, 4, y / 4, y % 4);
    DivModUnique(y, 100, 0, y);
    DivModUnique(y, 400, 0, y);
    DivModUnique(1900 + y, 4, 475 + y / 4, y % 4);
    DivModUnique(1900 + y, 100, 19, y);
    DivModUnique(1900 + y, 400, 4, 300 + y);
  }

  /** A `YYYY-MM-DD` text whose fields name a calendar date once the constructor has read the year. */
  predicate NamesLocalDate(s: string)
  {
    IsDateText(s) &&
    var c := ParseIsoDate(s);
    IsCalendarDate(Civil(ConstructorYear(c.year), c.month, c.day))
  }

  /**
   * `formatDate`'s numeric `M/D` text; `None` for strings that do not name a
   * calendar date once the constructor has read the year.
   */
  function DateLabel(s: string): (text: Option<string>)
    ensures text.Some? <==> NamesLocalDate(s)
    ensures text.Some? ==> text.value == Decimal(ParseIsoDate(s).month) + "/" + Decimal(ParseIsoDate(s).day)
  {
    if IsDateText(s) then
      var c := ParseIsoDate(s);
      if IsCalendarDate(Civil(ConstructorYear(c.year), c.month, c.day)) then
        Some(Decimal(c.month) + "/" + Decimal(c.day))
      else None
    else None
  }

  /** The day 0000-02-29 exists in the proleptic calendar but not once its year is read as 1900. */
  lemma LeapDayOfYearZeroHasNoLabel(s: string)
    requires IsDateText(s) && ParseIsoDate(s) == Civil(0, 2, 29)
    ensures IsCalendarDate(ParseIsoDate(s))
    ensures DateLabel(s) == None
  {
    TwoDigitYearLeap(0);
  }

  /** A real calendar date other than 0000-02-29 stays one when the constructor reads its year. */
  lemma ConstructorKeepsDate(c: Civil)
    requires IsCalendarDate(c) && 0 <= c.year && !(c.year == 0 && c.month == 2 && c.day == 29)
    ensures IsCalendarDate(Civil(ConstructorYear(c.year), c.month, c.day))
  {
    if 0 <= c.year <= 99 && c.month == 2 {
      TwoDigitYearLeap(c.year);
    }
  }

  /** The label of day number `z`'s date text is that day's month and day of month. */
  lemma DateLabelOfDay(z: int)
    requires var c := CivilFromDays(z);
      0 <= c.year <= 9999 && !(c.year == 0 && c.month == 2 && c.day == 29)
    ensures var c := CivilFromDays(z);
      DateLabel(IsoDate(c)) == Some(Decimal(c.month) + "/" + Decimal(c.day))
  {
    var c := CivilFromDays(z);
    IsoDateRoundTrip(c);
    ConstructorKeepsDate(c);
  }

  /** The card for day `i`. */
  function CardAt(d: Daily, i: nat): (card: DayCard)
    requires Rectangular(d) && i < |d.time|
    ensures card.date == d.time[i]
    ensures card.high as real - 0.5 <= d.tempMax[i] < card.high as real + 0.5
    ensures card.low as real - 0.5 <= d.tempMin[i] < card.low as real + 0.5
    ensures card.dateLabel == DateLabel(d.time[i])
    ensures card.precip == "" <==> d.precipSum[i] <= 0.0
    ensures d.precipSum[i] > 0.0 ==> card.precip == FixedTwo(d.precipSum[i]) + " in"
    ensures card.icon == IconFor(d.weatherCode[i]) && card.summary == LabelFor(d.weatherCode[i])
  {
    DayCard(
      d.time[i],
      DateLabel(d.time[i]),
      RoundHalfUp(d.tempMax[i]),
      RoundHalfUp(d.tempMin[i]),
      PrecipText(d.precipSum[i]),
      IconFor(d.weatherCode[i]),
      LabelFor(d.weatherCode[i]))
  }

  /** A card for the day of day number `z` is labelled with that day's month and day of month. */
  lemma CardLabelOfDay(d: Daily, i: nat, z: int)
    requires Rectangular(d) && i < |d.time|
    requires var c := CivilFromDays(z);
      0 <= c.year <= 9999 && !(c.year == 0 && c.month == 2 && c.day == 29) && d.time[i] == IsoDate(c)
    ensures var c := CivilFromDays(z);
      CardAt(d, i).dateLabel == Some(Decimal(c.month) + "/" + Decimal(c.day))
  {
    DateLabelOfDay(z);
  }

  /** A wet day's card reads back, before its " in" unit, as the day's total in hundredths. */
  lemma CardPrecipReadsBack(d: Daily, i: nat)
    requires Rectangular(d) && i < |d.time| && d.precipSum[i] > 0.0
    ensures var text := CardAt(d, i).precip;
      var amount := text[..|text| - 3];
      && |text| >= 7 && text[|text| - 3..] == " in"
      && ParseDecimal(amount[..|amount| - 3]) * 100 + ParseDecimal(amount[|amount| - 2..])
         == Hundredths(d.precipSum[i])
  {
    var s := FixedTwo(d.precipSum[i]);
    assert CardAt(d, i).precip == s + " in";
    UnitSuffix(s, " in");
    FixedTwoReadsBack(d.precipSum[i]);
  }

  /** A number text with a unit appended splits back into the two. */
  lemma UnitSuffix(s: string, unit: string)
    ensures (s + unit)[..|s|] == s && (s + unit)[|s|..] == unit
  {
    assert (s + unit)[..|s|] == s;
    assert (s + unit)[|s|..] == unit;
  }

  /** The card row for a given local date: one card per day from the start day on, in order. */
  function DayCardsFor(d: Daily, today: string): (cards: seq<DayCard>)
    requires Rectangular(d)
    ensures |cards| == |d.time| - DailyStart(d.time, today)
    ensures forall k | 0 <= k < |cards| :: cards[k] == CardAt(d, DailyStart(d.time, today) + k)
  {
    var start := DailyStart(d.time, today);
    seq(|d.time| - start, k requires 0 <= k < |d.time| - start => CardAt(d, start + k))
  }

  /**
   * `renderDailyForecast` at clock reading `nowMs`: `None` when the shifted
   * instant is outside the date range (the ISO conversion throws).
   */
  function RenderDaily(d: Daily, offset: Option<int>, nowMs: int): (r: Option<seq<DayCard>>)
    requires Rectangular(d)
    ensures r.Some? <==> ValidTime(nowMs + OffsetOrZero(offset) * 1000)
    ensures r.Some? ==> r.value == DayCardsFor(d, LocalDateText(nowMs, OffsetOrZero(offset)).value)
  {
    var today := LocalDateText(nowMs, OffsetOrZero(offset));
    if today.Some? then Some(DayCardsFor(d, today.value)) else None
  }

  /** Every card shows a low no warmer than its high when the source's minimum is at most its maximum. */
  lemma CardLowNotAboveHigh(d: Daily, i: nat)
    requires Rectangular(d) && i < |d.time| && d.tempMin[i] <= d.tempMax[i]
    ensures CardAt(d, i).low <= CardAt(d, i).high
  {
    RoundHalfUpMonotone(d.tempMin[i], d.tempMax[i]);
  }

  /** A single day in the past still yields its card: 70 high, 50 low, "Mostly Sunny", no precipitation. */
  lemma SinglePastDayCard(today: string)
    ensures var d := Daily(["2023-10-01"], [70.0], [50.0], [0.0], [1]);
      var cards := DayCardsFor(d, today);
      && |cards| == 1
      && cards[0].high == 70 && cards[0].low == 50
      && cards[0].summary == "Mostly Sunny" && cards[0].icon == PartlyCloudy
      && cards[0].precip == ""
  {
    var d := Daily(["2023-10-01"], [70.0], [50.0], [0.0], [1]);
    assert DailyStart(d.time, today) == 0;
    var c := CardAt(d, 0);
    assert c.high as real - 0.5 <= 70.0 < c.high as real + 0.5;
    assert c.low as real - 0.5 <= 50.0 < c.low as real + 0.5;
  }
}
