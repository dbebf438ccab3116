/**
 * The aligned forecast window of `renderCharts`: find the first hourly
 * timestamp of local "today" and cut every hourly series to 241 points
 * (ten full days of intervals plus the closing midnight) from there.
 */
module ForecastWindow {
  import opened Basics
  import opened Numbers
  import opened Calendar

  /** 240 hourly intervals and the boundary point that closes the last one. */
  const WindowLength: nat := 241

  /** The hourly forecast, column-wise, as the forecast source delivers it. */
  datatype Hourly = Hourly(
    time: seq<string>,
    temperature: seq<real>,
    apparentTemperature: seq<real>,
    dewPoint: seq<real>,
    precipProbability: seq<real>,
    precipitation: seq<real>,
    rain: seq<real>,
    showers: seq<real>,
    snowfall: seq<real>,
    cloudCover: seq<real>,
    humidity: seq<real>,
    pressure: seq<real>,
    windSpeed: seq<real>)

  /** Every column has as many entries as there are timestamps. */
  predicate Rectangular(h: Hourly)
  {
    var n := |h.time|;
    && |h.temperature| == n && |h.apparentTemperature| == n && |h.dewPoint| == n
    && |h.precipProbability| == n && |h.precipitation| == n && |h.rain| == n
    && |h.showers| == n && |h.snowfall| == n && |h.cloudCover| == n
    && |h.humidity| == n && |h.pressure| == n && |h.windSpeed| == n
  }

  /** `s.startsWith(prefix)`. */
  predicate StartsWith(s: string, prefix: string)
  {
    |prefix| <= |s| && s[..|prefix|] == prefix
  }

  /** The first index at or after `from` whose timestamp starts with `today`, if any. */
  function FirstMatchFrom(times: seq<string>, today: string, from: nat): (r: Option<nat>)
    requires from <= |times|
    ensures r.Some? ==> from <= r.value < |times| && StartsWith(times[r.value], today)
    ensures r.Some? ==> forall j :: from <= j < r.value ==> !StartsWith(times[j], today)
    ensures r.None? ==> forall j :: from <= j < |times| ==> !StartsWith(times[j], today)
    decreases |times| - from
  {
    if from == |times| then None
    else if StartsWith(times[from], today) then Some(from)
    else FirstMatchFrom(times, today, from + 1)
  }

  /**
   * The loop of `renderCharts` that picks the window start: the first
   * timestamp carrying today's date as a prefix, or 0 when there is none.
   */
  function StartIndex(times: seq<string>, today: string): (i: nat)
    ensures (exists j :: 0 <= j < |times| && StartsWith(times[j], today)) ==>
      i < |times| && StartsWith(times[i], today) && forall j :: 0 <= j < i ==> !StartsWith(times[j], today)
    ensures (forall j :: 0 <= j < |times| ==> !StartsWith(times[j], today)) ==> i == 0
  {
    match FirstMatchFrom(times, today, 0)
    case Some(i) => i
    case None => 0
  }

  function Min(a: int, b: int): int
  {
    if a <= b then a else b
  }

  /** `arr.slice(start, start + 241)`: never padded, shorter when the data runs out. */
  function Slice<T>(a: seq<T>, start: nat): (r: seq<T>)
    ensures |r| == if start >= |a| then 0 else Min(WindowLength, |a| - start)
    ensures forall k :: 0 <= k < |r| ==> r[k] == a[start + k]
  {
    if start >= |a| then [] else a[start .. Min(start + WindowLength, |a|)]
  }

  /** Every column cut to the same window; a rectangular forecast stays rectangular. */
  function SliceAll(h: Hourly, start: nat): (r: Hourly)
    ensures |r.time| == if start >= |h.time| then 0 else Min(WindowLength, |h.time| - start)
    ensures Rectangular(h) ==> Rectangular(r)
  {
    Hourly(
      Slice(h.time, start), Slice(h.temperature, start), Slice(h.apparentTemperature, start),
      Slice(h.dewPoint, start), Slice(h.precipProbability, start), Slice(h.precipitation, start),
      Slice(h.rain, start), Slice(h.showers, start), Slice(h.snowfall, start),
      Slice(h.cloudCover, start), Slice(h.humidity, start), Slice(h.pressure, start),
      Slice(h.windSpeed, start))
  }

  /** The aligned window: where it starts in the full series, and the sliced columns. */
  datatype Window = Window(start: nat, hourly: Hourly)

  datatype AlignError =
    | NoTimestamps   // `hourlyData.time[0].startsWith` on an empty array throws a TypeError
    | InvalidDate    // `toISOString` on an out-of-range Date throws a RangeError

  /** `renderCharts` steps 1-2, given local today's `YYYY-MM-DD` text. */
  function Align(h: Hourly, today: string): (r: Result<Window, AlignError>)
    ensures r.Failure? <==> |h.time| == 0
    ensures r.Success? ==> r.value.start < |h.time|
    ensures r.Success? && (exists j :: 0 <= j < |h.time| && StartsWith(h.time[j], today)) ==>
      StartsWith(h.time[r.value.start], today) &&
      forall j :: 0 <= j < r.value.start ==> !StartsWith(h.time[j], today)
    ensures r.Success? && (forall j :: 0 <= j < |h.time| ==> !StartsWith(h.time[j], today)) ==>
      r.value.start == 0
    ensures r.Success? ==> |r.value.hourly.time| == Min(WindowLength, |h.time| - r.value.start)
    ensures r.Success? ==> forall k :: 0 <= k < |r.value.hourly.time| ==>
      r.value.hourly.time[k] == h.time[r.value.start + k]
  {
    if |h.time| == 0 then Failure(NoTimestamps)
    else
      var start := StartIndex(h.time, today);
      Success(Window(start, SliceAll(h, start)))
  }

  /**
   * `renderCharts` steps 1-2 from the clock reading and the location's UTC
   * offset; an absent offset takes the parameter's default of 0 (UTC).
   */
  function AlignAt(h: Hourly, nowMs: int, utcOffsetSeconds: Option<int>): (r: Result<Window, AlignError>)
    ensures var t := nowMs + OffsetOrZero(utcOffsetSeconds) * 1000;
      !ValidTime(t) ==> r == Failure(InvalidDate)
    ensures var t := nowMs + OffsetOrZero(utcOffsetSeconds) * 1000;
      ValidTime(t) ==> r == Align(h, LocalDateText(nowMs, OffsetOrZero(utcOffsetSeconds)).value)
  {
    match LocalDateText(nowMs, OffsetOrZero(utcOffsetSeconds))
    case None => Failure(InvalidDate)
    case Some(today) => Align(h, today)
  }

  /** Without an offset the window starts at the UTC day of the clock reading. */
  lemma MissingOffsetAlignsOnUtc(h: Hourly, nowMs: int)
    ensures AlignAt(h, nowMs, None) == AlignAt(h, nowMs, Some(0))
    ensures ValidTime(nowMs) ==> AlignAt(h, nowMs, None) == Align(h, IsoDate(CivilFromDays(DayNumber(nowMs))))
  {
    assert OffsetOrZero(None) == OffsetOrZero(Some(0)) == 0;
    assert nowMs + 0 * 1000 == nowMs;
    assert LocalDateText(nowMs, 0) == if ValidTime(nowMs) then Some(IsoDate(CivilFromDays(DayNumber(nowMs)))) else None;
  }

  /** Slicing keeps the columns of a rectangular forecast in step with each other. */
  lemma AlignKeepsColumnsInStep(h: Hourly, today: string)
    requires Rectangular(h)
    requires Align(h, today).Success?
    ensures Rectangular(Align(h, today).value.hourly)
    ensures forall k :: 0 <= k < |Align(h, today).value.hourly.precipitation| ==>
      Align(h, today).value.hourly.precipitation[k] == h.precipitation[Align(h, today).value.start + k]
  {
  }

  // ------------------------------------------ timestamps generated day by day

  /** Every timestamp starts with the date text of its day: day `day0 + i / 24` for entry `i`. */
  predicate DayPrefixed(times: seq<string>, day0: int, dateText: int -> string)
  {
    forall i :: 0 <= i < |times| ==> StartsWith(times[i], dateText(day0 + i / 24))
  }

  /** Different days of `lo..hi` have different date texts, all of one length. */
  predicate DistinctDateTexts(dateText: int -> string, lo: int, hi: int)
  {
    forall d1, d2 :: lo <= d1 <= hi && lo <= d2 <= hi ==>
      |dateText(d1)| == |dateText(d2)| && (d1 != d2 ==> dateText(d1) != dateText(d2))
  }

  /**
   * With timestamps that advance one hour per entry from midnight of day
   * `day0`, a local "today" that is day `day0 + k` of the series puts the
   * window start at index 24·k (day 3 gives 72).
   */
  lemma StartIsTodaysMidnight(times: seq<string>, day0: int, dateText: int -> string, k: nat)
    requires DayPrefixed(times, day0, dateText)
    requires DistinctDateTexts(dateText, day0, day0 + (|times| - 1) / 24)
    requires 24 * k < |times|
    ensures StartIndex(times, dateText(day0 + k)) == 24 * k
  {
    var today := dateText(day0 + k);
    var m := 24 * k;
    assert m / 24 == k;
    assert StartsWith(times[m], today);
    forall j | 0 <= j < m
      ensures !StartsWith(times[j], today)
    {
      var dj := day0 + j / 24;
      assert j / 24 < k <= (|times| - 1) / 24;
      assert StartsWith(times[j], dateText(dj));
      assert |dateText(dj)| == |today| && dateText(dj) != today;
    }
  }

  /** `YYYY-MM-DD` of day number `day`. */
  function DateText(day: int): string
  {
    IsoDate(CivilFromDays(day))
  }

  /** `YYYY-MM-DDTHH:00` for hour `hour` of day number `day`. */
  function HourStamp(day: int, hour: nat): string
  {
    DateText(day) + "T" + PadDigits(hour, 2) + ":00"
  }

  /** Open-Meteo style timestamps: midnight of day `day0` first, then one entry per hour. */
  predicate HourlyFrom(times: seq<string>, day0: int)
  {
    forall i :: 0 <= i < |times| ==> times[i] == HourStamp(day0 + i / 24, i % 24)
  }

  lemma HourlyFromIsDayPrefixed(times: seq<string>, day0: int)
    requires HourlyFrom(times, day0)
    ensures DayPrefixed(times, day0, DateText)
  {
    forall i | 0 <= i < |times|
      ensures StartsWith(times[i], DateText(day0 + i / 24))
    {
      var date := DateText(day0 + i / 24);
      assert HourStamp(day0 + i / 24, i % 24)[..|date|] == date;
    }
  }

  /** Every day in `lo..hi` falls in a four-digit year. */
  predicate FourDigitYears(lo: int, hi: int)
  {
    forall d :: lo <= d <= hi ==> 0 <= CivilFromDays(d).year <= 9999
  }

  /** Within four-digit years, the date text of a day is ten characters long and names only that day. */
  lemma DateTextsDistinct(lo: int, hi: int)
    requires FourDigitYears(lo, hi)
    ensures DistinctDateTexts(DateText, lo, hi)
  {
    forall d1, d2 | lo <= d1 <= hi && lo <= d2 <= hi
      ensures |DateText(d1)| == |DateText(d2)| && (d1 != d2 ==> DateText(d1) != DateText(d2))
    {
      var c1 := CivilFromDays(d1);
      var c2 := CivilFromDays(d2);
      IsoDateRoundTrip(c1);
      IsoDateRoundTrip(c2);
      if DateText(d1) == DateText(d2) {
        CivilFromDaysInjective(d1, d2);
      }
    }
  }

  /** The same, for the timestamps the forecast source produces. */
  lemma StartIsTodaysMidnightFromClock(times: seq<string>, day0: int, k: nat)
    requires HourlyFrom(times, day0)
    requires FourDigitYears(day0, day0 + (|times| - 1) / 24)
    requires 24 * k < |times|
    ensures StartIndex(times, DateText(day0 + k)) == 24 * k
  {
    HourlyFromIsDayPrefixed(times, day0);
    DateTextsDistinct(day0, day0 + (|times| - 1) / 24);
    StartIsTodaysMidnight(times, day0, DateText, k);
  }
}
