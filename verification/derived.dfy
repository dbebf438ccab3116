/**
 * Per-point rules that `renderCharts` derives from the aligned window: the
 * x-axis hour labels, which ticks carry a label, the night shading and the
 * precipitation-probability shading bars.
 */
module ChartRules {
  import opened Basics
  import opened Numbers
  import opened Calendar
  import opened ForecastWindow

  // ----------------------------------------------------------- timestamps

  /** A local timestamp `YYYY-MM-DDTHH:mm` (anything after the minutes is ignored). */
  predicate IsTimestamp(t: string)
  {
    && |t| >= 16 && IsDateText(t[..10]) && t[10] == 'T'
    && AllDigits(t[11..13]) && t[13] == ':' && AllDigits(t[14..16])
  }

  /** The hour field: `t.split('T')[1].split(':')[0]` read as a number. */
  function HourOf(t: string): (h: nat)
    requires IsTimestamp(t)
    ensures h <= 99
    ensures t[11] == '0' ==> h == DigitValue(t[12])
  {
    var field := t[11..13];
    assert field[..|field| - 1] == field[..1] && field[..1][..0] == [];
    assert ParseDecimal(field[..1]) == DigitValue(field[0]);
    ParseDecimal(field)
  }

  lemma HourOfDateAndHour(date: string, hour: nat)
    requires IsDateText(date) && hour < 24
    ensures IsTimestamp(date + "T" + PadDigits(hour, 2) + ":00")
    ensures HourOf(date + "T" + PadDigits(hour, 2) + ":00") == hour
  {
    var field := PadDigits(hour, 2);
    assert ParseDecimal(field) == hour by {
      TwoDigitsRoundTrip(hour);
    }
    TimestampFields(date, field, date + "T" + field + ":00");
  }

  /** The fields of a timestamp assembled from a date and a two-digit hour. */
  lemma TimestampFields(date: string, field: string, t: string)
    requires IsDateText(date) && |field| == 2 && AllDigits(field)
    requires t == date + "T" + field + ":00"
    ensures IsTimestamp(t) && t[11..13] == field
  {
    assert t[..10] == date && t[10] == 'T' && t[13] == ':';
    assert t[11..13] == field;
    assert t[14..16] == "00";
  }

  /** The timestamps the forecast source produces carry the hour they were made for. */
  lemma HourOfStamp(day: int, hour: nat)
    requires 0 <= CivilFromDays(day).year <= 9999 && hour < 24
    ensures IsTimestamp(HourStamp(day, hour))
    ensures HourOf(HourStamp(day, hour)) == hour
  {
    IsoDateRoundTrip(CivilFromDays(day));
    HourOfDateAndHour(DateText(day), hour);
  }

  // --------------------------------------------------------------- labels

  /** The 12-hour clock reading of a 24-hour clock hour. */
  function ClockHour(hour: nat): (h: nat)
    ensures 1 <= h <= 12 && h % 12 == hour % 12
  {
    if hour % 12 == 0 then 12 else hour % 12
  }

  function Meridiem(hour: nat): (m: string)
    ensures m == "PM" <==> hour >= 12
    ensures m == "AM" <==> hour < 12
  {
    if hour >= 12 then "PM" else "AM"
  }

  /**
   * The x-axis label of an hour: `<weekday> 12 AM` at midnight, otherwise
   * `h AM` / `h PM` on the 12-hour clock. The weekday name comes from the
   * locale and is taken as given.
   */
  function HourLabel(hour: nat, weekday: string): (text: string)
    ensures hour == 0 ==> text == weekday + " 12 AM"
    ensures hour != 0 ==> text == Decimal(ClockHour(hour)) + " " + Meridiem(hour)
  {
    if hour == 0 then weekday + " 12 AM"
    else Decimal(ClockHour(hour)) + " " + Meridiem(hour)
  }

  /** The labels of a window, one per timestamp, each with its own weekday name. */
  function HourLabels(times: seq<string>, weekdayOf: string -> string): (labels: seq<string>)
    requires forall i :: 0 <= i < |times| ==> IsTimestamp(times[i])
    ensures |labels| == |times|
    ensures forall i :: 0 <= i < |times| ==> labels[i] == HourLabel(HourOf(times[i]), weekdayOf(times[i]))
  {
    seq(|times|, i requires 0 <= i < |times| => HourLabel(HourOf(times[i]), weekdayOf(times[i])))
  }

  /** The run of decimal digits that ends `s`. */
  function TrailingDigits(s: string): (d: string)
    ensures AllDigits(d) && |d| <= |s|
  {
    if |s| == 0 || !IsDigit(s[|s| - 1]) then "" else TrailingDigits(s[..|s| - 1]) + [s[|s| - 1]]
  }

  lemma {:induction false} TrailingDigitsOfNumber(prefix: string, digits: string)
    requires AllDigits(digits)
    requires |prefix| == 0 || !IsDigit(prefix[|prefix| - 1])
    ensures TrailingDigits(prefix + digits) == digits
  {
    var s := prefix + digits;
    if |digits| == 0 {
      assert s == prefix;
    } else {
      var last := digits[|digits| - 1];
      assert s[|s| - 1] == last;
      assert IsDigit(last);
      assert s[..|s| - 1] == prefix + digits[..|digits| - 1];
      TrailingDigitsOfNumber(prefix, digits[..|digits| - 1]);
      assert digits == digits[..|digits| - 1] + [last];
    }
  }

  /** Reads the hour of day back from a label: the number before ` AM`/` PM`, on the 24-hour clock. */
  function LabelHour(text: string): Option<nat>
  {
    if |text| < 4 || text[|text| - 3] != ' ' then None
    else
      var meridiem := text[|text| - 2..];
      var digits := TrailingDigits(text[..|text| - 3]);
      if |digits| == 0 || (meridiem != "AM" && meridiem != "PM") then None
      else Some(ParseDecimal(digits) % 12 + if meridiem == "PM" then 12 else 0)
  }

  lemma LabelParts(prefix: string, digits: string, meridiem: string)
    requires |meridiem| == 2
    ensures var text := prefix + digits + " " + meridiem;
      && text[..|text| - 3] == prefix + digits
      && text[|text| - 3] == ' '
      && text[|text| - 2..] == meridiem
  {
  }

  lemma LabelHourOfParts(text: string, meridiem: string, digits: string)
    requires |text| >= 4 && text[|text| - 3] == ' '
    requires text[|text| - 2..] == meridiem
    requires meridiem == "AM" || meridiem == "PM"
    requires TrailingDigits(text[..|text| - 3]) == digits && |digits| >= 1
    ensures LabelHour(text) == Some(ParseDecimal(digits) % 12 + if meridiem == "PM" then 12 else 0)
  {
  }

  /** Reading back `prefix + digits + " " + meridiem` recovers the number and the meridiem. */
  lemma ReadBackLabel(prefix: string, digits: string, meridiem: string)
    requires |prefix| == 0 || !IsDigit(prefix[|prefix| - 1])
    requires 1 <= |digits| && AllDigits(digits)
    requires meridiem == "AM" || meridiem == "PM"
    ensures LabelHour(prefix + digits + " " + meridiem) ==
      Some(ParseDecimal(digits) % 12 + if meridiem == "PM" then 12 else 0)
  {
    var text := prefix + digits + " " + meridiem;
    LabelParts(prefix, digits, meridiem);
    assert text[..|text| - 3] == prefix + digits;
    assert TrailingDigits(text[..|text| - 3]) == digits by {
      TrailingDigitsOfNumber(prefix, digits);
    }
    LabelHourOfParts(text, meridiem, digits);
  }

  lemma MidnightLabelReadsBack(weekday: string)
    ensures LabelHour(HourLabel(0, weekday)) == Some(0)
  {
    var digits := Decimal(12);
    DecimalRoundTrip(12);
    assert HourLabel(0, weekday) == (weekday + " ") + digits + " " + "AM";
    ReadBackLabel(weekday + " ", digits, "AM");
  }

  lemma ClockLabelReadsBack(hour: nat)
    requires 0 < hour < 24
    ensures LabelHour(HourLabel(hour, "")) == Some(hour)
  {
    var h := ClockHour(hour);
    var m := Meridiem(hour);
    var digits := Decimal(h);
    assert LabelHour("" + digits + " " + m) == Some(hour) by {
      assert ParseDecimal(digits) % 12 + (if m == "PM" then 12 else 0) == hour by {
        DecimalRoundTrip(h);
        assert h % 12 + (if hour >= 12 then 12 else 0) == hour;
      }
      ReadBackLabel("", digits, m);
    }
    assert HourLabel(hour, "") == "" + digits + " " + m;
  }

  /** Every label names its hour unambiguously: reading it back gives the hour of day. */
  lemma LabelNamesItsHour(hour: nat, weekday: string)
    requires hour < 24
    ensures LabelHour(HourLabel(hour, weekday)) == Some(hour)
  {
    if hour == 0 {
      MidnightLabelReadsBack(weekday);
    } else {
      ClockLabelReadsBack(hour);
      assert HourLabel(hour, weekday) == HourLabel(hour, "");
    }
  }

  /** Two hours of one day never share a label. */
  lemma LabelsDistinctWithinDay(h1: nat, h2: nat, weekday: string)
    requires h1 < 24 && h2 < 24 && h1 != h2
    ensures HourLabel(h1, weekday) != HourLabel(h2, weekday)
  {
    LabelNamesItsHour(h1, weekday);
    LabelNamesItsHour(h2, weekday);
  }

  // ---------------------------------------------------------------- ticks

  /** The tick callback: only every 24th point (each midnight) shows its label. */
  function TickText(index: nat, text: string): (r: Option<string>)
    ensures r.Some? <==> index % 24 == 0
    ensures r.Some? ==> r.value == text
  {
    if index % 24 == 0 then Some(text) else None
  }

  function TickTexts(labels: seq<string>): (r: seq<Option<string>>)
    ensures |r| == |labels|
    ensures forall i :: 0 <= i < |r| ==> r[i] == TickText(i, labels[i])
  {
    seq(|labels|, i requires 0 <= i < |labels| => TickText(i, labels[i]))
  }

  function CountShown(ticks: seq<Option<string>>): nat
  {
    if |ticks| == 0 then 0
    else CountShown(ticks[..|ticks| - 1]) + if ticks[|ticks| - 1].Some? then 1 else 0
  }

  /** A window of `n` points shows ⌈n / 24⌉ labelled ticks. */
  lemma {:induction false} LabelledTickCount(labels: seq<string>)
    ensures CountShown(TickTexts(labels)) == (|labels| + 23) / 24
  {
    var n := |labels|;
    if n > 0 {
      var ticks := TickTexts(labels);
      assert ticks[..n - 1] == TickTexts(labels[..n - 1]);
      LabelledTickCount(labels[..n - 1]);
      assert ticks[n - 1].Some? <==> (n - 1) % 24 == 0;
    }
  }

  /** A full 241-point window shows exactly 11 day labels. */
  lemma FullWindowShowsElevenLabels(labels: seq<string>)
    requires |labels| == WindowLength
    ensures CountShown(TickTexts(labels)) == 11
  {
    LabelledTickCount(labels);
  }

  // ---------------------------------------------------------------- night

  /** Night runs from 18:00 to 06:00. */
  predicate IsNightHour(hour: int)
  {
    hour >= 18 || hour < 6
  }

  /**
   * The background shading plugin: interval `i` (from point `i` to `i + 1`)
   * is shaded when point `i` falls at night; the last point closes the
   * window and opens no interval.
   */
  function NightShading(times: seq<string>): (shaded: seq<bool>)
    requires forall i :: 0 <= i < |times| ==> IsTimestamp(times[i])
    ensures |shaded| == |times|
    ensures forall i :: 0 <= i < |times| ==>
      (shaded[i] <==> i < |times| - 1 && IsNightHour(HourOf(times[i])))
  {
    seq(|times|, i requires 0 <= i < |times| => i < |times| - 1 && IsNightHour(HourOf(times[i])))
  }

  function CountTrue(s: seq<bool>): nat
  {
    if |s| == 0 then 0 else CountTrue(s[..|s| - 1]) + if s[|s| - 1] then 1 else 0
  }

  /** Night hours among the first `m` hours of a series that starts at midnight. */
  function NightHoursBefore(m: nat): nat
  {
    if m == 0 then 0 else NightHoursBefore(m - 1) + if IsNightHour((m - 1) % 24) then 1 else 0
  }

  /** Night hours among hours `0 .. r-1` of one day. */
  function NightHoursOfDayBefore(r: nat): nat
  {
    if r <= 6 then r else if r <= 18 then 6 else r - 12
  }

  /** Twelve night hours per full day, plus those of the partial day. */
  lemma {:induction false} NightHoursClosedForm(m: nat)
    ensures NightHoursBefore(m) == 12 * (m / 24) + NightHoursOfDayBefore(m % 24)
  {
    if m > 0 {
      NightHoursClosedForm(m - 1);
      if (m - 1) % 24 == 23 {
        assert m % 24 == 0 && m / 24 == (m - 1) / 24 + 1;
      } else {
        assert m % 24 == (m - 1) % 24 + 1 && m / 24 == (m - 1) / 24;
      }
    }
  }

  lemma {:induction false} CountNightPrefix(s: seq<bool>, m: nat)
    requires m <= |s|
    requires forall i :: 0 <= i < |s| ==> (s[i] <==> i < m && IsNightHour(i % 24))
    ensures CountTrue(s) == NightHoursBefore(m)
  {
    if |s| > 0 {
      var n := |s|;
      if m == n {
        CountNightPrefix(s[..n - 1], m - 1);
      } else {
        CountNightPrefix(s[..n - 1], m);
      }
    }
  }

  /**
   * In a window that starts at midnight and advances one hour per point,
   * the shaded intervals are exactly the night hours: twelve per full day,
   * so 120 of the 240 intervals of a full window.
   */
  lemma NightShadingOfAlignedWindow(times: seq<string>)
    requires |times| >= 1
    requires forall i :: 0 <= i < |times| ==> IsTimestamp(times[i]) && HourOf(times[i]) == i % 24
    ensures CountTrue(NightShading(times)) ==
      12 * ((|times| - 1) / 24) + NightHoursOfDayBefore((|times| - 1) % 24)
    ensures |times| == WindowLength ==> CountTrue(NightShading(times)) == 120
  {
    CountNightPrefix(NightShading(times), |times| - 1);
    NightHoursClosedForm(|times| - 1);
  }

  // -------------------------------------------------- precipitation shading

  /** The height of a shading bar: the probability, floored at zero. */
  function ShadingHeight(probability: real): (h: real)
    ensures h >= 0.0 && h >= probability
    ensures h == probability || h == 0.0
  {
    if probability > 0.0 then probability else 0.0
  }

  function ShadingHeights(probabilities: seq<real>): (r: seq<real>)
    ensures |r| == |probabilities|
    ensures forall i :: 0 <= i < |r| ==> r[i] == ShadingHeight(probabilities[i])
  {
    seq(|probabilities|, i requires 0 <= i < |probabilities| => ShadingHeight(probabilities[i]))
  }

  datatype BarTint = Transparent | SnowTint | RainTint

  /** The colour of a shading bar: none without a chance of precipitation, purple for snow, blue otherwise. */
  function BarColour(probability: real, snowfall: real): (t: BarTint)
    ensures t == Transparent <==> probability <= 0.0
    ensures t == SnowTint <==> probability > 0.0 && snowfall > 0.0
    ensures t == RainTint <==> probability > 0.0 && snowfall <= 0.0
  {
    if probability <= 0.0 then Transparent
    else if snowfall > 0.0 then SnowTint
    else RainTint
  }

  /** A bar is drawn transparent exactly when it has no height. */
  lemma TransparentIffFlat(probability: real, snowfall: real)
    ensures BarColour(probability, snowfall) == Transparent <==> ShadingHeight(probability) == 0.0
  {
  }
}
