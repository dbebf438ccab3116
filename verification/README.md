# Weather forecast view — a Dafny model

This project models the computational core of a browser weather app. The app
looks up a place, fetches an hourly and daily forecast from Open-Meteo, and
draws four stacked hourly charts plus a row of daily cards. The model covers
five parts of that app:

- **Forecast window.** The hourly charts start at local midnight of "today"
  in the location's time zone. Every hourly series is cut to 241 points from
  there. The hour labels, the every-24th tick rule, night shading,
  precipitation-probability bars and the running precipitation total are all
  derived from that window (`ForecastWindow`, `ChartRules`, `Accumulation`).
  The daily cards start at the first day whose date string is not below
  today's (`DailyCards`). Today's date text comes from the clock reading and
  the UTC offset through a proleptic Gregorian days-to-civil conversion
  (`Calendar`).
- **Crosshair and now-marker.** The black now-line sits at the local hour of
  day. A crosshair follows the pointer and keeps every chart's active point
  in sync. It is a state machine over the chart slots, the pending animation
  frame and the crosshair position (`Crosshair`).
- **Viewport navigator.** A handle on a strip mirrors the horizontal scroll
  of the chart container. Pressing, dragging and releasing the handle scroll
  the container (`Viewport`). The strip also shows a temperature sparkline
  with alternate-day shading (`Sparkline`).
- **Weather codes.** WMO weather interpretation codes (code table 4677) are
  mapped to one of five icons and to a short label (`WeatherCodes`).
- **Response cache.** Geocoding and forecast responses are kept in memory for
  five minutes, and both requests consult the cache before fetching
  (`ResponseCache`).

JavaScript behaviour is written out explicitly:
- `Math.round` rounds halves up.
- `toFixed(2)` rounds the magnitude, so halves go away from zero.
- `getUTCHours` uses floor division.
- A `Date` outside ±8.64e15 ms is invalid, and `toISOString` throws on it.
- String `<` is lexicographic.
- `slice` never pads.

Numbers are exact `int`/`real`. The clock, the network, the canvas and the
chart library's pixel scale are parameters.

## Where the code and the obvious design differ

The model follows the code in each of these cases:
- **Mouse-move coalescing keeps the first event.** While a frame is pending,
  later mouse moves are dropped. The frame draws at the position of the
  first move (`Crosshair.FirstMoveWins`).
- **The pointer bound is the full series length.** It is the length of the
  full hourly series handed to the setup, not of the 241-point window. An
  index the charts do not hold can therefore be accepted
  (`Crosshair.AcceptsBeyondWindow`).
- **Mouse-leave clears every chart.** Charts with nothing active are cleared
  and redrawn too.
- **Daily cards use a different start rule from the hourly window.** The
  cards start at the first date string lexicographically at or after today.
  The hourly window uses a prefix match instead.
- **A missing UTC offset is handled two ways.** The charts and the daily
  cards treat an absent offset as 0, through a default parameter and
  `|| 0`. The now-marker has no default: an absent offset makes the local
  instant NaN and the marker is not shown (`Crosshair.SetUp`).
- **An empty `time` array throws.** The safety check after the start-index
  loop reads `time[0]`, so an empty hourly `time` array throws. The model
  returns `Failure(NoTimestamps)`.

## Model

| member | source | states |
|---|---|---|
| `Numbers.RoundHalfUp` | src/ui.js:50-51 | `Math.round(x)` is the integer n with n − ½ ≤ x < n + ½ |
| `Numbers.RoundHalfUpMonotone` | src/main.js:102-103 | rounding a larger scale value never gives a smaller index |
| `Numbers.Hundredths` | src/ui.js:434 | `toFixed(2)` prints the hundredths nearest to x, with halves rounded away from zero |
| `Numbers.Round2` | src/ui.js:434 | `parseFloat(x.toFixed(2))` is exactly that many hundredths |
| `Numbers.Round2Monotone` | src/ui.js:431-435 | two-decimal rounding preserves order, so rounded running totals of rain cannot fall |
| `Numbers.Round2OfHundredths` | src/ui.js:434 | a value that is already a whole number of hundredths is left unchanged |
| `Numbers.Clamp` | src/viewport-preview.js:96 | `Math.max(lo, Math.min(hi, x))` lies in [lo, hi], is x when x is inside, and is lo when the interval is empty |
| `Numbers.ScaledWithin` | src/viewport-preview.js:69 | a fraction in [0, 1] of a non-negative length lies in [0, length] |
| `Numbers.Cancel` | src/viewport-preview.js:103-104 | multiplying and dividing by the same non-zero width cancel |
| `Numbers.Decimal` | src/ui.js:138 | `String(n)` is all digits, one digit iff n < 10, two for 10..99 |
| `Numbers.DecimalRoundTrip` | src/ui.js:128-129 | reading back the decimal text of n gives n |
| `Numbers.PadDigits` | src/ui.js:79 | a zero-padded field has exactly the requested width and only digits |
| `Numbers.PadDigitsRoundTrip` | src/ui.js:79 | a zero-padded field reads back as n modulo 10^width |
| `Numbers.JsLess` | src/ui.js:42 | string `<`: a proper prefix is below the longer string, and no string is below its own prefix |
| `Numbers.ParsePadRoundTrip` | src/ui.js:8 | `Number` of a digit string is below 10 to its length, and padding it back to that length gives the same digits |
| `Numbers.JsLessIrreflexive` | src/ui.js:42 | no string is below itself |
| `Numbers.JsLessTransitive` | src/ui.js:42 | string `<` is transitive |
| `Numbers.JsLessTotal` | src/ui.js:42 | of two different strings one is below the other |
| `Calendar.SplitEraDay` | src/ui.js:77-79 | a day of a 400-year era splits into a year of the era and a day of that year |
| `Calendar.CivilFromDays` | src/ui.js:77-79 | the UTC date of a day number is a real calendar date: month 1..12 and a day no later than that month's last, with 29 February only in Gregorian leap years |
| `Calendar.CivilFromDaysInverse` | src/ui.js:77-79 | counting days back from the computed date gives the day number again |
| `Calendar.CivilFromDaysInjective` | src/ui.js:77-79 | different day numbers have different dates |
| `Calendar.CalendarDateRoundTrip` | src/ui.js:77-79 | every calendar date is the date of its own day number, so with `CivilFromDaysInverse` day numbers and calendar dates correspond one to one |
| `Calendar.OffsetOrZero` | src/ui.js:37 | an absent offset reads as 0 seconds (UTC); a present one is used as given |
| `Calendar.YearText` | src/ui.js:79 | a year 0..9999 is written as four digits that read back as the year |
| `Calendar.IsoDate` | src/ui.js:79 | the date text of a four-digit year is ten characters with dashes at 4 and 7 |
| `Calendar.ParseIsoDate` | src/ui.js:8 | the three numbers read from a `YYYY-MM-DD` text are a year 0..9999 and a month and day of two digits each |
| `Calendar.DateTextRoundTrip` | src/ui.js:8 | a date text with month 1..12 and day 1..31 is exactly the `YYYY-MM-DD` text of what it reads as |
| `Calendar.ValidTime` | src/ui.js:37 | a valid time value lies at most 10^8 days either side of the epoch, and every instant strictly inside that band is valid |
| `Calendar.DayNumber` | src/ui.js:38 | the UTC day number of an instant is the day whose 86 400 000 ms span contains it |
| `Calendar.IsoDateRoundTrip` | src/ui.js:8 | splitting `YYYY-MM-DD` on dashes and reading the numbers gives back the date |
| `Calendar.LocalDateText` | src/ui.js:77-79 | local today's date text exists exactly when the shifted instant is a valid Date |
| `Calendar.HourOfDay` | src/main.js:45-47 | `getUTCHours` exists iff the Date is valid, lies in 0..23, and names the hour whose span in that day contains the instant |
| `Calendar.EpochDay` | src/ui.js:77-79 | day 0 is 1 January 1970 |
| `Calendar.EpochIsNewYear1970` | src/ui.js:77-79 | the epoch at offset 0 is local date "1970-01-01" |
| `Calendar.LeapDay2000` | src/ui.js:77-79 | 2000 is a leap year: 28 February and 1 March are two days apart |
| `Calendar.Day20736` | src/ui.js:77-79 | day 20736 is 10 October 2026 |
| `Calendar.AfternoonAtUtcMinus7` | src/main.js:45-47 | a clock reading at UTC−7 gives local date "2026-10-10" and hour index 14 |
| `ForecastWindow.FirstMatchFrom` | src/ui.js:85-89 | the search returns the first timestamp at or after `from` that starts with today, or none when no later one does |
| `ForecastWindow.StartIndex` | src/ui.js:84-90 | the start is the first timestamp with today's date as a prefix, or 0 when none has it |
| `ForecastWindow.StartsWith` | src/ui.js:86 | `startsWith(prefix)`: the prefix is no longer than the string and equals its first characters |
| `ForecastWindow.Slice` | src/ui.js:100 | a slice has length min(241, n − start), or 0 past the end, and element k is source element start + k |
| `ForecastWindow.Align` | src/ui.js:84-116 | it fails exactly on an empty `time` array; otherwise the window starts at the prefix match and holds min(241, n − start) unpadded entries |
| `ForecastWindow.AlignAt` | src/ui.js:72-79 | alignment from the clock fails with an invalid-date error exactly when the shifted instant is out of range; an absent offset takes the default 0 |
| `ForecastWindow.MissingOffsetAlignsOnUtc` | src/ui.js:72 | without an offset the window is aligned exactly as with offset 0, on the UTC date of the clock reading |
| `ForecastWindow.SliceAll` | src/ui.js:100-116 | every column is cut to the same window, of length min(241, n − start); a rectangular forecast stays rectangular |
| `ForecastWindow.AlignKeepsColumnsInStep` | src/ui.js:102-116 | all sliced columns stay the same length as `time` and keep their entries aligned |
| `ForecastWindow.StartIsTodaysMidnight` | src/ui.js:84-90 | for day-prefixed timestamps with distinct date texts, today = day k puts the start at 24·k |
| `ForecastWindow.HourlyFromIsDayPrefixed` | src/ui.js:86 | hour stamps `YYYY-MM-DDTHH:00` start with their day's date text |
| `ForecastWindow.DateTextsDistinct` | src/ui.js:86 | within four-digit years, different days have different ten-character date texts |
| `ForecastWindow.StartIsTodaysMidnightFromClock` | src/ui.js:84-90 | for hourly stamps from midnight of day d0, today = d0 + k starts the window at index 24·k |
| `ChartRules.HourOf` | src/ui.js:173 | the hour read from a timestamp's two-digit `HH` field is at most 99, and a leading zero is dropped |
| `ChartRules.HourOfDateAndHour` | src/ui.js:173 | the hour parsed from `date + "T" + HH + ":00"` is HH |
| `ChartRules.HourOfStamp` | src/ui.js:129 | an hour stamp is a well-formed timestamp and its hour field reads back |
| `ChartRules.ClockHour` | src/ui.js:133 | the 12-hour clock value lies in 1..12 and agrees with hour modulo 12 |
| `ChartRules.Meridiem` | src/ui.js:132 | the suffix is "PM" iff hour ≥ 12 |
| `ChartRules.HourLabel` | src/ui.js:132-138 | midnight is "<weekday> 12 AM"; other hours are "h AM/PM" |
| `ChartRules.HourLabels` | src/ui.js:125-139 | one label per timestamp, built from its parsed hour |
| `ChartRules.TrailingDigits` | src/ui.js:129 | the digit run at the end of a string is digits only |
| `ChartRules.TrailingDigitsOfNumber` | src/ui.js:138 | after a non-digit, the trailing digit run is exactly the appended number |
| `ChartRules.LabelParts` | src/ui.js:138 | a label splits back into its number, a space and its two-letter suffix |
| `ChartRules.LabelHourOfParts` | src/ui.js:132-133 | reading a label's digits and AM/PM recovers the 24-hour value |
| `ChartRules.ReadBackLabel` | src/ui.js:132-138 | any prefix + digits + " AM/PM" reads back to the clock hour it names |
| `ChartRules.MidnightLabelReadsBack` | src/ui.js:135-136 | the weekday midnight label reads back as hour 0 |
| `ChartRules.ClockLabelReadsBack` | src/ui.js:138 | every non-midnight label reads back as its hour |
| `ChartRules.LabelNamesItsHour` | src/ui.js:132-138 | every hour 0..23 is recovered from its label |
| `ChartRules.LabelsDistinctWithinDay` | src/ui.js:132-138 | different hours of one day get different labels |
| `ChartRules.TickText` | src/ui.js:241-246 | a tick shows its label iff its index is a multiple of 24 |
| `ChartRules.TickTexts` | src/ui.js:241-246 | the tick rule is applied to every label position |
| `ChartRules.LabelledTickCount` | src/ui.js:241-246 | n points show ⌈n / 24⌉ labels |
| `ChartRules.FullWindowShowsElevenLabels` | src/ui.js:241-246 | a full 241-point window shows exactly 11 labels |
| `ChartRules.IsNightHour` | src/ui.js:176 | night is an hour of 18 or later, or before 6 |
| `ChartRules.NightShading` | src/ui.js:169-176 | interval i is shaded iff it is not the last point and its hour is ≥ 18 or < 6 |
| `ChartRules.NightHoursClosedForm` | src/ui.js:176 | the night hours among the first m hours are 12 per whole day plus those of the partial day |
| `ChartRules.CountNightPrefix` | src/ui.js:169-176 | a prefix of hours starting at midnight shades the closed-form count |
| `ChartRules.NightShadingOfAlignedWindow` | src/ui.js:169-176 | a window aligned at midnight shades the closed-form count, 120 intervals for 241 points |
| `ChartRules.ShadingHeight` | src/ui.js:350 | a bar height is max(v, 0) |
| `ChartRules.ShadingHeights` | src/ui.js:350 | bar heights are taken pointwise over the probabilities |
| `ChartRules.BarColour` | src/ui.js:352-358 | a bar is transparent iff probability ≤ 0, else snow-tinted iff snowfall > 0, else rain-tinted |
| `ChartRules.TransparentIffFlat` | src/ui.js:350-358 | a bar is transparent exactly when its height is 0 |
| `Accumulation.RunningTotals` | src/ui.js:428-436 | the totals have one entry per hour |
| `Accumulation.TotalGrows` | src/ui.js:432 | with non-negative hours, a longer prefix has a sum at least as large |
| `Accumulation.RunningTotalsNonDecreasing` | src/ui.js:431-435 | with non-negative hours, the rounded running totals never fall |
| `Accumulation.Accumulate` | src/ui.js:428-436 | entry i is the unrounded sum of hours 0..i rounded to two decimals; non-decreasing for non-negative input; the last entry is the rounded grand total |
| `Accumulation.RoundingIsNotCompounded` | src/ui.js:432-434 | the running sum carries no rounding: 0.004 + 0.004 shows 0.01, not 0 |
| `DailyCards.FirstNotBefore` | src/ui.js:41-45 | the scan stops at the first day whose date string is not below today |
| `DailyCards.DailyStart` | src/ui.js:40-46 | the cards start at the first day not lexicographically below today, or 0 when every day is earlier |
| `DailyCards.StartsAtToday` | src/ui.js:40-46 | in a strictly ascending day list that contains today, the cards start exactly at today |
| `DailyCards.FixedTwo` | src/ui.js:53 | `toFixed(2)` of a non-negative amount below 10^21 is digits, a point, then two digits |
| `DailyCards.FixedTwoReadsBack` | src/ui.js:53 | the two-decimal text reads back as the amount rounded to hundredths |
| `DailyCards.PrecipText` | src/ui.js:52-53 | a card's precipitation line is blank iff the total is ≤ 0; otherwise it is the two-decimal text followed by " in" |
| `DailyCards.DateLabel` | src/ui.js:5-14 | a numeric month/day label is given exactly for a `YYYY-MM-DD` text that names a calendar day once `new Date` has read a year 0..99 as 1900..1999, and it is the month "/" day read from the text |
| `DailyCards.TwoDigitYearLeap` | src/ui.js:9 | a year 0..99 read as 1900..1999 is a leap year exactly when the year itself is, except year 0 (1900 is not a leap year) |
| `DailyCards.LeapDayOfYearZeroHasNoLabel` | src/ui.js:9 | 0000-02-29 is a calendar date, but the `Date` constructor reads it as 29 February 1900, which does not exist |
| `DailyCards.ConstructorKeepsDate` | src/ui.js:9 | every other calendar date with a non-negative year is still a calendar date after the two-digit-year rule |
| `DailyCards.DateLabelOfDay` | src/ui.js:8-12 | the label of a day's date text (years 0..9999, 0000-02-29 excepted) is that day's month "/" day |
| `DailyCards.CardAt` | src/ui.js:49-54 | a card shows the day and its month/day label, high and low each within ½ of the source, a blank precipitation line iff the day is dry and otherwise the two-decimal total followed by " in", and the code's icon and label |
| `DailyCards.CardLabelOfDay` | src/ui.js:49 | the card of a day's date text (years 0..9999, 0000-02-29 excepted) is labelled with that day's month "/" day |
| `DailyCards.CardPrecipReadsBack` | src/ui.js:52-53 | a wet day's card line ends in " in" and its number reads back as the day's total in hundredths |
| `DailyCards.DayCardsFor` | src/ui.js:48-69 | one card per day from the start day on, in order |
| `DailyCards.RenderDaily` | src/ui.js:36-38 | cards are drawn iff the clock and offset give a valid Date; a missing offset counts as 0 |
| `DailyCards.CardLowNotAboveHigh` | src/ui.js:50-51 | a card never shows a low above its high when the minimum ≤ the maximum |
| `DailyCards.SinglePastDayCard` | src/test/ui.test.js:42-53 | one past day still gives one card: 70 high, 50 low, "Mostly Sunny", no precipitation |
| `WeatherCodes.IconFor` | src/icons.js:43-54 | icon by code interval: 0 clear; 1..3, 87..94 and negative codes partly cloudy; 4..48 cloudy; 49..67, 78..82 and ≥ 95 rain; 68..77 and 83..86 snow |
| `WeatherCodes.LabelFor` | src/icons.js:57-71 | label by code interval, each label iff its interval; negative codes are "Foggy" and 87..94 "Unknown" |
| `WeatherCodes.IconMatchesLabel` | src/icons.js:50-69 | for codes ≥ 0, a snow label goes with the snow icon and a wet label with the rain icon, and vice versa |
| `Crosshair.SetUp` | src/main.js:30-47 | setup happens iff wrapper, first canvas, time line and first chart exist; the marker is the local hour, in 0..23, shown iff an offset is given and the shifted Date is valid (an absent offset gives NaN and no marker) |
| `Crosshair.MarkerIsLocalHour` | src/main.js:45-76 | with a valid Date, the `hourIndex >= 0` guard passes and the marker is the hour containing now + offset |
| `Crosshair.IndexAt` | src/main.js:99-103 | the pointer's index is the scale value at its canvas offset, rounded half up |
| `Crosshair.Accepts` | src/main.js:105 | an index is used only when 0 ≤ index < bound |
| `Crosshair.AcceptedValues` | src/main.js:105 | an index is accepted iff the scale value lies in [−½, bound − ½) |
| `Crosshair.SyncPanel` | src/main.js:114-122 | a present chart ends at the index and is updated and redrawn only when it was elsewhere; a missing one stays missing |
| `Crosshair.SyncTo` | src/main.js:113-123 | every chart slot is synced to the index |
| `Crosshair.SyncIdempotent` | src/main.js:116-117 | a second sync to the same index changes nothing |
| `Crosshair.SyncRedrawsOnlyDiffering` | src/main.js:116-121 | a sync costs one redraw per chart that was not already at the index |
| `Crosshair.ClearAll` | src/main.js:168-173 | every present chart is cleared and redrawn, missing ones skipped |
| `Crosshair.ShowIndex` | src/main.js:105-123 | an accepted index moves the crosshair and syncs the charts; a rejected one changes nothing |
| `Crosshair.OnMouseMove` | src/main.js:94-97 | a move is recorded only when no frame is pending |
| `Crosshair.OnFrame` | src/main.js:97-125 | the frame always clears the pending flag; with a recorded move whose index is accepted it shows the crosshair at that index and syncs every chart to it, otherwise nothing else changes |
| `Crosshair.OnTouch` | src/main.js:129-151 | a touch with an accepted index shows the crosshair there and syncs every chart at once; a rejected one changes nothing; a pending frame is left alone |
| `Crosshair.OnMouseLeave` | src/main.js:162-174 | leaving cancels the frame, hides the crosshair and clears all charts |
| `Crosshair.Step` | src/main.js:94-174 | a touch end (src/main.js:158-160) changes nothing; every handler keeps the charts in step with the crosshair: each available chart has the crosshair's index active, none when it is hidden, and a shown crosshair is at an accepted index |
| `Crosshair.Run` | src/main.js:94-174 | any run of events keeps the chart slots and keeps the charts in step with the crosshair, once they start in step |
| `Crosshair.RunConcat` | src/main.js:94-174 | the handlers act event by event: running a + b is running b from the state a leaves |
| `Crosshair.TouchIsMoveThenFrame` | src/main.js:94-151 | with no frame pending, a touch does at once what a mouse move followed by its frame does |
| `Crosshair.MovesWhilePendingAreDropped` | src/main.js:95 | any number of mouse moves while a frame is pending leave the state unchanged |
| `Crosshair.FirstMoveWins` | src/main.js:94-98 | two moves then a frame end as if only the first move had happened |
| `Crosshair.LeaveRedrawsEvenWhenClear` | src/main.js:169-173 | leaving redraws a chart with nothing active |
| `Crosshair.AcceptsBeyondWindow` | src/main.js:220 | with a 300-entry series, index 250 is accepted although the window holds 241 points |
| `Crosshair.HoverSync` | src/ui.js:256-269 | on a hover with an active element, every other chart takes its index and re-renders; the hovered chart is untouched; without one nothing changes |
| `Crosshair.HoverAligns` | src/ui.js:260-268 | after a hover every chart shows the hovered index |
| `Viewport.VisibleRatio` | src/viewport-preview.js:63 | the visible ratio is min(1, visible / total) |
| `Viewport.HandleWidth` | src/viewport-preview.js:64 | the handle is max(40, ratio · strip) wide, never wider than a strip of at least 40 |
| `Viewport.MaxScroll` | src/viewport-preview.js:63-68 | `maxScroll = totalWidth - visibleWidth` is positive exactly when the visible ratio is below 1 |
| `Viewport.HandleGeometry` | src/viewport-preview.js:56-73 | left is 0 when there is nothing to scroll, else scroll/maxScroll · maxHandleX, lying in [0, maxHandleX] for a scroll in range |
| `Viewport.HandleAt` | src/viewport-preview.js:71-72 | the styled handle has the geometry's width and left |
| `Viewport.WorkedExample` | src/viewport-preview.js:57-69 | 2400/240/300 scrolled to 1080 gives width 40, maxHandleX 260, maxScroll 2160, left 130 |
| `Viewport.ScrollForLeft` | src/viewport-preview.js:100-104 | a handle position asks for scroll 0 at the left end or when the handle cannot move, maxScroll at the right end, and a scroll in [0, maxScroll] in between |
| `Viewport.ScrollTo` | src/viewport-preview.js:104 | an assigned scroll lands in [0, max(0, maxScroll)] and is unchanged when already in range |
| `Viewport.HandleScrollRoundTrip` | src/viewport-preview.js:100-105 | handle position → scroll → handle position is the identity |
| `Viewport.ScrollHandleRoundTrip` | src/viewport-preview.js:67-69 | scroll → handle position → scroll is the identity |
| `Viewport.ScrollToLeft` | src/viewport-preview.js:103-105 | scrolling to a handle position leaves the handle in step with the scroll |
| `Viewport.OnHandle` | src/viewport-preview.js:89 | a press hits the handle iff it lies between its left and right edges, both included |
| `Viewport.Press` | src/viewport-preview.js:80-113 | a press inside the handle, edges included, starts a drag without scrolling; outside, it snaps the handle centred and clamped, then drags from there |
| `Viewport.Move` | src/viewport-preview.js:115-136 | a move is ignored unless dragging; while dragging the handle is restyled in step with the new scroll |
| `Viewport.Release` | src/viewport-preview.js:138-140 | release only clears dragging |
| `Viewport.Scrolled` | src/viewport-preview.js:152-154 | an outside scroll recomputes the handle only when no drag is in progress |
| `Viewport.Resized` | src/viewport-preview.js:157-160 | a resize restyles the handle to the new layout |
| `Viewport.DragFollowsPointer` | src/viewport-preview.js:118-133 | while dragging, the handle's left is the anchor plus the pointer's travel, clamped to the strip |
| `Viewport.SnapThenDrag` | src/viewport-preview.js:94-133 | a snap centres the handle on the press when there is room, and a following drag moves it by the pointer's travel |
| `Viewport.EventsKeepSynced` | src/viewport-preview.js:105-154 | presses, moves, releases and outside scrolls when not dragging keep the handle in step |
| `Viewport.ScrollMidDragLeavesHandle` | src/viewport-preview.js:152-154 | a scroll during a drag leaves the handle out of step |
| `Sparkline.MinOf` | src/viewport-preview.js:25 | the minimum is at most every value and is one of them |
| `Sparkline.MaxOf` | src/viewport-preview.js:26 | the maximum is at least every value and is one of them |
| `Sparkline.Span` | src/viewport-preview.js:27 | the range is max − min, or 1 for a flat series, and covers every value's offset |
| `Sparkline.OddBlocksFrom` | src/viewport-preview.js:34-39 | the day blocks from b on that are odd and start before the end, ascending |
| `Sparkline.ShadedBlocks` | src/viewport-preview.js:34-39 | block b is shaded iff b is odd and 24·b < n |
| `Sparkline.Bands` | src/viewport-preview.js:37 | each shaded block is drawn from 24·b/n · width, 24/n · width wide |
| `Sparkline.FullWindowBands` | src/viewport-preview.js:34-39 | a 241-point series shades blocks 1, 3, 5, 7 and 9 |
| `Sparkline.PointX` | src/viewport-preview.js:47 | the first point is at x = 0, the last at x = width, every point within [0, width] |
| `Sparkline.PointY` | src/viewport-preview.js:48 | a value in [min, max] lands in [5, height − 5]; the maximum at y = 5, the minimum at height − 5 |
| `Sparkline.Points` | src/viewport-preview.js:46-51 | one point per value, x and y from the sparkline formulas |
| `Sparkline.Render` | src/viewport-preview.js:20-51 | a missing or empty series draws nothing; otherwise one point per value and one band per shaded block |
| `Sparkline.RenderedLine` | src/viewport-preview.js:41-51 | the drawn line starts at the left edge, ends at the right and runs left to right; every drawn point lies between the 5-pixel margins when the strip is at least 10 tall; the warmest and coldest hours touch the margins unless the series is flat |
| `Sparkline.RenderedBands` | src/viewport-preview.js:31-39 | the drawn background has a band for every odd 24-point block that starts inside the series and no other, each at 24·b/n of the width and a day of points wide, in block order |
| `Numbers.FractionWithinUnit` | src/viewport-preview.js:48 | a value's offset over the range is a fraction in [0, 1] |
| `Sparkline.PointsWithinMargins` | src/viewport-preview.js:46-51 | every point lies between the 5-pixel margins when the strip is at least 10 tall |
| `Sparkline.XAscending` | src/viewport-preview.js:47 | x goes from 0 to width, strictly increasing |
| `Sparkline.PointsSpanWidth` | src/viewport-preview.js:46-51 | the line starts at the left edge, ends at the right and runs left to right |
| `Sparkline.ExtremesTouchMargins` | src/viewport-preview.js:46-51 | the warmest hour touches the top margin and the coldest the bottom |
| `ResponseCache.CacheKey` | src/api.js:9-11 | a key is the kind, a colon, then the serialised parameters |
| `ResponseCache.CacheKeyInjective` | src/api.js:9-11 | for colon-free kinds, a key determines both kind and parameters |
| `ResponseCache.PlaceAndForecastKeysDiffer` | src/api.js:35 | a "geo" key never equals a "weather" key |
| `ResponseCache.Fresh` | src/api.js:15 | an entry is usable iff present and less than 300000 ms old |
| `ResponseCache.GetCached` | src/api.js:13-24 | a lookup hits iff the entry exists and is less than 300000 ms old; an expired entry is deleted; an absent key leaves the cache unchanged |
| `ResponseCache.SetCache` | src/api.js:26-32 | the data is stored stamped with now, replacing that key's entry; other keys are untouched |
| `ResponseCache.StoreThenLookup` | src/api.js:13-30 | a stored value is found unchanged for exactly five minutes, then deleted on lookup |
| `ResponseCache.StoreLeavesOtherKeys` | src/api.js:26-30 | storing under one key does not change lookups of another |
| `ResponseCache.LookupOnlyShrinks` | src/api.js:13-24 | a lookup never adds entries |
| `ResponseCache.GeoCode` | src/api.js:34-54 | a fresh cached place is returned without fetching; an HTTP error gives "Geocoding failed"; no results gives "Location not found" and caches nothing; otherwise the first result is cached and returned |
| `ResponseCache.GetWeather` | src/api.js:56-104 | a fresh cached forecast is returned without fetching; an HTTP error gives "Weather fetch failed"; otherwise the body is cached and returned |
| `ResponseCache.RepeatedGeoCodeIsCached` | src/api.js:35-37 | a second search within five minutes of storing is answered from the cache with the same place |
| `ResponseCache.NotFoundCachesNothing` | src/api.js:44-46 | an empty result list fails with "Location not found" and adds no entry |

## Left out

- Network requests are not modelled. `fetch`, URL building, query encoding
  and the request parameters (src/api.js:39-43, src/api.js:61-93) are I/O.
  The response becomes a parameter: rejected, HTTP error, or a body.
- `loadWeather`, the search form, performance marks, console output, the
  `TEST_SNOW` injection and the error alert (src/main.js:177-288) are
  orchestration and logging.
- DOM and canvas writes are not modelled. This covers `renderHeader`, card
  HTML, SVG icon markup, style strings, canvas sizing and device pixel ratio
  scaling, and the drawing calls. Only the values they show are modelled.
- Chart.js is not modelled. Its options, colours and internals are library
  code. The scale's value-for-pixel map is an abstract function. Pixel
  positions of the marker and crosshair are not computed; the model keeps
  their data indices.
- Weekday names and `toLocaleDateString` are locale services. The hour
  label takes the weekday as a parameter, and a day card does not carry one.
- `DailyCards.DateLabel` returns `None` for date strings that do not name
  a calendar day once years 0..99 are read as 1900..1999. The source's
  `Date` would normalise them, for example 30 February becomes 2 March and
  0000-02-29 (29 February 1900) becomes 3/1.
- Floating point is not modelled. All arithmetic is exact. `toFixed` is
  exact rounding of the magnitude; binary representation effects are
  ignored.
- `DailyCards.FixedTwo` always gives the fixed-point form. For an amount of
  10^21 or more `toFixed` gives the exponent form (such as "1e+21"), which
  is not modelled. `DailyCards.FixedTwoReadsBack`, `DailyCards.PrecipText`,
  `DailyCards.CardAt` and `DailyCards.CardPrecipReadsBack` inherit this; a
  day's precipitation total is many orders of magnitude smaller.
- `Viewport` functions require content of positive width. With width 0 the
  source computes NaN.
- `Sparkline.Render` requires a series that is not exactly one point long.
  One point gives x = 0/0 (NaN) in the source.
- `DailyCards.DayCardsFor` requires all daily columns to have the same
  length. The service always sends them that way; with a short column the
  source would render NaN.
- `Numbers.JsLess` compares Dafny characters. JavaScript compares UTF-16
  code units, which differ only outside the Basic Multilingual Plane. Date
  strings are ASCII.
- `Crosshair.SetUp` reads an absent offset as `undefined`, the value a
  response without the field gives. An offset of `null` would multiply to 0
  in JavaScript; the service never sends one.
- `JSON.stringify` in cache keys is treated as an opaque, already
  serialised string.
- A cached value that is falsy would be re-fetched by the source. The model
  treats every cached value as present, because responses are JSON objects.
- The cache's two clock readings (lookup and store) are separate
  parameters. The model does not relate them.
- `ResponseCache.GeoCode` and `ResponseCache.GetWeather` model each request
  as one step: look up, fetch, then store into the cache that lookup left.
  In the source the fetch and `response.json()` are awaited in between
  (src/api.js:41-48, src/api.js:95-98), so overlapping requests can change
  the shared map before the store. Requests are modelled as not
  overlapping. `ResponseCache.StoreLeavesOtherKeys` shows only that a store
  for another key does not change what a lookup of this key finds.
- Browsers round scroll positions to device pixels. The model keeps exact
  reals. A resize clamps the scroll position into the new range, as
  browsers do.
- The model assumes a single handle width. `onPointerMove` reads
  `offsetWidth` while the press reads `style.width`.
- The `if (hourly.precipitation)` guard (src/ui.js:430) always passes,
  because the slice above it would already have thrown on a missing
  column. The empty-input case is the empty sequence.
- The wind-direction column is fetched but not sliced into the window
  (src/api.js:84, src/ui.js:102-116). The window model leaves it out.
- Setup details of the viewport preview and crosshair are not modelled.
  This covers the viewport preview's missing-element guard
  (src/viewport-preview.js:6), listener registration, the resize observer
  wiring, and the frame and timeout that delay setup (src/main.js:218-224).
  The crosshair line element is used without a null check
  (src/main.js:34); a missing one would throw in a handler.
- `Crosshair.Run` keeps the charts in step only through the handlers of
  src/main.js:94-174. Chart.js's own hover highlighting and the `onHover`
  sync (`Crosshair.HoverSync`) can also change a chart's active element.
  They are modelled separately and not interleaved with these events.
