/**
 * Classification of WMO weather interpretation codes (code table 4677, as
 * served by Open-Meteo) into the five forecast icons and the short text
 * label shown on each day card.
 */
module WeatherCodes {

  datatype Icon = ClearDay | PartlyCloudy | Cloudy | Rain | Snow

  /** `getIcon`: a threshold chain over the code, falling back to partly cloudy. */
  function IconFor(code: int): (icon: Icon)
    ensures icon == ClearDay <==> code == 0
    ensures icon == PartlyCloudy <==> (1 <= code <= 3 || 87 <= code <= 94 || code < 0)
    ensures icon == Cloudy <==> 4 <= code <= 48
    ensures icon == Rain <==> (49 <= code <= 67 || 78 <= code <= 82 || code >= 95)
    ensures icon == Snow <==> (68 <= code <= 77 || 83 <= code <= 86)
  {
    if code == 0 then ClearDay
    else if code <= 3 then PartlyCloudy
    else if code <= 48 then Cloudy
    else if code <= 57 then Rain
    else if code <= 67 then Rain
    else if code <= 77 then Snow
    else if code <= 82 then Rain
    else if code <= 86 then Snow
    else if code >= 95 then Rain
    else PartlyCloudy
  }

  /** `getWeatherLabel`: the day card's text for a code. */
  function LabelFor(code: int): (text: string)
    ensures code == 0 ==> text == "Sunny"
    ensures code == 1 ==> text == "Mostly Sunny"
    ensures code == 2 ==> text == "Partly Cloudy"
    ensures code == 3 ==> text == "Cloudy"
    ensures text == "Foggy" <==> (code < 0 || 4 <= code <= 48)
    ensures text == "Drizzle" <==> 49 <= code <= 55
    ensures text == "Frz Drizzle" <==> 56 <= code <= 57
    ensures text == "Rain" <==> 58 <= code <= 65
    ensures text == "Frz Rain" <==> 66 <= code <= 67
    ensures text == "Snow Grains" <==> 68 <= code <= 77
    ensures text == "Showers" <==> 78 <= code <= 82
    ensures text == "Snow Showers" <==> 83 <= code <= 86
    ensures text == "Thunderstorm" <==> code >= 95
    ensures text == "Unknown" <==> 87 <= code <= 94
  {
    if code == 0 then "Sunny"
    else if code == 1 then "Mostly Sunny"
    else if code == 2 then "Partly Cloudy"
    else if code == 3 then "Cloudy"
    else if code <= 48 then "Foggy"
    else if code <= 55 then "Drizzle"
    else if code <= 57 then "Frz Drizzle"
    else if code <= 65 then "Rain"
    else if code <= 67 then "Frz Rain"
    else if code <= 77 then "Snow Grains"
    else if code <= 82 then "Showers"
    else if code <= 86 then "Snow Showers"
    else if code >= 95 then "Thunderstorm"
    else "Unknown"
  }

  /**
   * Icon and label agree for every code the tables define: a snow label
   * exactly for the snow icon, a wet label exactly for the rain icon, fog
   * exactly for the cloud icon. Negative codes are the one disagreement:
   * labelled foggy, drawn partly cloudy.
   */
  lemma IconMatchesLabel(code: int)
    ensures code >= 0 ==>
      (IconFor(code) == Snow <==> LabelFor(code) in {"Snow Grains", "Snow Showers"})
    ensures IconFor(code) == Rain <==>
      LabelFor(code) in {"Drizzle", "Frz Drizzle", "Rain", "Frz Rain", "Showers", "Thunderstorm"}
    ensures IconFor(code) == Cloudy <==> LabelFor(code) == "Foggy" && code >= 0
    ensures IconFor(code) == ClearDay <==> LabelFor(code) == "Sunny"
    ensures code < 0 ==> IconFor(code) == PartlyCloudy && LabelFor(code) == "Foggy"
  {
  }
}
