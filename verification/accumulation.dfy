/**
 * The "Precip Accum. Total" series of the precipitation chart: a running
 * total of the hourly amounts, where the total itself is carried unrounded
 * and each published point is rounded to two decimals.
 */
module Accumulation {
  import opened Numbers

  /** The sum of all entries. */
  function Total(s: seq<real>): real
  {
    if |s| == 0 then 0.0 else Total(s[..|s| - 1]) + s[|s| - 1]
  }

  /** Reference definition: point `i` is the rounded total of hours `0..i`. */
  function RunningTotals(hourly: seq<real>): (acc: seq<real>)
    ensures |acc| == |hourly|
  {
    seq(|hourly|, i requires 0 <= i < |hourly| => Round2(Total(hourly[..i + 1])))
  }

  predicate NonNegative(s: seq<real>)
  {
    forall i :: 0 <= i < |s| ==> s[i] >= 0.0
  }

  predicate NonDecreasing(s: seq<real>)
  {
    forall i, j :: 0 <= i <= j < |s| ==> s[i] <= s[j]
  }

  /** Adding non-negative amounts never lowers a total. */
  lemma {:induction false} TotalGrows(s: seq<real>, i: nat, j: nat)
    requires NonNegative(s) && i <= j <= |s|
    ensures Total(s[..i]) <= Total(s[..j])
  {
    if i < j {
      TotalGrows(s, i, j - 1);
      assert s[..j][..j - 1] == s[..j - 1];
    }
  }

  /** With no negative hourly amounts the accumulation never goes down. */
  lemma RunningTotalsNonDecreasing(hourly: seq<real>)
    requires NonNegative(hourly)
    ensures NonDecreasing(RunningTotals(hourly))
  {
    var acc := RunningTotals(hourly);
    forall i, j | 0 <= i <= j < |acc|
      ensures acc[i] <= acc[j]
    {
      TotalGrows(hourly, i + 1, j + 1);
      Round2Monotone(Total(hourly[..i + 1]), Total(hourly[..j + 1]));
    }
  }

  /**
   * The accumulation loop of `renderCharts`: `rollingSum += val` and
   * `parseFloat(rollingSum.toFixed(2))` for each hour in turn.
   */
  method Accumulate(hourly: seq<real>) returns (acc: seq<real>)
    ensures acc == RunningTotals(hourly)
    ensures NonNegative(hourly) ==> NonDecreasing(acc)
    ensures |hourly| > 0 ==> acc[|hourly| - 1] == Round2(Total(hourly))
  {
    acc := [];
    var rollingSum := 0.0;
    var i := 0;
    while i < |hourly|
      invariant 0 <= i <= |hourly|
      invariant |acc| == i
      invariant rollingSum == Total(hourly[..i])
      invariant forall k :: 0 <= k < i ==> acc[k] == Round2(Total(hourly[..k + 1]))
    {
      assert hourly[..i + 1][..i] == hourly[..i];
      rollingSum := rollingSum + hourly[i];
      acc := acc + [Round2(rollingSum)];
      i := i + 1;
    }
    if NonNegative(hourly) {
      RunningTotalsNonDecreasing(hourly);
    }
    assert |hourly| > 0 ==> hourly[..|hourly|] == hourly;
  }

  /**
   * The total is carried unrounded: two hours of 0.004 publish 0.00 and then
   * 0.01, where re-rounding a rounded total would stay at 0.00.
   */
  lemma RoundingIsNotCompounded()
    ensures RunningTotals([0.004, 0.004]) == [0.0, 0.01]
    ensures Round2(Round2(0.004) + 0.004) == 0.0
  {
    var s := [0.004, 0.004];
    assert s[..1] == [0.004];
    assert Total(s[..1]) == 0.004;
    assert s[..2] == s;
    assert Total(s) == 0.008;
    assert Round2(0.004) == 0.0;
    assert Round2(0.008) == 0.01;
  }
}
