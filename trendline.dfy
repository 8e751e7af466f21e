/**
  The trendline breakout detector (`find_trendline_breakout`): collect the
  touches (strict local maxima of the highs), fit a least-squares line
  through them, and report a breakout at the last bar when the close crosses
  the line upward on above-average volume and the touches are close in time.
 */
module Trendline {
  import opened Series
  import opened Stats
  import opened Regression

  /** Bar i is a touch: an interior bar whose high is strictly above both neighbours' highs. */
  predicate IsTouch(h: seq<real>, i: int)
  {
    0 < i < |h| - 1 && h[i] > h[i - 1] && h[i] > h[i + 1]
  }

  /** What the scan over interior bars has collected once it reaches index n: touches below n, each with its high. */
  function TouchesBefore(h: seq<real>, n: nat): (r: seq<Touch>)
    requires n <= |h|
    ensures forall k :: 0 <= k < |r| ==> r[k].index < n && IsTouch(h, r[k].index) && r[k].high == h[r[k].index]
  {
    if n <= 1 then []
    else TouchesBefore(h, n - 1) + (if IsTouch(h, n - 1) then [Touch(n - 1, h[n - 1])] else [])
  }

  /** The scan appends in bar order, so the touches are in ascending order of index. */
  lemma {:induction false} TouchesBeforeAscending(h: seq<real>, n: nat)
    requires n <= |h|
    ensures Ascending(TouchesBefore(h, n))
  {
    if n > 1 {
      TouchesBeforeAscending(h, n - 1);
    }
  }

  /** Some collected touch is at bar i. */
  predicate Listed(t: seq<Touch>, i: int)
  {
    exists k :: 0 <= k < |t| && t[k].index == i
  }

  /** Every touch below n is collected. */
  lemma {:induction false} TouchesBeforeComplete(h: seq<real>, n: nat)
    requires n <= |h|
    ensures forall i :: 0 <= i < n && IsTouch(h, i) ==> Listed(TouchesBefore(h, n), i)
  {
    if n > 1 {
      var before := TouchesBefore(h, n - 1);
      var r := TouchesBefore(h, n);
      TouchesBeforeComplete(h, n - 1);
      forall i | 0 <= i < n && IsTouch(h, i)
        ensures Listed(r, i)
      {
        if i < n - 1 {
          var k :| 0 <= k < |before| && before[k].index == i;
          assert r[k] == before[k];
        } else {
          assert r[|before|].index == i;
        }
      }
    }
  }

  /**
    The touches of a column of highs: exactly the strict local maxima among
    the interior bars, each with its own high, in ascending order of index.
   */
  function Touches(h: seq<real>): (r: seq<Touch>)
    ensures forall k :: 0 <= k < |r| ==> IsTouch(h, r[k].index) && r[k].high == h[r[k].index]
    ensures Ascending(r)
    ensures forall i :: IsTouch(h, i) ==> Listed(r, i)
  {
    var n := if |h| == 0 then 0 else |h| - 1;
    TouchesBeforeAscending(h, n);
    TouchesBeforeComplete(h, n);
    TouchesBefore(h, n)
  }

  /** The loop over bars 1 .. len−2 that appends every touch to a list. */
  method CollectTouches(highs: seq<real>) returns (touches: seq<Touch>)
    ensures touches == Touches(highs)
  {
    touches := [];
    var i := 1;
    while i < |highs| - 1
      invariant 1 <= i <= if |highs| >= 2 then |highs| - 1 else 1
      invariant touches == TouchesBefore(highs, if i <= |highs| then i else |highs|)
    {
      if highs[i] > highs[i - 1] && highs[i] > highs[i + 1] {
        touches := touches + [Touch(i, highs[i])];
      }
      i := i + 1;
    }
  }

  /** Two touches are never adjacent bars: a strict maximum's neighbour is below it. */
  lemma TouchesApart(h: seq<real>, j: nat)
    requires j + 1 < |Touches(h)|
    ensures Touches(h)[j].index + 2 <= Touches(h)[j + 1].index
  {
    var t := Touches(h);
    var p, q := t[j].index, t[j + 1].index;
    assert IsTouch(h, p) && IsTouch(h, q) && p < q;
  }

  /** Two touches need at least five bars: an interior bar, a gap bar, another interior bar. */
  lemma TwoTouchesNeedFiveBars(h: seq<real>)
    requires |Touches(h)| >= 2
    ensures |h| >= 5
  {
    var t := Touches(h);
    TouchesApart(h, 0);
    assert IsTouch(h, t[0].index) && IsTouch(h, t[1].index);
  }

  /** The trendline column: the fitted line evaluated at every bar. */
  function TrendValues(l: Line, n: nat): (v: seq<real>)
    ensures |v| == n && forall i :: 0 <= i < n ==> v[i] == At(l, i as real)
  {
    seq(n, i requires 0 <= i < n => At(l, i as real))
  }

  /** The number of bars averaged for volume confirmation: the last 20, or all of a shorter series. */
  function VolumeBars(n: nat): (w: nat)
    ensures w <= n && w <= VolumeWindow
    ensures w == VolumeWindow || w == n
  {
    if n < VolumeWindow then n else VolumeWindow
  }

  /** The mean volume of the last `VolumeWindow` bars, the current bar included. */
  function AverageVolume(c: seq<Candle>): real
    requires |c| > 0
  {
    var v := Volumes(c);
    Mean(v[|c| - VolumeBars(|c|)..])
  }

  /** Minutes between two millisecond timestamps, as `timedelta.total_seconds() / 60` gives them. */
  function GapMinutes(from: int, to: int): (m: real)
    ensures m * 60_000.0 == (to - from) as real
  {
    ((to - from) as real / 1000.0) / 60.0
  }

  lemma GapBoundInMilliseconds(from: int, to: int)
    ensures GapMinutes(from, to) < MaxTouchGapMin <==> to - from < 7_200_000
  {
  }

  /** Every pair of consecutive touches is less than `MaxTouchGapMin` minutes apart. */
  predicate TouchGapsWithin(c: seq<Candle>, t: seq<Touch>)
    requires forall k :: 0 <= k < |t| ==> t[k].index < |c|
  {
    forall j :: 1 <= j < |t| ==> GapMinutes(c[t[j - 1].index].timestamp, c[t[j].index].timestamp) < MaxTouchGapMin
  }

  /** The `trendline` column the detector adds to the frame once there are enough touches. */
  function TrendlineOf(c: seq<Candle>): (v: seq<real>)
    requires |Touches(Highs(c))| >= MinTouches
    ensures |v| == |c|
  {
    TrendValues(Fit(Touches(Highs(c))), |c|)
  }

  /** `find_trendline_breakout` as a function of the series: the entry index, or no signal. */
  function Breakout(c: seq<Candle>): Option<nat>
  {
    var t := Touches(Highs(c));
    if |t| < MinTouches then None
    else
      assert IsTouch(Highs(c), t[0].index);
      var n := |c|;
      var trend := TrendlineOf(c);
      if c[n - 2].close < trend[n - 2] && c[n - 1].close > trend[n - 1]
         && c[n - 1].volume > AverageVolume(c) && TouchGapsWithin(c, t)
      then Some(n - 1)
      else None
  }

  /** A signal is always at the last bar, of a series of at least five bars. */
  lemma BreakoutAtLastBar(c: seq<Candle>)
    ensures Breakout(c).Some? ==> |c| >= 5 && Breakout(c).value == |c| - 1
  {
    if |Touches(Highs(c))| >= MinTouches {
      TwoTouchesNeedFiveBars(Highs(c));
    }
  }

  /** With fewer than two touches no trendline is fitted and there is no signal. */
  lemma FewTouchesNoBreakout(c: seq<Candle>)
    requires |Touches(Highs(c))| < MinTouches
    ensures Breakout(c) == None
  {
  }

  /**
    Each condition of the breakout test, and the spacing filter, can veto
    the signal on its own, whatever the rest of the series is.
   */
  lemma BreakoutVetoes(c: seq<Candle>)
    requires |Touches(Highs(c))| >= MinTouches
    ensures |c| >= 5
    ensures c[|c| - 2].close >= TrendlineOf(c)[|c| - 2] ==> Breakout(c) == None
    ensures c[|c| - 1].close <= TrendlineOf(c)[|c| - 1] ==> Breakout(c) == None
    ensures c[|c| - 1].volume <= AverageVolume(c) ==> Breakout(c) == None
    ensures !TouchGapsWithin(c, Touches(Highs(c))) ==> Breakout(c) == None
  {
    TwoTouchesNeedFiveBars(Highs(c));
  }

  /** When every test passes the signal is raised, at the last bar. */
  lemma BreakoutWhenAllPass(c: seq<Candle>)
    requires |Touches(Highs(c))| >= MinTouches
    requires |c| >= 2
    requires c[|c| - 2].close < TrendlineOf(c)[|c| - 2] && c[|c| - 1].close > TrendlineOf(c)[|c| - 1]
    requires c[|c| - 1].volume > AverageVolume(c) && TouchGapsWithin(c, Touches(Highs(c)))
    ensures Breakout(c) == Some(|c| - 1)
  {
  }

  /** Touches of equal height give a flat trendline at that height. */
  lemma FlatTouchesFlatTrendline(c: seq<Candle>, level: real)
    requires |Touches(Highs(c))| >= MinTouches
    requires forall k :: 0 <= k < |Touches(Highs(c))| ==> Touches(Highs(c))[k].high == level
    ensures forall i :: 0 <= i < |c| ==> TrendlineOf(c)[i] == level
  {
    var t := Touches(Highs(c));
    FitExactOnLine(t, 0.0, level);
  }

  /**
    The pandas frame the detector works on. Its candle columns are never
    written; the detector adds the `trendline` column, which the signal chart
    reads afterwards.
   */
  class Frame {
    const candles: seq<Candle>
    var trendline: Option<seq<real>>

    constructor (candles: seq<Candle>)
      ensures this.candles == candles && trendline == None
    {
      this.candles := candles;
      trendline := None;
    }
  }

  /** `find_trendline_breakout(df)`: returns the entry index or no signal, and stores the trendline in `df`. */
  method FindTrendlineBreakout(df: Frame) returns (entry: Option<nat>)
    modifies df
    ensures entry == Breakout(df.candles)
    ensures df.trendline == if |Touches(Highs(df.candles))| < MinTouches then old(df.trendline)
                            else Some(TrendlineOf(df.candles))
  {
    var c := df.candles;
    var touches := CollectTouches(Highs(c));
    if |touches| < MinTouches {
      return None;
    }
    TwoTouchesNeedFiveBars(Highs(c));
    var line := Fit(touches);
    df.trendline := Some(TrendValues(line, |c|));
    var n := |c|;
    var lastClose, currentClose := c[n - 2].close, c[n - 1].close;
    var lastTrend, currentTrend := At(line, (n - 2) as real), At(line, (n - 1) as real);
    var lastVolume := c[n - 1].volume;
    var avgVolume := AverageVolume(c);
    if lastClose < lastTrend && currentClose > currentTrend && lastVolume > avgVolume {
      if TouchGapsWithin(c, touches) {
        return Some(n - 1);
      }
    }
    return None;
  }
}
