# Trendline breakout scanner: a Dafny model

This project models the decision core of `botBtcBybit7.1git.py`. The bot polls
15-minute BTC/USDT candles and looks for a breakout above a resistance
trendline. When it finds one, it sizes a leveraged long plan and announces it.

The candle series is a `seq<Candle>`. Prices and volumes are exact `real`s,
and timestamps are integer milliseconds as the exchange delivers them. The
modules follow the program's structure:

- `Series`: the candle record and the settings block, with the sizing
  constants that the code writes inline (5-bar stop lookback, 3% fallback
  target, 100× leverage cap, 1000-unit size cap).
- `Stats`: the pandas/numpy/Python primitives the code relies on. These are
  sums and means, `min`/`max` of a non-empty column, and `int()` truncating
  toward zero, plus linear facts about sums.
- `Regression`: `scipy.stats.linregress` in its centred least-squares form,
  with the proofs that the fitted line satisfies the normal equations,
  minimises the squared error, and recovers any line the touches lie on.
- `Trendline`: `find_trendline_breakout`. The touch scan is a method with a
  loop, proved equal to a specification function. The detector is a method
  that writes the `trendline` column into a `Frame` object. `Breakout` is
  the decision as a function of the series.
- `Risk`: `find_nearest_resistance` and `calculate_sl_tp_liq`. This includes
  pandas' wrap-around for a negative slice start, and the three exceptions
  the sizing can raise: an empty lookback, `int(inf)`, and division by a
  zero leverage.
- `Scanner`: one cycle of `main_loop` as a step function (`Cycle`), and the
  loop itself over a sequence of fetched series (`MainLoop`). The loop is
  proved equal to `Replay` of the cycle outcomes, which records signals,
  sleep time, cycles run and the exception that ends the loop.

### Behaviour of the code worth knowing

- The sizing function does not refuse every stop at or above the entry.
  - With a stop equal to the entry, `entry_price - sl_price` is a numpy
    float zero. The reward/risk ratio is then `+inf`, `-inf` or `nan`.
    `-inf` fails the ratio test and the plan is refused. `+inf` and `nan`
    pass it, `1 / (1 - sl_price / entry_price)` evaluates to `inf`, and
    `int(inf)` raises `OverflowError`, which ends the loop.
    `Risk.CalculatePlan` returns `Raised(InfiniteLeverage)` for this case.
  - A stop above the entry with a target below it can pass the 3:1 test.
    The plan then has negative leverage and size 0 (`Risk.StopAboveEntryAccepted`).
  - Only the scan loop's own gate (`liq < sl and position_size > 0`) keeps
    such a plan from being sent (`Risk.StopAboveEntryHasNoSize`).
- Leverage is not always a positive integer. `Risk.LeverageBounds` proves it
  lies between 1 and 100 when 0 < sl < entry, and a stop of exactly 0 gives
  1 as well. A stop above the entry, up to twice the entry, gives a negative
  leverage. A negative stop, or one above twice the entry, truncates to 0,
  and the liquidation line then raises `ZeroDivisionError`
  (`Risk.LeverageOutsideStopRange`).
- A five-bar series with a breakout crashes the loop. The slice
  `iloc[-1:4]` is empty, so `min()` raises `ValueError` (`Risk.LastBarLookbackEmpty`,
  `Scanner.HaltConditions`).
- The detector only ever reports the last bar, so the target is always
  `close·1.03`. An accepted plan therefore always has its stop within 1%
  below the entry and always uses the 100× cap (`Risk.LastBarSizing`).
- The worked example with entry 100, stop 95 and target 130 gives leverage
  20 with exact reals (`Risk.TwentyTimesPlan`). In IEEE doubles,
  `1 / (1 - 95/100)` is slightly below 20, so Python's `int()` gives 19.

## Model

| member | source | states |
|---|---|---|
| Series.Highs | botBtcBybit7.1git.py:67 | the highs column has one entry per candle, each that candle's high |
| Series.Lows | botBtcBybit7.1git.py:109 | the lows column has one entry per candle, each that candle's low |
| Series.Volumes | botBtcBybit7.1git.py:88-89 | the volume column has one entry per candle, each that candle's volume |
| Stats.Mean | botBtcBybit7.1git.py:89 | the mean of a non-empty column times its length is its sum |
| Stats.SeqMin | botBtcBybit7.1git.py:109 | `min()` of a non-empty column is at most every element and equals one of them |
| Stats.SeqMax | botBtcBybit7.1git.py:104 | `.max()` of a non-empty column is at least every element and equals one of them |
| Stats.Trunc | botBtcBybit7.1git.py:115 | `int()` rounds toward zero: within 1 below a non-negative value, within 1 above a negative one |
| Regression.Fit | botBtcBybit7.1git.py:78 | `linregress` over the touches (x = bar index, y = high): slope Σ(x−x̄)(y−ȳ)/Σ(x−x̄)², intercept ȳ − slope·x̄; its properties are the lemmas below |
| Regression.LineFromMoments | botBtcBybit7.1git.py:78 | the line with slope cross/spread through (x̄, ȳ) |
| Regression.MomentLine | botBtcBybit7.1git.py:78 | the line built from the centred sums passes through (x̄, ȳ), and its slope times the spread is the cross sum |
| Regression.SpreadPositive | botBtcBybit7.1git.py:76-78 | two or more touches at distinct ascending indices give a positive x-spread, so the slope is defined |
| Regression.FitNormalEquations | botBtcBybit7.1git.py:78 | the fitted line's residuals sum to 0 and are uncorrelated with x (the least-squares normal equations) |
| Regression.FitIsLeastSquares | botBtcBybit7.1git.py:78 | no line has a smaller sum of squared errors over the touches than the fitted one |
| Regression.FitExactOnLine | botBtcBybit7.1git.py:76-78 | touches lying on a line y = c·x + d fit to exactly that slope and intercept |
| Trendline.IsTouch | botBtcBybit7.1git.py:70 | bar i is a touch when it is interior and its high is strictly above both neighbours' highs |
| Trendline.TouchesBefore | botBtcBybit7.1git.py:69-71 | every touch the scan has collected below index n is a strict local maximum below n, carrying its own high |
| Trendline.TouchesBeforeAscending | botBtcBybit7.1git.py:69-71 | the scan collects touches in strictly ascending order of index |
| Trendline.TouchesBeforeComplete | botBtcBybit7.1git.py:69-71 | every strict local maximum below index n is among the collected touches |
| Trendline.Touches | botBtcBybit7.1git.py:69-71 | the touches are exactly the interior bars whose high is above both neighbours, ascending, with their highs |
| Trendline.CollectTouches | botBtcBybit7.1git.py:68-71 | the loop over bars 1..len−2 builds exactly `Touches` |
| Trendline.TouchesApart | botBtcBybit7.1git.py:69-71 | consecutive touches are at least two bars apart |
| Trendline.TwoTouchesNeedFiveBars | botBtcBybit7.1git.py:69-74 | reaching the minimum of two touches needs a series of at least five bars |
| Trendline.TrendValues | botBtcBybit7.1git.py:80 | the trendline column has one value per bar, the fitted line at that bar's index |
| Trendline.AverageVolume | botBtcBybit7.1git.py:89 | the mean volume of the last `VolumeBars` bars, the current bar included |
| Trendline.VolumeBars | botBtcBybit7.1git.py:89 | the volume average covers the last 20 bars, or the whole series when it is shorter |
| Trendline.GapMinutes | botBtcBybit7.1git.py:93-95 | the gap in minutes times 60 000 is the difference of the millisecond timestamps |
| Trendline.TouchGapsWithin | botBtcBybit7.1git.py:93-95 | every pair of consecutive touches is less than 120 minutes apart |
| Trendline.GapBoundInMilliseconds | botBtcBybit7.1git.py:93-95 | a touch gap is under 120 minutes exactly when the timestamps differ by less than 7 200 000 ms |
| Trendline.TrendlineOf | botBtcBybit7.1git.py:78-81 | the stored trendline column is as long as the frame |
| Trendline.Breakout | botBtcBybit7.1git.py:66-98 | `find_trendline_breakout` as a function of the candles: no signal below two touches; otherwise the last bar when the close crosses the fitted line upward on above-average volume with every touch gap under 120 minutes |
| Trendline.FewTouchesNoBreakout | botBtcBybit7.1git.py:73-74 | fewer than two touches give no signal |
| Trendline.BreakoutAtLastBar | botBtcBybit7.1git.py:83-96 | every signal is at the last bar of a series of at least five bars |
| Trendline.BreakoutVetoes | botBtcBybit7.1git.py:92-96 | each of these vetoes the signal alone: the previous close at or above the line, the last close at or below it, volume at or below the average, a touch gap too wide |
| Trendline.BreakoutWhenAllPass | botBtcBybit7.1git.py:92-96 | when all four conditions hold, the signal is the last bar |
| Trendline.FlatTouchesFlatTrendline | botBtcBybit7.1git.py:76-80 | touches of equal height give a trendline flat at that height |
| Trendline.FindTrendlineBreakout | botBtcBybit7.1git.py:66-98 | returns `Breakout` of the frame's candles; stores the trendline in the frame when there are two touches, else leaves it |
| Risk.NearestResistance | botBtcBybit7.1git.py:102-104 | the highest high after the entry bar, or the entry close times 1.03 when there is none |
| Risk.ResistanceIsHighestAhead | botBtcBybit7.1git.py:102-103 | with bars after the entry, the target is at least every later high and equals one of them |
| Risk.ResistanceAtLastBar | botBtcBybit7.1git.py:102-104 | at the last bar the target is the entry close times 1.03 |
| Risk.LookbackStart | botBtcBybit7.1git.py:109 | the slice start `entry_idx - 5`, counted from the end of the series when negative and clamped at 0, as pandas does |
| Risk.LookbackLows | botBtcBybit7.1git.py:109 | the lows from that start up to the entry bar, empty when the start lies past the entry |
| Risk.StopLoss | botBtcBybit7.1git.py:109 | the lowest of the lookback lows times 0.995 |
| Risk.LookbackIsFiveBarsBefore | botBtcBybit7.1git.py:109 | from index 5 on, the stop lookback is exactly the five lows before the entry |
| Risk.LastBarLookbackEmpty | botBtcBybit7.1git.py:109 | at the last bar the lookback slice is empty exactly for a series of 1 or 5 bars |
| Risk.CalculatePlan | botBtcBybit7.1git.py:107-119 | `calculate_sl_tp_liq`: a raise for an empty lookback, for sl = entry with a target at or above it, or for a leverage truncated to 0; `None` below a 3:1 ratio; otherwise the plan tuple |
| Risk.Leverage | botBtcBybit7.1git.py:115 | `1 / (1 − sl/entry)` truncated toward zero and capped at 100; `LeverageBounds` and `CappedLeverage` state its range |
| Risk.PositionSize | botBtcBybit7.1git.py:116-117 | 1 USD over the risk per unit, capped at 1000, and 0 for a risk that is not positive; `PositionSizeBounds` states its range |
| Risk.LiquidationPrice | botBtcBybit7.1git.py:118 | entry·(1 − 1/leverage)·0.995; `LiquidationUnderStop` places it under the stop |
| Risk.PlanStopBelowRecentLows | botBtcBybit7.1git.py:108-110 | an accepted plan enters at the entry close, targets the resistance, and has a stop of 0.995 × the lowest lookback low |
| Risk.PlanMeetsRewardRisk | botBtcBybit7.1git.py:111-113 | an accepted plan's ratio is (tp − entry)/(entry − sl) and is at least 3 |
| Risk.LeverageBounds | botBtcBybit7.1git.py:115 | with 0 < sl < entry, leverage is between 1 and 100 and at most entry/(entry − sl) |
| Risk.LeverageOutsideStopRange | botBtcBybit7.1git.py:115 | a stop of 0 gives leverage 1; a stop above the entry up to twice it gives a negative leverage; a negative stop or one above twice the entry gives 0 |
| Risk.LiquidationUnderStop | botBtcBybit7.1git.py:118 | leverage between 1 and entry/risk liquidates at or above 0 and strictly below the stop |
| Risk.PlanLeverageAndLiquidation | botBtcBybit7.1git.py:115-118 | an accepted plan's leverage is nonzero and at most 100; with 0 < sl < entry it is at least 1, and liquidation is below both stop and entry |
| Risk.PositionSizeBounds | botBtcBybit7.1git.py:116-117 | size is 0 when risk ≤ 0; otherwise in (0, 1000], and losing the risk costs at most 1 USD |
| Risk.StopAboveEntryHasNoSize | botBtcBybit7.1git.py:111-117 | an accepted plan with stop ≥ entry has stop > entry and size 0 |
| Risk.TightStopFromTarget | botBtcBybit7.1git.py:104-113 | with a target 3% above the entry, passing the 3:1 test needs 0.99·entry ≤ sl < entry |
| Risk.CappedLeverage | botBtcBybit7.1git.py:115 | a stop within 1% below the entry gives exactly the 100× cap |
| Risk.LastBarSizing | botBtcBybit7.1git.py:107-119 | at the last bar: raises for an empty lookback or sl = entry, accepts iff 0.99·entry ≤ sl < entry, else rejects; never a zero leverage; accepted plans have target 1.03·entry, leverage 100, liquidation entry·0.99·0.995 below the stop, positive size |
| Risk.TwentyTimesPlan | botBtcBybit7.1git.py:107-119 | entry 100, stop 95, target 130 gives ratio 6, leverage 20, liquidation 94.525, size 0.2 |
| Risk.StopAboveEntryAccepted | botBtcBybit7.1git.py:107-119 | lows of 110 before an entry of 100 with a later high of 10 make an accepted plan with stop above entry, leverage −10, size 0 |
| Scanner.PassesGate | botBtcBybit7.1git.py:173 | the loop's own check: liquidation below the stop and a positive size |
| Scanner.Cycle | botBtcBybit7.1git.py:166-177 | one loop body on a fetched series: no breakout, or a breakout at index 0, is a quiet cycle; otherwise `Act` on the sizing result |
| Scanner.Act | botBtcBybit7.1git.py:169-177 | a raise halts the cycle, `None` is quiet, and a plan is signalled only when it passes the gate |
| Scanner.SleepSeconds | botBtcBybit7.1git.py:175-177 | the sleep is the 900 s cooldown exactly after a signal, and 60 s after any other cycle that did not raise |
| Scanner.SignalIffBreakoutAndPlan | botBtcBybit7.1git.py:168-175 | a cycle signals iff there is a breakout at the last bar, an accepted plan, and the plan passes the gate; the signal carries that index and plan |
| Scanner.GateRedundantOnLiveData | botBtcBybit7.1git.py:169-173 | on the loop's path, every plan the sizing accepts passes the gate |
| Scanner.SignalIffTightStop | botBtcBybit7.1git.py:166-175 | a cycle signals iff a breakout is found and the stop lies within 1% below the entry close |
| Scanner.LiveSignalTerms | botBtcBybit7.1git.py:168-174 | every signal enters at the last close with leverage 100, target 1.03·entry and liquidation entry·0.99·0.995 |
| Scanner.HaltConditions | botBtcBybit7.1git.py:166-179 | a cycle raises iff there is a breakout on a 5-bar series or with sl = entry; never a zero leverage; an empty lookback iff 5 bars |
| Scanner.ScanOnce | botBtcBybit7.1git.py:167-173 | running the detector and the sizing on one fetch gives `Cycle` of it |
| Scanner.Step | botBtcBybit7.1git.py:173-179 | one more cycle: a signal is appended with a 900 s sleep, a quiet cycle sleeps 60 s, a raise is recorded and ends the run, and nothing changes after a raise |
| Scanner.Replay | botBtcBybit7.1git.py:165-179 | the record of the loop after a sequence of cycle outcomes, folding `Step` from the first |
| Scanner.Advance | botBtcBybit7.1git.py:173-179 | after a cycle that did not raise, a signal is appended and the cycle's sleep added; a raising cycle is recorded and ends the run |
| Scanner.MainLoop | botBtcBybit7.1git.py:164-179 | the loop over successive fetches, stopping at the first exception, gives `Replay` of their outcomes |
| Scanner.FaultIsFinal | botBtcBybit7.1git.py:165-179 | after an exception, later fetches change nothing |
| Scanner.SleepTotal | botBtcBybit7.1git.py:175-177 | total sleep is 900 s per signal plus 60 s per other cycle that did not raise |
| Scanner.CyclesUntilFault | botBtcBybit7.1git.py:165-179 | one cycle runs per fetch until the first exception; the last cycle run is the one that raised |
| Scanner.SignalsIn | botBtcBybit7.1git.py:173-174 | the signals of the `Signalled` outcomes, in order: every such outcome's signal is listed and every listed signal comes from one |
| Scanner.SignalsOfCyclesInOrder | botBtcBybit7.1git.py:165-177 | the recorded signals are exactly `SignalsIn` of the outcomes of the cycles run, in their order |
| Scanner.SignalsOfCycles | botBtcBybit7.1git.py:173-174 | the recorded signals are exactly those of the cycles run, in order, and every signalled cycle that ran is recorded |

## Left out

- Telegram messages and the chart are I/O and have no effect on the decision. This covers `send_startup_message`, `send_shutdown_message` and `send_signal` with its matplotlib figure.
- The exchange calls are I/O. `fetch_ohlcv` becomes the input series, one per cycle, of any length (the `limit=100` request is not enforced). `get_current_price` is fetched and passed to `send_signal`, which never uses it, so it is dropped. `exchange.close` is not modelled.
- Only exceptions raised by the sizing code are modelled. Failures of the network, the exchange or Telegram, and `KeyboardInterrupt`, are not.
- Asyncio scheduling and real time are not modelled. The sleeps are recorded as seconds in `Scanner.Run`.
- Floating point is replaced by exact reals, so rounding is not modelled (see the leverage-19 note above). The infinities and `nan` of a zero stop distance are modelled only by their effect: rejection, or `OverflowError`.
- Scanner.Cycle, Risk.CalculatePlan: require a positive entry close. A zero or negative close from the exchange, and the float behaviour of dividing by it, are not modelled.
- `linregress`'s correlation, p-value and standard errors are discarded by the bot and are not modelled.
- Timestamps stay integer milliseconds rather than `datetime`s. `GapMinutes` divides by 1000 and by 60, as `total_seconds() / 60` does.
