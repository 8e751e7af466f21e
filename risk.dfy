/**
  The risk calculator: the take-profit target (`find_nearest_resistance`) and
  the trade plan (`calculate_sl_tp_liq`): stop-loss below the recent lows,
  reward/risk filter, leverage from the stop distance, position size from a
  fixed dollar risk, and the liquidation price.
 */
module Risk {
  import opened Series
  import opened Stats

  /**
    `find_nearest_resistance(df, entry_idx)`: the highest high after the entry
    bar, or the entry close raised by 3% when the entry is the last bar.
   */
  function NearestResistance(c: seq<Candle>, e: nat): real
    requires e < |c|
  {
    var ahead := Highs(c)[e + 1..];
    if |ahead| > 0 then SeqMax(ahead) else c[e].close * (1.0 + FallbackTargetRate)
  }

  /** With bars ahead, the target is the largest high among them. */
  lemma ResistanceIsHighestAhead(c: seq<Candle>, e: nat)
    requires e + 1 < |c|
    ensures forall j :: e < j < |c| ==> c[j].high <= NearestResistance(c, e)
    ensures exists j :: e < j < |c| && c[j].high == NearestResistance(c, e)
  {
    var ahead := Highs(c)[e + 1..];
    assert forall j :: e < j < |c| ==> ahead[j - (e + 1)] == c[j].high;
    var k :| 0 <= k < |ahead| && ahead[k] == SeqMax(ahead);
    assert c[e + 1 + k].high == NearestResistance(c, e);
  }

  /** At the last bar, the only index the scan loop passes, the target is always close·1.03. */
  lemma ResistanceAtLastBar(c: seq<Candle>)
    requires |c| > 0
    ensures NearestResistance(c, |c| - 1) == c[|c| - 1].close * 1.03
  {
  }

  /**
    Where `df['low'].iloc[entry_idx - 5:entry_idx]` starts: five bars back, or,
    when that is negative, counted from the end of the series and clamped at 0,
    as pandas slicing does.
   */
  function LookbackStart(n: nat, e: nat): nat
  {
    if e >= StopLookback then e - StopLookback
    else if n + e >= StopLookback then n + e - StopLookback
    else 0
  }

  /** The lows the stop is placed under. */
  function LookbackLows(c: seq<Candle>, e: nat): seq<real>
    requires e < |c|
  {
    var s := LookbackStart(|c|, e);
    if s <= e then Lows(c)[s..e] else []
  }

  /** From the sixth bar on, the lookback is exactly the five bars before the entry. */
  lemma LookbackIsFiveBarsBefore(c: seq<Candle>, e: nat)
    requires StopLookback <= e < |c|
    ensures |LookbackLows(c, e)| == 5
    ensures forall j :: 0 <= j < 5 ==> LookbackLows(c, e)[j] == c[e - 5 + j].low
  {
  }

  /**
    At the last bar the lookback is empty exactly for a one-bar or a five-bar
    series; `min()` of an empty column raises.
   */
  lemma LastBarLookbackEmpty(c: seq<Candle>)
    requires |c| > 0
    ensures |LookbackLows(c, |c| - 1)| == 0 <==> |c| == 1 || |c| == 5
  {
  }

  /** A trade plan, in the order the source returns its fields. */
  datatype Plan = Plan(stopLoss: real, takeProfit: real, liquidation: real, leverage: int,
                       positionSize: real, entryPrice: real, rewardRisk: real)

  /** The exceptions the sizing code can raise; each one ends the scan loop. */
  datatype Fault =
    | EmptyLookback     // `min()` of an empty slice of lows: ValueError
    | InfiniteLeverage  // stop equal to entry: the numpy float 1 / (1 - sl / entry) is inf, and `int(inf)` raises OverflowError
    | ZeroLeverage      // leverage truncated to 0: `1 / leverage`: ZeroDivisionError

  /** The outcome of `calculate_sl_tp_liq`: a plan, `None`, or an exception. */
  datatype Sizing = Accepted(plan: Plan) | Rejected | Raised(fault: Fault)

  /** The stop: the lowest recent low less the safety buffer. */
  function StopLoss(lows: seq<real>): real
    requires |lows| > 0
  {
    SeqMin(lows) * (1.0 - SafetyBuffer)
  }

  /** `min(int(1 / (1 - sl / entry)), 100)`. */
  function Leverage(entry: real, sl: real): int
    requires entry != 0.0 && sl != entry
  {
    OneMinusRatio(entry, sl);
    var raw := Trunc(1.0 / (1.0 - sl / entry));
    if raw < MaxLeverage then raw else MaxLeverage
  }

  /** `min(MAX_RISK_USD / risk, 1000)` for a positive risk per unit, else 0. */
  function PositionSize(entry: real, sl: real): real
  {
    var risk := entry - sl;
    if risk > 0.0 then
      var size := MaxRiskUsd / risk;
      if size < MaxPositionSize then size else MaxPositionSize
    else 0.0
  }

  /** `entry * (1 - 1 / leverage) * (1 - SAFETY_BUFFER)`. */
  function LiquidationPrice(entry: real, leverage: int): real
    requires leverage != 0
  {
    entry * (1.0 - 1.0 / (leverage as real)) * (1.0 - SafetyBuffer)
  }

  /**
    `calculate_sl_tp_liq(df, entry_idx)`. A stop equal to the entry makes
    the reward/risk ratio ±inf or nan in floating point: −inf is rejected by
    the ratio test, +inf and nan pass it and the leverage line then raises.
   */
  function CalculatePlan(c: seq<Candle>, e: nat): Sizing
    requires e < |c| && c[e].close > 0.0
  {
    var entry := c[e].close;
    var lows := LookbackLows(c, e);
    if |lows| == 0 then Raised(EmptyLookback)
    else
      var sl := StopLoss(lows);
      var tp := NearestResistance(c, e);
      if sl == entry then
        if tp < entry then Rejected else Raised(InfiniteLeverage)
      else
        var rr := (tp - entry) / (entry - sl);
        if rr < MinRewardRisk then Rejected
        else
          var leverage := Leverage(entry, sl);
          var size := PositionSize(entry, sl);
          if leverage == 0 then Raised(ZeroLeverage)
          else Accepted(Plan(sl, tp, LiquidationPrice(entry, leverage), leverage, size, entry, rr))
  }

  /** An accepted plan enters at the entry close, targets the resistance and has a stop under every recent low. */
  lemma PlanStopBelowRecentLows(c: seq<Candle>, e: nat)
    requires e < |c| && c[e].close > 0.0
    requires CalculatePlan(c, e).Accepted?
    ensures var p, w := CalculatePlan(c, e).plan, LookbackLows(c, e);
      && p.entryPrice == c[e].close
      && p.takeProfit == NearestResistance(c, e)
      && |w| > 0
      && (forall j :: 0 <= j < |w| ==> p.stopLoss <= w[j] * (1.0 - SafetyBuffer))
      && (exists j :: 0 <= j < |w| && p.stopLoss == w[j] * (1.0 - SafetyBuffer))
  {
    var w := LookbackLows(c, e);
    var k :| 0 <= k < |w| && w[k] == SeqMin(w);
    assert CalculatePlan(c, e).plan.stopLoss == w[k] * (1.0 - SafetyBuffer);
  }

  /** No accepted plan has a reward/risk ratio under the minimum; the ratio is the one its prices give. */
  lemma PlanMeetsRewardRisk(c: seq<Candle>, e: nat)
    requires e < |c| && c[e].close > 0.0
    requires CalculatePlan(c, e).Accepted?
    ensures var p := CalculatePlan(c, e).plan;
      && p.stopLoss != p.entryPrice
      && p.rewardRisk == (p.takeProfit - p.entryPrice) / (p.entryPrice - p.stopLoss)
      && p.rewardRisk >= MinRewardRisk
  {
  }

  lemma OneMinusRatio(entry: real, sl: real)
    requires entry != 0.0
    ensures 1.0 - sl / entry == (entry - sl) / entry
  {
    var q := sl / entry;
    assert q * entry == sl;
    assert (1.0 - q) * entry == entry - sl;
    DivideBack(1.0 - q, entry - sl, entry);
  }

  lemma DivideBack(x: real, y: real, d: real)
    requires d != 0.0 && x * d == y
    ensures x == y / d
  {
    assert x == (x * d) / d;
  }

  lemma InverseRisk(entry: real, sl: real)
    requires entry > 0.0 && sl != entry
    ensures 1.0 / (1.0 - sl / entry) == entry / (entry - sl)
  {
    OneMinusRatio(entry, sl);
  }

  lemma NegativeQuotient(a: real, b: real)
    requires a > 0.0
    ensures b < 0.0 ==> a / b < 0.0
  {
  }

  lemma RatioAboveOne(entry: real, risk: real)
    requires 0.0 < risk < entry
    ensures entry / risk > 1.0
  {
  }

  /** With the stop strictly between 0 and the entry, leverage is between 1 and 100 and at most entry/risk. */
  lemma LeverageBounds(entry: real, sl: real)
    requires 0.0 < sl < entry
    ensures 1 <= Leverage(entry, sl) <= MaxLeverage
    ensures Leverage(entry, sl) as real <= entry / (entry - sl)
  {
    InverseRisk(entry, sl);
    RatioAboveOne(entry, entry - sl);
  }

  /**
    Outside 0 < sl < entry the leverage is not a usable multiplier: a stop of
    exactly 0 gives 1, a stop above the entry up to twice it gives a negative
    leverage, and a negative stop or one above twice the entry truncates to 0.
   */
  lemma LeverageOutsideStopRange(entry: real, sl: real)
    requires entry > 0.0 && sl != entry
    ensures sl == 0.0 ==> Leverage(entry, sl) == 1
    ensures entry < sl <= 2.0 * entry ==> Leverage(entry, sl) < 0
    ensures sl < 0.0 || sl > 2.0 * entry ==> Leverage(entry, sl) == 0
  {
    var risk := entry - sl;
    var v := entry / risk;
    InverseRisk(entry, sl);
    assert Leverage(entry, sl) == if Trunc(v) < MaxLeverage then Trunc(v) else MaxLeverage;
    if sl == 0.0 {
      assert v == 1.0;
    } else if sl < 0.0 {
      QuotientBelowOne(entry, risk);
    } else if sl > entry {
      assert v * risk == entry;
      NegativeQuotient(entry, risk);
      QuotientBelowMinusOne(v, risk, entry);
    }
  }

  /** A positive number over a larger one lies strictly between 0 and 1. */
  lemma QuotientBelowOne(e: real, r: real)
    requires 0.0 < e < r
    ensures 0.0 < e / r < 1.0
  {
    var q := e / r;
    assert q * r == e;
    assert (q - 1.0) * r == e - r;
    ProductSign(q, r);
    ProductSign(q - 1.0, r);
  }

  /** With a positive factor r, a·r is negative exactly when a is. */
  lemma ProductSign(a: real, r: real)
    requires r > 0.0
    ensures a < 0.0 <==> a * r < 0.0
  {
    if a < 0.0 {
      assert a * r < 0.0;
    } else {
      assert a * r >= 0.0;
    }
  }

  /** For a negative divisor r with v·r = e: v is at most −1 exactly when e is at least −r. */
  lemma QuotientBelowMinusOne(v: real, r: real, e: real)
    requires r < 0.0 && v * r == e
    ensures v <= -1.0 <==> e >= -r
  {
    assert (v + 1.0) * r == e + r;
    if v + 1.0 > 0.0 {
      assert (v + 1.0) * r < 0.0;
    } else {
      assert (v + 1.0) * r >= 0.0;
    }
  }

  /** Any leverage between 1 and entry/risk liquidates strictly below the stop. */
  lemma LiquidationUnderStop(entry: real, sl: real, leverage: int)
    requires 0.0 < sl < entry
    requires 1 <= leverage && leverage as real <= entry / (entry - sl)
    ensures 0.0 <= LiquidationPrice(entry, leverage) < sl
  {
    var l, risk := leverage as real, entry - sl;
    assert l * risk <= entry by {
      assert l * risk <= (entry / risk) * risk;
    }
    var inv := 1.0 / l;
    assert 0.0 < inv <= 1.0;
    assert risk / entry <= inv by {
      assert risk <= entry * inv by {
        assert entry * inv == entry / l;
        assert risk <= entry / l;
      }
    }
    var body := entry * (1.0 - inv);
    OneMinusRatio(entry, risk);
    assert 0.0 <= body by {
      assert 0.0 <= 1.0 - inv;
    }
    assert body <= sl by {
      assert 1.0 - inv <= sl / entry;
      assert entry * (1.0 - inv) <= entry * (sl / entry);
      assert entry * (sl / entry) == sl;
    }
    assert LiquidationPrice(entry, leverage) == body * (1.0 - SafetyBuffer);
  }

  /**
    With the stop strictly between 0 and the entry, leverage lies in [1, 100]
    and liquidation happens strictly below the stop (so below the entry too).
   */
  lemma PlanLeverageAndLiquidation(c: seq<Candle>, e: nat)
    requires e < |c| && c[e].close > 0.0
    requires CalculatePlan(c, e).Accepted?
    ensures var p := CalculatePlan(c, e).plan;
      && p.leverage != 0 && p.leverage <= MaxLeverage
      && (0.0 < p.stopLoss < p.entryPrice ==>
            1 <= p.leverage && p.liquidation < p.stopLoss && p.liquidation < p.entryPrice)
  {
    var p := CalculatePlan(c, e).plan;
    if 0.0 < p.stopLoss < p.entryPrice {
      LeverageBounds(p.entryPrice, p.stopLoss);
      LiquidationUnderStop(p.entryPrice, p.stopLoss, p.leverage);
    }
  }

  /**
    The position size is 0 when the risk per unit is not positive; otherwise
    it lies in (0, 1000] and losing the risk per unit on it costs at most MAX_RISK_USD.
   */
  lemma PositionSizeBounds(entry: real, sl: real)
    ensures entry - sl <= 0.0 ==> PositionSize(entry, sl) == 0.0
    ensures entry - sl > 0.0 ==>
      && 0.0 < PositionSize(entry, sl) <= MaxPositionSize
      && PositionSize(entry, sl) * (entry - sl) <= MaxRiskUsd
  {
    var risk := entry - sl;
    if risk > 0.0 {
      var size := MaxRiskUsd / risk;
      assert size * risk == MaxRiskUsd;
      assert size > 0.0;
      if size >= MaxPositionSize {
        assert MaxPositionSize * risk <= size * risk;
      }
    }
  }

  /** A plan whose stop is at or above the entry has a stop strictly above it and a size of 0. */
  lemma StopAboveEntryHasNoSize(c: seq<Candle>, e: nat)
    requires e < |c| && c[e].close > 0.0
    requires CalculatePlan(c, e).Accepted?
    requires CalculatePlan(c, e).plan.stopLoss >= CalculatePlan(c, e).plan.entryPrice
    ensures CalculatePlan(c, e).plan.stopLoss > CalculatePlan(c, e).plan.entryPrice
    ensures CalculatePlan(c, e).plan.positionSize == 0.0
  {
  }

  /**
    At the last bar, the target is 3% above the entry, so a 3:1 reward/risk
    needs the stop within 1% of the entry; the leverage is then always the cap.
   */
  lemma TightStopFromTarget(entry: real, sl: real)
    requires entry > 0.0 && sl != entry
    requires (entry * 1.03 - entry) / (entry - sl) >= MinRewardRisk
    ensures entry * 0.99 <= sl < entry
  {
    var risk := entry - sl;
    NegativeQuotient(entry * 1.03 - entry, risk);
    assert risk > 0.0;
    assert 0.03 * entry / risk >= 3.0;
    assert 0.03 * entry >= 3.0 * risk;
  }

  lemma CappedLeverage(entry: real, sl: real)
    requires entry > 0.0 && entry * 0.99 <= sl < entry
    ensures Leverage(entry, sl) == MaxLeverage
  {
    var risk := entry - sl;
    InverseRisk(entry, sl);
    assert risk <= entry * 0.01;
    assert entry / risk >= 100.0 by {
      assert entry >= 100.0 * risk;
    }
  }

  /**
    On the scan loop's path (entry at the last bar), the sizing outcome is
    fixed by the five lows before the entry alone: it raises for a one- or
    five-bar series or a stop equal to the entry, accepts exactly when the
    stop is within 1% below the entry, and otherwise rejects. Every accepted
    plan targets entry·1.03, uses the 100× cap, liquidates at
    entry·0.99·0.995, and passes the caller's gate.
   */
  lemma LastBarSizing(c: seq<Candle>)
    requires |c| > 0 && c[|c| - 1].close > 0.0
    ensures var e := |c| - 1; var entry := c[e].close; var w := LookbackLows(c, e);
      var r := CalculatePlan(c, e);
      && (r == Raised(EmptyLookback) <==> |w| == 0)
      && (|w| > 0 ==>
            && (r == Raised(InfiniteLeverage) <==> StopLoss(w) == entry)
            && (r.Accepted? <==> entry * 0.99 <= StopLoss(w) < entry)
            && (r.Rejected? <==> StopLoss(w) != entry && !(entry * 0.99 <= StopLoss(w) < entry)))
      && r != Raised(ZeroLeverage)
      && (r.Accepted? ==>
            && r.plan.takeProfit == entry * 1.03
            && r.plan.leverage == MaxLeverage
            && r.plan.liquidation == entry * 0.99 * 0.995
            && r.plan.liquidation < r.plan.stopLoss
            && r.plan.positionSize > 0.0)
  {
    var e := |c| - 1;
    var entry := c[e].close;
    var w := LookbackLows(c, e);
    ResistanceAtLastBar(c);
    if |w| > 0 {
      var sl := StopLoss(w);
      if sl != entry {
        var rr := (entry * 1.03 - entry) / (entry - sl);
        if rr >= MinRewardRisk {
          TightStopFromTarget(entry, sl);
          CappedLeverage(entry, sl);
          LeverageBounds(entry, sl);
          LiquidationUnderStop(entry, sl, MaxLeverage);
          PositionSizeBounds(entry, sl);
          assert LiquidationPrice(entry, MaxLeverage) == entry * 0.99 * 0.995;
        } else {
          assert !(entry * 0.99 <= sl < entry) by {
            if entry * 0.99 <= sl < entry {
              StopNearEntryMeetsRatio(entry, sl);
            }
          }
        }
      }
    }
  }

  lemma StopNearEntryMeetsRatio(entry: real, sl: real)
    requires entry > 0.0 && entry * 0.99 <= sl < entry
    ensures (entry * 1.03 - entry) / (entry - sl) >= MinRewardRisk
  {
    var risk := entry - sl;
    assert 0.03 * entry >= 3.0 * risk;
    assert (entry * 1.03 - entry) / risk == 0.03 * entry / risk;
  }

  /**
    Entry 100, five lows whose buffered minimum is 95, and a high of 130
    after the entry: a plan with reward/risk 6, leverage 20, liquidation
    94.525 and size 0.2.
   */
  lemma TwentyTimesPlan(c: seq<Candle>)
    requires |c| == 7 && c[5].close == 100.0 && c[6].high == 130.0
    requires forall j :: 0 <= j < 5 ==> c[j].low == 95.0 / 0.995
    ensures CalculatePlan(c, 5) == Accepted(Plan(95.0, 130.0, 94.525, 20, 0.2, 100.0, 6.0))
  {
    var w := LookbackLows(c, 5);
    assert SeqMin(w) == 95.0 / 0.995;
    assert StopLoss(w) == 95.0;
    assert Highs(c)[6..] == [130.0];
    assert NearestResistance(c, 5) == 130.0;
    assert 1.0 / (1.0 - 95.0 / 100.0) == 20.0;
    assert Leverage(100.0, 95.0) == 20;
  }

  /**
    A stop above the entry is not refused here: lows of 110 before an entry
    at 100 with a high of 10 after it give a ratio of −90/−9.45 ≥ 3, a
    negative leverage of −10 and a size of 0.
   */
  lemma StopAboveEntryAccepted(c: seq<Candle>)
    requires |c| == 7 && c[5].close == 100.0 && c[6].high == 10.0
    requires forall j :: 0 <= j < 5 ==> c[j].low == 110.0
    ensures CalculatePlan(c, 5).Accepted?
    ensures CalculatePlan(c, 5).plan.stopLoss > CalculatePlan(c, 5).plan.entryPrice
    ensures CalculatePlan(c, 5).plan.leverage == -10
    ensures CalculatePlan(c, 5).plan.positionSize == 0.0
  {
    var w := LookbackLows(c, 5);
    assert SeqMin(w) == 110.0;
    assert StopLoss(w) == 109.45;
    assert Highs(c)[6..] == [10.0];
    assert NearestResistance(c, 5) == 10.0;
    assert (10.0 - 100.0) / (100.0 - 109.45) >= 3.0;
    assert 1.0 / (1.0 - 109.45 / 100.0) == -1.0 / 0.0945;
    assert Leverage(100.0, 109.45) == -10;
  }
}
