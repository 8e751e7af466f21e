/**
  The scan loop (`main_loop`): each poll cycle runs the breakout detector on
  the freshly fetched candles, sizes a plan for a breakout, and signals it
  when its liquidation lies below its stop and its size is positive; it then
  sleeps 15 minutes after a signal and 1 minute otherwise. An exception in
  a cycle ends the loop.
 */
module Scanner {
  import opened Series
  import opened Trendline
  import opened Risk

  /** The sizing code divides by the entry close, which is the last close of the series. */
  predicate LastClosePositive(c: seq<Candle>)
  {
    |c| == 0 || c[|c| - 1].close > 0.0
  }

  /** A signal sent: the entry index and the plan. */
  datatype Signal = Signal(entry: nat, plan: Plan)

  /** What one poll cycle does. */
  datatype CycleOutcome = Signalled(signal: Signal) | Quiet | Halted(fault: Fault)

  /** The caller's own safety check before a plan is sent. */
  predicate PassesGate(p: Plan)
  {
    p.liquidation < p.stopLoss && p.positionSize > 0.0
  }

  /**
    One cycle on the fetched candles. `if entry_idx:` treats index 0 like
    no signal; a breakout index is never 0, so this only mirrors the test.
   */
  function Cycle(c: seq<Candle>): CycleOutcome
    requires LastClosePositive(c)
  {
    match Breakout(c)
    case None => Quiet
    case Some(e) =>
      BreakoutAtLastBar(c);
      if e == 0 then Quiet else Act(e, CalculatePlan(c, e))
  }

  /** What the loop body does with the sizing result for a breakout at e. */
  function Act(e: nat, r: Sizing): CycleOutcome
  {
    match r
    case Raised(f) => Halted(f)
    case Rejected => Quiet
    case Accepted(p) => if PassesGate(p) then Signalled(Signal(e, p)) else Quiet
  }

  /** The sleep after a cycle that did not raise, in seconds. */
  function SleepSeconds(o: CycleOutcome): (r: nat)
    requires !o.Halted?
    ensures r == CooldownSeconds <==> o.Signalled?
    ensures !o.Signalled? ==> r == PollSeconds
  {
    if o.Signalled? then CooldownSeconds else PollSeconds
  }

  /**
    A cycle signals exactly when the detector finds a breakout at the last
    bar, the sizing accepts a plan for it, and the plan passes the gate.
   */
  lemma SignalIffBreakoutAndPlan(c: seq<Candle>)
    requires LastClosePositive(c)
    ensures Cycle(c).Signalled? <==>
      && |c| > 0
      && Breakout(c) == Some(|c| - 1)
      && CalculatePlan(c, |c| - 1).Accepted?
      && PassesGate(CalculatePlan(c, |c| - 1).plan)
    ensures Cycle(c).Signalled? ==>
      && |c| > 0
      && Cycle(c).signal.entry == |c| - 1
      && CalculatePlan(c, |c| - 1) == Accepted(Cycle(c).signal.plan)
  {
    BreakoutAtLastBar(c);
    if Breakout(c).Some? {
      assert Cycle(c) == Act(|c| - 1, CalculatePlan(c, |c| - 1));
    }
  }

  /** On live data the gate never refuses a plan the sizing accepts. */
  lemma GateRedundantOnLiveData(c: seq<Candle>)
    requires LastClosePositive(c)
    ensures |c| > 0 && Breakout(c).Some? && CalculatePlan(c, |c| - 1).Accepted? ==> Cycle(c).Signalled?
  {
    BreakoutAtLastBar(c);
    if Breakout(c).Some? {
      LastBarSizing(c);
    }
  }

  /** A breakout is signalled exactly when the stop lies within 1% below the entry close. */
  lemma SignalIffTightStop(c: seq<Candle>)
    requires LastClosePositive(c)
    ensures Cycle(c).Signalled? <==>
      && |c| > 0
      && Breakout(c).Some?
      && |LookbackLows(c, |c| - 1)| > 0
      && c[|c| - 1].close * 0.99 <= StopLoss(LookbackLows(c, |c| - 1)) < c[|c| - 1].close
  {
    SignalIffBreakoutAndPlan(c);
    GateRedundantOnLiveData(c);
    if Breakout(c).Some? {
      LastBarSizing(c);
    }
  }

  /** Every signal carries 100× leverage, a target 3% above the entry and a liquidation at entry·0.99·0.995. */
  lemma LiveSignalTerms(c: seq<Candle>)
    requires LastClosePositive(c)
    ensures Cycle(c).Signalled? ==>
      && |c| > 0
      && var p := Cycle(c).signal.plan;
         && p.entryPrice == c[|c| - 1].close
         && p.leverage == MaxLeverage
         && p.takeProfit == p.entryPrice * 1.03
         && p.liquidation == p.entryPrice * 0.99 * 0.995
  {
    if Cycle(c).Signalled? {
      SignalIffBreakoutAndPlan(c);
      LastBarPlanTerms(c, Cycle(c).signal.plan);
    }
  }

  /** The terms of a plan accepted at the last bar. */
  lemma LastBarPlanTerms(c: seq<Candle>, p: Plan)
    requires |c| > 0 && c[|c| - 1].close > 0.0
    requires CalculatePlan(c, |c| - 1) == Accepted(p)
    ensures p.entryPrice == c[|c| - 1].close && p.leverage == MaxLeverage
    ensures p.takeProfit == p.entryPrice * 1.03 && p.liquidation == p.entryPrice * 0.99 * 0.995
  {
    LastBarSizing(c);
    PlanStopBelowRecentLows(c, |c| - 1);
  }

  /**
    A cycle raises exactly when a breakout is found on a five-bar series
    (no lows before the entry) or with the stop equal to the entry close;
    leverage is never truncated to 0 on this path.
   */
  lemma HaltConditions(c: seq<Candle>)
    requires LastClosePositive(c)
    ensures Cycle(c).Halted? <==>
      && |c| > 0
      && Breakout(c).Some?
      && (|c| == 5 || (|LookbackLows(c, |c| - 1)| > 0 && StopLoss(LookbackLows(c, |c| - 1)) == c[|c| - 1].close))
    ensures Cycle(c).Halted? ==> Cycle(c).fault != ZeroLeverage
    ensures Cycle(c).Halted? ==> (Cycle(c).fault == EmptyLookback <==> |c| == 5)
  {
    BreakoutAtLastBar(c);
    if Breakout(c).Some? {
      assert Cycle(c) == Act(|c| - 1, CalculatePlan(c, |c| - 1));
      LastBarSizing(c);
      LastBarLookbackEmpty(c);
    }
  }

  /** `find_trendline_breakout` and `calculate_sl_tp_liq` on one fetch, as the loop body runs them. */
  method ScanOnce(candles: seq<Candle>) returns (outcome: CycleOutcome)
    requires LastClosePositive(candles)
    ensures outcome == Cycle(candles)
  {
    var df := new Frame(candles);
    var entry := FindTrendlineBreakout(df);
    BreakoutAtLastBar(candles);
    if entry.None? || entry.value == 0 {
      return Quiet;
    }
    var result := CalculatePlan(candles, entry.value);
    assert Cycle(candles) == Act(entry.value, result);
    match result
    case Raised(f) => outcome := Halted(f);
    case Rejected => outcome := Quiet;
    case Accepted(p) =>
      if PassesGate(p) {
        outcome := Signalled(Signal(entry.value, p));
      } else {
        outcome := Quiet;
      }
  }

  /** The loop's record so far: signals sent, seconds slept, cycles run, and the exception that ended it. */
  datatype Run = Run(signals: seq<Signal>, slept: nat, cycles: nat, fault: Option<Fault>)

  /** One more cycle of the loop; after an exception nothing runs any more. */
  function Step(r: Run, o: CycleOutcome): Run
  {
    if r.fault.Some? then r
    else
      match o
      case Halted(f) => Run(r.signals, r.slept, r.cycles + 1, Some(f))
      case Signalled(s) => Run(r.signals + [s], r.slept + CooldownSeconds, r.cycles + 1, None)
      case Quiet => Run(r.signals, r.slept + PollSeconds, r.cycles + 1, None)
  }

  /** The record of a loop whose cycles had the given outcomes. */
  function Replay(os: seq<CycleOutcome>): Run
  {
    if |os| == 0 then Run([], 0, 0, None)
    else Step(Replay(os[..|os| - 1]), os[|os| - 1])
  }

  predicate AllLastClosesPositive(fetches: seq<seq<Candle>>)
  {
    forall k :: 0 <= k < |fetches| ==> LastClosePositive(fetches[k])
  }

  /** The outcome each fetch would give its cycle. */
  function Outcomes(fetches: seq<seq<Candle>>): (os: seq<CycleOutcome>)
    requires AllLastClosesPositive(fetches)
    ensures |os| == |fetches| && forall k :: 0 <= k < |fetches| ==> os[k] == Cycle(fetches[k])
  {
    seq(|fetches|, k requires 0 <= k < |fetches| && LastClosePositive(fetches[k]) => Cycle(fetches[k]))
  }

  /** The bookkeeping after one cycle: record a signal, or the exception, and the sleep. */
  method Advance(run: Run, outcome: CycleOutcome) returns (next: Run)
    requires run.fault.None?
    ensures next == Step(run, outcome)
  {
    if outcome.Halted? {
      next := Run(run.signals, run.slept, run.cycles + 1, Some(outcome.fault));
    } else {
      var signals := if outcome.Signalled? then run.signals + [outcome.signal] else run.signals;
      next := Run(signals, run.slept + SleepSeconds(outcome), run.cycles + 1, None);
    }
  }

  /** `main_loop`, given the candles each `fetch_ohlcv()` returns in turn. */
  method MainLoop(fetches: seq<seq<Candle>>) returns (run: Run)
    requires AllLastClosesPositive(fetches)
    ensures run == Replay(Outcomes(fetches))
  {
    ghost var os := Outcomes(fetches);
    run := Run([], 0, 0, None);
    var i := 0;
    while i < |fetches| && run.fault.None?
      invariant 0 <= i <= |fetches|
      invariant run == Replay(os[..i])
    {
      var outcome := ScanOnce(fetches[i]);
      assert outcome == os[i];
      ReplayExtend(os, i);
      run := Advance(run, outcome);
      i := i + 1;
    }
    assert os[..|os|] == os;
    if i < |fetches| {
      FaultIsFinal(os, i);
    }
  }

  /** Replaying one more outcome is one more step. */
  lemma ReplayExtend(os: seq<CycleOutcome>, i: nat)
    requires i < |os|
    ensures Replay(os[..i + 1]) == Step(Replay(os[..i]), os[i])
  {
    assert os[..i + 1][..i] == os[..i];
  }

  /** Once a cycle has raised, later cycles change nothing. */
  lemma {:induction false} FaultIsFinal(os: seq<CycleOutcome>, i: nat)
    requires i <= |os|
    requires Replay(os[..i]).fault.Some?
    ensures Replay(os) == Replay(os[..i])
    decreases |os| - i
  {
    if i < |os| {
      var prefix := os[..|os| - 1];
      assert prefix[..i] == os[..i];
      FaultIsFinal(prefix, i);
    } else {
      assert os[..i] == os;
    }
  }

  /**
    Every cycle but the one that raised sleeps: 15 minutes per signal and
    1 minute per other cycle.
   */
  lemma {:induction false} SleepTotal(os: seq<CycleOutcome>)
    ensures var r := Replay(os);
      && |r.signals| + (if r.fault.Some? then 1 else 0) <= r.cycles
      && r.slept == CooldownSeconds * |r.signals|
                    + PollSeconds * (r.cycles - |r.signals| - (if r.fault.Some? then 1 else 0))
  {
    if |os| > 0 {
      SleepTotal(os[..|os| - 1]);
    }
  }

  /**
    The loop runs one cycle per fetch until the first cycle that raises, and
    stops there with that cycle's exception.
   */
  lemma {:induction false} CyclesUntilFault(os: seq<CycleOutcome>)
    ensures var r := Replay(os);
      && r.cycles <= |os|
      && (forall k :: 0 <= k < r.cycles - (if r.fault.Some? then 1 else 0) ==> !os[k].Halted?)
      && (r.fault.None? ==> r.cycles == |os|)
      && (r.fault.Some? ==> r.cycles > 0 && os[r.cycles - 1] == Halted(r.fault.value))
  {
    if |os| > 0 {
      var prefix := os[..|os| - 1];
      CyclesUntilFault(prefix);
      assert forall k :: 0 <= k < |prefix| ==> prefix[k] == os[k];
    }
  }

  /** The signals of the `Signalled` outcomes, in the order of the outcomes. */
  function SignalsIn(os: seq<CycleOutcome>): (r: seq<Signal>)
    ensures forall k :: 0 <= k < |os| && os[k].Signalled? ==> os[k].signal in r
    ensures forall j :: 0 <= j < |r| ==> Signalled(r[j]) in os
  {
    if |os| == 0 then []
    else
      var prefix := os[..|os| - 1];
      var last := os[|os| - 1];
      var r := SignalsIn(prefix) + (if last.Signalled? then [last.signal] else []);
      assert forall k :: 0 <= k < |prefix| ==> prefix[k] == os[k];
      assert forall o :: o in prefix ==> o in os;
      r
  }

  /**
    The signals recorded are exactly those of the cycles run, in order: the
    cycle that raised, and every fetch after it, contribute none.
   */
  lemma {:induction false} SignalsOfCycles(os: seq<CycleOutcome>)
    ensures Replay(os).cycles <= |os|
    ensures Replay(os).signals == SignalsIn(os[..Replay(os).cycles])
    ensures forall k :: 0 <= k < Replay(os).cycles && os[k].Signalled? ==> os[k].signal in Replay(os).signals
  {
    CyclesUntilFault(os);
    SignalsOfCyclesInOrder(os);
    var run := os[..Replay(os).cycles];
    assert forall k :: 0 <= k < |run| ==> run[k] == os[k];
  }

  /** The recorded signals are the filter of the outcomes of the cycles run. */
  lemma {:induction false} SignalsOfCyclesInOrder(os: seq<CycleOutcome>)
    ensures Replay(os).cycles <= |os|
    ensures Replay(os).signals == SignalsIn(os[..Replay(os).cycles])
  {
    CyclesUntilFault(os);
    if |os| > 0 {
      var prefix := os[..|os| - 1];
      SignalsOfCyclesInOrder(prefix);
      CyclesUntilFault(prefix);
      var c := Replay(prefix).cycles;
      if Replay(prefix).fault.Some? {
        assert os[..c] == prefix[..c];
      } else {
        assert prefix[..c] == prefix;
        assert os[..|os|] == os;
      }
    } else {
      assert os[..0] == [];
    }
  }
}
