/**
  The candle series the scanner works on, and the configuration constants of
  the bot (the settings block at the top of botBtcBybit7.1git.py).
  Prices and volumes are exact reals; timestamps are integer milliseconds,
  as the exchange delivers them before they are turned into datetimes.
 */
module Series {

  datatype Option<+T> = None | Some(value: T)

  /** One OHLCV bar. */
  datatype Candle = Candle(timestamp: int, open: real, high: real, low: real, close: real, volume: real)

  /** A local maximum of the highs: its index in the series and its high. */
  datatype Touch = Touch(index: nat, high: real)

  // Risk policy
  const MaxRiskUsd: real := 1.0
  const MinRewardRisk: real := 3.0
  const SafetyBuffer: real := 0.005
  // Pattern detection
  const MinTouches: nat := 2
  const MaxTouchGapMin: real := 120.0
  const VolumeWindow: nat := 20
  // Sizing constants written inline in the sizing code
  const StopLookback: nat := 5
  const FallbackTargetRate: real := 0.03
  const MaxLeverage: int := 100
  const MaxPositionSize: real := 1000.0
  // Scan loop sleeps, in seconds
  const CooldownSeconds: nat := 900
  const PollSeconds: nat := 60

  function Highs(c: seq<Candle>): (h: seq<real>)
    ensures |h| == |c| && forall i :: 0 <= i < |c| ==> h[i] == c[i].high
  {
    seq(|c|, i requires 0 <= i < |c| => c[i].high)
  }

  function Lows(c: seq<Candle>): (l: seq<real>)
    ensures |l| == |c| && forall i :: 0 <= i < |c| ==> l[i] == c[i].low
  {
    seq(|c|, i requires 0 <= i < |c| => c[i].low)
  }

  function Volumes(c: seq<Candle>): (v: seq<real>)
    ensures |v| == |c| && forall i :: 0 <= i < |c| ==> v[i] == c[i].volume
  {
    seq(|c|, i requires 0 <= i < |c| => c[i].volume)
  }
}
