/**
  The numeric primitives the bot borrows from Python, pandas and numpy:
  sums and means of a column, `min`/`max` of a non-empty column, and
  Python's `int()` on a float, which truncates toward zero.
 */
module Stats {

  function Sum(s: seq<real>): real
  {
    if |s| == 0 then 0.0 else s[0] + Sum(s[1..])
  }

  /** pandas `Series.mean()` of a non-empty column. */
  function Mean(s: seq<real>): (m: real)
    requires |s| > 0
    ensures m * (|s| as real) == Sum(s)
  {
    Sum(s) / (|s| as real)
  }

  /** Python `min()` of a non-empty column: a lower bound that is attained. */
  function SeqMin(s: seq<real>): (m: real)
    requires |s| > 0
    ensures forall i :: 0 <= i < |s| ==> m <= s[i]
    ensures exists i :: 0 <= i < |s| && s[i] == m
  {
    if |s| == 1 then s[0]
    else
      var rest := SeqMin(s[1..]);
      assert forall i :: 0 <= i < |s| - 1 ==> s[1..][i] == s[i + 1];
      if s[0] <= rest then s[0] else rest
  }

  /** pandas `Series.max()` of a non-empty column: an upper bound that is attained. */
  function SeqMax(s: seq<real>): (m: real)
    requires |s| > 0
    ensures forall i :: 0 <= i < |s| ==> s[i] <= m
    ensures exists i :: 0 <= i < |s| && s[i] == m
  {
    if |s| == 1 then s[0]
    else
      var rest := SeqMax(s[1..]);
      assert forall i :: 0 <= i < |s| - 1 ==> s[1..][i] == s[i + 1];
      if s[0] >= rest then s[0] else rest
  }

  /** Python `int(x)` for a finite float: rounds toward zero. */
  function Trunc(x: real): (r: int)
    ensures 0.0 <= x ==> 0 <= r && r as real <= x < r as real + 1.0
    ensures x < 0.0 ==> r <= 0 && x <= r as real && r as real < x + 1.0
  {
    if x >= 0.0 then x.Floor else -((-x).Floor)
  }

  /** Summing is linear: a pointwise affine combination sums to the same combination of sums. */
  lemma {:induction false} SumAffine(w: seq<real>, u: seq<real>, v: seq<real>, a: real, c: real)
    requires |u| == |w| && |v| == |w|
    requires forall i :: 0 <= i < |w| ==> w[i] == u[i] + a * v[i] + c
    ensures Sum(w) == Sum(u) + a * Sum(v) + (|w| as real) * c
  {
    if |w| > 0 {
      SumAffine(w[1..], u[1..], v[1..], a, c);
    }
  }

  /** Summing is monotone: a pointwise lower bound sums to a lower bound. */
  lemma {:induction false} SumDominates(w: seq<real>, u: seq<real>, v: seq<real>, z: seq<real>, a: real, b: real)
    requires |u| == |w| && |v| == |w| && |z| == |w|
    requires forall i :: 0 <= i < |w| ==> w[i] >= u[i] + a * v[i] + b * z[i]
    ensures Sum(w) >= Sum(u) + a * Sum(v) + b * Sum(z)
  {
    if |w| > 0 {
      SumDominates(w[1..], u[1..], v[1..], z[1..], a, b);
    }
  }

  /** A sum of non-negative terms is non-negative, and positive once one term is. */
  lemma {:induction false} SumPositive(s: seq<real>, k: nat)
    requires forall i :: 0 <= i < |s| ==> s[i] >= 0.0
    ensures Sum(s) >= 0.0
    ensures k < |s| && s[k] > 0.0 ==> Sum(s) > 0.0
  {
    if |s| > 0 {
      SumPositive(s[1..], if k == 0 then 0 else k - 1);
    }
  }

  lemma {:induction false} SumZero(s: seq<real>)
    requires forall i :: 0 <= i < |s| ==> s[i] == 0.0
    ensures Sum(s) == 0.0
  {
    if |s| > 0 {
      SumZero(s[1..]);
    }
  }

  /** The special case Σ (u − a·v) = Σ u − a·Σ v. */
  lemma {:induction false} SumScaledDifference(w: seq<real>, u: seq<real>, v: seq<real>, a: real)
    requires |u| == |w| && |v| == |w|
    requires forall i :: 0 <= i < |w| ==> w[i] == u[i] - a * v[i]
    ensures Sum(w) == Sum(u) - a * Sum(v)
  {
    if |w| > 0 {
      SumScaledDifference(w[1..], u[1..], v[1..], a);
      assert a * Sum(v) == a * v[0] + a * Sum(v[1..]);
    }
  }

  /** Residuals from a line sum to Σ u − a·Σ v − n·c. */
  lemma {:induction false} SumLineOffsets(w: seq<real>, u: seq<real>, v: seq<real>, a: real, c: real)
    requires |u| == |w| && |v| == |w|
    requires forall i :: 0 <= i < |w| ==> w[i] == u[i] - (a * v[i] + c)
    ensures Sum(w) == Sum(u) - a * Sum(v) - (|w| as real) * c
  {
    if |w| > 0 {
      SumLineOffsets(w[1..], u[1..], v[1..], a, c);
      assert a * Sum(v) == a * v[0] + a * Sum(v[1..]);
      assert (|w| as real) * c == (|w[1..]| as real) * c + c;
    }
  }
}
