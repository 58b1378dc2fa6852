/**
 * `ensemble_predict` in backend/ml_engine/ensemble.py: a weighted average of
 * the models' prediction arrays, weights looked up in the configured table.
 *
 * The predictions arrive as a dictionary in insertion order, here a sequence
 * of (model name, prediction array) pairs. Arithmetic is exact.
 */
module Ensemble {
  import opened Config

  /** What `ensemble_predict` produces: `None`, an array, or the error `np.column_stack` raises on arrays of different lengths. */
  datatype Ensembled = NoPredictions | Averaged(values: seq<real>) | ShapeMismatch

  /** `DEFAULT_WEIGHTS.get(name, 0)`. */
  function Weight(name: string): (w: real)
    ensures w >= 0.0
    ensures name !in DefaultWeights ==> w == 0.0
  {
    if name in DefaultWeights then DefaultWeights[name] else 0.0
  }

  function Sum(xs: seq<real>): real
  {
    if xs == [] then 0.0 else Sum(xs[..|xs| - 1]) + xs[|xs| - 1]
  }

  /** The sum of the products of matching elements. */
  function Dot(ws: seq<real>, xs: seq<real>): real
    requires |ws| == |xs|
  {
    if ws == [] then 0.0 else Dot(ws[..|ws| - 1], xs[..|xs| - 1]) + ws[|ws| - 1] * xs[|xs| - 1]
  }

  /** The configured weight of each model, in dictionary order. */
  function RawWeights(preds: seq<(string, seq<real>)>): (ws: seq<real>)
    ensures |ws| == |preds|
    ensures forall i :: 0 <= i < |ws| ==> ws[i] == Weight(preds[i].0)
  {
    seq(|preds|, i requires 0 <= i < |preds| => Weight(preds[i].0))
  }

  /** `w / w.sum()` when the sum is positive, otherwise `1/n` each. */
  function Normalised(ws: seq<real>): (nw: seq<real>)
    requires ws != []
    ensures |nw| == |ws|
  {
    var total := Sum(ws);
    if total > 0.0 then seq(|ws|, i requires 0 <= i < |ws| => ws[i] / total)
    else seq(|ws|, i requires 0 <= i < |ws| => 1.0 / (|ws| as real))
  }

  /** The `j`th sample of every model's array: a row of the stacked matrix. */
  function Sample(preds: seq<(string, seq<real>)>, j: nat): (xs: seq<real>)
    requires forall i :: 0 <= i < |preds| ==> j < |preds[i].1|
    ensures |xs| == |preds|
    ensures forall i :: 0 <= i < |preds| ==> xs[i] == preds[i].1[j]
  {
    seq(|preds|, i requires 0 <= i < |preds| => preds[i].1[j])
  }

  /** Every prediction array has the length of the first. */
  predicate SameLength(preds: seq<(string, seq<real>)>)
  {
    forall i :: 0 <= i < |preds| ==> |preds[i].1| == |preds[0].1|
  }

  /** `np.average(row, weights=w)`: the weighted sum over the sum of the weights. */
  function Average(ws: seq<real>, xs: seq<real>): real
    requires |ws| == |xs|
  {
    if Sum(ws) == 0.0 then 0.0 else Dot(ws, xs) / Sum(ws)
  }

  /** `ensemble_predict(predictions)`. */
  function EnsemblePredict(preds: seq<(string, seq<real>)>): Ensembled
  {
    if preds == [] then NoPredictions
    else if !SameLength(preds) then ShapeMismatch
    else
      var w := Normalised(RawWeights(preds));
      Averaged(seq(|preds[0].1|, j requires 0 <= j < |preds[0].1| => Average(w, Sample(preds, j))))
  }

  // ---------------------------------------------------------------------
  // Sums
  // ---------------------------------------------------------------------

  lemma {:induction false} SumNonNegative(xs: seq<real>)
    requires forall i :: 0 <= i < |xs| ==> xs[i] >= 0.0
    ensures Sum(xs) >= 0.0
  {
    if xs != [] {
      SumNonNegative(xs[..|xs| - 1]);
    }
  }

  /** A non-negative sequence sums to at least any one of its elements. */
  lemma {:induction false} SumAtLeast(xs: seq<real>, k: nat)
    requires forall i :: 0 <= i < |xs| ==> xs[i] >= 0.0
    requires k < |xs|
    ensures Sum(xs) >= xs[k]
  {
    if k < |xs| - 1 {
      SumAtLeast(xs[..|xs| - 1], k);
    } else {
      SumNonNegative(xs[..|xs| - 1]);
    }
  }

  lemma {:induction false} SumDivided(ws: seq<real>, t: real)
    requires t > 0.0
    ensures Sum(seq(|ws|, i requires 0 <= i < |ws| => ws[i] / t)) == Sum(ws) / t
  {
    if ws != [] {
      var d := seq(|ws|, i requires 0 <= i < |ws| => ws[i] / t);
      var init := ws[..|ws| - 1];
      assert d[..|d| - 1] == seq(|init|, i requires 0 <= i < |init| => init[i] / t);
      SumDivided(init, t);
      DivAdd(Sum(init), ws[|ws| - 1], t);
    }
  }

  lemma DivAdd(a: real, b: real, t: real)
    requires t > 0.0
    ensures a / t + b / t == (a + b) / t
  {
  }

  lemma {:induction false} SumConstant(n: nat, c: real)
    ensures Sum(seq(n, i => c)) == n as real * c
  {
    if n > 0 {
      var s := seq(n, i => c);
      assert s[..n - 1] == seq(n - 1, i => c);
      SumConstant(n - 1, c);
    }
  }

  lemma {:induction false} DotDivided(ws: seq<real>, xs: seq<real>, t: real)
    requires |ws| == |xs| && t > 0.0
    ensures Dot(seq(|ws|, i requires 0 <= i < |ws| => ws[i] / t), xs) == Dot(ws, xs) / t
  {
    if ws != [] {
      var d := seq(|ws|, i requires 0 <= i < |ws| => ws[i] / t);
      var init := ws[..|ws| - 1];
      assert d[..|d| - 1] == seq(|init|, i requires 0 <= i < |init| => init[i] / t);
      DotDivided(init, xs[..|xs| - 1], t);
      ScaledProduct(ws[|ws| - 1], xs[|xs| - 1], t);
      DivAdd(Dot(init, xs[..|xs| - 1]), ws[|ws| - 1] * xs[|xs| - 1], t);
    }
  }

  lemma ScaledProduct(w: real, x: real, t: real)
    requires t > 0.0
    ensures (w / t) * x == (w * x) / t
  {
  }

  lemma {:induction false} DotConstant(c: real, xs: seq<real>)
    ensures Dot(seq(|xs|, i => c), xs) == c * Sum(xs)
  {
    if xs != [] {
      var s := seq(|xs|, i => c);
      assert s[..|s| - 1] == seq(|xs| - 1, i => c);
      DotConstant(c, xs[..|xs| - 1]);
    }
  }

  /** With non-negative weights the weighted sum lies between `lo` and `hi` times the total weight. */
  lemma DotBounds(ws: seq<real>, xs: seq<real>, lo: real, hi: real)
    requires |ws| == |xs|
    requires forall i :: 0 <= i < |ws| ==> ws[i] >= 0.0
    requires forall i :: 0 <= i < |xs| ==> lo <= xs[i] <= hi
    ensures lo * Sum(ws) <= Dot(ws, xs) <= hi * Sum(ws)
  {
    DotMonotonic(ws, seq(|ws|, i => lo), xs);
    DotMonotonic(ws, xs, seq(|ws|, i => hi));
    DotWithConstant(ws, lo);
    DotWithConstant(ws, hi);
  }

  /** With non-negative weights the weighted sum grows with the values. */
  lemma {:induction false} DotMonotonic(ws: seq<real>, xs: seq<real>, ys: seq<real>)
    requires |ws| == |xs| == |ys|
    requires forall i :: 0 <= i < |ws| ==> ws[i] >= 0.0 && xs[i] <= ys[i]
    ensures Dot(ws, xs) <= Dot(ws, ys)
  {
    if ws != [] {
      DotMonotonic(ws[..|ws| - 1], xs[..|xs| - 1], ys[..|ys| - 1]);
      MulMonotonic(ws[|ws| - 1], xs[|xs| - 1], ys[|ys| - 1]);
    }
  }

  lemma MulMonotonic(w: real, x: real, y: real)
    requires w >= 0.0 && x <= y
    ensures w * x <= w * y
  {
  }

  lemma {:induction false} DotWithConstant(ws: seq<real>, c: real)
    ensures Dot(ws, seq(|ws|, i => c)) == c * Sum(ws)
  {
    if ws != [] {
      var cs := seq(|ws|, i => c);
      assert cs[..|cs| - 1] == seq(|ws| - 1, i => c);
      DotWithConstant(ws[..|ws| - 1], c);
      Distributes(c, Sum(ws[..|ws| - 1]), ws[|ws| - 1]);
    }
  }

  lemma Distributes(c: real, a: real, b: real)
    ensures c * a + b * c == c * (a + b)
  {
  }

  /** Zero weights make their elements irrelevant to the weighted sum. */
  lemma {:induction false} DotIgnoresZeroWeights(ws: seq<real>, xs: seq<real>, ys: seq<real>)
    requires |ws| == |xs| == |ys|
    requires forall i :: 0 <= i < |ws| && ws[i] != 0.0 ==> xs[i] == ys[i]
    ensures Dot(ws, xs) == Dot(ws, ys)
  {
    if ws != [] {
      DotIgnoresZeroWeights(ws[..|ws| - 1], xs[..|xs| - 1], ys[..|ys| - 1]);
    }
  }

  // ---------------------------------------------------------------------
  // Properties of ensemble_predict
  // ---------------------------------------------------------------------

  /** The final weights are non-negative and sum to one, whichever rule produced them. */
  lemma NormalisedWeights(ws: seq<real>)
    requires ws != [] && forall i :: 0 <= i < |ws| ==> ws[i] >= 0.0
    ensures forall i :: 0 <= i < |ws| ==> Normalised(ws)[i] >= 0.0
    ensures Sum(Normalised(ws)) == 1.0
    ensures Sum(ws) > 0.0 ==> forall i :: 0 <= i < |ws| ==> Normalised(ws)[i] == ws[i] / Sum(ws)
    ensures Sum(ws) <= 0.0 ==> forall i :: 0 <= i < |ws| ==> Normalised(ws)[i] == 1.0 / (|ws| as real)
  {
    if Sum(ws) > 0.0 {
      ProportionalWeights(ws);
    } else {
      UniformWeights(ws);
    }
  }

  lemma ProportionalWeights(ws: seq<real>)
    requires ws != [] && Sum(ws) > 0.0 && forall i :: 0 <= i < |ws| ==> ws[i] >= 0.0
    ensures forall i :: 0 <= i < |ws| ==> Normalised(ws)[i] == ws[i] / Sum(ws) >= 0.0
    ensures Sum(Normalised(ws)) == 1.0
  {
    var total := Sum(ws);
    assert Normalised(ws) == seq(|ws|, i requires 0 <= i < |ws| => ws[i] / total);
    forall i | 0 <= i < |ws|
      ensures ws[i] / total >= 0.0
    {
      DivNonNegative(ws[i], total);
    }
    assert Sum(Normalised(ws)) == 1.0 by {
      SumDivided(ws, total);
      DivSelf(total);
    }
  }

  lemma DivSelf(t: real)
    requires t > 0.0
    ensures t / t == 1.0
  {
    assert (t / t) * t == t;
  }

  lemma DivNonNegative(a: real, t: real)
    requires a >= 0.0 && t > 0.0
    ensures a / t >= 0.0
  {
  }

  lemma UniformWeights(ws: seq<real>)
    requires ws != [] && Sum(ws) <= 0.0
    ensures forall i :: 0 <= i < |ws| ==> Normalised(ws)[i] == 1.0 / (|ws| as real) >= 0.0
    ensures Sum(Normalised(ws)) == 1.0
  {
    var n := |ws|;
    assert Normalised(ws) == seq(n, i => 1.0 / (n as real));
    SumConstant(n, 1.0 / (n as real));
  }

  /** `None` exactly when there is no prediction. */
  lemma EnsembleNone(preds: seq<(string, seq<real>)>)
    ensures EnsemblePredict(preds) == NoPredictions <==> preds == []
    ensures EnsemblePredict(preds) == ShapeMismatch <==> preds != [] && !SameLength(preds)
  {
  }

  /**
   * One value per sample; each is Σ wᵢ·pᵢ / Σ wᵢ over the configured weights,
   * or the plain mean when those weights are all zero.
   */
  lemma EnsembleFormula(preds: seq<(string, seq<real>)>, j: nat)
    requires preds != [] && SameLength(preds)
    ensures EnsemblePredict(preds).Averaged?
    ensures |EnsemblePredict(preds).values| == |preds[0].1|
    ensures j < |preds[0].1| ==>
      var raw := RawWeights(preds);
      var xs := Sample(preds, j);
      EnsemblePredict(preds).values[j] ==
        if Sum(raw) > 0.0 then Dot(raw, xs) / Sum(raw) else Sum(xs) / (|preds| as real)
  {
    if j < |preds[0].1| {
      var raw := RawWeights(preds);
      var xs := Sample(preds, j);
      var w := Normalised(raw);
      NormalisedWeights(raw);
      assert EnsemblePredict(preds).values[j] == Average(w, xs);
      assert Average(w, xs) == Dot(w, xs);
      if Sum(raw) > 0.0 {
        DotDivided(raw, xs, Sum(raw));
      } else {
        assert w == seq(|xs|, i => 1.0 / (|preds| as real));
        DotConstant(1.0 / (|preds| as real), xs);
      }
    }
  }

  /** Each output value lies between the smallest and the largest model prediction for that sample. */
  lemma EnsembleBetween(preds: seq<(string, seq<real>)>, j: nat, lo: real, hi: real)
    requires preds != [] && SameLength(preds) && j < |preds[0].1|
    requires forall i :: 0 <= i < |preds| ==> lo <= preds[i].1[j] <= hi
    ensures EnsemblePredict(preds).Averaged?
    ensures lo <= EnsemblePredict(preds).values[j] <= hi
  {
    var raw := RawWeights(preds);
    var xs := Sample(preds, j);
    var w := Normalised(raw);
    NormalisedWeights(raw);
    DotBounds(w, xs, lo, hi);
    assert EnsemblePredict(preds).values[j] == Average(w, xs);
  }

  /**
   * With the configured weights, once `lgb` or `rf` has a prediction the
   * `xgb` and `cat` predictions (weight 0) cannot change the output.
   */
  lemma EnsembleIgnoresZeroWeighted(preds: seq<(string, seq<real>)>, preds': seq<(string, seq<real>)>)
    requires |preds| == |preds'| && preds != [] && SameLength(preds) && SameLength(preds')
    requires |preds[0].1| == |preds'[0].1|
    requires forall i :: 0 <= i < |preds| ==> preds[i].0 == preds'[i].0
    requires forall i :: 0 <= i < |preds| && preds[i].0 != "xgb" && preds[i].0 != "cat" ==> preds[i].1 == preds'[i].1
    requires exists i :: 0 <= i < |preds| && preds[i].0 in {"lgb", "rf"}
    ensures EnsemblePredict(preds) == EnsemblePredict(preds')
  {
    var raw := RawWeights(preds);
    assert RawWeights(preds') == raw;
    var k :| 0 <= k < |preds| && preds[k].0 in {"lgb", "rf"};
    SumAtLeast(raw, k);
    var a := EnsemblePredict(preds).values;
    var b := EnsemblePredict(preds').values;
    forall j | 0 <= j < |a|
      ensures a[j] == b[j]
    {
      EnsembleFormula(preds, j);
      EnsembleFormula(preds', j);
      DotIgnoresZeroWeights(raw, Sample(preds, j), Sample(preds', j));
    }
  }
}
