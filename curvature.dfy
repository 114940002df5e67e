/** compute_curv: the average curvature over the watershed instances. The
    contour extraction, the ellipse fit and the least-squares circle fit are
    library calls; what each one did for a label is an input (an outcome per
    label), and only the aggregation into curv_sum and count is modelled. */
module Curvature {
  import opened Common

  /** What happened to the largest contour of one label's mask. */
  datatype FitOutcome =
    | TooFewPoints            // len(c) < 5: drawn in red, nothing else
    | EllipseFitFails         // cv2.fitEllipse raised: caught before count += 1
    | CircleFitFails          // ComputeCurvature.fit raised: caught after count += 1
    | Fitted(curvature: real) // the circle fit returned 1 / radius

  /** Does this outcome pass the count += 1 line? */
  predicate Counted(o: FitOutcome)
  {
    o.CircleFitFails? || o.Fitted?
  }

  /** What this outcome adds to curv_sum. */
  function Contribution(o: FitOutcome): real
  {
    if o.Fitted? then o.curvature else 0.0
  }

  /** count after the loop has visited the labels in keys (label 0 skipped). */
  function FitCount(keys: seq<nat>, fit: nat -> FitOutcome): nat
  {
    if keys == [] then 0
    else
      var last := keys[|keys| - 1];
      FitCount(keys[..|keys| - 1], fit) + (if last != 0 && Counted(fit(last)) then 1 else 0)
  }

  /** curv_sum after the loop has visited the labels in keys (label 0 skipped). */
  function CurvatureSum(keys: seq<nat>, fit: nat -> FitOutcome): real
  {
    if keys == [] then 0.0
    else
      var last := keys[|keys| - 1];
      CurvatureSum(keys[..|keys| - 1], fit) + (if last != 0 then Contribution(fit(last)) else 0.0)
  }

  /** Does some label other than the background occur? Only then is
      label_trait assigned. */
  predicate HasForeground(labels: seq<nat>)
  {
    exists i :: 0 <= i < |labels| && labels[i] != 0
  }

  /** The value compute_curv returns for a label image (flattened) and the
      outcome of each label's fit: curv_sum / count, or curv_sum / 1.0 when
      nothing was counted, and UnboundLocalError when no label is non-zero. */
  function AverageCurvature(labels: seq<nat>, fit: nat -> FitOutcome): (r: Result<real>)
    ensures r.Err? <==> !HasForeground(labels)
    ensures r.Err? ==> r.error == UnboundLocalError
  {
    var keys := SortedDistinct(labels);
    var count := FitCount(keys, fit);
    var sum := CurvatureSum(keys, fit);
    if !HasForeground(labels) then Err(UnboundLocalError)
    else if count > 0 then Ok(sum / (count as real))
    else Ok(sum / 1.0)
  }

  /** The loop of compute_curv over np.unique(labels). */
  method ComputeCurv(labels: seq<nat>, fit: nat -> FitOutcome) returns (r: Result<real>)
    ensures r == AverageCurvature(labels, fit)
  {
    var keys := SortedDistinct(labels);
    var curvSum := 0.0;
    var count := 0;
    var labelTraitAssigned := false;
    var index := 0;
    while index < |keys|
      invariant 0 <= index <= |keys|
      invariant count == FitCount(keys[..index], fit)
      invariant curvSum == CurvatureSum(keys[..index], fit)
      invariant labelTraitAssigned <==> exists j :: 0 <= j < index && keys[j] != 0
    {
      var key := keys[index];
      PrefixStep(keys, index, fit);
      if key != 0 {
        labelTraitAssigned := true;
        match fit(key)
        case TooFewPoints =>
        case EllipseFitFails =>
        case CircleFitFails =>
          count := count + 1;
        case Fitted(curvature) =>
          count := count + 1;
          curvSum := curvSum + curvature;
      }
      index := index + 1;
    }
    assert keys[..|keys|] == keys;
    ForegroundKey(labels);
    if !labelTraitAssigned {
      r := Err(UnboundLocalError);
    } else if count > 0 {
      r := Ok(curvSum / (count as real));
    } else {
      r := Ok(curvSum / 1.0);
    }
  }

  /** One more label visited: what it adds to count and to curv_sum. */
  lemma PrefixStep(keys: seq<nat>, index: nat, fit: nat -> FitOutcome)
    requires index < |keys|
    ensures var key := keys[index];
      FitCount(keys[..index + 1], fit) == FitCount(keys[..index], fit) + (if key != 0 && Counted(fit(key)) then 1 else 0) &&
      CurvatureSum(keys[..index + 1], fit) == CurvatureSum(keys[..index], fit) + (if key != 0 then Contribution(fit(key)) else 0.0)
  {
    assert keys[..index + 1][..index] == keys[..index];
  }

  /** Some label is non-zero exactly when some distinct label is. */
  lemma ForegroundKey(labels: seq<nat>)
    ensures HasForeground(labels) <==>
      exists j :: 0 <= j < |SortedDistinct(labels)| && SortedDistinct(labels)[j] != 0
  {
    var keys := SortedDistinct(labels);
    if exists j :: 0 <= j < |keys| && keys[j] != 0 {
      var j :| 0 <= j < |keys| && keys[j] != 0;
      assert keys[j] in labels;
    }
    if HasForeground(labels) {
      var i :| 0 <= i < |labels| && labels[i] != 0;
      assert labels[i] in keys;
    }
  }

  /** The labels of keys whose fit reached count += 1: the count is their
      number. */
  function CountedLabels(keys: seq<nat>, fit: nat -> FitOutcome): set<nat>
  {
    set k | k in keys && k != 0 && Counted(fit(k))
  }

  /** count is the number of distinct non-zero labels whose fit got past the
      ellipse (a raising circle fit included). */
  lemma {:induction false} FitCountIsCardinality(keys: seq<nat>, fit: nat -> FitOutcome)
    requires StrictlyIncreasing(keys)
    ensures FitCount(keys, fit) == |CountedLabels(keys, fit)|
  {
    if keys != [] {
      var n := |keys|;
      var init := keys[..n - 1];
      var last := keys[n - 1];
      assert keys == init + [last];
      LastIsNew(keys);
      FitCountIsCardinality(init, fit);
      CountedLabelsSnoc(init, last, fit);
    }
  }

  /** The last element of a strictly increasing sequence is not among the
      earlier ones. */
  lemma LastIsNew(keys: seq<nat>)
    requires StrictlyIncreasing(keys) && keys != []
    ensures StrictlyIncreasing(keys[..|keys| - 1])
    ensures keys[|keys| - 1] !in keys[..|keys| - 1]
  {
    var n := |keys|;
    var init := keys[..n - 1];
    forall j | 0 <= j < |init| ensures init[j] != keys[n - 1] {
      assert init[j] == keys[j] < keys[n - 1];
    }
  }

  /** Appending a label not seen before adds it to the counted labels when
      its fit is counted. */
  lemma CountedLabelsSnoc(init: seq<nat>, last: nat, fit: nat -> FitOutcome)
    requires last !in init
    ensures |CountedLabels(init + [last], fit)| ==
      |CountedLabels(init, fit)| + (if last != 0 && Counted(fit(last)) then 1 else 0)
  {
    var before := CountedLabels(init, fit);
    assert last !in before;
    if last != 0 && Counted(fit(last)) {
      assert CountedLabels(init + [last], fit) == before + {last};
    } else {
      assert CountedLabels(init + [last], fit) == before;
    }
  }

  /** Without a counted fit nothing was added to curv_sum. */
  lemma {:induction false} UncountedSumIsZero(keys: seq<nat>, fit: nat -> FitOutcome)
    requires FitCount(keys, fit) == 0
    ensures CurvatureSum(keys, fit) == 0.0
  {
    if keys != [] {
      UncountedSumIsZero(keys[..|keys| - 1], fit);
    }
  }

  /** When no fit was counted but some label is non-zero, the result is 0.0
      (the count = 1.0 branch). */
  lemma NothingCountedGivesZero(labels: seq<nat>, fit: nat -> FitOutcome)
    requires HasForeground(labels)
    requires FitCount(SortedDistinct(labels), fit) == 0
    ensures AverageCurvature(labels, fit) == Ok(0.0)
  {
    UncountedSumIsZero(SortedDistinct(labels), fit);
  }

  /** The background label's outcome never matters. */
  lemma {:induction false} BackgroundIgnoredCount(keys: seq<nat>, fit: nat -> FitOutcome, other: nat -> FitOutcome)
    requires forall k :: k != 0 ==> fit(k) == other(k)
    ensures FitCount(keys, fit) == FitCount(keys, other)
    ensures CurvatureSum(keys, fit) == CurvatureSum(keys, other)
  {
    if keys != [] {
      BackgroundIgnoredCount(keys[..|keys| - 1], fit, other);
    }
  }

  /** Two outcome tables that agree on every non-zero label give the same
      result: label 0 is skipped. */
  lemma BackgroundSkipped(labels: seq<nat>, fit: nat -> FitOutcome, other: nat -> FitOutcome)
    requires forall k :: k != 0 ==> fit(k) == other(k)
    ensures AverageCurvature(labels, fit) == AverageCurvature(labels, other)
  {
    BackgroundIgnoredCount(SortedDistinct(labels), fit, other);
  }

  /** count * bound, accumulated label by label the way count is. */
  function ScaledCount(keys: seq<nat>, fit: nat -> FitOutcome, bound: real): real
  {
    if keys == [] then 0.0
    else
      var last := keys[|keys| - 1];
      ScaledCount(keys[..|keys| - 1], fit, bound) + (if last != 0 && Counted(fit(last)) then bound else 0.0)
  }

  lemma {:induction false} ScaledCountIsProduct(keys: seq<nat>, fit: nat -> FitOutcome, bound: real)
    ensures ScaledCount(keys, fit, bound) == (FitCount(keys, fit) as real) * bound
  {
    if keys != [] {
      var init := keys[..|keys| - 1];
      ScaledCountIsProduct(init, fit, bound);
      var f0 := FitCount(init, fit) as real;
      assert (f0 + 1.0) * bound == f0 * bound + bound;
    }
  }

  lemma {:induction false} SumBelowScaled(keys: seq<nat>, fit: nat -> FitOutcome, hi: real)
    requires hi >= 0.0
    requires forall k :: k in keys && k != 0 && fit(k).Fitted? ==> fit(k).curvature <= hi
    ensures CurvatureSum(keys, fit) <= ScaledCount(keys, fit, hi)
  {
    if keys != [] {
      var init := keys[..|keys| - 1];
      assert keys == init + [keys[|keys| - 1]];
      SumBelowScaled(init, fit, hi);
    }
  }

  lemma {:induction false} SumAboveScaled(keys: seq<nat>, fit: nat -> FitOutcome, lo: real)
    requires forall k :: k in keys && k != 0 ==> !fit(k).CircleFitFails? && (fit(k).Fitted? ==> fit(k).curvature >= lo)
    ensures CurvatureSum(keys, fit) >= ScaledCount(keys, fit, lo)
  {
    if keys != [] {
      var init := keys[..|keys| - 1];
      assert keys == init + [keys[|keys| - 1]];
      SumAboveScaled(init, fit, lo);
    }
  }

  /** An upper bound on the sum from an upper bound on the fitted curvatures. */
  lemma SumUpperBound(keys: seq<nat>, fit: nat -> FitOutcome, hi: real)
    requires hi >= 0.0
    requires forall k :: k in keys && k != 0 && fit(k).Fitted? ==> fit(k).curvature <= hi
    ensures CurvatureSum(keys, fit) <= (FitCount(keys, fit) as real) * hi
  {
    SumBelowScaled(keys, fit, hi);
    ScaledCountIsProduct(keys, fit, hi);
  }

  /** A lower bound on the sum when no circle fit raised. */
  lemma SumLowerBound(keys: seq<nat>, fit: nat -> FitOutcome, lo: real)
    requires forall k :: k in keys && k != 0 ==> !fit(k).CircleFitFails? && (fit(k).Fitted? ==> fit(k).curvature >= lo)
    ensures CurvatureSum(keys, fit) >= (FitCount(keys, fit) as real) * lo
  {
    SumAboveScaled(keys, fit, lo);
    ScaledCountIsProduct(keys, fit, lo);
  }

  /** Dividing by a positive count keeps a bound of the form sum <= c * b. */
  lemma QuotientBounds(sum: real, c: real, b: real)
    requires c > 0.0
    ensures sum <= c * b ==> sum / c <= b
    ensures sum >= c * b ==> sum / c >= b
  {
    assert (sum / c) * c == sum;
    if sum / c > b {
      assert (sum / c) * c > b * c;
    }
    if sum / c < b {
      assert (sum / c) * c < b * c;
    }
  }

  /** The average lies at or below an upper bound of the fitted curvatures. */
  lemma AverageAtMost(labels: seq<nat>, fit: nat -> FitOutcome, hi: real)
    requires HasForeground(labels) && hi >= 0.0
    requires forall k :: k in labels && k != 0 && fit(k).Fitted? ==> fit(k).curvature <= hi
    ensures AverageCurvature(labels, fit).Ok?
    ensures AverageCurvature(labels, fit).value <= hi
  {
    var keys := SortedDistinct(labels);
    var count := FitCount(keys, fit);
    SumUpperBound(keys, fit, hi);
    if count > 0 {
      QuotientBounds(CurvatureSum(keys, fit), count as real, hi);
    } else {
      UncountedSumIsZero(keys, fit);
    }
  }

  /** When no circle fit raised and something was counted, the average lies
      at or above a lower bound of the fitted curvatures. */
  lemma AverageAtLeast(labels: seq<nat>, fit: nat -> FitOutcome, lo: real)
    requires HasForeground(labels)
    requires FitCount(SortedDistinct(labels), fit) > 0
    requires forall k :: k in labels && k != 0 ==> !fit(k).CircleFitFails? && (fit(k).Fitted? ==> fit(k).curvature >= lo)
    ensures AverageCurvature(labels, fit).Ok?
    ensures AverageCurvature(labels, fit).value >= lo
  {
    var keys := SortedDistinct(labels);
    SumLowerBound(keys, fit, lo);
    QuotientBounds(CurvatureSum(keys, fit), FitCount(keys, fit) as real, lo);
  }
}
