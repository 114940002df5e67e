/** outlier_doubleMAD: the skew-aware median-absolute-deviation outlier test
    applied to the end-branch distances of the skeleton. numpy's float
    arithmetic is replaced by exact reals; its division by zero is modelled
    explicitly (a positive number over zero is +inf, zero over zero is nan). */
module Outlier {

  function Abs(x: real): (r: real)
    ensures r >= 0.0 && (r == x || r == -x)
  {
    if x < 0.0 then -x else x
  }

  predicate Sorted(s: seq<real>)
  {
    forall i, j :: 0 <= i < j < |s| ==> s[i] <= s[j]
  }

  /** Insert x into a sorted sequence. */
  function InsertSorted(x: real, s: seq<real>): (r: seq<real>)
    requires Sorted(s)
    ensures |r| == |s| + 1
    ensures forall y :: y in r <==> y in s || y == x
    ensures Sorted(r)
  {
    if s == [] then [x]
    else if x <= s[0] then
      assert forall j :: 0 <= j < |s| ==> x <= s[j] by {
        forall j | 0 <= j < |s| ensures x <= s[j] {
          if j > 0 { assert s[0] <= s[j]; }
        }
      }
      [x] + s
    else
      var tail := InsertSorted(x, s[1..]);
      assert forall j :: 0 <= j < |tail| ==> s[0] <= tail[j] by {
        forall j | 0 <= j < |tail| ensures s[0] <= tail[j] {
          assert tail[j] in tail;
          if tail[j] != x {
            var i :| 0 <= i < |s[1..]| && s[1..][i] == tail[j];
            assert s[0] <= s[i + 1];
          }
        }
      }
      assert forall y :: y in s <==> y == s[0] || y in s[1..] by {
        assert s == [s[0]] + s[1..];
      }
      [s[0]] + tail
  }

  lemma {:induction false} InsertSortedPermutes(x: real, s: seq<real>)
    requires Sorted(s)
    ensures multiset(InsertSorted(x, s)) == multiset(s) + multiset{x}
  {
    if s != [] && !(x <= s[0]) {
      InsertSortedPermutes(x, s[1..]);
      assert s == [s[0]] + s[1..];
    }
  }

  /** The values of s in ascending order (a stand-in for numpy's sort). */
  function SortReals(s: seq<real>): (r: seq<real>)
    ensures |r| == |s|
    ensures forall y :: y in r <==> y in s
    ensures Sorted(r)
  {
    if s == [] then []
    else
      assert forall y :: y in s <==> y == s[0] || y in s[1..] by {
        assert s == [s[0]] + s[1..];
      }
      InsertSorted(s[0], SortReals(s[1..]))
  }

  /** Sorting only reorders the data. */
  lemma {:induction false} SortRealsPermutes(s: seq<real>)
    ensures multiset(SortReals(s)) == multiset(s)
  {
    if s != [] {
      SortRealsPermutes(s[1..]);
      InsertSortedPermutes(s[0], SortReals(s[1..]));
      assert s == [s[0]] + s[1..];
    }
  }

  /** np.median: the middle value of the sorted data, or the mean of the two
      middle values when the length is even. */
  function Median(s: seq<real>): (m: real)
    requires |s| > 0
    ensures SortReals(s)[0] <= m <= SortReals(s)[|s| - 1]
    ensures |s| % 2 == 1 ==> m in s
  {
    var t := SortReals(s);
    var n := |t|;
    if n % 2 == 1 then t[n / 2] else (t[n / 2 - 1] + t[n / 2]) / 2.0
  }

  /** The median lies between the smallest and the largest value. */
  lemma MedianWithin(s: seq<real>)
    requires |s| > 0
    ensures exists i :: 0 <= i < |s| && s[i] <= Median(s)
    ensures exists j :: 0 <= j < |s| && s[j] >= Median(s)
    ensures (forall i :: 0 <= i < |s| ==> s[i] >= 0.0) ==> Median(s) >= 0.0
  {
    var t := SortReals(s);
    var n := |t|;
    assert t[0] <= t[n / 2] && t[n / 2] <= t[n - 1];
    if n % 2 == 0 {
      assert t[0] <= t[n / 2 - 1] && t[n / 2 - 1] <= t[n - 1];
    }
    assert t[0] in t && t[n - 1] in t;
    if forall i :: 0 <= i < |s| ==> s[i] >= 0.0 {
      assert t[0] >= 0.0;
    }
  }

  /** The median of data that are all equal to c is c. */
  lemma MedianOfConstant(s: seq<real>, c: real)
    requires |s| > 0
    requires forall i :: 0 <= i < |s| ==> s[i] == c
    ensures Median(s) == c
  {
    var t := SortReals(s);
    forall j | 0 <= j < |t| ensures t[j] == c {
      assert t[j] in t;
    }
  }

  /** numpy boolean indexing vals[keep]. */
  function Select(vals: seq<real>, keep: seq<bool>): (r: seq<real>)
    requires |keep| == |vals|
    ensures |r| <= |vals|
    ensures (exists i :: 0 <= i < |vals| && keep[i]) ==> |r| > 0
    ensures (forall i :: 0 <= i < |vals| ==> vals[i] >= 0.0) ==> forall j :: 0 <= j < |r| ==> r[j] >= 0.0
  {
    if vals == [] then []
    else
      var tail := Select(vals[1..], keep[1..]);
      assert (exists i :: 0 <= i < |vals| && keep[i]) ==> keep[0] || exists i :: 0 <= i < |vals| - 1 && keep[1..][i] by {
        if exists i :: 0 <= i < |vals| && keep[i] {
          var i :| 0 <= i < |vals| && keep[i];
          if i > 0 { assert keep[1..][i - 1]; }
        }
      }
      (if keep[0] then [vals[0]] else []) + tail
  }

  /** A numpy float64 value as it can arise here. */
  datatype Score = Finite(v: real) | PosInf | NegInf | NaN

  /** numpy float division. */
  function Divide(a: real, b: real): (q: Score)
    ensures q.Finite? <==> b != 0.0
    ensures q.Finite? ==> q.v * b == a
    ensures q == PosInf <==> b == 0.0 && a > 0.0
    ensures q == NaN <==> b == 0.0 && a == 0.0
    ensures a >= 0.0 && b >= 0.0 ==> q != NegInf && (q.Finite? ==> q.v >= 0.0)
  {
    if b != 0.0 then Finite(a / b)
    else if a > 0.0 then PosInf
    else if a < 0.0 then NegInf
    else NaN
  }

  /** numpy's elementwise `score > thresh`. */
  predicate Exceeds(z: Score, thresh: real): (r: bool)
    ensures z == NaN || z == NegInf ==> !r
    ensures z == PosInf ==> r
  {
    match z
    case Finite(v) => v > thresh
    case PosInf => true
    case NegInf => false
    case NaN => false
  }

  /** |data - m| for the median m. */
  function AbsDev(data: seq<real>): (d: seq<real>)
    requires |data| > 0
    ensures |d| == |data|
    ensures forall i :: 0 <= i < |d| ==> d[i] >= 0.0
  {
    var m := Median(data);
    seq(|data|, i requires 0 <= i < |data| => Abs(data[i] - m))
  }

  /** left_mad: median of the deviations of the values at or below the median. */
  function LeftMad(data: seq<real>): (mad: real)
    requires |data| > 0
    ensures mad >= 0.0
  {
    var m := Median(data);
    var keep := seq(|data|, i requires 0 <= i < |data| => data[i] <= m);
    assert exists i :: 0 <= i < |data| && keep[i] by {
      MedianWithin(data);
      var w :| 0 <= w < |data| && data[w] <= m;
      assert keep[w];
    }
    var devs := Select(AbsDev(data), keep);
    MedianWithin(devs);
    Median(devs)
  }

  /** right_mad: median of the deviations of the values at or above the median. */
  function RightMad(data: seq<real>): (mad: real)
    requires |data| > 0
    ensures mad >= 0.0
  {
    var m := Median(data);
    var keep := seq(|data|, i requires 0 <= i < |data| => data[i] >= m);
    assert exists i :: 0 <= i < |data| && keep[i] by {
      MedianWithin(data);
      var w :| 0 <= w < |data| && data[w] >= m;
      assert keep[w];
    }
    var devs := Select(AbsDev(data), keep);
    MedianWithin(devs);
    Median(devs)
  }

  /** modified_z_score: the deviation over the side's MAD, 0 at the median.
      Element by element it is the score of ScoreAt. */
  function ModifiedZScore(data: seq<real>): (z: seq<Score>)
    requires |data| > 0
    ensures |z| == |data|
    ensures forall i :: 0 <= i < |data| ==> z[i] == ScoreAt(data, i)
    ensures forall i :: 0 <= i < |data| && data[i] == Median(data) ==> z[i] == Finite(0.0)
  {
    var m := Median(data);
    var absDev := AbsDev(data);
    var leftMad := LeftMad(data);
    var rightMad := RightMad(data);
    var dataMad := seq(|data|, i requires 0 <= i < |data| => if data[i] > m then rightMad else leftMad);
    var z := seq(|data|, i requires 0 <= i < |data| =>
      if data[i] == m then Finite(0.0) else Divide(0.6745 * absDev[i], dataMad[i]));
    forall i | 0 <= i < |data| ensures z[i] == ScoreAt(data, i) {
      assert dataMad[i] == MadFor(data, i);
    }
    z
  }

  /** No modified z-score is -inf, and every finite one is non-negative. */
  lemma ScoresNonNegative(data: seq<real>)
    requires |data| > 0
    ensures forall i :: 0 <= i < |data| ==>
      ModifiedZScore(data)[i] != NegInf && (ModifiedZScore(data)[i].Finite? ==> ModifiedZScore(data)[i].v >= 0.0)
  {
    var z := ModifiedZScore(data);
    forall i | 0 <= i < |data| ensures z[i] != NegInf && (z[i].Finite? ==> z[i].v >= 0.0) {
      ScoreSign(data[i], Median(data), MadFor(data, i));
    }
  }

  /** modified_z_score > thresh, elementwise. */
  function OutlierDoubleMAD(data: seq<real>, thresh: real): (flags: seq<bool>)
    ensures |flags| == |data|
  {
    if |data| == 0 then []
    else
      var z := ModifiedZScore(data);
      seq(|data|, i requires 0 <= i < |data| => Exceeds(z[i], thresh))
  }

  /** The MAD that scores value i: the left one at or below the median, the
      right one above it. */
  function MadFor(data: seq<real>, i: nat): (mad: real)
    requires i < |data|
    ensures mad >= 0.0
  {
    if data[i] > Median(data) then RightMad(data) else LeftMad(data)
  }

  /** The modified z-score of a value x against median m and side MAD mad,
      0 at the median. */
  function ScoreOf(x: real, m: real, mad: real): Score
  {
    if x == m then Finite(0.0) else Divide(0.6745 * Abs(x - m), mad)
  }

  /** A score against a non-negative MAD is never -inf or negative. */
  lemma ScoreSign(x: real, m: real, mad: real)
    requires mad >= 0.0
    ensures ScoreOf(x, m, mad) != NegInf
    ensures ScoreOf(x, m, mad).Finite? ==> ScoreOf(x, m, mad).v >= 0.0
  {
    assert 0.6745 * Abs(x - m) >= 0.0;
  }

  /** The score of value i before it is compared with the threshold. */
  function ScoreAt(data: seq<real>, i: nat): Score
    requires i < |data|
  {
    ScoreOf(data[i], Median(data), MadFor(data, i))
  }

  lemma FlagIsScore(data: seq<real>, thresh: real, i: nat)
    requires i < |data|
    ensures OutlierDoubleMAD(data, thresh)[i] == Exceeds(ScoreAt(data, i), thresh)
  {
    var z := ModifiedZScore(data);
    assert z[i] == ScoreAt(data, i);
  }

  /** Comparing a quotient with a threshold, without the division. */
  lemma QuotientExceeds(dev: real, mad: real, thresh: real)
    requires mad > 0.0
    ensures dev / mad > thresh <==> dev > thresh * mad
  {
    assert (dev / mad) * mad == dev;
    if dev / mad > thresh {
      assert (dev / mad) * mad > thresh * mad;
    } else {
      assert (dev / mad) * mad <= thresh * mad;
    }
  }

  /** The score test on one value x against median m and side MAD mad. */
  lemma ScoreExceedsIff(x: real, m: real, mad: real, thresh: real)
    requires mad >= 0.0 && thresh >= 0.0
    ensures Exceeds(ScoreOf(x, m, mad), thresh) <==> x != m && 0.6745 * Abs(x - m) > thresh * mad
  {
    var dev := 0.6745 * Abs(x - m);
    if x != m {
      if mad == 0.0 {
        assert dev > 0.0;
      } else {
        QuotientExceeds(dev, mad, thresh);
      }
    }
  }

  /** For a non-negative threshold, a value is flagged exactly when it differs
      from the median and 0.6745 * |x - median| exceeds thresh * MAD; with a
      zero MAD this means every value off the median is flagged (numpy's
      positive / 0 = inf). */
  lemma FlaggedIff(data: seq<real>, thresh: real, i: nat, m: real, mad: real)
    requires thresh >= 0.0 && i < |data| && m == Median(data) && mad == MadFor(data, i)
    ensures OutlierDoubleMAD(data, thresh)[i] <==> data[i] != m && 0.6745 * Abs(data[i] - m) > thresh * mad
  {
    FlagIsScore(data, thresh, i);
    assert ScoreAt(data, i) == ScoreOf(data[i], m, mad);
    ScoreExceedsIff(data[i], m, mad, thresh);
  }

  /** A value equal to the median gets score 0, so it is flagged only if the
      threshold is negative. */
  lemma MedianValueFlaggedOnlyBelowZero(data: seq<real>, thresh: real, i: nat)
    requires i < |data| && data[i] == Median(data)
    ensures OutlierDoubleMAD(data, thresh)[i] <==> thresh < 0.0
  {
    FlagIsScore(data, thresh, i);
  }

  /** Identical data have no outliers for a non-negative threshold. */
  lemma IdenticalDataHasNoOutliers(data: seq<real>, thresh: real)
    requires thresh >= 0.0
    requires forall i, j :: 0 <= i < |data| && 0 <= j < |data| ==> data[i] == data[j]
    ensures forall i :: 0 <= i < |data| ==> !OutlierDoubleMAD(data, thresh)[i]
  {
    if |data| > 0 {
      MedianOfConstant(data, data[0]);
      forall i | 0 <= i < |data| ensures !OutlierDoubleMAD(data, thresh)[i] {
        FlagIsScore(data, thresh, i);
      }
    }
  }
}
