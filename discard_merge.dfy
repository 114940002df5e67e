/** check_discard_merge: walk the images in timestamp order, remembering in
    left the first dark image since the last reset and in right the latest
    dark one. When a bright image arrives while left != right, images
    left..right (bright ones between them included) are replaced by weighted
    blends of image left - 1 (the last image when left is 0) and image
    right + 1, and left and right are reset; a lone dark image and a trailing
    run of dark images are left alone. The luminosity test, the file reads and
    writes and cv2.addWeighted are not modelled: the input is the dark flag of
    each image in timestamp order, and the output lists each blend that would
    be written (which image it replaces, from which two images, with which
    weights). */
module DiscardMerge {
  import opened Common

  /** One cv2.addWeighted(prev, prevWeight, next, nextWeight, 0) written over
      image target; images are positions in timestamp order. */
  datatype Blend = Blend(target: nat, prev: nat, next: nat, prevWeight: real, nextWeight: real)

  /** The loop variables of check_discard_merge (i is the number of images
      already visited). */
  datatype MergeState = MergeState(left: Option<nat>, right: Option<nat>, replaced: nat, anyDark: bool, blends: seq<Blend>)

  const Initial: MergeState := MergeState(None, None, 0, false, [])

  /** sorted_options[left - 1]: Python wraps index -1 round to the last image. */
  function PrevIndex(left: nat, n: nat): (p: nat)
    requires n > 0 && left < n
    ensures p < n
  {
    if left == 0 then n - 1 else left - 1
  }

  /** The weight of the image before the run for the ii-th image counted from
      the right end of a run of width images. */
  function PrevWeight(ii: nat, width: nat): real
    requires width > 0
  {
    (ii + 1) as real / width as real
  }

  /** next_weight as the source derives it from prev_weight. */
  function NextWeight(prevWeight: real, width: nat): real
    requires width > 0
  {
    (1.0 - prevWeight) * ((width - 1) as real / width as real) + 1.0 / width as real
  }

  /** The blends written for the run left..right, from its right end back. */
  function RunBlends(left: nat, right: nat, n: nat): (r: seq<Blend>)
    requires left < right < n
    ensures |r| == right - left + 1
  {
    var width := right - left + 1;
    seq(width, ii requires 0 <= ii < width =>
      Blend(right - ii, PrevIndex(left, n), right + 1, PrevWeight(ii, width), NextWeight(PrevWeight(ii, width), width)))
  }

  /** The states the loop can be in after visiting k images: left and right
      are set together, left <= right < k, image right is dark, and a run of
      more than one image is still open only if it ends at the last image
      visited. */
  predicate Reachable(st: MergeState, dark: seq<bool>, k: nat)
  {
    k <= |dark| &&
    (st.left.Some? <==> st.right.Some?) &&
    (st.left.Some? ==> st.left.value <= st.right.value < k && dark[st.right.value]) &&
    (st.left.Some? && st.left != st.right ==> st.right.value == k - 1)
  }

  /** One iteration of the loop, for image i: a dark image extends the open
      range, a bright one closes a range of several images by writing its
      blends, and otherwise nothing changes. */
  function Step(st: MergeState, dark: seq<bool>, i: nat): (r: MergeState)
    requires i < |dark| && Reachable(st, dark, i)
    ensures Reachable(r, dark, i + 1)
    ensures r.anyDark == (st.anyDark || dark[i])
    ensures |r.blends| - |st.blends| == r.replaced - st.replaced >= 0
    ensures dark[i] ==> r.right == Some(i) && r.blends == st.blends
    ensures !dark[i] ==> r.left.None? || r == st
  {
    if dark[i] then
      st.(left := if st.left.None? then Some(i) else st.left, right := Some(i), anyDark := true)
    else if st.left.Some? && st.left != st.right then
      var left := st.left.value;
      var right := st.right.value;
      st.(left := None, right := None, replaced := st.replaced + (right - left + 1),
          blends := st.blends + RunBlends(left, right, |dark|))
    else st
  }

  /** The state after the first k images. */
  function Run(dark: seq<bool>, k: nat): (st: MergeState)
    requires k <= |dark|
    ensures Reachable(st, dark, k)
  {
    if k == 0 then Initial else Step(Run(dark, k - 1), dark, k - 1)
  }

  /** The source's weight formula equals (ii + 1) / width. */
  lemma SourceWeight(ii: nat, left: nat, right: nat)
    requires left < right
    ensures var width := right - left + 1;
      (ii as real / (right - left) as real) * ((width - 1) as real / width as real) + 1.0 / width as real
        == PrevWeight(ii, width)
  {
    var width := right - left + 1;
    var d := (right - left) as real;
    var w := width as real;
    assert (width - 1) as real == d;
    assert (ii as real / d) * (d / w) == ii as real / w;
  }

  /** The inner loop over reversed(sorted_options[left:right + 1]): the
      blends for the run left..right with the source's weight formula. */
  method WriteBlends(left: nat, right: nat, n: nat) returns (blends: seq<Blend>)
    requires left < right < n
    ensures blends == RunBlends(left, right, n)
  {
    var prev := PrevIndex(left, n);
    var next := right + 1;
    var width := right - left + 1;
    var offset := 1.0 / width as real;
    blends := [];
    var ii := 0;
    while ii < width
      invariant 0 <= ii <= width
      invariant blends == RunBlends(left, right, n)[..ii]
    {
      var prevWeight := (ii as real / (right - left) as real) * ((width - 1) as real / width as real) + offset;
      SourceWeight(ii, left, right);
      assert prevWeight == PrevWeight(ii, width);
      var nextWeight := (1.0 - prevWeight) * ((width - 1) as real / width as real) + offset;
      assert nextWeight == NextWeight(PrevWeight(ii, width), width);
      assert RunBlends(left, right, n)[ii] == Blend(right - ii, prev, next, prevWeight, nextWeight);
      assert RunBlends(left, right, n)[..ii + 1] ==
        RunBlends(left, right, n)[..ii] + [Blend(right - ii, prev, next, prevWeight, nextWeight)];
      blends := blends + [Blend(right - ii, prev, next, prevWeight, nextWeight)];
      ii := ii + 1;
    }
    assert RunBlends(left, right, n)[..width] == RunBlends(left, right, n);
  }

  /** The loop of check_discard_merge: returns any_dark, and the replaced
      count and the blends written. */
  method CheckDiscardMerge(dark: seq<bool>) returns (anyDark: bool, replaced: nat, blends: seq<Blend>)
    ensures anyDark == Run(dark, |dark|).anyDark
    ensures replaced == Run(dark, |dark|).replaced
    ensures blends == Run(dark, |dark|).blends
  {
    var left: Option<nat> := None;
    var right: Option<nat> := None;
    replaced := 0;
    anyDark := false;
    blends := [];
    var i := 0;
    while i < |dark|
      invariant 0 <= i <= |dark|
      invariant Run(dark, i) == MergeState(left, right, replaced, anyDark, blends)
    {
      if dark[i] {
        if left.None? {
          left := Some(i);
        }
        right := Some(i);
        anyDark := true;
      } else if left.Some? && left != right {
        var width := right.value - left.value + 1;
        var written := WriteBlends(left.value, right.value, |dark|);
        blends := blends + written;
        left := None;
        right := None;
        replaced := replaced + width;
      }
      i := i + 1;
    }
  }

  /** any_dark is true exactly when some image is dark. */
  lemma {:induction false} AnyDarkIff(dark: seq<bool>, k: nat)
    requires k <= |dark|
    ensures Run(dark, k).anyDark <==> exists j :: 0 <= j < k && dark[j]
  {
    if k > 0 {
      AnyDarkIff(dark, k - 1);
    }
  }

  /** replaced counts one per blend written. */
  lemma {:induction false} ReplacedCountsBlends(dark: seq<bool>, k: nat)
    requires k <= |dark|
    ensures Run(dark, k).replaced == |Run(dark, k).blends|
  {
    if k > 0 {
      ReplacedCountsBlends(dark, k - 1);
    }
  }

  /** What every blend looks like: it replaces an image before a bright one,
      blends towards that bright image and a valid previous image, with a
      prev weight in (0, 1]. */
  predicate WellFormedBlend(b: Blend, dark: seq<bool>, k: nat)
  {
    b.target < b.next < k && k <= |dark| && !dark[b.next] && b.prev < |dark| &&
    0.0 < b.prevWeight <= 1.0
  }

  lemma RunBlendsWellFormed(left: nat, right: nat, dark: seq<bool>, i: nat)
    requires left < right && i == right + 1 && i < |dark| && !dark[i]
    ensures forall j :: 0 <= j < right - left + 1 ==> WellFormedBlend(RunBlends(left, right, |dark|)[j], dark, i + 1)
  {
    var width := right - left + 1;
    forall j | 0 <= j < width ensures WellFormedBlend(RunBlends(left, right, |dark|)[j], dark, i + 1) {
      PrevWeightInUnit(j, width);
    }
  }

  /** The prev weight (ii + 1) / width lies in (0, 1] inside the run. */
  lemma PrevWeightInUnit(ii: nat, width: nat)
    requires ii < width
    ensures 0.0 < PrevWeight(ii, width) <= 1.0
  {
    var q := PrevWeight(ii, width);
    assert q * width as real == (ii + 1) as real;
  }

  /** Every blend written so far is well formed. */
  lemma {:induction false} BlendsWellFormed(dark: seq<bool>, k: nat)
    requires k <= |dark|
    ensures forall j :: 0 <= j < |Run(dark, k).blends| ==> WellFormedBlend(Run(dark, k).blends[j], dark, k)
  {
    if k > 0 {
      BlendsWellFormed(dark, k - 1);
      var st := Run(dark, k - 1);
      if !dark[k - 1] && st.left.Some? && st.left != st.right {
        RunBlendsWellFormed(st.left.value, st.right.value, dark, k - 1);
      }
    }
  }

  /** While a run is open, every image after its right end is bright, so a bright
      image arriving with the run open is the one right after it. */
  lemma {:induction false} RunAllDark(dark: seq<bool>, k: nat)
    requires k <= |dark|
    ensures Run(dark, k).right.Some? ==> forall j :: Run(dark, k).right.value < j < k ==> !dark[j]
  {
    if k > 0 {
      RunAllDark(dark, k - 1);
    }
  }

  /** A trailing run of dark images is never blended: every blend replaces an
      image before the last bright one. */
  lemma TrailingDarkNeverBlended(dark: seq<bool>, m: nat)
    requires m <= |dark|
    requires forall j :: m <= j < |dark| ==> dark[j]
    ensures forall b :: b in Run(dark, |dark|).blends ==> b.target < m
  {
    BlendsWellFormed(dark, |dark|);
    forall b | b in Run(dark, |dark|).blends ensures b.target < m {
      var j :| 0 <= j < |Run(dark, |dark|).blends| && Run(dark, |dark|).blends[j] == b;
      assert WellFormedBlend(b, dark, |dark|);
    }
  }

  /** With at most one dark image nothing is blended: a run of one image is
      left alone. */
  lemma {:induction false} LoneDarkNeverBlended(dark: seq<bool>, k: nat)
    requires k <= |dark|
    requires forall i, j :: 0 <= i < |dark| && 0 <= j < |dark| && dark[i] && dark[j] ==> i == j
    ensures Run(dark, k).blends == [] && Run(dark, k).replaced == 0
    ensures Run(dark, k).left.Some? ==> Run(dark, k).left == Run(dark, k).right
  {
    if k > 0 {
      LoneDarkNeverBlended(dark, k - 1);
      var st := Run(dark, k - 1);
      if dark[k - 1] {
        assert forall j :: 0 <= j < k - 1 ==> !dark[j];
      }
    }
  }

  /** The lone-dark quirk: after a single dark image and a bright one, left
      is not reset, so the next dark image opens a run from the first one
      that takes in the bright image between them; and with left = 0 the
      "previous" image is the last one. */
  lemma LoneDarkExample()
    ensures Run([true, false, true, false], 4).blends == [
      Blend(2, 3, 3, 1.0 / 3.0, (1.0 - 1.0 / 3.0) * (2.0 / 3.0) + 1.0 / 3.0),
      Blend(1, 3, 3, 2.0 / 3.0, (1.0 - 2.0 / 3.0) * (2.0 / 3.0) + 1.0 / 3.0),
      Blend(0, 3, 3, 1.0, (1.0 - 1.0) * (2.0 / 3.0) + 1.0 / 3.0)]
    ensures Run([true, false, true, false], 4).replaced == 3
  {
    var dark := [true, false, true, false];
    assert Run(dark, 1) == MergeState(Some(0), Some(0), 0, true, []);
    assert Run(dark, 2) == MergeState(Some(0), Some(0), 0, true, []);
    assert Run(dark, 3) == MergeState(Some(0), Some(2), 0, true, []);
    var b := RunBlends(0, 2, 4);
    assert b[0] == Blend(2, 3, 3, 1.0 / 3.0, (1.0 - 1.0 / 3.0) * (2.0 / 3.0) + 1.0 / 3.0);
    assert b[1] == Blend(1, 3, 3, 2.0 / 3.0, (1.0 - 2.0 / 3.0) * (2.0 / 3.0) + 1.0 / 3.0);
    assert b[2] == Blend(0, 3, 3, 1.0, (1.0 - 1.0) * (2.0 / 3.0) + 1.0 / 3.0);
  }
}
