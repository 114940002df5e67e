/** The discrete decisions of color_cluster_seg: the cluster-count clamp, the
    re-ranking of KMeans labels by pixel frequency, the grey-level image built
    from the ranks, and the ranked decision table that turns the connected
    components of the thresholded image into the foreground mask.

    Images are flat, row-major pixel sequences. KMeans, Otsu thresholding,
    clear_border and connectedComponentsWithStats are not modelled: their
    results (labels, component label map, stats, centroids) are inputs. */
module ClusterSeg {
  import opened Common

  /** numClusters = max(2, args_num_clusters). */
  function NumClusters(requested: int): (k: int)
    ensures k >= 2
    ensures requested >= 2 ==> k == requested
    ensures requested < 2 ==> k == 2
  {
    if requested < 2 then 2 else requested
  }

  /** np.array(pred_label, dtype=np.uint8): each KMeans label cast to 8 bits. */
  function Clustering(predicted: seq<nat>): (c: seq<int>)
    ensures |c| == |predicted|
    ensures forall p :: 0 <= p < |c| ==> 0 <= c[p] < 256 && c[p] <= predicted[p]
    ensures forall p :: 0 <= p < |c| && predicted[p] < 256 ==> c[p] == predicted[p]
  {
    seq(|predicted|, p requires 0 <= p < |predicted| => predicted[p] % 256)
  }

  // ---------------------------------------------------------------------
  // Ranking the cluster labels

  /** Label a comes before label b in sortedLabels: Python's stable sort of
      range(k) on the key -count puts larger counts first and keeps equal
      counts in ascending label order. */
  predicate RankedBefore(clustering: seq<int>, a: int, b: int)
  {
    Occurrences(clustering, a) > Occurrences(clustering, b)
    || (Occurrences(clustering, a) == Occurrences(clustering, b) && a < b)
  }

  predicate Ranked(clustering: seq<int>, s: seq<int>)
  {
    forall i, j :: 0 <= i < j < |s| ==> RankedBefore(clustering, s[i], s[j])
  }

  /** Insert x into a ranked sequence that does not hold it yet. */
  function Insert(clustering: seq<int>, x: int, s: seq<int>): (r: seq<int>)
    requires Ranked(clustering, s) && x !in s
    ensures |r| == |s| + 1
    ensures forall y :: y in r <==> y in s || y == x
    ensures Ranked(clustering, r)
  {
    if s == [] then [x]
    else if RankedBefore(clustering, x, s[0]) then
      assert forall j :: 0 <= j < |s| ==> RankedBefore(clustering, x, s[j]) by {
        forall j | 0 <= j < |s| ensures RankedBefore(clustering, x, s[j]) {
          if j > 0 { assert RankedBefore(clustering, s[0], s[j]); }
        }
      }
      [x] + s
    else
      var tail := Insert(clustering, x, s[1..]);
      assert RankedBefore(clustering, s[0], x);
      assert forall j :: 0 <= j < |tail| ==> RankedBefore(clustering, s[0], tail[j]) by {
        forall j | 0 <= j < |tail| ensures RankedBefore(clustering, s[0], tail[j]) {
          assert tail[j] in tail;
          if tail[j] != x {
            var i :| 0 <= i < |s[1..]| && s[1..][i] == tail[j];
            assert RankedBefore(clustering, s[0], s[i + 1]);
          }
        }
      }
      assert forall y :: y in s <==> y == s[0] || y in s[1..] by {
        assert s == [s[0]] + s[1..];
      }
      [s[0]] + tail
  }

  /** sortedLabels: the labels 0..k-1 ordered by descending pixel count,
      ties in ascending label order. */
  function RankLabels(clustering: seq<int>, k: nat): (r: seq<int>)
    ensures |r| == k
    ensures forall x :: x in r <==> 0 <= x < k
    ensures Ranked(clustering, r)
  {
    if k == 0 then []
    else
      var prefix := RankLabels(clustering, k - 1);
      Insert(clustering, k - 1, prefix)
  }

  /** A ranked sequence has no repeated label. */
  lemma {:induction false} RankedDistinct(clustering: seq<int>, s: seq<int>, i: nat, j: nat)
    requires Ranked(clustering, s)
    requires i < |s| && j < |s| && s[i] == s[j]
    ensures i == j
  {
  }

  // ---------------------------------------------------------------------
  // The grey-level image

  /** int(255 / (numClusters - 1)) * rank: for a positive divisor Python's
      truncation of the quotient is Dafny's floor division. */
  function Intensity(k: int, rank: int): (level: int)
    requires k >= 2
    ensures 0 <= rank < k ==> 0 <= level <= 255
  {
    StepFacts(k);
    MultiplyMonotone(255 / (k - 1), 0, if 0 <= rank < k then rank else 0);
    MultiplyMonotone(255 / (k - 1), if 0 <= rank < k then rank else 0, k - 1);
    (255 / (k - 1)) * rank
  }

  /** Rank 0 is black, ranks are painted with non-decreasing levels that never
      exceed 255, and the levels are pairwise distinct exactly when at most
      256 clusters are used (beyond that every rank is painted 0). */
  lemma IntensityRange(k: int, a: int, b: int)
    requires k >= 2 && 0 <= a <= b < k
    ensures Intensity(k, 0) == 0
    ensures 0 <= Intensity(k, a) <= Intensity(k, b) <= 255
    ensures a < b ==> (Intensity(k, a) < Intensity(k, b) <==> k <= 256)
  {
    var q := 255 / (k - 1);
    StepFacts(k);
    MultiplyMonotone(q, a, b);
    MultiplyMonotone(q, b, k - 1);
    if a < b && k <= 256 {
      assert q * b - q * a == q * (b - a);
    }
  }

  /** The step 255 / (k - 1) between consecutive ranks: the top rank stays
      within 255, and the step is positive exactly when k <= 256. */
  lemma StepFacts(k: int)
    requires k >= 2
    ensures 0 <= 255 / (k - 1) && (255 / (k - 1)) * (k - 1) <= 255
    ensures 255 / (k - 1) >= 1 <==> k <= 256
  {
  }

  lemma MultiplyMonotone(q: int, a: int, b: int)
    requires 0 <= q && a <= b
    ensures q * a <= q * b
  {
    assert q * b - q * a == q * (b - a);
  }

  /** Grey level of a pixel of cluster v after the loop has painted the ranks
      of `ranked`, later ranks overwriting earlier ones; 0 (np.zeros) when no
      rank matches. */
  function Painted(k: int, ranked: seq<int>, v: int): int
    requires k >= 2
  {
    if ranked == [] then 0
    else if ranked[|ranked| - 1] == v then Intensity(k, |ranked| - 1)
    else Painted(k, ranked[..|ranked| - 1], v)
  }

  /** kmeansImage: for i, label in enumerate(sortedLabels), every pixel of
      that cluster is set to the grey level of rank i. */
  method KmeansImage(clustering: seq<int>, ranked: seq<int>, k: int) returns (image: seq<int>)
    requires k >= 2
    ensures |image| == |clustering|
    ensures forall p :: 0 <= p < |clustering| ==> image[p] == Painted(k, ranked, clustering[p])
  {
    var img := new int[|clustering|](_ => 0);
    for i := 0 to |ranked|
      invariant forall p :: 0 <= p < img.Length ==> img[p] == Painted(k, ranked[..i], clustering[p])
    {
      var cluster := ranked[i];
      var level := Intensity(k, i);
      assert ranked[..i + 1][..i] == ranked[..i];
      for p := 0 to img.Length
        invariant forall q :: 0 <= q < p ==> img[q] == Painted(k, ranked[..i + 1], clustering[q])
        invariant forall q :: p <= q < img.Length ==> img[q] == Painted(k, ranked[..i], clustering[q])
      {
        if clustering[p] == cluster {
          img[p] := level;
        }
      }
    }
    assert ranked[..|ranked|] == ranked;
    image := img[..];
  }

  /** With distinct ranks, a pixel's level is the level of its cluster's rank. */
  lemma {:induction false} PaintedIsRankLevel(clustering: seq<int>, k: int, ranked: seq<int>, j: nat)
    requires k >= 2 && Ranked(clustering, ranked) && j < |ranked|
    ensures Painted(k, ranked, ranked[j]) == Intensity(k, j)
  {
    var n := |ranked|;
    if ranked[n - 1] == ranked[j] {
      RankedDistinct(clustering, ranked, j, n - 1);
    } else {
      var prefix := ranked[..n - 1];
      assert Ranked(clustering, prefix);
      assert prefix[j] == ranked[j];
      PaintedIsRankLevel(clustering, k, prefix, j);
    }
  }

  /** The grey image built from sortedLabels: the most frequent cluster is
      painted 0, every pixel of a cluster is painted the level of that
      cluster's frequency rank, levels stay within 0..255, and a more
      frequent cluster is never painted brighter than a less frequent one. */
  lemma RankedImageLevels(clustering: seq<int>, k: int, a: int, b: int)
    requires k >= 2 && 0 <= a < k && 0 <= b < k
    ensures var ranked := RankLabels(clustering, k);
      && (forall x :: 0 <= x < k ==> Occurrences(clustering, ranked[0]) >= Occurrences(clustering, x))
      && Painted(k, ranked, ranked[0]) == 0
      && (exists j :: 0 <= j < k && ranked[j] == a && Painted(k, ranked, a) == Intensity(k, j))
      && 0 <= Painted(k, ranked, a) <= 255
      && (RankedBefore(clustering, a, b) ==> Painted(k, ranked, a) <= Painted(k, ranked, b))
  {
    var ranked := RankLabels(clustering, k);
    assert a in ranked && b in ranked;
    var ja :| 0 <= ja < k && ranked[ja] == a;
    var jb :| 0 <= jb < k && ranked[jb] == b;
    PaintedIsRankLevel(clustering, k, ranked, ja);
    PaintedIsRankLevel(clustering, k, ranked, jb);
    PaintedIsRankLevel(clustering, k, ranked, 0);
    IntensityRange(k, 0, ja);
    forall x | 0 <= x < k
      ensures Occurrences(clustering, ranked[0]) >= Occurrences(clustering, x)
    {
      assert x in ranked;
      var jx :| 0 <= jx < k && ranked[jx] == x;
      if jx > 0 {
        assert RankedBefore(clustering, ranked[0], ranked[jx]);
      }
    }
    if RankedBefore(clustering, a, b) {
      if jb < ja {
        assert false;
      }
      IntensityRange(k, ja, jb);
    }
  }

  /** A cluster outside 0..k-1 is never painted and stays 0. */
  lemma {:induction false} PaintedUnranked(k: int, ranked: seq<int>, v: int)
    requires k >= 2 && v !in ranked
    ensures Painted(k, ranked, v) == 0
  {
    if ranked != [] {
      assert ranked[..|ranked| - 1] <= ranked;
      PaintedUnranked(k, ranked[..|ranked| - 1], v);
    }
  }

  /** Lines numClusters .. kmeansImage of color_cluster_seg, from the KMeans
      labels: every pixel gets a grey level within 0..255, a pixel of the most
      frequent cluster is black, a pixel whose label survives the uint8 cast
      gets the level of its cluster's rank, and a pixel of a more frequent
      cluster is never brighter than one of a less frequent cluster. */
  method KmeansGrey(predicted: seq<nat>, requested: int) returns (k: int, image: seq<int>)
    ensures k == NumClusters(requested)
    ensures |image| == |predicted|
    ensures forall p :: 0 <= p < |image| ==> 0 <= image[p] <= 255
    ensures forall p :: 0 <= p < |image| && Clustering(predicted)[p] == RankLabels(Clustering(predicted), k)[0] ==>
      image[p] == 0
    ensures forall p :: 0 <= p < |image| && predicted[p] < 256 && predicted[p] < k ==>
      exists j :: 0 <= j < k && RankLabels(Clustering(predicted), k)[j] == predicted[p] && image[p] == Intensity(k, j)
    ensures forall p, q ::
      (0 <= p < |image| && 0 <= q < |image| && Clustering(predicted)[p] < k && Clustering(predicted)[q] < k &&
       RankedBefore(Clustering(predicted), Clustering(predicted)[p], Clustering(predicted)[q]))
      ==> image[p] <= image[q]
  {
    k := NumClusters(requested);
    var clustering := Clustering(predicted);
    var ranked := RankLabels(clustering, k);
    image := KmeansImage(clustering, ranked, k);
    forall p | 0 <= p < |image|
      ensures 0 <= image[p] <= 255
      ensures clustering[p] == ranked[0] ==> image[p] == 0
      ensures predicted[p] < 256 && predicted[p] < k ==> exists j :: 0 <= j < k && ranked[j] == predicted[p] && image[p] == Intensity(k, j)
    {
      if 0 <= clustering[p] < k {
        RankedImageLevels(clustering, k, clustering[p], clustering[p]);
      } else {
        PaintedUnranked(k, ranked, clustering[p]);
      }
      if clustering[p] == ranked[0] {
        RankedImageLevels(clustering, k, ranked[0], ranked[0]);
      }
    }
    forall p, q | 0 <= p < |image| && 0 <= q < |image| && clustering[p] < k && clustering[q] < k &&
      RankedBefore(clustering, clustering[p], clustering[q])
      ensures image[p] <= image[q]
    {
      RankedImageLevels(clustering, k, clustering[p], clustering[q]);
    }
  }

  // ---------------------------------------------------------------------
  // The component filter

  /** One row of connectedComponentsWithStats' stats array. */
  datatype ComponentStats = ComponentStats(left: int, top: int, width: int, height: int, area: int)

  datatype Centroid = Centroid(x: real, y: real)

  /** The rows of the decision table, in priority order. */
  datatype Rule =
    | TooSmall     // area below min_size: nothing is drawn
    | Centred      // near the image centre: the component itself
    | LargestBlob  // otherwise plausible: the largest component instead
    | Kept         // default: the component itself

  const MinSize: int := 1000

  /** sizes = stats[1:, CC_STAT_AREA]. */
  function Sizes(stats: seq<ComponentStats>): (sizes: seq<int>)
    requires |stats| >= 1
    ensures |sizes| == |stats| - 1
    ensures forall i :: 0 <= i < |sizes| ==> sizes[i] == stats[i + 1].area
  {
    seq(|stats| - 1, i requires 0 <= i < |stats| - 1 => stats[i + 1].area)
  }

  /** max(enumerate(sizes), key=size)[0]: the first position of a maximal size. */
  function FirstMaxIndex(sizes: seq<int>): (m: nat)
    requires |sizes| > 0
    ensures m < |sizes|
    ensures forall j :: 0 <= j < |sizes| ==> sizes[j] <= sizes[m]
    ensures forall j :: 0 <= j < m ==> sizes[j] < sizes[m]
  {
    if |sizes| == 1 then 0
    else
      var m := FirstMaxIndex(sizes[..|sizes| - 1]);
      if sizes[|sizes| - 1] > sizes[m] then |sizes| - 1 else m
  }

  predicate WellFormed(stats: seq<ComponentStats>, centroids: seq<Centroid>)
  {
    |stats| >= 1 && |centroids| == |stats|
  }

  /** The decision for loop index i, i.e. for component label i + 1. `rows`
      and `cols` are image.shape[0] and image.shape[1], which the source
      calls width and height. The stats are read one row past the background
      row (stats[1:]) but the centroid is read at row i, the centroid of
      component i, not of component i + 1. */
  function Classify(stats: seq<ComponentStats>, centroids: seq<Centroid>, rows: int, cols: int, i: nat): (rule: Rule)
    requires WellFormed(stats, centroids) && i < |stats| - 1
    ensures rule == TooSmall <==> stats[i + 1].area < MinSize
    ensures rule == Centred ==> stats[i + 1].left > 1 && stats[i + 1].top > 1
    ensures rule == LargestBlob ==> stats[i + 1].area as real <= (rows * cols) as real * 0.1
    ensures rule == Kept ==> stats[i + 1].area >= MinSize
  {
    var s := stats[i + 1];
    var c := centroids[i];
    var halfRows := rows as real * 0.5;
    var halfCols := cols as real * 0.5;
    if s.area < MinSize then TooSmall
    else if s.left > 1 && s.top > 1 && s.width - s.left > 0 && s.height - s.top > 0
         && c.x - halfRows < 10.0 && c.y - halfCols < 10.0 then Centred
    else if (s.width - s.left) as real * 0.5 - rows as real < 15.0
         && c.x - halfRows < 15.0 && c.y - halfCols < 15.0
         && s.area as real <= (rows * cols) as real * 0.1 then LargestBlob
    else Kept
  }

  /** The component label the decision for loop index i paints 255. */
  function MarkedLabel(stats: seq<ComponentStats>, centroids: seq<Centroid>, rows: int, cols: int, i: nat): (component: int)
    requires WellFormed(stats, centroids) && i < |stats| - 1
    requires Classify(stats, centroids, rows, cols, i) != TooSmall
    ensures 1 <= component < |stats|
    ensures stats[component].area >= stats[i + 1].area >= MinSize
    ensures Classify(stats, centroids, rows, cols, i) == LargestBlob ==>
      forall j :: 1 <= j < component ==> stats[j].area < stats[component].area
  {
    match Classify(stats, centroids, rows, cols, i)
    case LargestBlob =>
      var sizes := Sizes(stats);
      var m := FirstMaxIndex(sizes);
      assert sizes[i] <= sizes[m];
      assert forall j :: 1 <= j < m + 1 ==> stats[j].area < stats[m + 1].area by {
        forall j | 1 <= j < m + 1 ensures stats[j].area < stats[m + 1].area {
          assert sizes[j - 1] == stats[j].area;
        }
      }
      m + 1
    case _ => i + 1
  }

  /** The labels painted by the first m iterations of the filter loop. */
  function Marked(stats: seq<ComponentStats>, centroids: seq<Centroid>, rows: int, cols: int, m: nat): set<int>
    requires WellFormed(stats, centroids) && m <= |stats| - 1
  {
    if m == 0 then {}
    else
      Marked(stats, centroids, rows, cols, m - 1)
      + (if Classify(stats, centroids, rows, cols, m - 1) == TooSmall then {}
         else {MarkedLabel(stats, centroids, rows, cols, m - 1)})
  }

  /** Every painted label is a real component (never the background label 0)
      of area at least min_size, and nothing is painted exactly when no
      component reaches min_size. */
  lemma {:induction false} MarkedLabels(stats: seq<ComponentStats>, centroids: seq<Centroid>, rows: int, cols: int, m: nat)
    requires WellFormed(stats, centroids) && m <= |stats| - 1
    ensures forall l :: l in Marked(stats, centroids, rows, cols, m) ==> 1 <= l < |stats| && stats[l].area >= MinSize
    ensures Marked(stats, centroids, rows, cols, m) == {} <==> forall i :: 1 <= i <= m ==> stats[i].area < MinSize
  {
    if m > 0 {
      MarkedLabels(stats, centroids, rows, cols, m - 1);
      if Classify(stats, centroids, rows, cols, m - 1) != TooSmall {
        assert MarkedLabel(stats, centroids, rows, cols, m - 1) in Marked(stats, centroids, rows, cols, m);
      }
    }
  }

  /** img_thresh[output == component] = 255. */
  method Paint(img: array<int>, output: seq<int>, component: int)
    requires img.Length == |output|
    modifies img
    ensures forall p :: 0 <= p < img.Length ==> img[p] == if output[p] == component then 255 else old(img[p])
  {
    for p := 0 to img.Length
      invariant forall q :: 0 <= q < p ==> img[q] == if output[q] == component then 255 else old(img[q])
      invariant forall q :: p <= q < img.Length ==> img[q] == old(img[q])
    {
      if output[p] == component {
        img[p] := 255;
      }
    }
  }

  /** The foreground mask img_thresh built from the connected components:
      `output` is the component label map, stats and centroids have one row
      per label, row 0 being the background. */
  method FilterComponents(output: seq<int>, stats: seq<ComponentStats>, centroids: seq<Centroid>, rows: int, cols: int)
    returns (mask: seq<int>)
    requires WellFormed(stats, centroids)
    ensures |mask| == |output|
    ensures forall p :: 0 <= p < |output| ==>
      mask[p] == if output[p] in Marked(stats, centroids, rows, cols, |stats| - 1) then 255 else 0
    ensures forall p :: 0 <= p < |output| ==> mask[p] == 0 || mask[p] == 255
    ensures forall p :: 0 <= p < |output| && mask[p] == 255 ==>
      1 <= output[p] < |stats| && stats[output[p]].area >= MinSize
    ensures (forall j :: 1 <= j < |stats| ==> stats[j].area < MinSize) ==>
      forall p :: 0 <= p < |output| ==> mask[p] == 0
  {
    var img := new int[|output|](_ => 0);
    var nb := |stats| - 1;
    for i := 0 to nb
      invariant forall p :: 0 <= p < img.Length ==>
        img[p] == if output[p] in Marked(stats, centroids, rows, cols, i) then 255 else 0
    {
      var rule := Classify(stats, centroids, rows, cols, i);
      if rule != TooSmall {
        var component := MarkedLabel(stats, centroids, rows, cols, i);
        Paint(img, output, component);
      }
    }
    mask := img[..];
    MarkedLabels(stats, centroids, rows, cols, nb);
  }
}
