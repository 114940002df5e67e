# Plant shoot trait extraction: a Dafny model of its decision logic

The trait extractor reads one photograph of a plant shoot and reports its leaf
area, solidity, width, height, average curvature and leaf count, or a failed
result when a stage raises. This project models the parts of
`core/trait_extract_parallel.py` that make decisions, as opposed to calling an
image library. Everything the libraries compute is an input to the model:
KMeans and `cv2.kmeans` labels and centres, connected components and their
statistics, contours and their areas, ellipse and circle fits, watershed labels
and the luminosity test.

The model covers these parts:

* `color_cluster_seg`. The cluster count is clamped to at least 2. The KMeans
  labels are ranked by pixel frequency. A grey-level image is painted from the
  ranks. A decision table over the connected components turns them into the
  foreground mask. (`ClusterSeg`, in `cluster_seg.dfy`.)
* `outlier_doubleMAD`. This is the double-MAD outlier test. The median is exact
  and numpy float division by zero is modelled as `inf` or `nan`. (`Outlier`.)
* `compute_curv`. Only the aggregation of per-label fit outcomes into
  `curv_sum / count` is modelled, including the `count = 1.0` fallback and the
  `UnboundLocalError` raised when there is no foreground label. (`Curvature`.)
* `comp_external_contour`. The 1%-of-image rule selects the contour. The
  error cases are a zero hull area and no qualifying contour. (`ExternalContour`.)
* `RGB2HEX` and `color_region` from the k-means result onward. This covers
  counting per cluster, the two comprehensions that index by key, and removing
  the background (pure black) colour. (`ColorRegion`.)
* `check_discard_merge`. This is the left/right state machine. `left` is the
  first dark image since the last reset and `right` the latest dark one. When a
  bright image arrives while `left != right`, images `left..right` are replaced
  by weighted blends of image `left - 1` (the last image when `left` is 0) and
  image `right + 1`. Then `left` and `right` are reset. A lone dark image and a
  trailing run of dark images are left alone. (`DiscardMerge`.)
* `trait_extract`. The stages are composed, a raised exception becomes a failed
  result, and `n_leaves` is computed. (`TraitPipeline`.)

Shared types live in `common.dfy` (`Common`). Python exceptions become the
`Err` half of a `Result`. `sorted(Counter(...))` and `np.unique` become
`SortedDistinct`. Images are flat, row-major pixel sequences.

Three behaviours of the code are worth knowing before reading the model:

* `count` is incremented before the circle fit (line 532, before line 538).
  A circle fit that raises is still counted and adds 0 to `curv_sum`.
* The width and height returned by `comp_external_contour` are the `w, h` of
  the last contour of all (line 404, returned at line 490), whether or not that
  contour qualifies.
* When no contour qualifies, the failure is an `UnboundLocalError` from reading
  the unassigned `trait_img`, and `trait_extract` catches it.

## Model

| member | source | states |
|---|---|---|
| ClusterSeg.NumClusters | core/trait_extract_parallel.py:177 | the cluster count is at least 2; a request of 2 or more is kept and a smaller one becomes 2 |
| ClusterSeg.Clustering | core/trait_extract_parallel.py:186 | the uint8 cast keeps one label per pixel, every label lies in 0..255, and labels below 256 are unchanged |
| Common.SortedDistinct | core/trait_extract_parallel.py:502 | np.unique and sorted(Counter(...)) give strictly increasing keys, which are exactly the values present |
| ClusterSeg.RankLabels | core/trait_extract_parallel.py:189 | sortedLabels holds each label 0..k-1 exactly once, ordered by strictly descending pixel count, with equal counts in ascending label order (the stable sort) |
| ClusterSeg.RankedDistinct | core/trait_extract_parallel.py:189 | a ranked label sequence has no repeated label |
| ClusterSeg.Intensity | core/trait_extract_parallel.py:194 | the level int(255 / (k - 1)) * rank of a rank in 0..k-1 lies in 0..255 |
| ClusterSeg.IntensityRange | core/trait_extract_parallel.py:193-194 | rank 0 gets level 0; levels do not decrease with rank and stay within 0..255; two different ranks get different levels exactly when k <= 256 |
| ClusterSeg.KmeansImage | core/trait_extract_parallel.py:191-194 | the painting loop gives every pixel the level its cluster received last, or 0 when its cluster is never painted |
| ClusterSeg.PaintedIsRankLevel | core/trait_extract_parallel.py:193-194 | with distinct ranks, a cluster is painted the level of its own rank |
| ClusterSeg.RankedImageLevels | core/trait_extract_parallel.py:189-194 | the most frequent cluster is painted 0; every cluster is painted the level of its rank, within 0..255; a cluster ranked before another is never painted brighter |
| ClusterSeg.PaintedUnranked | core/trait_extract_parallel.py:191-194 | a label that is not among the ranked labels is never painted and keeps level 0 |
| ClusterSeg.KmeansGrey | core/trait_extract_parallel.py:177-194 | from the KMeans labels: k is the clamped cluster count, every pixel gets a level in 0..255, the most frequent cluster gets 0, a pixel whose label is below k and 256 gets the level of its label's rank, and a pixel of a more frequent cluster is never brighter than one of a less frequent cluster |
| ClusterSeg.Sizes | core/trait_extract_parallel.py:221 | sizes drops the background row: sizes[i] is the area of component i + 1 |
| ClusterSeg.FirstMaxIndex | core/trait_extract_parallel.py:255 | max(enumerate(sizes), key=size) picks a maximal size, and no earlier position holds the same size |
| ClusterSeg.Classify | core/trait_extract_parallel.py:247-258 | a component is too small exactly when its area is below min_size; a centred one has left and top above 1; the largest-blob rule fires only for an area at most 10% of the image; a kept one reaches min_size |
| ClusterSeg.MarkedLabel | core/trait_extract_parallel.py:247-260 | a component that reaches min_size paints a real component label (never 0) of at least its own area; the "max" branch paints the first largest component |
| ClusterSeg.MarkedLabels | core/trait_extract_parallel.py:245-260 | every painted label is a component of area at least 1000; nothing is painted exactly when no component reaches 1000 |
| ClusterSeg.Paint | core/trait_extract_parallel.py:251 | img_thresh[output == component] = 255 sets exactly the pixels of that component and leaves the rest unchanged |
| ClusterSeg.FilterComponents | core/trait_extract_parallel.py:217-269 | the mask is 255 exactly on the marked components and 0 elsewhere; every foreground pixel lies in a component of area at least 1000; with no such component the mask is empty |
| Outlier.SortReals | core/trait_extract_parallel.py:922 | the sort behind np.median is ascending, of the same length and with the same values as its input |
| Outlier.SortRealsPermutes | core/trait_extract_parallel.py:922 | the sort is a permutation of its input |
| Outlier.Median | core/trait_extract_parallel.py:922 | the median lies between the smallest and the largest value, and is one of the values when their number is odd |
| Outlier.MedianWithin | core/trait_extract_parallel.py:922 | some value lies at or below the median and some at or above it; the median of non-negative data is non-negative |
| Outlier.MedianOfConstant | core/trait_extract_parallel.py:922 | the median of identical values is that value |
| Outlier.Select | core/trait_extract_parallel.py:925-926 | boolean indexing never lengthens its input; it is non-empty when some value is kept, and non-negative when its input is |
| Outlier.AbsDev | core/trait_extract_parallel.py:923 | abs_dev has one non-negative deviation per value |
| Outlier.LeftMad | core/trait_extract_parallel.py:925 | left_mad is well defined, because some value lies at or below the median, and it is non-negative |
| Outlier.RightMad | core/trait_extract_parallel.py:926 | right_mad is well defined, because some value lies at or above the median, and it is non-negative |
| Outlier.Divide | core/trait_extract_parallel.py:929 | numpy division gives a finite quotient q with q * b == a exactly when b is non-zero, inf for a positive numerator over 0, nan for 0 over 0 |
| Outlier.ModifiedZScore | core/trait_extract_parallel.py:924-930 | one score per value; the vectorised score of each value is its per-value score (deviation over its side's MAD, 0 at the median); a value equal to the median scores 0 |
| Outlier.ScoreSign | core/trait_extract_parallel.py:929 | a score against a non-negative MAD is never -inf, and a finite one is non-negative |
| Outlier.ScoresNonNegative | core/trait_extract_parallel.py:924-930 | no modified z-score is -inf and every finite one is non-negative |
| Outlier.Exceeds | core/trait_extract_parallel.py:931 | the comparison with the threshold is false for nan and -inf and true for inf |
| Outlier.OutlierDoubleMAD | core/trait_extract_parallel.py:907-931 | one flag per value |
| Outlier.MadFor | core/trait_extract_parallel.py:927-928 | the MAD used for a value is right_mad above the median and left_mad otherwise, and it is non-negative |
| Outlier.FlagIsScore | core/trait_extract_parallel.py:927-931 | the flag of a value is its modified z-score compared with the threshold |
| Outlier.ScoreExceedsIff | core/trait_extract_parallel.py:929-931 | for a non-negative threshold, the score exceeds it exactly when the value is off the median and 0.6745 * deviation > thresh * MAD; this covers a zero MAD, where every value off the median gives inf |
| Outlier.FlaggedIff | core/trait_extract_parallel.py:922-931 | a value is flagged exactly when it differs from the median and 0.6745 * abs(value - median) > thresh * (its side's MAD) |
| Outlier.MedianValueFlaggedOnlyBelowZero | core/trait_extract_parallel.py:930-931 | a value equal to the median is flagged exactly when the threshold is negative |
| Outlier.IdenticalDataHasNoOutliers | core/trait_extract_parallel.py:922-931 | identical data have no outliers for a non-negative threshold |
| Curvature.ComputeCurv | core/trait_extract_parallel.py:494-553 | the loop over np.unique(labels) returns curv_sum / count, curv_sum / 1.0 when nothing was counted, and UnboundLocalError when no label is non-zero |
| Curvature.AverageCurvature | core/trait_extract_parallel.py:494-553 | compute_curv fails exactly when there is no foreground label, and the failure is an UnboundLocalError |
| Curvature.FitCountIsCardinality | core/trait_extract_parallel.py:502-533 | count is the number of distinct non-zero labels whose ellipse fit succeeded, whatever the circle fit then did |
| Curvature.UncountedSumIsZero | core/trait_extract_parallel.py:531-540 | nothing is added to curv_sum unless count was incremented |
| Curvature.NothingCountedGivesZero | core/trait_extract_parallel.py:547-553 | with a foreground label but nothing counted, the result is 0.0 (the count = 1.0 fallback) |
| Curvature.BackgroundIgnoredCount | core/trait_extract_parallel.py:505-506 | the fit outcome of label 0 changes neither count nor curv_sum |
| Curvature.BackgroundSkipped | core/trait_extract_parallel.py:505-506 | two outcome tables that agree on every non-zero label give the same result |
| Curvature.SumUpperBound | core/trait_extract_parallel.py:531-540 | if every fitted curvature is at most a non-negative hi, then curv_sum <= count * hi |
| Curvature.SumLowerBound | core/trait_extract_parallel.py:531-540 | if no circle fit raised and every fitted curvature is at least lo, then curv_sum >= count * lo |
| Curvature.AverageAtMost | core/trait_extract_parallel.py:547-553 | the average curvature is at most a non-negative upper bound of the fitted curvatures |
| Curvature.AverageAtLeast | core/trait_extract_parallel.py:547-553 | when no circle fit raised and something was counted, the average is at least a lower bound of the fitted curvatures |
| ExternalContour.LastQualifying | core/trait_extract_parallel.py:401-406 | finds the last contour passing the strict 1% rule, or reports that none passes |
| ExternalContour.CompExternalContour | core/trait_extract_parallel.py:392-490 | the contour loop gives ZeroDivisionError at a qualifying contour with zero hull area, UnboundLocalError when none qualifies, and otherwise the area and solidity of the last qualifying contour and w, h of the last contour |
| ExternalContour.ExternalContourTraits | core/trait_extract_parallel.py:392-490 | on success there is a contour and width and height are those of the last contour; the only failures are ZeroDivisionError and UnboundLocalError |
| ExternalContour.QualifiesIntegerForm | core/trait_extract_parallel.py:406 | the 1% rule is 100 * w > image width and 100 * h > image height |
| ExternalContour.ExternalContourErrors | core/trait_extract_parallel.py:401-490 | ZeroDivisionError exactly when a qualifying contour has a zero hull area; UnboundLocalError exactly when no contour qualifies |
| ExternalContour.ExternalContourSuccess | core/trait_extract_parallel.py:401-490 | on success, area and solidity come from a qualifying contour after which none qualifies, w and h come from the last contour, and the solidity lies in (0, 1] when 0 < area <= hull area |
| ExternalContour.SolidityInUnitInterval | core/trait_extract_parallel.py:465 | area / hull_area lies in (0, 1] when 0 < area <= hull_area |
| ColorRegion.DigitRoundTrip | core/trait_extract_parallel.py:557 | each hex digit RGB2HEX writes reads back as its value |
| ColorRegion.Rgb2Hex | core/trait_extract_parallel.py:556-557 | the name is "#" followed by six lowercase hex digits |
| ColorRegion.HexRoundTrip | core/trait_extract_parallel.py:556-557 | decoding the hex name gives back the colour |
| ColorRegion.HexToRgbInverse | core/trait_extract_parallel.py:556-557 | every well-formed lowercase "#rrggbb" string is the hex name of the colour it decodes to |
| ColorRegion.Rgb2HexInjective | core/trait_extract_parallel.py:556-557 | two colours have the same hex name exactly when they are equal |
| ColorRegion.BlackIff | core/trait_extract_parallel.py:826 | "#000000" is the name of pure black and of no other colour |
| ColorRegion.CountItems | core/trait_extract_parallel.py:813-815 | the sorted counts hold one (cluster, pixel count) item per present cluster, in ascending cluster order |
| ColorRegion.WithoutKey | core/trait_extract_parallel.py:837-840 | deleting by key keeps exactly the items with another key |
| ColorRegion.WithoutKeyKeepsOrder | core/trait_extract_parallel.py:837-840 | deleting a key from the sorted counts keeps the remaining items in ascending key order |
| ColorRegion.IndexByKeys | core/trait_extract_parallel.py:820-822 | the comprehension [s[i] for i in keys] gives s at each key, or IndexError when some key is not a position of s |
| ColorRegion.ColorRegion | core/trait_extract_parallel.py:813-850 | color_region after k-means computes the same result as its specification ColorRegionResult, errors included |
| ColorRegion.ColorRegionResult | core/trait_extract_parallel.py:813-840 | color_region fails only with IndexError; on success there is one hex name and one RGB colour per present cluster but the background, and each hex name is RGB2HEX of its colour |
| ColorRegion.FirstBlackName | core/trait_extract_parallel.py:826 | index_bkg[0] is the position of the first pure-black colour |
| ColorRegion.CountsAfterRemoval | core/trait_extract_parallel.py:832-840 | when the clusters present are 0..n-1, deleting position b from the lists and key b from the counts leaves one count per remaining colour |
| ColorRegion.SuccessKeys | core/trait_extract_parallel.py:820-822 | passing both comprehensions forces the present clusters to be exactly 0..n-1, with n at most the number of centres |
| ColorRegion.ColorRegionSuccess | core/trait_extract_parallel.py:813-840 | on success the present clusters are exactly 0..n-1 with n <= the centre count; the colours are centres 0..n-1 without the first pure-black one, each hex name belongs to its colour, and there are n - 1 colours, names and counts |
| ColorRegion.AllClustersPresent | core/trait_extract_parallel.py:813-840 | when every cluster has a pixel, the result is the centres without the first black one, with one count fewer; with no black centre it raises |
| ColorRegion.NoBlackCentreRaises | core/trait_extract_parallel.py:826-832 | without a pure-black centre, index_bkg[0] raises IndexError |
| ColorRegion.MissingClusterRaises | core/trait_extract_parallel.py:820-822 | if a cluster below a present one has no pixel, indexing ordered_colors by key raises IndexError |
| DiscardMerge.PrevIndex | core/trait_extract_parallel.py:1163 | sorted_options[left - 1] is a valid image, the last one when left is 0 |
| DiscardMerge.RunBlends | core/trait_extract_parallel.py:1170-1176 | a run left..right writes right - left + 1 blends |
| DiscardMerge.Step | core/trait_extract_parallel.py:1153-1180 | one image of the walk keeps the state reachable, sets any_dark when the image is dark, adds as many blends as it adds to replaced, records a dark image as right without blending, and after a bright image either no run is open or the state is unchanged |
| DiscardMerge.Run | core/trait_extract_parallel.py:1150-1181 | after k images, left and right are set together, image right is dark, and an open run of several images ends at the last image visited |
| DiscardMerge.SourceWeight | core/trait_extract_parallel.py:1171 | the source's prev_weight formula equals (ii + 1) / width |
| DiscardMerge.WriteBlends | core/trait_extract_parallel.py:1161-1177 | the inner loop writes, from the right end back, one blend per image of the run, with the source's weights |
| DiscardMerge.CheckDiscardMerge | core/trait_extract_parallel.py:1144-1183 | the walk over the images returns any_dark, and gives replaced and the blends written, as the step function defines them |
| DiscardMerge.AnyDarkIff | core/trait_extract_parallel.py:1153-1158 | any_dark is true exactly when some image is dark |
| DiscardMerge.ReplacedCountsBlends | core/trait_extract_parallel.py:1170-1180 | replaced equals the number of blends written |
| DiscardMerge.RunBlendsWellFormed | core/trait_extract_parallel.py:1159-1176 | each blend of a run replaces an image before the bright image that closes the run, towards that image, with prev weight in (0, 1] |
| DiscardMerge.PrevWeightInUnit | core/trait_extract_parallel.py:1171 | prev_weight lies in (0, 1] inside the run |
| DiscardMerge.BlendsWellFormed | core/trait_extract_parallel.py:1144-1181 | every blend written so far replaces an earlier image, blends towards a bright image and a valid previous image, and has prev weight in (0, 1] |
| DiscardMerge.RunAllDark | core/trait_extract_parallel.py:1153-1159 | while a run is open, no image after its right end is dark |
| DiscardMerge.TrailingDarkNeverBlended | core/trait_extract_parallel.py:1144-1181 | images in a trailing run of dark images are never replaced |
| DiscardMerge.LoneDarkNeverBlended | core/trait_extract_parallel.py:1155-1159 | with at most one dark image, nothing is blended and replaced stays 0 |
| DiscardMerge.LoneDarkExample | core/trait_extract_parallel.py:1155-1180 | for dark, bright, dark, bright, left is never reset after the lone first dark image, so images 0..2 (the bright one included) are blended from the last image and image 3 |
| TraitPipeline.Failed | core/trait_extract_parallel.py:1351-1353 | the except branch keeps the stem and sets the failure flag |
| TraitPipeline.NLeaves | core/trait_extract_parallel.py:1344 | n_leaves = len(np.unique(labels)) - 1 is at least -1 |
| TraitPipeline.NLeavesCountsForeground | core/trait_extract_parallel.py:1344 | a watershed image with labels exactly 0..k has k leaves |
| TraitPipeline.NLeavesBounds | core/trait_extract_parallel.py:1344 | n_leaves is at least -1, and equals -1 exactly for an empty label image |
| TraitPipeline.TraitExtract | core/trait_extract_parallel.py:1186-1353 | the try block, stage by stage, computes the same result as its specification TraitExtractResult |
| TraitPipeline.TraitExtractResult | core/trait_extract_parallel.py:1186-1353 | the result keeps the stem; a failed result is the except branch's record; a success carries n_leaves computed from the watershed labels |
| TraitPipeline.ResultTagging | core/trait_extract_parallel.py:1186-1353 | the result keeps the stem; it is marked failed exactly when some stage raised; a failed result carries no trait and a successful one all six |
| TraitPipeline.SuccessTraits | core/trait_extract_parallel.py:1339-1350 | a successful result carries the external-contour traits, the average curvature and the number of distinct watershed labels minus one |
| TraitPipeline.NoBackgroundColourFails | core/trait_extract_parallel.py:1212 | an image whose colour centres include no pure black fails |
| TraitPipeline.OnlyBackgroundClusterFails | core/trait_extract_parallel.py:1212-1214 | an image whose colour clustering uses only one cluster fails |

## Left out

- Library calls are not modelled; their results are inputs: KMeans and `cv2.kmeans`, the Otsu threshold, `clear_border`, `connectedComponentsWithStats`, `findContours`, `boundingRect`, `contourArea`, `convexHull`, `fitEllipse`, the least-squares circle fit (`ComputeCurvature`), the watershed and distance transform, skeletonisation and `summarize`, `rgb2lab` and `deltaE_cie76`, and `cv2.addWeighted`.
- File and console I/O is not modelled: `imread`, `imwrite`, the CSV and spreadsheet writers, `print`, `mkdir`. The `isbright` luminosity test is reduced to one dark flag per image.
- Drawing is not modelled: contours, rectangles, circles and labels drawn on the image; the pie chart of the colour counts; the per-cluster contour images.
- Floating point is replaced by exact reals. NaN is modelled only where numpy produces it in `outlier_doubleMAD` (division by a zero MAD).
- Images are flat sequences; the 2-D shapes and index conventions are collapsed into row and column counts where the source uses them.
- Sorting by timestamp in `check_discard_merge` is left out; the input is the dark flags already in timestamp order.
- The outlier flags' use in `trait_extract` is left out: dropping the flagged branches only feeds printed output and never reaches the result.
- Code off the modelled path is left out. This covers `color_quantization`, which is never called, and commented-out code and string-literal blocks. It covers the extreme-point distances of `comp_external_contour`, which are drawn but not returned. It also covers `extract_traits`, the older single-process variant of `trait_extract` that the command-line driver calls, and the driver itself with its batch report.
- The float32-to-uint8 conversion of the k-means centres is left out; the centres enter the model as 8-bit channels.
- Curvature.ComputeCurv: the largest-contour choice, the minimum enclosing circle and the `len(c) >= 5` test are folded into the per-label `FitOutcome` input.
- ClusterSeg.FilterComponents: `rows` and `cols` are `image.shape[0]` and `image.shape[1]`, which the source names `width` and `height`. `img_thresh = np.zeros([width, height])` therefore has the image's shape, the same as the label map's, so the flat mask has the length of `output`.
