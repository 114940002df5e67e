/** trait_extract: run the stages on one image and tag the result. Every stage
    between the modelled ones is a library call (imread, segmentation,
    skeletonisation, watershed, contour finding), so their outputs are inputs
    here, together with a flag saying whether one of them raised. Any
    exception turns into a failed result with no traits. */
module TraitPipeline {
  import opened Common
  import opened ColorRegion
  import opened Curvature
  import opened ExternalContour

  /** ImageResult: the image stem, the failure tag and the six traits. */
  datatype ImageResult = ImageResult(
    stem: string, failed: bool,
    area: Option<real>, solidity: Option<real>,
    maxWidth: Option<int>, maxHeight: Option<int>,
    avgCurv: Option<real>, nLeaves: Option<int>)

  /** What the library stages hand to the modelled ones. */
  datatype StageInputs = StageInputs(
    stem: string,
    foreignFailure: bool,          // some library call or file operation raised
    clusterLabels: seq<nat>,       // cv2.kmeans labels in color_region
    centers: seq<Rgb>,             // its centres, as uint8
    watershedLabels: seq<nat>,     // the watershed label image, flattened
    fit: nat -> FitOutcome,        // what compute_curv's fits did per label
    contours: seq<ContourSummary>, // the external contours of the mask
    imgWidth: int, imgHeight: int)

  /** The except branch: ImageResult(stem, True, None x 6). */
  function Failed(stem: string): (r: ImageResult)
    ensures r.stem == stem && r.failed
  {
    ImageResult(stem, true, None, None, None, None, None, None)
  }

  /** n_leaves = int(len(np.unique(labels)) / 1 - 1): one less than the
      number of distinct labels, the background included. */
  function NLeaves(labels: seq<nat>): (n: int)
    ensures n >= -1
  {
    |SortedDistinct(labels)| - 1
  }

  /** A watershed image with background 0 and leaves 1..k has k leaves. */
  lemma NLeavesCountsForeground(labels: seq<nat>, k: nat)
    requires forall x: nat :: x in labels <==> x <= k
    ensures NLeaves(labels) == k
  {
    IncreasingRange(SortedDistinct(labels), k + 1);
  }

  /** n_leaves is never below -1, and is -1 only for an empty label image. */
  lemma NLeavesBounds(labels: seq<nat>)
    ensures NLeaves(labels) >= -1
    ensures NLeaves(labels) == -1 <==> labels == []
  {
    if labels != [] {
      assert labels[0] in SortedDistinct(labels);
    }
  }

  /** The result trait_extract returns for the stage outputs. Apart from the
      library failures, the modelled stages raise: color_region (no black
      centre, the key/index mix-up), rgb_colors[0] on an empty colour list,
      compute_curv without a foreground label, and comp_external_contour. */
  function TraitExtractResult(inputs: StageInputs): (r: ImageResult)
    ensures r.stem == inputs.stem
    ensures r.failed ==> r == Failed(inputs.stem)
    ensures !r.failed ==> r.nLeaves == Some(NLeaves(inputs.watershedLabels))
  {
    if inputs.foreignFailure then Failed(inputs.stem)
    else match ColorRegionResult(inputs.clusterLabels, inputs.centers)
      case Err(_) => Failed(inputs.stem)
      case Ok(colors) =>
        if |colors.rgbColors| == 0 then Failed(inputs.stem)
        else match AverageCurvature(inputs.watershedLabels, inputs.fit)
          case Err(_) => Failed(inputs.stem)
          case Ok(avgCurv) =>
            match ExternalContourTraits(inputs.contours, inputs.imgWidth, inputs.imgHeight)
            case Err(_) => Failed(inputs.stem)
            case Ok(t) =>
              ImageResult(inputs.stem, false, Some(t.area), Some(t.solidity), Some(t.width), Some(t.height),
                Some(avgCurv), Some(NLeaves(inputs.watershedLabels)))
  }

  /** The try block of trait_extract, stage by stage; a raised exception ends
      in the except branch. */
  method TraitExtract(inputs: StageInputs) returns (r: ImageResult)
    ensures r == TraitExtractResult(inputs)
  {
    if inputs.foreignFailure {
      return Failed(inputs.stem);
    }
    var colors := ColorRegion.ColorRegion(inputs.clusterLabels, inputs.centers);
    if colors.Err? || |colors.value.rgbColors| == 0 {
      return Failed(inputs.stem);
    }
    var avgCurv := ComputeCurv(inputs.watershedLabels, inputs.fit);
    if avgCurv.Err? {
      return Failed(inputs.stem);
    }
    var traits := CompExternalContour(inputs.contours, inputs.imgWidth, inputs.imgHeight);
    if traits.Err? {
      return Failed(inputs.stem);
    }
    var nLeaves := NLeaves(inputs.watershedLabels);
    var t := traits.value;
    r := ImageResult(inputs.stem, false, Some(t.area), Some(t.solidity), Some(t.width), Some(t.height),
      Some(avgCurv.value), Some(nLeaves));
  }

  /** Does one of the stages raise? */
  predicate SomeStageRaises(inputs: StageInputs)
  {
    inputs.foreignFailure ||
    ColorRegionResult(inputs.clusterLabels, inputs.centers).Err? ||
    |ColorRegionResult(inputs.clusterLabels, inputs.centers).value.rgbColors| == 0 ||
    AverageCurvature(inputs.watershedLabels, inputs.fit).Err? ||
    ExternalContourTraits(inputs.contours, inputs.imgWidth, inputs.imgHeight).Err?
  }

  /** The tag: the result is marked failed exactly when some stage raised;
      a failed result carries no trait and a successful one all six; the
      stem is kept either way. */
  lemma ResultTagging(inputs: StageInputs)
    ensures var r := TraitExtractResult(inputs);
      r.stem == inputs.stem &&
      (r.failed <==> SomeStageRaises(inputs)) &&
      (r.failed ==> r.area.None? && r.solidity.None? && r.maxWidth.None? && r.maxHeight.None? &&
                    r.avgCurv.None? && r.nLeaves.None?) &&
      (!r.failed ==> r.area.Some? && r.solidity.Some? && r.maxWidth.Some? && r.maxHeight.Some? &&
                     r.avgCurv.Some? && r.nLeaves.Some?)
  {
  }

  /** A successful result carries the traits of the stages. */
  lemma SuccessTraits(inputs: StageInputs)
    requires !SomeStageRaises(inputs)
    ensures var r := TraitExtractResult(inputs);
      var t := ExternalContourTraits(inputs.contours, inputs.imgWidth, inputs.imgHeight).value;
      r.area == Some(t.area) && r.solidity == Some(t.solidity) &&
      r.maxWidth == Some(t.width) && r.maxHeight == Some(t.height) &&
      r.avgCurv == Some(AverageCurvature(inputs.watershedLabels, inputs.fit).value) &&
      r.nLeaves == Some(|SortedDistinct(inputs.watershedLabels)| - 1)
  {
  }

  /** An image whose colour centres have no pure black one always fails. */
  lemma NoBackgroundColourFails(inputs: StageInputs)
    requires Black !in inputs.centers
    ensures TraitExtractResult(inputs) == Failed(inputs.stem)
  {
    NoBlackCentreRaises(inputs.clusterLabels, inputs.centers);
  }

  /** An image whose colour clustering uses a single cluster fails: with
      cluster 0 black, rgb_colors is empty and rgb_colors[0] raises; otherwise
      ordered_colors[i] or index_bkg[0] raises first inside color_region. */
  lemma OnlyBackgroundClusterFails(inputs: StageInputs)
    requires |SortedDistinct(inputs.clusterLabels)| == 1
    ensures TraitExtractResult(inputs) == Failed(inputs.stem)
  {
    if ColorRegionResult(inputs.clusterLabels, inputs.centers).Ok? {
      ColorRegionSuccess(inputs.clusterLabels, inputs.centers);
    }
  }
}
