/** comp_external_contour: choose the leaf traits from the external contours
    of the segmentation mask. The contours, their bounding rectangles, areas
    and hull areas come from OpenCV and are inputs here; the drawing calls and
    the extreme-point distances (computed but not returned) are not modelled. */
module ExternalContour {
  import opened Common

  /** What OpenCV reports for one contour: cv2.boundingRect, cv2.contourArea
      of the contour and of its convex hull. */
  datatype ContourSummary = ContourSummary(x: int, y: int, w: int, h: int, area: real, hullArea: real)

  /** The values comp_external_contour returns besides the drawn image. */
  datatype ExternalTraits = ExternalTraits(area: real, solidity: real, width: int, height: int)

  /** The strict 1% rule on the bounding rectangle; imgWidth is shape[1] and
      imgHeight shape[0] of the image. */
  predicate Qualifies(c: ContourSummary, imgWidth: int, imgHeight: int)
  {
    (c.w as real) > (imgWidth as real) * 0.01 && (c.h as real) > (imgHeight as real) * 0.01
  }

  /** Position of the last qualifying contour. */
  function LastQualifying(contours: seq<ContourSummary>, imgWidth: int, imgHeight: int): (r: Option<nat>)
    ensures r.None? <==> forall i :: 0 <= i < |contours| ==> !Qualifies(contours[i], imgWidth, imgHeight)
    ensures r.Some? ==> r.value < |contours| && Qualifies(contours[r.value], imgWidth, imgHeight)
    ensures r.Some? ==> forall j :: r.value < j < |contours| ==> !Qualifies(contours[j], imgWidth, imgHeight)
  {
    if contours == [] then None
    else
      var n := |contours|;
      if Qualifies(contours[n - 1], imgWidth, imgHeight) then Some(n - 1)
      else
        var r := LastQualifying(contours[..n - 1], imgWidth, imgHeight);
        assert forall i :: 0 <= i < n - 1 ==> contours[..n - 1][i] == contours[i];
        r
  }

  /** Does some qualifying contour have a zero hull area (float(area) / 0.0)? */
  predicate ZeroHullQualifies(contours: seq<ContourSummary>, imgWidth: int, imgHeight: int)
  {
    exists i :: 0 <= i < |contours| && Qualifies(contours[i], imgWidth, imgHeight) && contours[i].hullArea == 0.0
  }

  /** What comp_external_contour returns: a ZeroDivisionError if a
      qualifying contour has a zero hull area; an UnboundLocalError (trait_img
      is never assigned) if none qualifies; otherwise area and solidity of
      the last qualifying contour, and w, h of the last contour of all. */
  function ExternalContourTraits(contours: seq<ContourSummary>, imgWidth: int, imgHeight: int): (r: Result<ExternalTraits>)
    ensures r.Ok? ==> |contours| > 0 && r.value.width == contours[|contours| - 1].w && r.value.height == contours[|contours| - 1].h
    ensures r.Err? ==> r.error == ZeroDivisionError || r.error == UnboundLocalError
  {
    if ZeroHullQualifies(contours, imgWidth, imgHeight) then Err(ZeroDivisionError)
    else match LastQualifying(contours, imgWidth, imgHeight)
      case None => Err(UnboundLocalError)
      case Some(i) =>
        var last := contours[|contours| - 1];
        Ok(ExternalTraits(contours[i].area, contours[i].area / contours[i].hullArea, last.w, last.h))
  }

  /** The loop of comp_external_contour: every contour overwrites w and h,
      every qualifying one overwrites area and solidity. */
  method CompExternalContour(contours: seq<ContourSummary>, imgWidth: int, imgHeight: int)
    returns (r: Result<ExternalTraits>)
    ensures r == ExternalContourTraits(contours, imgWidth, imgHeight)
  {
    var area := 0.0;
    var solidity := 0.0;
    var w := 0;
    var h := 0;
    var traitImgAssigned := false;
    ghost var chosen := 0;
    var k := 0;
    while k < |contours|
      invariant 0 <= k <= |contours|
      invariant !ZeroHullQualifies(contours[..k], imgWidth, imgHeight)
      invariant traitImgAssigned <==> LastQualifying(contours[..k], imgWidth, imgHeight).Some?
      invariant traitImgAssigned ==>
        (LastQualifying(contours[..k], imgWidth, imgHeight) == Some(chosen) && chosen < k &&
         area == contours[chosen].area && solidity == contours[chosen].area / contours[chosen].hullArea)
      invariant k > 0 ==> w == contours[k - 1].w && h == contours[k - 1].h
    {
      var c := contours[k];
      assert contours[..k + 1][..k] == contours[..k];
      assert forall i :: 0 <= i < k ==> contours[..k + 1][i] == contours[..k][i];
      w := c.w;
      h := c.h;
      if Qualifies(c, imgWidth, imgHeight) {
        traitImgAssigned := true;
        if c.hullArea == 0.0 {
          assert ZeroHullQualifies(contours, imgWidth, imgHeight) by {
            assert contours[k] == c;
          }
          return Err(ZeroDivisionError);
        }
        area := c.area;
        solidity := c.area / c.hullArea;
        chosen := k;
      }
      k := k + 1;
    }
    assert contours[..|contours|] == contours;
    if !traitImgAssigned {
      return Err(UnboundLocalError);
    }
    return Ok(ExternalTraits(area, solidity, w, h));
  }

  /** The 1% rule without reals: w > imgWidth / 100 and h > imgHeight / 100. */
  lemma QualifiesIntegerForm(c: ContourSummary, imgWidth: int, imgHeight: int)
    ensures Qualifies(c, imgWidth, imgHeight) <==> 100 * c.w > imgWidth && 100 * c.h > imgHeight
  {
    assert (c.w as real) > (imgWidth as real) * 0.01 <==> (100 * c.w) as real > imgWidth as real;
    assert (c.h as real) > (imgHeight as real) * 0.01 <==> (100 * c.h) as real > imgHeight as real;
  }

  /** The error cases, both directions. */
  lemma ExternalContourErrors(contours: seq<ContourSummary>, imgWidth: int, imgHeight: int)
    ensures ExternalContourTraits(contours, imgWidth, imgHeight) == Err(ZeroDivisionError)
      <==> ZeroHullQualifies(contours, imgWidth, imgHeight)
    ensures ExternalContourTraits(contours, imgWidth, imgHeight) == Err(UnboundLocalError)
      <==> forall i :: 0 <= i < |contours| ==> !Qualifies(contours[i], imgWidth, imgHeight)
  {
    if forall i :: 0 <= i < |contours| ==> !Qualifies(contours[i], imgWidth, imgHeight) {
      assert !ZeroHullQualifies(contours, imgWidth, imgHeight);
    }
  }

  /** On success: area and solidity come from a qualifying contour after
      which no other qualifies, the width and height from the last contour,
      and the solidity lies in (0, 1] when 0 < area <= hull area. */
  lemma ExternalContourSuccess(contours: seq<ContourSummary>, imgWidth: int, imgHeight: int)
    requires ExternalContourTraits(contours, imgWidth, imgHeight).Ok?
    ensures var t := ExternalContourTraits(contours, imgWidth, imgHeight).value;
      |contours| > 0 && t.width == contours[|contours| - 1].w && t.height == contours[|contours| - 1].h &&
      exists i :: 0 <= i < |contours| && Qualifies(contours[i], imgWidth, imgHeight) &&
        (forall j :: i < j < |contours| ==> !Qualifies(contours[j], imgWidth, imgHeight)) &&
        contours[i].hullArea != 0.0 && t.area == contours[i].area &&
        t.solidity == contours[i].area / contours[i].hullArea &&
        (0.0 < contours[i].area <= contours[i].hullArea ==> 0.0 < t.solidity <= 1.0)
  {
    var i := LastQualifying(contours, imgWidth, imgHeight).value;
    var c := contours[i];
    if 0.0 < c.area <= c.hullArea {
      SolidityInUnitInterval(c.area, c.hullArea);
    }
  }

  lemma SolidityInUnitInterval(area: real, hullArea: real)
    requires 0.0 < area <= hullArea
    ensures 0.0 < area / hullArea <= 1.0
  {
    assert (area / hullArea) * hullArea == area;
  }
}
