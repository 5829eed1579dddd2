/** The rectangle arithmetic of CameraCell.setupOverlay: a dimmed overlay over the
    camera view with a transparent hole cut where the focus-frame image sits, and
    the centre marker placed in the middle of that hole. */
module Overlay {
  import opened Options
  import opened Geometry

  /** How far the hole is drawn inside the focus frame on every side. */
  const HoleMargin: real := 2.5

  /** The hole: the focus frame's rect inset by HoleMargin in both axes
      (CGRect.null when the frame is narrower or shorter than twice the margin). */
  function HoleRect(focusFrame: Rect): (hole: Option<Rect>)
    ensures hole.Some? <==>
              Abs(focusFrame.size.width) >= 2.0 * HoleMargin && Abs(focusFrame.size.height) >= 2.0 * HoleMargin
    ensures focusFrame.IsStandard() && hole.Some? ==>
              hole.value == Rect(Point(focusFrame.origin.x + 2.5, focusFrame.origin.y + 2.5),
                                 Size(focusFrame.size.width - 5.0, focusFrame.size.height - 5.0))
    ensures hole.Some? ==> hole.value.IsStandard() && focusFrame.Standardized().ContainsRect(hole.value)
  {
    focusFrame.InsetBy(HoleMargin, HoleMargin)
  }

  /** Where the centre marker goes: the midpoint of the hole. The midpoint of
      CGRect.null is not modelled (None). */
  function MarkerCenter(focusFrame: Rect): (center: Option<Point>)
    ensures center.Some? <==> HoleRect(focusFrame).Some?
    ensures center.Some? ==> center.value == HoleRect(focusFrame).value.Center()
    ensures center.Some? ==> center.value == focusFrame.Center()
  {
    match HoleRect(focusFrame)
    case Some(hole) => Some(Point(hole.MidX(), hole.MidY()))
    case None => None
  }

  /** The even-odd fill rule of the mask: a point is painted when it lies inside an
      odd number of the path's two rectangles, the overlay's bounds and the hole. */
  predicate MaskCovers(bounds: Rect, hole: Rect, p: Point)
    requires bounds.IsStandard() && hole.IsStandard()
  {
    ((if bounds.ContainsPoint(p) then 1 else 0) + (if hole.ContainsPoint(p) then 1 else 0)) % 2 == 1
  }

  /** With the focus frame lying inside the overlay's bounds, the mask dims exactly the
      points of the bounds outside the hole, and every point of the hole stays clear. */
  lemma MaskDimsOutsideHole(bounds: Rect, focusFrame: Rect, p: Point)
    requires bounds.IsStandard() && focusFrame.IsStandard()
    requires bounds.ContainsRect(focusFrame)
    requires HoleRect(focusFrame).Some?
    ensures var hole := HoleRect(focusFrame).value;
            hole.IsStandard() && bounds.ContainsRect(hole) &&
            (MaskCovers(bounds, hole, p) <==> bounds.ContainsPoint(p) && !hole.ContainsPoint(p))
  {
    var hole := HoleRect(focusFrame).value;
    if hole.ContainsPoint(p) {
      assert bounds.ContainsPoint(p);
    }
  }
}
