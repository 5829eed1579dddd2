/** The tap-to-focus coordinate transform of CameraCell.tapOnCameraView: a point
    tapped in the camera view becomes a focus and exposure point of interest in the
    sensor's normalised coordinates, which are turned a quarter relative to the
    portrait view (x runs down the view, y runs from the right edge to the left). */
module FocusMapping {
  import opened Geometry

  predicate InsideView(p: Point, viewSize: Size)
  {
    0.0 <= p.x <= viewSize.width && 0.0 <= p.y <= viewSize.height
  }

  predicate InUnitSquare(p: Point)
  {
    0.0 <= p.x <= 1.0 && 0.0 <= p.y <= 1.0
  }

  /** The focus point for a tap at `touch` in a view of size `viewSize`. */
  function FocusPoint(touch: Point, viewSize: Size): (focus: Point)
    requires viewSize.width != 0.0 && viewSize.height != 0.0
    ensures viewSize.width > 0.0 && viewSize.height > 0.0 && InsideView(touch, viewSize) ==> InUnitSquare(focus)
    ensures TapPoint(focus, viewSize) == touch
  {
    var focus := Point(touch.y / viewSize.height, 1.0 - touch.x / viewSize.width);
    DivideWithinUnit(touch.y, viewSize.height);
    DivideWithinUnit(touch.x, viewSize.width);
    focus
  }

  /** The inverse transform: the view point whose tap yields `focus`. */
  function TapPoint(focus: Point, viewSize: Size): Point
  {
    Point((1.0 - focus.y) * viewSize.width, focus.x * viewSize.height)
  }

  /** Tapping where TapPoint says gives back the same focus point, so the mapping is
      a bijection between the view and the sensor's plane. */
  lemma FocusOfTapPoint(focus: Point, viewSize: Size)
    requires viewSize.width != 0.0 && viewSize.height != 0.0
    ensures FocusPoint(TapPoint(focus, viewSize), viewSize) == focus
  {
    ScaleThenDivide(1.0 - focus.y, viewSize.width);
    ScaleThenDivide(focus.x, viewSize.height);
  }

  /** The view's corners go to the sensor corners turned a quarter: top-left to
      (0, 1), top-right to (0, 0), bottom-left to (1, 1), bottom-right to (1, 0). */
  lemma CornersTurnAQuarter(w: real, h: real)
    requires w > 0.0 && h > 0.0
    ensures FocusPoint(Point(0.0, 0.0), Size(w, h)) == Point(0.0, 1.0)
    ensures FocusPoint(Point(w, 0.0), Size(w, h)) == Point(0.0, 0.0)
    ensures FocusPoint(Point(0.0, h), Size(w, h)) == Point(1.0, 1.0)
    ensures FocusPoint(Point(w, h), Size(w, h)) == Point(1.0, 0.0)
  {
    ScaleThenDivide(1.0, w);
    ScaleThenDivide(1.0, h);
  }

  lemma DivideWithinUnit(a: real, b: real)
    requires b != 0.0
    ensures 0.0 <= a <= b ==> 0.0 <= a / b <= 1.0
    ensures a / b * b == a
  {
  }
}
