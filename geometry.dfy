/** CoreGraphics points, sizes and rectangles over real coordinates, with the
    few CGRect operations the camera cell uses (midX/midY, the width and height
    getters, standardizing, insetBy), and point and rect containment, which stand in
    for the even-odd mask fill of the overlay. */
module Geometry {
  import opened Options

  datatype Point = Point(x: real, y: real)

  datatype Size = Size(width: real, height: real)

  datatype Rect = Rect(origin: Point, size: Size) {

    /** The x coordinate of the centre; the same for a rect and its standardized form. */
    function MidX(): real { origin.x + size.width / 2.0 }

    function MidY(): real { origin.y + size.height / 2.0 }

    function Center(): Point { Point(MidX(), MidY()) }

    /** CGRect.width: the magnitude of the size's width, whatever its sign. */
    function Width(): (r: real)
      ensures r >= 0.0 && (IsStandard() ==> r == size.width)
    {
      Abs(size.width)
    }

    /** CGRect.height: the magnitude of the size's height, whatever its sign. */
    function Height(): (r: real)
      ensures r >= 0.0 && (IsStandard() ==> r == size.height)
    {
      Abs(size.height)
    }

    /** The same rectangle with a non-negative width and height, as CoreGraphics
        normalises a rect before insetting it. */
    function Standardized(): (r: Rect)
      ensures r.size.width >= 0.0 && r.size.height >= 0.0
      ensures r.Center() == Center()
      ensures IsStandard() ==> r == this
    {
      var x := if size.width < 0.0 then origin.x + size.width else origin.x;
      var y := if size.height < 0.0 then origin.y + size.height else origin.y;
      Rect(Point(x, y), Size(Abs(size.width), Abs(size.height)))
    }

    predicate IsStandard() { size.width >= 0.0 && size.height >= 0.0 }

    /** CGRect.insetBy(dx:dy:): the standardized rect moved in by dx on the left and
        right and by dy on the top and bottom; CGRect.null (None) when that would
        leave a negative width or height. */
    function InsetBy(dx: real, dy: real): Option<Rect>
    {
      var s := Standardized();
      if s.size.width - 2.0 * dx < 0.0 || s.size.height - 2.0 * dy < 0.0 then None
      else Some(Rect(Point(s.origin.x + dx, s.origin.y + dy),
                     Size(s.size.width - 2.0 * dx, s.size.height - 2.0 * dy)))
    }

    /** Containment of a point in the half-open box [minX, maxX) x [minY, maxY) of a
        standardized rect, as CGRect.contains(_:) and the even-odd fill decide it. */
    predicate ContainsPoint(p: Point)
      requires IsStandard()
    {
      origin.x <= p.x < origin.x + size.width && origin.y <= p.y < origin.y + size.height
    }

    /** Every edge of `inner` lies on or inside this rect's edges. */
    predicate ContainsRect(inner: Rect)
      requires IsStandard() && inner.IsStandard()
    {
      origin.x <= inner.origin.x && inner.origin.x + inner.size.width <= origin.x + size.width &&
      origin.y <= inner.origin.y && inner.origin.y + inner.size.height <= origin.y + size.height
    }
  }

  function Abs(a: real): (r: real)
    ensures r >= 0.0 && (r == a || r == -a)
  {
    if a < 0.0 then -a else a
  }

  /** Scaling by a non-zero factor and dividing by it again is the identity. */
  lemma ScaleThenDivide(a: real, b: real)
    requires b != 0.0
    ensures a * b / b == a
  {
  }
}
