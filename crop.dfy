/** The rectangle arithmetic of CameraCell.cropFace: a face's bounding box, given in
    normalised image coordinates with the origin at the top, becomes a crop rect in
    the pixel buffer's Core Image coordinates, which are in pixels with the origin at
    the bottom. */
module FaceCrop {
  import opened Geometry

  /** A standardized box that lies in the unit square. */
  predicate InUnitSquare(box: Rect)
  {
    box.IsStandard() &&
    0.0 <= box.origin.x && box.origin.x + box.size.width <= 1.0 &&
    0.0 <= box.origin.y && box.origin.y + box.size.height <= 1.0
  }

  /** The crop rect for `boundingBox` in a pixel buffer of `width` x `height` pixels.
      The size comes from the CGRect width and height getters, which are magnitudes,
      while the origin is read as stored. */
  function CropRect(boundingBox: Rect, width: nat, height: nat): (r: Rect)
    ensures r.origin.x == boundingBox.origin.x * width as real
    ensures r.size == Size(boundingBox.Width() * width as real, boundingBox.Height() * height as real)
    // the y axis is flipped: the crop's top edge, measured from the buffer's top, is
    // the box's origin.y scaled by the height
    ensures height as real - (r.origin.y + r.size.height) == boundingBox.origin.y * height as real
    ensures r.IsStandard()
    ensures InUnitSquare(boundingBox) ==>
              Rect(Point(0.0, 0.0), Size(width as real, height as real)).ContainsRect(r)
  {
    var w, h := width as real, height as real;
    var bw, bh := boundingBox.Width(), boundingBox.Height();
    var r := Rect(Point(boundingBox.origin.x * w, (1.0 - boundingBox.origin.y - bh) * h),
                  Size(bw * w, bh * h));
    FlipSum(boundingBox.origin.y, bh, h);
    NonNegativeProduct(bw, w);
    NonNegativeProduct(bh, h);
    if InUnitSquare(boundingBox) then
      ScaledInside(boundingBox.origin.x, bw, w);
      ScaledInside(1.0 - boundingBox.origin.y - bh, bh, h);
      r
    else
      r
  }

  /** The flipped origin plus the scaled height is the distance of the box's top from
      the bottom edge. */
  lemma FlipSum(a: real, d: real, s: real)
    ensures s - ((1.0 - a - d) * s + d * s) == a * s
  {
    assert (1.0 - a - d) * s + d * s == (1.0 - a) * s;
  }

  lemma NonNegativeProduct(a: real, b: real)
    requires 0.0 <= a && 0.0 <= b
    ensures 0.0 <= a * b
  {
  }

  /** A box with a negative size gives the crop rect of the box with the magnitudes of
      its sides and the same origin: (0.2, 0.5) with size (-0.1, -0.2) in a 100 x 100
      buffer gives the rect at (20, 30) of size 10 x 20. */
  lemma NegativeSizeBox()
    ensures CropRect(Rect(Point(0.2, 0.5), Size(-0.1, -0.2)), 100, 100)
         == Rect(Point(20.0, 30.0), Size(10.0, 20.0))
  {
  }

  /** The interval [a, a + d] inside [0, 1], scaled by s >= 0, stays inside [0, s]. */
  lemma ScaledInside(a: real, d: real, s: real)
    requires 0.0 <= a && 0.0 <= d && a + d <= 1.0 && 0.0 <= s
    ensures 0.0 <= a * s && 0.0 <= d * s && a * s + d * s <= s
  {
    assert a * s + d * s == (a + d) * s;
  }

  /** The crop rect normalised back and flipped again: the inverse of CropRect. */
  function NormalizedBox(crop: Rect, width: nat, height: nat): Rect
    requires width > 0 && height > 0
  {
    var w, h := width as real, height as real;
    Rect(Point(crop.origin.x / w, 1.0 - (crop.origin.y + crop.size.height) / h),
         Size(crop.size.width / w, crop.size.height / h))
  }

  /** In a non-empty buffer, normalising the crop rect of a standardized box gives back
      the box, so no two standardized boxes share a crop rect. */
  lemma CropRectRoundTrip(boundingBox: Rect, width: nat, height: nat)
    requires width > 0 && height > 0 && boundingBox.IsStandard()
    ensures NormalizedBox(CropRect(boundingBox, width, height), width, height) == boundingBox
  {
    var w, h := width as real, height as real;
    var r := CropRect(boundingBox, width, height);
    assert r.origin.x / w == boundingBox.origin.x;
    assert r.size.width / w == boundingBox.size.width;
    assert r.size.height / h == boundingBox.size.height;
    assert r.origin.y + r.size.height == (1.0 - boundingBox.origin.y) * h;
    ScaleThenDivide(1.0 - boundingBox.origin.y, h);
  }
}
