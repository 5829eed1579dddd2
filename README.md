# ScanFace camera cell: a Dafny model

ScanFace shows a live front-camera preview in a table cell and, for every video
frame, decides whether the frame is a usable face capture: exactly one face, the
head held straight, the scene lit well enough. The verdict (a success flag and a
reason string) goes to the cell's delegate. Around that decision sit a few small
pieces of arithmetic: the brightness estimate of the frame's luma plane, the
overlay that dims the preview outside the focus frame and centres a marker in it,
the tap-to-focus transform into sensor coordinates, the crop rect of a detected
face, and the image-orientation table of the view controller.

The model has one module per component:

- `QualityGate` (quality_gate.dfy): the rule chain as a total function from the
  detected faces and the frame's brightness to a verdict.
- `CameraCellModel` (camera_cell.dfy): the detector's completion handler as a
  method of a `CameraCell` class. The class logs every delegate call in order.
- `BrightnessEstimator` (brightness.dfy): `estimateBrightness` as a method with the
  source's nested stride loops over an `array?` of bytes, proved against a
  recursive sum. The lemmas about that sum cover uniform planes, nil planes, bounds,
  and the gap between the pixels visited and the pixels counted.
- `Overlay` (overlay.dfy): the hole rect, the marker centre and the even-odd mask.
- `FocusMapping` (focus.dfy): the tap-to-focus transform and its inverse.
- `FaceCrop` (crop.dfy): the crop-rect conversion and its inverse.
- `Orientation` (orientation.dfy): the device/camera to image-orientation lookup.
- `Geometry` and `Options` (geometry.dfy, options.dfy): CGPoint/CGSize/CGRect with
  `insetBy`, `midX`/`midY`, the `width`/`height` getters and point and rect
  containment (which stand in for the even-odd mask fill), and an optional type.

Modelling choices that follow the code:

- The brightness quotient is `CGFloat(total) / CGFloat(sampleCount) / 255.0`.
  The divisor counts whole strides, floor(width/10) * floor(height/10). The loops
  visit ceil(width/10) * ceil(height/10) pixels. So the estimate can exceed 1:
  a 19 x 10 white plane reads 2.0 (`NineteenByTenWhitePlane`).
- Nothing guards a zero divisor (a frame narrower or shorter than 10 pixels). A
  CGFloat division by zero does not trap. It gives +infinity when the total is
  positive and NaN when it is 0. The model keeps exactly that in the `Brightness`
  datatype (`Level | PosInfinity | NotANumber`). Both values compare false with
  `< 0.4`, so such a frame always passes the lighting rule
  (`SmallFrameIsNeverTooDark`). Nothing clamps the result to [0, 1] either.
- The luma pointer is optional. `luma?[offset] ?? 0` reads 0 through a nil base
  address; the model uses `array?` with null for that case. The camera output is
  configured for 32BGRA (CameraCell.swift:114), which is not a planar format.
  CoreVideo's header documentation says that
  `CVPixelBufferGetBaseAddressOfPlane` returns NULL for a non-planar buffer. If so,
  every real frame takes this path. `NilPlaneIsTooDark` states what follows then:
  every frame of at least 10 x 10 pixels with exactly one straight face is
  rejected for poor lighting. Smaller frames are still accepted
  (`SmallFrameIsNeverTooDark`), and other face counts still get "Multiple or no
  faces detected".
- `insetBy` first standardizes the rect. It returns CGRect.null when the inset
  would leave a negative width or height; the model returns `None` then.
- `cropFace` reads the box's size through CGRect's `width` and `height` getters.
  These return magnitudes, so a box with a negative size is cropped by the size of
  its magnitude, at the stored origin (`NegativeSizeBox`).
- Nothing in the app calls `imageOrientation` or `cropFace`. The detector is
  always given `.right` (CameraCell.swift:183). Both are modelled as the functions
  they are.
- The plane requirement of `EstimateBrightness` is CoreVideo's plane layout:
  `bytesPerRow >= width` and `height * bytesPerRow` bytes. Nothing is required when
  the base address is nil or when nothing is read.

## Model

| member | source | states |
|---|---|---|
| QualityGate.Evaluate | ScanFace/UITableViewCell/CameraCell.swift:195-221 | success holds iff reason is "validated", iff there is exactly one face, its three angles are in [-15, 15] and the brightness is at least 0.4 (or not finite); the reason is "multiple or no faces" iff the count is not 1, "not straight" iff one face has an angle outside [-15, 15], "poor lighting" iff one straight face meets a brightness level below 0.4 |
| QualityGate.ReasonTextsDistinct | ScanFace/UITableViewCell/CameraCell.swift:195-221 | the four reason strings are pairwise different |
| QualityGate.BoundaryCases | ScanFace/UITableViewCell/CameraCell.swift:203-214 | angles of exactly +15/-15 and brightness exactly 0.4 are accepted; any angle beyond 15 in magnitude gives "not straight", any brightness below 0.4 gives "poor lighting" |
| QualityGate.Scenarios | ScanFace/UITableViewCell/CameraCell.swift:195-221 | pose (0,0,0) at 0.6 is accepted; two faces give "multiple or no faces"; yaw 20 gives "not straight"; brightness 0.1 gives "poor lighting" |
| QualityGate.SmallFrameIsNeverTooDark | ScanFace/UITableViewCell/CameraCell.swift:211-214 | on a frame under 10 pixels wide or high, one straight face is accepted whatever the plane holds |
| QualityGate.NilPlaneIsTooDark | ScanFace/UITableViewCell/CameraCell.swift:211-214 | with a nil plane and a frame of at least 10 x 10 pixels, exactly one straight face is rejected for poor lighting |
| CameraCellModel.CameraCell.constructor | ScanFace/UITableViewCell/CameraCell.swift:22 | a new cell has reported nothing and keeps the given delegate presence |
| CameraCellModel.CameraCell.Notify | ScanFace/UITableViewCell/CameraCell.swift:196 | a delegate call appends the verdict to the log when a delegate is attached and changes nothing otherwise |
| CameraCellModel.CameraCell.OnFacesDetected | ScanFace/UITableViewCell/CameraCell.swift:192-222 | a failed or empty detection reports nothing; otherwise exactly one verdict, the rule chain's on the detected faces and the plane's estimated brightness, is appended (when a delegate is attached) |
| BrightnessEstimator.EstimateBrightness | ScanFace/UITableViewCell/CameraCell.swift:226-244 | the nested stride loops read only in-bounds offsets y*bytesPerRow+x and return the quotient of the sum of the bytes at every x < width, y < height that are multiples of 10 by floor(w/10)*floor(h/10), divided by 255 |
| BrightnessEstimator.OffsetInPlane | ScanFace/UITableViewCell/CameraCell.swift:236 | every offset the loops compute lies inside a well-formed plane |
| BrightnessEstimator.UniformPlane | ScanFace/UITableViewCell/CameraCell.swift:233-243 | on a plane of uniform value L the total is L * ceil(w/10) * ceil(h/10), the number of pixels visited times L |
| BrightnessEstimator.UniformPlaneWholeStrides | ScanFace/UITableViewCell/CameraCell.swift:242-243 | a uniform plane of value L with both sides multiples of 10 (and at least 10) reads exactly L/255 |
| BrightnessEstimator.UniformPlaneOverestimates | ScanFace/UITableViewCell/CameraCell.swift:234-243 | a uniform plane of value L > 0 with a side not a multiple of 10 reads strictly more than L/255 |
| BrightnessEstimator.NineteenByTenWhitePlane | ScanFace/UITableViewCell/CameraCell.swift:234-243 | a 19 x 10 plane of 255s reads 2.0 |
| BrightnessEstimator.VisitsExceedSampleCount | ScanFace/UITableViewCell/CameraCell.swift:234-242 | for sides of at least 10 the divisor is positive, at most the number of visited pixels, and equal to it iff both sides are multiples of 10 |
| BrightnessEstimator.BrightnessBounds | ScanFace/UITableViewCell/CameraCell.swift:242-243 | with a positive divisor the estimate is a level between 0 and visited/counted pixels |
| BrightnessEstimator.BrightnessWithinUnit | ScanFace/UITableViewCell/CameraCell.swift:242-243 | with both sides positive multiples of 10 the estimate is a level in [0, 1] |
| BrightnessEstimator.BelowOneStride | ScanFace/UITableViewCell/CameraCell.swift:242-243 | a frame under 10 pixels wide or high has a zero divisor and gets +infinity or NaN, never a level |
| BrightnessEstimator.NilPlane | ScanFace/UITableViewCell/CameraCell.swift:231-237 | a nil base address reads 0 everywhere: the estimate is 0, or NaN with a zero divisor |
| Overlay.HoleRect | ScanFace/UITableViewCell/CameraCell.swift:80 | the hole exists iff the frame is at least 5 wide and high; for a standardized frame it is the frame with origin + (2.5, 2.5) and size - (5, 5), and it lies inside the frame |
| Overlay.MarkerCenter | ScanFace/UITableViewCell/CameraCell.swift:93 | the marker exists with the hole, sits at the hole's midpoint, and that is also the focus frame's midpoint |
| Overlay.MaskDimsOutsideHole | ScanFace/UITableViewCell/CameraCell.swift:78-86 | with the frame inside the overlay's bounds, the even-odd mask covers a point iff it lies in the bounds and not in the hole |
| FocusMapping.FocusPoint | ScanFace/UITableViewCell/CameraCell.swift:148-151 | a tap inside a view of positive size maps into the unit square, and mapping the focus point back gives the tap |
| FocusMapping.FocusOfTapPoint | ScanFace/UITableViewCell/CameraCell.swift:151 | every focus point is reached by the tap that the inverse transform gives |
| FocusMapping.CornersTurnAQuarter | ScanFace/UITableViewCell/CameraCell.swift:151 | the view's corners go to the unit square's corners turned a quarter |
| FaceCrop.CropRect | ScanFace/UITableViewCell/CameraCell.swift:246-255 | x is the box's origin.x scaled by the buffer's width; the size is the box's width and height magnitudes scaled by the buffer's width and height, so the rect is standardized; the y axis is flipped, so the crop's top edge lies origin.y scaled by the height below the buffer's top; a box inside the unit square gives a rect inside [0,W] x [0,H] |
| FaceCrop.NegativeSizeBox | ScanFace/UITableViewCell/CameraCell.swift:252-255 | a box at (0.2, 0.5) of size (-0.1, -0.2) in a 100 x 100 buffer crops the rect at (20, 30) of size 10 x 20 |
| FaceCrop.CropRectRoundTrip | ScanFace/UITableViewCell/CameraCell.swift:252-255 | in a non-empty buffer, normalising the crop rect of a standardized box back gives the box |
| Orientation.ImageOrientationFor | ScanFace/ViewController.swift:38-51 | held upright or sideways the image is mirrored iff the front camera took it; flat or unknown it is Up for every camera |
| Orientation.UprightTable | ScanFace/ViewController.swift:40-47 | the four rows: portrait leftMirrored/right, landscapeLeft downMirrored/up, portraitUpsideDown rightMirrored/left, landscapeRight upMirrored/down |
| Orientation.NonFrontActsAsBack | ScanFace/ViewController.swift:40-47 | every position other than front gets the back camera's orientation |
| Orientation.FrontIsMirroredHalfTurnOfBack | ScanFace/ViewController.swift:40-47 | the front camera's orientation is the back camera's turned by half and mirrored |
| Orientation.QuarterTurnOfDevice | ScanFace/ViewController.swift:40-47 | turning the device a quarter turns the image orientation a quarter, for every camera |
| Orientation.DistinctPerCamera | ScanFace/ViewController.swift:40-47 | for one camera the four upright or sideways device orientations give four different image orientations |

## Left out

- Capture session setup, device discovery, inputs and outputs, the preview layer
  and `startRunning` (CameraCell.swift:97-146): AVFoundation plumbing.
- The ML Kit face detector: its options, its construction for every frame, the
  unused `setupFaceDetector`, and the asynchronous `process` call. The model takes
  the detector's result as an input. `None` stands for an error or a nil face list,
  and then no verdict is reported. A frame without an image buffer
  (CameraCell.swift:181) never reaches the detector; it is left out for the same
  reason.
- The queues: the `videoQueue` sample-buffer delegate queue and the completion on
  an unspecified thread. `OnFacesDetected` models one completion at a time.
  Out-of-order delivery across frames is not modelled.
- Locking and unlocking the pixel buffer's base address (CameraCell.swift:227, 241)
  and the device configuration lock with its focus and exposure setters
  (CameraCell.swift:153-168). These are device side effects; only the focus-point
  formula is kept.
- FocusMapping.FocusPoint: requires a view with non-zero width and height. The CGFloat
  division by a zero side (infinite or NaN coordinates) is not modelled.
- Overlay.MarkerCenter: when the hole is CGRect.null, the marker goes to that rect's
  midpoint. That midpoint is not modelled; the model returns `None`.
- The UIKit work in `setupOverlay` and `layoutSubviews`: removing the tag-999 views,
  adding subviews, the mask layer and bringing views to front. The mask is modelled
  only as the even-odd coverage predicate.
- The `CIImage`/`CIContext` cropping and the `UIImage` creation in `cropFace`. This
  is foreign image code; only the rect is modelled.
- The view controller's table data source and delegate, cell registration, the
  327-point row height and the printing delegate: UI only.
- CGFloat rounding. Angles, brightness and geometry are Dafny reals. Of IEEE
  semantics only the two quotients by zero that the brightness estimate can produce
  are kept.
- The 64-bit `Int` total of `estimateBrightness` is modelled as unbounded. At most
  255 per visited pixel is added, so no realistic frame overflows it.
