/** ViewController.imageOrientation(deviceOrientation:cameraPosition:): the image
    orientation to tag a captured frame with, given how the device is held and
    which camera took it. */
module Orientation {

  /** UIDeviceOrientation. */
  datatype DeviceOrientation =
    | Unknown | Portrait | PortraitUpsideDown | LandscapeLeft | LandscapeRight | FaceUp | FaceDown

  /** AVCaptureDevice.Position. */
  datatype CameraPosition = Unspecified | Back | Front

  /** UIImage.Orientation. */
  datatype ImageOrientation =
    | Up | Down | Left | Right | UpMirrored | DownMirrored | LeftMirrored | RightMirrored

  predicate IsMirrored(o: ImageOrientation)
  {
    o in {UpMirrored, DownMirrored, LeftMirrored, RightMirrored}
  }

  /** The device is held upright, upside down or on either side (not flat, not unknown). */
  predicate IsUpright(d: DeviceOrientation)
  {
    d in {Portrait, PortraitUpsideDown, LandscapeLeft, LandscapeRight}
  }

  function ImageOrientationFor(d: DeviceOrientation, position: CameraPosition): (o: ImageOrientation)
    // held upright or sideways, an image is mirrored exactly when the front camera took it
    ensures IsUpright(d) ==> (IsMirrored(o) <==> position == Front)
    // lying flat or unknown, the image is always Up, whichever camera took it
    ensures !IsUpright(d) ==> o == Up
  {
    match d
    case Portrait => if position == Front then LeftMirrored else Right
    case LandscapeLeft => if position == Front then DownMirrored else Up
    case PortraitUpsideDown => if position == Front then RightMirrored else Left
    case LandscapeRight => if position == Front then UpMirrored else Down
    case FaceDown | FaceUp | Unknown => Up
  }

  /** The turn by a half: up and down swapped, left and right swapped. */
  function HalfTurn(o: ImageOrientation): ImageOrientation
  {
    match o
    case Up => Down
    case Down => Up
    case Left => Right
    case Right => Left
    case UpMirrored => DownMirrored
    case DownMirrored => UpMirrored
    case LeftMirrored => RightMirrored
    case RightMirrored => LeftMirrored
  }

  function Mirror(o: ImageOrientation): ImageOrientation
  {
    match o
    case Up => UpMirrored
    case Down => DownMirrored
    case Left => LeftMirrored
    case Right => RightMirrored
    case UpMirrored => Up
    case DownMirrored => Down
    case LeftMirrored => Left
    case RightMirrored => Right
  }

  /** The device turned a quarter counter-clockwise, in the order
      Portrait, LandscapeLeft, PortraitUpsideDown, LandscapeRight. */
  function NextQuarter(d: DeviceOrientation): DeviceOrientation
  {
    match d
    case Portrait => LandscapeLeft
    case LandscapeLeft => PortraitUpsideDown
    case PortraitUpsideDown => LandscapeRight
    case LandscapeRight => Portrait
    case other => other
  }

  /** The image orientation turned a quarter counter-clockwise: Right, Up, Left, Down. */
  function QuarterTurn(o: ImageOrientation): ImageOrientation
  {
    match o
    case Right => Up
    case Up => Left
    case Left => Down
    case Down => Right
    case RightMirrored => UpMirrored
    case UpMirrored => LeftMirrored
    case LeftMirrored => DownMirrored
    case DownMirrored => RightMirrored
  }

  /** The four rows of the table for a device held upright or sideways. */
  lemma UprightTable()
    ensures ImageOrientationFor(Portrait, Front) == LeftMirrored && ImageOrientationFor(Portrait, Back) == Right
    ensures ImageOrientationFor(LandscapeLeft, Front) == DownMirrored && ImageOrientationFor(LandscapeLeft, Back) == Up
    ensures ImageOrientationFor(PortraitUpsideDown, Front) == RightMirrored && ImageOrientationFor(PortraitUpsideDown, Back) == Left
    ensures ImageOrientationFor(LandscapeRight, Front) == UpMirrored && ImageOrientationFor(LandscapeRight, Back) == Down
  {
  }

  /** The test is `== .front`: an unspecified position gets the back camera's orientation. */
  lemma NonFrontActsAsBack(d: DeviceOrientation, position: CameraPosition)
    requires position != Front
    ensures ImageOrientationFor(d, position) == ImageOrientationFor(d, Back)
  {
  }

  /** The front camera's orientation is the back camera's turned by a half and mirrored. */
  lemma FrontIsMirroredHalfTurnOfBack(d: DeviceOrientation)
    requires IsUpright(d)
    ensures ImageOrientationFor(d, Front) == Mirror(HalfTurn(ImageOrientationFor(d, Back)))
  {
  }

  /** Turning the device a quarter turns the back/front camera's image orientation a quarter. */
  lemma QuarterTurnOfDevice(d: DeviceOrientation, position: CameraPosition)
    requires IsUpright(d)
    ensures ImageOrientationFor(NextQuarter(d), position) == QuarterTurn(ImageOrientationFor(d, position))
  {
  }

  /** Held upright or sideways, each camera gives four distinct orientations. */
  lemma DistinctPerCamera(d1: DeviceOrientation, d2: DeviceOrientation, position: CameraPosition)
    requires IsUpright(d1) && IsUpright(d2) && d1 != d2
    ensures ImageOrientationFor(d1, position) != ImageOrientationFor(d2, position)
  {
  }
}
