/** The per-frame face-acceptance decision in CameraCell.captureOutput's detector
    completion: the first failing rule of face count, head pose and lighting decides
    the verdict reported to the delegate. */
module QualityGate {
  import opened Geometry
  import opened BrightnessEstimator

  /** What the detector reports of one face: its head Euler angles in degrees. */
  datatype Face = Face(headEulerAngleX: real, headEulerAngleY: real, headEulerAngleZ: real)

  /** The reason strings the delegate receives, one per outcome. */
  datatype Reason = MultipleOrNoFaces | FaceNotStraight | PoorLighting | FaceValidated

  /** The two arguments of `cameraCell(_:didValidateFace:reason:)`. */
  datatype Verdict = Verdict(success: bool, reason: Reason)

  const MaxHeadAngle: real := 15.0
  const MinBrightness: real := 0.4

  function ReasonText(reason: Reason): (text: string)
    ensures |text| > 0
  {
    match reason
    case MultipleOrNoFaces => "Multiple or no faces detected"
    case FaceNotStraight => "Face not straight"
    case PoorLighting => "Poor lighting"
    case FaceValidated => "Face validated successfully"
  }

  /** CameraCell's pose test: some head angle exceeds the limit in magnitude. */
  predicate TurnedAway(face: Face)
  {
    Abs(face.headEulerAngleX) > MaxHeadAngle ||
    Abs(face.headEulerAngleY) > MaxHeadAngle ||
    Abs(face.headEulerAngleZ) > MaxHeadAngle
  }

  /** CameraCell's lighting test, `brightness < 0.4`; +infinity and NaN compare false. */
  predicate TooDark(brightness: Brightness)
  {
    brightness.Level? && brightness.value < MinBrightness
  }

  /** Every head angle lies in the closed interval [-15, 15]. */
  predicate FacingForward(face: Face)
  {
    -MaxHeadAngle <= face.headEulerAngleX <= MaxHeadAngle &&
    -MaxHeadAngle <= face.headEulerAngleY <= MaxHeadAngle &&
    -MaxHeadAngle <= face.headEulerAngleZ <= MaxHeadAngle
  }

  /** A brightness level of at least 0.4, or a non-finite quotient. */
  predicate LitEnough(brightness: Brightness)
  {
    match brightness
    case Level(v) => v >= MinBrightness
    case PosInfinity => true
    case NotANumber => true
  }

  /** The rule chain, checked in order; the first failing rule gives the verdict. */
  function Evaluate(faces: seq<Face>, brightness: Brightness): (v: Verdict)
    ensures v.success <==> v.reason == FaceValidated
    ensures v.success <==> |faces| == 1 && FacingForward(faces[0]) && LitEnough(brightness)
    ensures v.reason == MultipleOrNoFaces <==> |faces| != 1
    ensures v.reason == FaceNotStraight <==> |faces| == 1 && !FacingForward(faces[0])
    ensures v.reason == PoorLighting <==> |faces| == 1 && FacingForward(faces[0]) && !LitEnough(brightness)
  {
    if |faces| != 1 then Verdict(false, MultipleOrNoFaces)
    else if TurnedAway(faces[0]) then Verdict(false, FaceNotStraight)
    else if TooDark(brightness) then Verdict(false, PoorLighting)
    else Verdict(true, FaceValidated)
  }

  /** The four reason strings are distinct, so the string alone tells the outcome. */
  lemma ReasonTextsDistinct(a: Reason, b: Reason)
    requires a != b
    ensures ReasonText(a) != ReasonText(b)
  {
  }

  /** The limits are inclusive: angles of exactly +-15 and a brightness of exactly 0.4
      pass, and anything beyond them fails the rule it belongs to. */
  lemma BoundaryCases(eps: real)
    requires eps > 0.0
    ensures Evaluate([Face(15.0, -15.0, 15.0)], Level(0.4)) == Verdict(true, FaceValidated)
    ensures Evaluate([Face(15.0 + eps, 0.0, 0.0)], Level(0.4)) == Verdict(false, FaceNotStraight)
    ensures Evaluate([Face(0.0, -15.0 - eps, 0.0)], Level(0.4)) == Verdict(false, FaceNotStraight)
    ensures Evaluate([Face(0.0, 0.0, 15.0 + eps)], Level(0.4)) == Verdict(false, FaceNotStraight)
    ensures Evaluate([Face(0.0, 0.0, 0.0)], Level(0.4 - eps)) == Verdict(false, PoorLighting)
  {
  }

  /** The four reference frames: accepted; two faces; turned 20 degrees; too dark. */
  lemma Scenarios(pose: Face)
    requires pose == Face(0.0, 0.0, 0.0)
    ensures Evaluate([pose], Level(0.6)) == Verdict(true, FaceValidated)
    ensures Evaluate([pose, pose], Level(0.6)) == Verdict(false, MultipleOrNoFaces)
    ensures Evaluate([Face(20.0, 0.0, 0.0)], Level(0.6)) == Verdict(false, FaceNotStraight)
    ensures Evaluate([pose], Level(0.1)) == Verdict(false, PoorLighting)
  {
  }

  /** A frame narrower or shorter than one stride never fails the lighting rule: its
      brightness is +infinity or NaN, and neither compares below 0.4. So one face held
      straight is accepted whatever the plane holds, a dark or nil plane included. */
  lemma SmallFrameIsNeverTooDark(face: Face, plane: Options.Option<seq<UInt8>>, width: nat, height: nat, bytesPerRow: nat)
    requires width < Stride || height < Stride
    requires FacingForward(face)
    ensures Evaluate([face], BrightnessOf(plane, width, height, bytesPerRow)) == Verdict(true, FaceValidated)
  {
    BelowOneStride(plane, width, height, bytesPerRow);
  }

  /** With a nil plane base address and at least one whole stride, every read is 0, so a
      single straight face is always rejected for poor lighting. */
  lemma NilPlaneIsTooDark(face: Face, width: nat, height: nat, bytesPerRow: nat)
    requires width >= Stride && height >= Stride
    requires FacingForward(face)
    ensures Evaluate([face], BrightnessOf(Options.None, width, height, bytesPerRow)) == Verdict(false, PoorLighting)
  {
    VisitsExceedSampleCount(width, height);
    NilPlane(width, height, bytesPerRow);
  }
}
