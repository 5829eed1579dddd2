/** The frame-processing side of CameraCell: for every frame whose face detection
    completes, the quality gate's verdict goes to the (weakly held, optional)
    delegate, exactly once. */
module CameraCellModel {
  import opened Options
  import opened BrightnessEstimator
  import opened QualityGate

  class CameraCell {
    /** Whether `delegate` is set; a nil delegate swallows the verdict. */
    var delegateAttached: bool
    /** Every `cameraCell(_:didValidateFace:reason:)` call made so far, oldest first. */
    var reported: seq<Verdict>

    constructor (delegateAttached: bool)
      ensures this.delegateAttached == delegateAttached && reported == []
    {
      this.delegateAttached := delegateAttached;
      reported := [];
    }

    /** `self.delegate?.cameraCell(self, didValidateFace: ..., reason: ...)`. */
    method Notify(verdict: Verdict)
      modifies this`reported
      ensures reported == old(reported) + if delegateAttached then [verdict] else []
    {
      if delegateAttached {
        reported := reported + [verdict];
      }
    }

    /** The detector's completion for one frame. `detection` is None when the detector
        reported an error or no face array; the frame's luma plane is read only once
        the pose has passed. */
    method OnFacesDetected(detection: Option<seq<Face>>, luma: array?<UInt8>,
                           width: nat, height: nat, bytesPerRow: nat)
      requires luma != null ==> PlaneWellFormed(luma.Length, width, height, bytesPerRow)
      modifies this`reported
      ensures reported == old(reported) +
                if detection.Some? && delegateAttached
                then [Evaluate(detection.value, BrightnessOf(PlaneOf(luma), width, height, bytesPerRow))]
                else []
    {
      if detection.None? {
        return;
      }
      var faces := detection.value;
      if |faces| != 1 {
        Notify(Verdict(false, MultipleOrNoFaces));
        return;
      }
      var face := faces[0];
      if TurnedAway(face) {
        Notify(Verdict(false, FaceNotStraight));
        return;
      }
      var brightness := EstimateBrightness(luma, width, height, bytesPerRow);
      if TooDark(brightness) {
        Notify(Verdict(false, PoorLighting));
        return;
      }
      Notify(Verdict(true, FaceValidated));
    }
  }
}
