/** The camera-result callback: a photo is checked only when the capture
    succeeded and the photo could be loaded. */
module Capture {
  import opened Wrappers
  import opened Recognizer
  import opened Validation

  /** A loaded photo, described by what the two detectors report for it:
      the face detector's outcome and the recognizer's outcome at each
      angle. */
  datatype Photo = Photo(faces: FaceOutcome, texts: seq<Outcome>)

  /** The camera's result for the side chosen when it was opened:
      `resultOk` is whether it returned RESULT_OK, `loaded` the decoded
      photo or `None` when decoding failed. The result is `None` when
      nothing at all is shown. */
  function OnCameraResult(side: CardSide, resultOk: bool, loaded: Option<Photo>): (r: Option<Verdict>)
    requires loaded.Some? ==> |loaded.value.texts| == |Angles|
    ensures !resultOk ==> r.None?
    ensures resultOk ==> r.Some?
    ensures resultOk && loaded.None? ==> r == Some(Verdict(PhotoLoadFailed, Trace(0, [])))
    ensures resultOk && loaded.Some? ==>
              r == Some(CheckSide(side, loaded.value.faces, loaded.value.texts))
    ensures (r.Some? && r.value.message == PhotoLoadFailed) <==> (resultOk && loaded.None?)
  {
    if !resultOk then None
    else
      match loaded
      case None => Some(Verdict(PhotoLoadFailed, Trace(0, [])))
      case Some(photo) => Some(CheckSide(side, photo.faces, photo.texts))
  }
}
