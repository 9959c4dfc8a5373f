/**
 * How `KYCAgent.verify_faces` turns what the face engines report into a message
 * and a match flag. The engines themselves (DeepFace and the OpenCV Haar cascade)
 * are not modelled: their answers arrive as a `FaceOutcome`.
 */
module FaceMatch {
  import opened Wrappers
  import opened Text

  /** What the face engines reported for one ID card and one selfie. */
  datatype FaceOutcome =
      /** `DeepFace.verify` returned: its `verified` flag and its optional `face_confidence`. */
    | Verdict(verified: bool, confidence: Option<real>)
      /** DeepFace is unavailable or raised, so the Haar detector ran on each image. */
    | Fallback(idHasFace: bool, selfieHasFace: bool)
      /** An exception reached the outer handler, with its text. */
    | Raised(message: string)

  /** The `(message, is_match)` pair. */
  datatype FaceResult = FaceResult(message: string, matched: bool)

  const FacesMatchMessage: string := "Faces Match!"
  /** "Face not clearly detected in one or both images." */
  const NotClearMessage: string := "Face not " + "clearly " + "detected in " + "one or both " + "images."
  /** "Faces Do Not Match!" */
  const NoMatchMessage: string := "Faces Do " + "Not Match!"
  /** "Face not detected in the ID Card." */
  const NoIdFaceMessage: string := "Face not " + "detected in " + "the ID Card."
  /** "Face not detected in the Selfie." */
  const NoSelfieFaceMessage: string := "Face not " + "detected in " + "the Selfie."
  /** " Faces detected in both images (basic verification)" */
  const BothDetectedMessage: string := " Faces " + "detected in " + "both images " + "(basic " + "verification)"
  /** "Face comparison error: Could not initialize processing library. Please check environment." */
  const LibraryErrorMessage: string :=
    "Face " + "comparison " + "error: " + "Could not " + "initialize " + "processing " + "library. " +
    "Please " + "check " + "environment."
  /** The marker the status derivation looks for. */
  const CriticalMarker: string := "CRITICAL ERROR"

  /** "CRITICAL ERROR during face verification: " */
  const CriticalPrefix: string := CriticalMarker + " during face verification: "

  /** `result.get('face_confidence', 1.0)` */
  function ConfidenceOf(confidence: Option<real>): real
  {
    match confidence
    case None => 1.0
    case Some(c) => c
  }

  /** The exception text names the GPU runtime or the dlib library, in any case. */
  predicate IsLibraryError(message: string) {
    Contains(Lower(message), "cuda") || Contains(Lower(message), "dlib")
  }

  /**
   * `verify_faces` once the engines have answered. Faces count as matched in exactly
   * two cases: DeepFace verified them, or both images have a face; the message then
   * says so.
   */
  function VerifyFaces(outcome: FaceOutcome): (r: FaceResult)
    ensures r.matched <==>
      (outcome.Verdict? && outcome.verified) || (outcome.Fallback? && outcome.idHasFace && outcome.selfieHasFace)
    ensures r.matched ==> r.message in {FacesMatchMessage, BothDetectedMessage}
  {
    match outcome
    case Verdict(verified, confidence) =>
      if verified then FaceResult(FacesMatchMessage, true)
      else if ConfidenceOf(confidence) < 0.5 then FaceResult(NotClearMessage, false)
      else FaceResult(NoMatchMessage, false)
    case Fallback(idHasFace, selfieHasFace) =>
      if !idHasFace then FaceResult(NoIdFaceMessage, false)
      else if !selfieHasFace then FaceResult(NoSelfieFaceMessage, false)
      else FaceResult(BothDetectedMessage, true)
    case Raised(message) =>
      if IsLibraryError(message) then FaceResult(LibraryErrorMessage, false)
      else FaceResult(CriticalPrefix + message, false)
  }

  // --- lemmas ------------------------------------------------------------------

  /** A failed DeepFace verdict is blamed on detection when the confidence is below 0.5, else on a mismatch. */
  lemma FailedVerdictMessage(verified: bool, confidence: Option<real>)
    requires !verified
    ensures var r := VerifyFaces(Verdict(verified, confidence));
      && !r.matched
      && (r.message == NotClearMessage <==> ConfidenceOf(confidence) < 0.5)
      && (r.message == NoMatchMessage <==> ConfidenceOf(confidence) >= 0.5)
    ensures confidence == None ==> VerifyFaces(Verdict(verified, confidence)).message == NoMatchMessage
  {
  }

  /** In the fallback the ID card is checked first: without a face there, the selfie does not matter. */
  lemma IdCardCheckedFirst(idHasFace: bool, selfieHasFace: bool)
    ensures !idHasFace ==> VerifyFaces(Fallback(idHasFace, selfieHasFace)) == FaceResult(NoIdFaceMessage, false)
    ensures idHasFace && !selfieHasFace ==>
      VerifyFaces(Fallback(idHasFace, selfieHasFace)) == FaceResult(NoSelfieFaceMessage, false)
  {
  }

  /** An exception never counts as a match, and it is either the library message or the critical one. */
  lemma RaisedNeverMatches(message: string)
    ensures !VerifyFaces(Raised(message)).matched
    ensures VerifyFaces(Raised(message)).message ==
      if IsLibraryError(message) then LibraryErrorMessage else CriticalPrefix + message
  {
  }

  /** A message without a capital 'R' cannot carry the marker. */
  lemma NoMarkerWithoutR(m: string)
    requires 'R' !in m
    ensures !Contains(m, CriticalMarker)
  {
    assert CriticalMarker[1] == 'R';
    NotContainsMissingChar(m, CriticalMarker, 1);
  }

  lemma FacesMatchHasNoMarker()
    ensures !Contains(FacesMatchMessage, CriticalMarker)
  {
    NoMarkerWithoutR(FacesMatchMessage);
  }

  lemma NotClearHasNoMarker()
    ensures !Contains(NotClearMessage, CriticalMarker)
  {
    NoMarkerWithoutR(NotClearMessage);
  }

  lemma NoMatchHasNoMarker()
    ensures !Contains(NoMatchMessage, CriticalMarker)
  {
    NoMarkerWithoutR(NoMatchMessage);
  }

  lemma NoIdFaceHasNoMarker()
    ensures !Contains(NoIdFaceMessage, CriticalMarker)
  {
    NoMarkerWithoutR(NoIdFaceMessage);
  }

  lemma NoSelfieFaceHasNoMarker()
    ensures !Contains(NoSelfieFaceMessage, CriticalMarker)
  {
    NoMarkerWithoutR(NoSelfieFaceMessage);
  }

  lemma BothDetectedHasNoMarker()
    ensures !Contains(BothDetectedMessage, CriticalMarker)
  {
    NoMarkerWithoutR(BothDetectedMessage);
  }

  lemma LibraryMessageHasNoMarker()
    ensures !Contains(LibraryErrorMessage, CriticalMarker)
  {
    NoMarkerWithoutR(LibraryErrorMessage);
  }

  /** The message for an unexpected exception starts with the marker. */
  lemma CriticalMessageHasMarker(message: string)
    ensures Contains(CriticalPrefix + message, CriticalMarker)
  {
    var rest := " during face verification: " + message;
    assert CriticalPrefix + message == CriticalMarker + rest;
    ContainsPrefix(CriticalMarker, rest);
  }

  /**
   * The message carries "CRITICAL ERROR" exactly when an exception other than a
   * library error reached the outer handler: none of the other messages has a
   * capital 'R', which the marker has.
   */
  lemma CriticalIff(outcome: FaceOutcome)
    ensures Contains(VerifyFaces(outcome).message, CriticalMarker) <==>
      outcome.Raised? && !IsLibraryError(outcome.message)
  {
    match outcome
    case Verdict(_, _) =>
      FacesMatchHasNoMarker();
      NotClearHasNoMarker();
      NoMatchHasNoMarker();
    case Fallback(_, _) =>
      NoIdFaceHasNoMarker();
      NoSelfieFaceHasNoMarker();
      BothDetectedHasNoMarker();
    case Raised(message) =>
      if IsLibraryError(message) {
        LibraryMessageHasNoMarker();
      } else {
        CriticalMessageHasMarker(message);
      }
  }
}
