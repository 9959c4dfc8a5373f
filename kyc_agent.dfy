/**
 * `KYCAgent.process_kyc`: parse the OCR text, interpret the face check, score the
 * fraud risk and derive the overall status. The OCR text and the face engines'
 * outcome are inputs; the report is the record of the values the text report
 * shows, not its formatting.
 */
module KycAgent {
  import opened Wrappers
  import opened Text
  import opened KycParser
  import opened FaceMatch
  import opened FraudScore
  import Utils

  datatype KycStatus =
    | Verified               // "VERIFIED"
    | ManualReviewRequired   // "MANUAL REVIEW REQUIRED"
    | ProcessingError        // "PROCESSING ERROR"

  /** `"Not found" in parsed_details.values()` */
  predicate AnyMissing(d: KycDetails) {
    exists k :: 0 <= k < |Values(d)| && IsMissing(Values(d)[k])
  }

  /**
   * The status policy of `process_kyc`: a critical face-check error wins over
   * everything, then a missing field or an unmatched face asks for review; each
   * status is chosen exactly under its condition.
   */
  function StatusOf(d: KycDetails, faceMessage: string, facesMatch: bool): (s: KycStatus)
    ensures s == ProcessingError <==> Contains(faceMessage, CriticalMarker)
    ensures s == ManualReviewRequired <==> !Contains(faceMessage, CriticalMarker) && (AnyMissing(d) || !facesMatch)
    ensures s == Verified <==> !Contains(faceMessage, CriticalMarker) && !AnyMissing(d) && facesMatch
  {
    if Contains(faceMessage, CriticalMarker) then ProcessingError
    else if AnyMissing(d) || !facesMatch then ManualReviewRequired
    else Verified
  }

  /** The status block: a default that two later checks overwrite in turn. */
  method DeriveStatus(d: KycDetails, faceMessage: string, facesMatch: bool) returns (status: KycStatus)
    ensures status == StatusOf(d, faceMessage, facesMatch)
  {
    status := Verified;
    if AnyMissing(d) || !facesMatch {
      status := ManualReviewRequired;
    }
    if Contains(faceMessage, CriticalMarker) {
      status := ProcessingError;
    }
  }

  /** What the text report shows, field by field. */
  datatype KycReport =
    | UploadPrompt   // "Please upload both an ID card and a selfie."
    | Report(status: KycStatus, details: KycDetails, faceMessage: string,
             fraudScore: int, riskTier: RiskTier, indicators: seq<string>)


  /** The report for an OCR text and a face outcome, stage by stage. */
  function Processed(rawText: string, face: FaceOutcome, currentYear: int): KycReport
  {
    var d := ParsedDetails(rawText);
    var f := VerifyFaces(face);
    var score := Capped(RawScore(d, f.matched, currentYear));
    Report(StatusOf(d, f.message, f.matched), d, f.message, score, TierOf(score),
           Indicators(d, f.matched, currentYear))
  }

  /** `process_kyc`: the upload check, then the four stages in order. */
  method ProcessKyc(idCardUploaded: bool, selfieUploaded: bool, rawText: string, face: FaceOutcome, currentYear: int)
    returns (report: KycReport)
    ensures !(idCardUploaded && selfieUploaded) ==> report == UploadPrompt
    ensures idCardUploaded && selfieUploaded ==> report == Processed(rawText, face, currentYear)
  {
    if !idCardUploaded || !selfieUploaded {
      return UploadPrompt;
    }
    var details := ParseKycDetails(rawText);
    var result := VerifyFaces(face);
    var score, tier, indicators := CalculateFraudScore(details, result.matched, currentYear);
    var status := DeriveStatus(details, result.message, result.matched);
    report := Report(status, details, result.message, score, tier, indicators);
  }

  // --- lemmas ------------------------------------------------------------------

  /** Some value is missing exactly when the count of missing values is positive. */
  lemma {:induction false} AnyMissingIffCount(d: KycDetails)
    ensures AnyMissing(d) <==> CountMissing(Values(d)) > 0
  {
    CountMissingPositive(Values(d));
  }

  lemma {:induction false} CountMissingPositive(values: seq<Field>)
    ensures CountMissing(values) > 0 <==> exists k :: 0 <= k < |values| && IsMissing(values[k])
  {
    if values != [] {
      CountMissingPositive(values[1..]);
      if CountMissing(values[1..]) > 0 {
        var k :| 0 <= k < |values[1..]| && IsMissing(values[1..][k]);
        assert IsMissing(values[k + 1]);
      }
      if exists k :: 0 <= k < |values| && IsMissing(values[k]) {
        var k :| 0 <= k < |values| && IsMissing(values[k]);
        if k > 0 {
          assert values[1..][k - 1] == values[k];
        }
      }
    }
  }

  /** The status the pipeline derives for a record and a face outcome. */
  function StatusFor(d: KycDetails, face: FaceOutcome): KycStatus
  {
    StatusOf(d, VerifyFaces(face).message, VerifyFaces(face).matched)
  }

  /** The score the pipeline computes for a record and a face outcome. */
  function ScoreFor(d: KycDetails, face: FaceOutcome, currentYear: int): int
  {
    Capped(RawScore(d, VerifyFaces(face).matched, currentYear))
  }

  /** PROCESSING ERROR arises exactly from an unexpected exception in the face check. */
  lemma ProcessingErrorIff(d: KycDetails, face: FaceOutcome)
    ensures StatusFor(d, face) == ProcessingError <==> face.Raised? && !IsLibraryError(face.message)
  {
    CriticalIff(face);
  }

  /**
   * A library-initialisation failure is not a processing error: its message has
   * no "CRITICAL ERROR", and since the faces did not match the case goes to review.
   */
  lemma LibraryErrorGoesToReview(d: KycDetails, message: string)
    requires IsLibraryError(message)
    ensures StatusFor(d, Raised(message)) == ManualReviewRequired
  {
    CriticalIff(Raised(message));
  }

  /**
   * VERIFIED means every field was found and the faces matched, so the score is
   * only the age penalty: at most 40, never the High tier, and at most one
   * indicator, the age flag.
   */
  lemma VerifiedReport(d: KycDetails, face: FaceOutcome, currentYear: int)
    requires StatusFor(d, face) == Verified
    ensures && d.name.Found? && d.documentNumber.Found? && d.dateOfBirth.Found?
            && d.issueDate.Found? && d.address.Found? && d.nationality.Found?
    ensures VerifyFaces(face).matched
    ensures ScoreFor(d, face, currentYear) <= 40 && TierOf(ScoreFor(d, face, currentYear)) != High
    ensures |Indicators(d, VerifyFaces(face).matched, currentYear)| <= 1
  {
    assert !AnyMissing(d);
    assert !IsMissing(Values(d)[0]) && !IsMissing(Values(d)[1]) && !IsMissing(Values(d)[2]);
    assert !IsMissing(Values(d)[3]) && !IsMissing(Values(d)[4]) && !IsMissing(Values(d)[5]);
    AnyMissingIffCount(d);
    MissingFromCounts(KeyNames, Values(d));
    AgePenaltyCases(AgeOf(d, currentYear));
  }

  // --- the second status policy ----------------------------------------------------

  /** The dictionary's values as the strings the utilities see. */
  function Texts(values: seq<Field>): (ts: seq<string>)
    ensures |ts| == |values|
    ensures forall k :: 0 <= k < |values| ==> ts[k] == FieldText(values[k])
  {
    seq(|values|, k requires 0 <= k < |values| => FieldText(values[k]))
  }

  lemma {:induction false} CountNotFoundTexts(values: seq<Field>)
    ensures Utils.CountNotFound(Texts(values)) == CountMissing(values)
  {
    if values != [] {
      assert Texts(values)[1..] == Texts(values[1..]);
      CountNotFoundTexts(values[1..]);
    }
  }

  /** What `determine_overall_status` says about a pipeline's record, face result and score. */
  function OverallOf(d: KycDetails, facesMatch: bool, score: int): Utils.OverallStatus
  {
    Utils.DetermineOverallStatus(Texts(Values(d)), Some(facesMatch), Some(score))
  }

  /** Whenever the pipeline says VERIFIED, the utilities' policy agrees. */
  lemma VerifiedAgrees(d: KycDetails, face: FaceOutcome, currentYear: int)
    requires StatusFor(d, face) == Verified
    ensures OverallOf(d, VerifyFaces(face).matched, ScoreFor(d, face, currentYear)) == Utils.Verified
  {
    VerifiedReport(d, face, currentYear);
    AnyMissingIffCount(d);
    CountNotFoundTexts(Values(d));
  }

  /**
   * The policies differ: with one to three fields missing, matching faces and a
   * score below 60, the utilities say VERIFIED while the pipeline asks for review.
   */
  lemma PoliciesDisagree(d: KycDetails, faceMessage: string, score: int)
    requires 1 <= CountMissing(Values(d)) <= 3 && score < 60
    requires !Contains(faceMessage, CriticalMarker)
    ensures OverallOf(d, true, score) == Utils.Verified
    ensures StatusOf(d, faceMessage, true) == ManualReviewRequired
  {
    AnyMissingIffCount(d);
    CountNotFoundTexts(Values(d));
  }
}
