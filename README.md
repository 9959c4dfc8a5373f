# KYC agent decision logic in Dafny

This project models the deterministic core of a KYC (know-your-customer) agent,
the part that decides once OCR and face recognition have produced their
answers. The model covers five pieces:

- **Field extraction.** `parse_kyc_details` reads OCR text and fills a record of
  six fields: Name, Document Number, Date Of Birth, Issue Date, Address and
  Nationality. Each field is tried against an ordered list of regular
  expressions, and a field with no match keeps the sentinel `"Not found"`.
  The patterns are written as syntax trees for a small backtracking matcher
  (`Regex`). The matcher follows Python's `re.search`: leftmost match, the
  first alternative first, greedy and lazy repetition, `\b`, `$`, numbered
  groups and IGNORECASE.
- **Face verdict.** `verify_faces` turns the face engines' outcome into
  `(message, matched)`. The outcome is one of three things: a DeepFace verdict,
  the Haar-cascade fallback's two "face present" flags, or an exception's text.
- **Fraud score.** `calculate_fraud_score` returns a capped integer score, a
  three-level risk tier and an ordered list of indicators.
- **Pipeline status.** `process_kyc` derives the status VERIFIED, MANUAL REVIEW
  REQUIRED or PROCESSING ERROR.
- **Utilities.** These are the utilities module's rules:
  - a second overall-status policy (`determine_overall_status`);
  - date normalisation (`validate_date_format`);
  - digit-run extraction (`extract_numbers`);
  - text cleaning (`clean_text`);
  - the image-size threshold (`validate_image`).

How the parts are modelled:

- Modules: `Wrappers` and `Text` hold helpers (Option, and ASCII versions of
  `str` methods), plus `Regex`, `KycParser`, `FaceMatch`, `FraudScore`,
  `Utils` and `KycAgent`.
- The parser and the fraud score accumulate state in the source, so each is a
  method proved equal to a specification function:
  - `ParseKycDetails` updates the record field by field, breaking out of each
    pattern loop at the first success;
  - `CalculateFraudScore` adds to the score and appends indicators. Its age
    block is the separate method `AgeCheck`, called where the block stands.
- The status block is a method that overwrites a default status.
- Everything else is pure functions with lemmas.
- Inputs that come from outside the code are parameters:
  - the OCR text;
  - the face engines' answers, as a `FaceOutcome`;
  - the current year;
  - the image's width and height.

A face-library initialisation error does not lead to PROCESSING ERROR. Its
message (src/kyc_agent.py:284) has no "CRITICAL ERROR" in it, so the status
block gives MANUAL REVIEW REQUIRED (`KycAgent.LibraryErrorGoesToReview`).

## Model

| member | source | states |
|---|---|---|
| KycParser.ParseKycDetails | src/kyc_agent.py:97-193 | The record built field by field equals `ParsedDetails(text)`. Text whose stripped length is below 10 gives the default record: five "Not found" and Nationality "NEPALESE". Nationality is always "NEPALESE". |
| KycParser.ParsedDetails | src/kyc_agent.py:97-193 | Nationality is always "NEPALESE". Text whose stripped length is below 10 gives the default record. |
| KycParser.FirstRuleMatch | src/kyc_agent.py:138-142 | The `for pattern ...: break` loop returns the value of the first pattern in list order that yields one, or nothing. |
| KycParser.FirstHitIsFirstSuccess | src/kyc_agent.py:169-173 | A field's value is `v` exactly when some pattern yields `v` and every earlier pattern yields nothing. Later patterns play no part. |
| KycParser.FirstHitNoneIffAllFail | src/kyc_agent.py:182-187 | A field stays "Not found" exactly when no pattern in its list yields a value. |
| KycParser.ApplyRuleShape | src/kyc_agent.py:118-128 | For one pattern, a name value is at least two filtered words joined by single spaces. A number, an issue date or a name takes its characters from the upper-cased text. A birth date contains '-'. An address starts with "District: ". |
| KycParser.NameOfShape | src/kyc_agent.py:118-128 | A found Name is at least two words, each longer than one character and not among DATE, YEAR, MONTH, DAY, OF, BIRTH, joined by single spaces. It is never the text "Not found". |
| KycParser.CapturedValueIsToken | src/kyc_agent.py:138-142 | For each document-number and issue-date pattern, the stripped group 1 it yields is a non-empty word without whitespace. |
| KycParser.DocumentNumberOfShape | src/kyc_agent.py:130-142 | A found Document Number is a non-empty word without whitespace, and it is never the text "Not found". |
| KycParser.IssueDateOfShape | src/kyc_agent.py:162-173 | A found Issue Date is a non-empty word without whitespace, and it is never the text "Not found". |
| KycParser.AddressOfShape | src/kyc_agent.py:182-187 | A found Address starts with "District: ". |
| KycParser.BirthDatePriority | src/kyc_agent.py:145-160 | When the YEAR/MONTH/DAY triple is present, it decides the Date of Birth. Otherwise the value is the first numeric pattern's three groups joined by '-', and it is "Not found" exactly when neither numeric pattern matches. |
| KycParser.ParsedDetailsWellFormed | src/kyc_agent.py:97-191 | Every parsed record has these properties. Nationality is "NEPALESE". A found Name is a filtered two-or-more-word name. A found Address starts with "District: ". A found Date of Birth contains '-'. A found Document Number or Issue Date is a non-empty word without whitespace. No found value equals "Not found", so the sentinel in the dictionary means exactly a missing field. |
| KycParser.UpperDrawnIsNotSentinel | src/kyc_agent.py:109 | A value made of characters of the upper-cased text, spaces and dashes cannot be "Not found". |
| FaceMatch.VerifyFaces | src/kyc_agent.py:260-285 | `matched` holds exactly in two cases, with the message "Faces Match!" or the basic-verification message. The cases are a DeepFace verdict with verified set, and the fallback with a face in both images. |
| FaceMatch.FailedVerdictMessage | src/kyc_agent.py:260-265 | A failed verdict gives the "not clearly detected" message exactly when the confidence (1.0 when absent) is below 0.5, and "Faces Do Not Match!" otherwise. Neither case matches. |
| FaceMatch.IdCardCheckedFirst | src/kyc_agent.py:274-279 | In the fallback the ID card is checked first. Without a face there the result is the ID-card message, whatever the selfie shows. |
| FaceMatch.RaisedNeverMatches | src/kyc_agent.py:281-285 | An exception never matches. A message mentioning cuda or dlib in any case gives the library message. Any other exception gives "CRITICAL ERROR during face verification: " followed by the exception text. |
| FaceMatch.CriticalIff | src/kyc_agent.py:260-285 | The message contains "CRITICAL ERROR" exactly when an exception other than a library error reached the outer handler. |
| FraudScore.CalculateFraudScore | src/kyc_agent.py:298-345 | The accumulated score is the sum of the penalties, capped at 100, so it lies in [0,100]. The penalties are 15 per missing value, 40 for unmatched faces, and 30 or 40 for the age. The tier is the score's tier and the indicators are the specified list. |
| FraudScore.AgeCheck | src/kyc_agent.py:316-332 | The age check adds the age penalty and its reason, as `AgePenalty` and `AgeIndicators` give them. With a Date of Birth holding a four-digit run, an age under 18 adds 30 and the under-18 reason, and an age over 120 adds 40 and the invalid-age reason. Otherwise it adds nothing. |
| FraudScore.RawScore | src/kyc_agent.py:298-331 | The uncapped score is at least 15 per missing value. It is at least 40 when the faces did not match. It is never above 170. |
| FraudScore.Indicators | src/kyc_agent.py:301-331 | There is one indicator for each check that added points. The "Could not extract" line comes first when a field is missing. The face line is present when the faces did not match. |
| FraudScore.TierThresholds | src/kyc_agent.py:338-343 | High exactly from 60, Medium exactly from 30 to 59, Low exactly below 30. |
| FraudScore.AgePenaltyCases | src/kyc_agent.py:326-331 | The age penalty is 30 exactly for an age under 18 and 40 exactly for an age over 120, never both. An indicator appears exactly when the penalty is not zero. |
| FraudScore.NoAgeWithoutYear | src/kyc_agent.py:317-322 | A missing Date of Birth, or one without a four-digit run, adds no points and no indicator. |
| FraudScore.MissingKeyIff | src/kyc_agent.py:302-309 | A key is named in "Could not extract" exactly when its value is "Not found". The list has one entry per missing value. |
| FraudScore.BlankRaisesScore | src/kyc_agent.py:302-308 | Blanking any field other than the Date of Birth adds 15 points when the field was present and never lowers the capped score. |
| FraudScore.FaceFailureAddsForty | src/kyc_agent.py:312-314 | Unmatched faces add exactly 40 points and never lower the capped score. |
| FraudScore.BlankingBirthDateCanLowerScore | src/kyc_agent.py:316-331 | Blanking the Date of Birth can lower the score. A complete record born on 2015-01-01, scored in 2025, drops from 30 (Medium) to 15 (Low). |
| FraudScore.FirstYearFromIsLeftmost | src/kyc_agent.py:320-322 | The year read is the value of the leftmost four-digit run, and there is none exactly when no four digits stand together. |
| FraudScore.FourDigitYearBound | src/kyc_agent.py:320-322 | The year read is at most 9999. |
| FraudScore.ZeroScoreIff | src/kyc_agent.py:298-335 | The score is 0, and the indicator list is empty, exactly when nothing is missing, the faces matched and the age raised no flag. |
| KycAgent.DeriveStatus | src/kyc_agent.py:378-384 | The default-then-overwrite block computes `StatusOf`. "CRITICAL ERROR" in the face message gives PROCESSING ERROR. Otherwise a "Not found" value or unmatched faces give MANUAL REVIEW REQUIRED. Otherwise the status is VERIFIED. |
| KycAgent.StatusOf | src/kyc_agent.py:378-384 | Each of the three statuses is chosen exactly under its condition, with the critical error overriding everything. |
| KycAgent.ProcessKyc | src/kyc_agent.py:358-384 | Without both images the result is the upload prompt. Otherwise the report combines the parsed record, the face result, the score, the tier, the indicators and the derived status. |
| KycAgent.ProcessingErrorIff | src/kyc_agent.py:281-285 | PROCESSING ERROR arises exactly from an exception in the face check that is not a library error. |
| KycAgent.LibraryErrorGoesToReview | src/kyc_agent.py:283-284 | A cuda/dlib failure ends in MANUAL REVIEW REQUIRED, not PROCESSING ERROR. |
| KycAgent.VerifiedReport | src/kyc_agent.py:378-381 | VERIFIED means every field was found and the faces matched. So the score is only the age penalty: at most 40, never High, with at most one indicator. |
| KycAgent.VerifiedAgrees | src/utils.py:201-215 | Whenever the pipeline says VERIFIED, `determine_overall_status` says VERIFIED for the same record, face result and score. |
| KycAgent.PoliciesDisagree | src/kyc_agent.py:380-381 | The two policies differ. With one to three fields missing, matching faces and a score below 60, the utilities say VERIFIED while the pipeline asks for review. |
| Utils.ValidateImage | src/utils.py:47-50 | An image is valid, with no message, exactly when width ≥ min_width and height ≥ min_height. Otherwise it fails with "Image too small. Minimum size: {w}x{h}". |
| Utils.ValidateImageMonotone | src/utils.py:29-50 | A larger image passes whenever a smaller one passes, including at the 400×400 defaults. |
| Utils.ValidateDateFormat | src/utils.py:114-129 | A success comes from a ten-character input. Any failure is exactly `(False, "Invalid date format")`. |
| Utils.Strptime | src/utils.py:123-127 | `strptime` fails exactly when the input is not ten characters long or its fields do not name a calendar date. A parsed date has a year of at most 9999, a month from 1 to 12 and a day from 1 to 31. |
| Utils.ValidDateIsIso | src/utils.py:114-129 | A success is a `YYYY-MM-DD` string, with the year written as four digits. |
| Utils.TrailingTextRejected | src/utils.py:121-127 | Input that is not exactly ten characters long is rejected. `re.match` lets trailing text through, but `strptime` must consume the whole string. |
| Utils.AcceptedIsCalendarDate | src/utils.py:123-125 | An accepted string holds an existing calendar date. |
| Utils.ImpossibleDateRejected | src/utils.py:123-129 | A date that does not exist is rejected with the fixed message. Examples are month 13, February 30, and February 29 outside a leap year. |
| Utils.CalendarExamples | src/utils.py:124 | February 29 exists in 2024 and 2000 but not in 2023 or 1900. There is no February 30, no month 13 and no year 0. |
| Utils.ShapesExclusive | src/utils.py:114-121 | At most one of the three layouts applies to a string, so the loop's fall-through never reaches a second layout. |
| Utils.DayFirstReordered | src/utils.py:116-125 | A valid `DD/MM/YYYY` input is reordered to `YYYY-MM-DD`, built from its own digits. |
| Utils.YearFirstKept | src/utils.py:115-125 | A valid `YYYY-MM-DD` or `YYYY/MM/DD` input keeps its digits, with dashes as separators. |
| Utils.ValidateDateIdempotent | src/utils.py:114-129 | Normalising a normalised date returns the same result. |
| Utils.ExtractNumbers | src/utils.py:142 | Every extracted number is non-empty and all digits. |
| Utils.ExtractNumbersKeepsDigits | src/utils.py:142 | The runs, concatenated, are exactly the text's digits in order. |
| Utils.ExtractNumbersOfRun | src/utils.py:142 | A non-empty all-digit text is one run, returned whole. |
| Utils.ExtractNumbersSplitAt | src/utils.py:142 | Runs are maximal and never cross a non-digit: for any non-digit `c`, the runs of `a + c + b` are the runs of `a` followed by the runs of `b`. |
| Utils.ExtractJoinedNumbers | src/utils.py:142 | Digit strings separated by one non-digit come back one per run. |
| Utils.CleanText | src/utils.py:156-161 | The cleaned text neither starts nor ends with whitespace. Its only whitespace is the space. Every character is a word character, a space or one of `- . , : /`. |
| Utils.CleanTextVisible | src/utils.py:156-161 | Cleaning removes only disallowed characters and whitespace. Leaving out spaces, the result is exactly the input's allowed non-whitespace characters, in their order. |
| Utils.CleanTextOfKeptText | src/utils.py:156-161 | When every character is allowed, each whitespace run between words becomes one space and the ends are trimmed. The result is the input's words joined by single spaces, and it splits into the same words. |
| Utils.CleanTextFixedPoint | src/utils.py:156-161 | Words of allowed characters joined by single spaces are left unchanged. |
| Utils.CleanTextNotIdempotent | src/utils.py:156-161 | A dropped character between two spaces leaves the double space "u  v". Only a second pass makes it "u v". |
| Utils.HighRiskFirst | src/utils.py:201-202 | A fraud score of 60 or more gives "REJECTED - High fraud risk", whatever the face check and the fields say. |
| Utils.FaceMismatchSecond | src/utils.py:204-205 | Below 60, a false or missing `'match'` key gives "REJECTED - Face mismatch", whatever the fields say. |
| Utils.DetermineOverallStatus | src/utils.py:201-215 | The result is VERIFIED exactly when the score is below 60, match is true and at most 3 values are "Not found". With 4 or more missing it is MANUAL REVIEW REQUIRED. |

Helper definitions that have no row of their own, because the rows above state their properties:
- `FraudScore.TierOf` is used by `FraudScore.TierThresholds`;
- `Utils.IsoText` and `Utils.ValidateWith` are used by `Utils.ValidateDateFormat` and the date lemmas after it;
- `Utils.KeepAllowed` (src/utils.py:159) is used by the `Utils.CleanText` rows;
- `KycAgent.Processed` is used by `KycAgent.ProcessKyc`.

## Left out

- OCR (`extract_text_from_document`, EasyOCR): a foreign ML library. Its text is an input.
- DeepFace, the `/tmp` image writes and OpenCV Haar detection (`detect_face_opencv`): foreign calls and file I/O. Their answers are the `FaceOutcome` input. An exception inside `detect_face_opencv` is caught there and modelled as "no face".
- Report text formatting, emoji tier labels and `datetime.now()` timestamps in `process_kyc`, and `format_report_json`. These are cosmetic or clock-based. The report is the record of the values it shows.
- The outer `try` of `process_kyc`: every modelled stage is total, so its `PROCESSING ERROR: ...` path is out of reach of the model.
- `preprocess_image`, `calculate_image_quality` and `convert_image_format`: OpenCV image processing and floating-point Laplacian variance.
- `save_verification_log`: file I/O.
- src/app.py and src/__init__.py: user interface and package metadata, no decision logic.
- The exception branch of `validate_image` ("Image validation error: ..."): reading an image's size is not modelled, so width and height are inputs.
- Character semantics are ASCII:
  - `\w`, `\s`, `\d`, `str.split`, `str.strip`, `upper()` and `lower()`. Whitespace is Python's ASCII whitespace: \t to \r, U+001C to U+001F and the space;
  - non-ASCII whitespace (U+0085, U+00A0, U+2028 and others), Python's other Unicode classes and its case mappings, including `upper()` changing the length of the text, are not modelled.
- `regex`-module features the patterns do not use.
- ApplyRuleShape: the digit layout of each captured group (for example `dd-dd-dddd` for the day-first fallback) is not proved. The fallback's capture order is stated by the definition, not by a lemma.
- IsoText: years below 1000 are zero-padded to four digits. glibc's `strftime('%Y')` does not pad them, so there "0999-01-01" gives "999-01-01".
- ValidDateIsIso: the four-digit year holds only where `strftime('%Y')` zero-pads years below 1000. With glibc's unpadded `%Y`, "0999-01-01" gives "999-01-01".
- DayFirstReordered: the result is built from the input's own digits only where `strftime('%Y')` zero-pads the year. With glibc, "01/01/0999" gives "999-01-01".
- YearFirstKept: the input's digits are kept only where `strftime('%Y')` zero-pads the year. With glibc, "0999-01-01" gives "999-01-01".
- ValidateDateIdempotent: a second pass gives the same result only where `strftime('%Y')` zero-pads the year. With glibc, "0999-01-01" gives "999-01-01", and that is then rejected.
- Python truthiness in `determine_overall_status` is limited to booleans and integers. The `'match'` entry is a boolean or absent. The `'fraud_score'` entry is an integer or absent.
- The face confidence is a `real`. Floating-point rounding is not modelled.
- CleanText: when a disallowed character is dropped from between two spaces, where the spaces of the result fall is shown by `CleanTextNotIdempotent` alone. `CleanTextVisible` states what the other characters are and their order.
