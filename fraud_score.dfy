/**
 * `KYCAgent.calculate_fraud_score`: 15 points per missing field, 40 for a failed
 * face check, 30 for an age under 18 or 40 for an age over 120, capped at 100,
 * then a three-level risk tier and the list of reasons. The current year is a
 * parameter instead of `datetime.now()`.
 */
module FraudScore {
  import opened Wrappers
  import opened Text
  import opened KycParser

  datatype RiskTier = Low | Medium | High

  /** The tier the score falls in. */
  function TierOf(score: int): RiskTier
  {
    if score >= 60 then High else if score >= 30 then Medium else Low
  }

  /** `value == "Not found"`: what the dictionary holds is the sentinel text. */
  predicate IsMissing(f: Field) {
    FieldText(f) == NotFoundText
  }

  /** The names in `names` whose value is missing, in order. */
  function MissingFrom(names: seq<string>, values: seq<Field>): (r: seq<string>)
    requires |names| == |values|
    ensures |r| <= |names|
    ensures forall k :: 0 <= k < |r| ==> r[k] in names
  {
    if names == [] then []
    else (if IsMissing(values[0]) then [names[0]] else []) + MissingFrom(names[1..], values[1..])
  }

  /** `missing_fields`: the keys whose value is "Not found", in dictionary order. */
  function MissingKeys(d: KycDetails): seq<string>
  {
    MissingFrom(KeyNames, Values(d))
  }

  /** The number of missing values. */
  function CountMissing(values: seq<Field>): nat
  {
    if values == [] then 0 else (if IsMissing(values[0]) then 1 else 0) + CountMissing(values[1..])
  }

  // --- the year in a Date of Birth ---------------------------------------------

  /** Four digits start at position `i` of `s`. */
  predicate FourDigitsAt(s: string, i: nat) {
    i + 4 <= |s| && forall j :: i <= j < i + 4 ==> IsDigit(s[j])
  }

  /** `re.search(r'(\d{4})', s)` from position `i` on: the value of the leftmost four-digit run. */
  function FirstYearFrom(s: string, i: nat): Option<nat>
    decreases |s| - i
  {
    if i + 4 > |s| then None
    else if FourDigitsAt(s, i) then Some(DigitsValue(s[i..i + 4]))
    else FirstYearFrom(s, i + 1)
  }

  function FirstYear(s: string): Option<nat> { FirstYearFrom(s, 0) }

  /** The age, when the Date of Birth is present and has a four-digit run. */
  function AgeOf(d: KycDetails, currentYear: int): Option<int>
  {
    if IsMissing(d.dateOfBirth) then None
    else
      match FirstYear(FieldText(d.dateOfBirth))
      case None => None
      case Some(year) => Some(currentYear - year)
  }

  function AgePenalty(age: Option<int>): nat
  {
    match age
    case None => 0
    case Some(a) => if a < 18 then 30 else if a > 120 then 40 else 0
  }

  // --- the specification -------------------------------------------------------

  const FaceIndicator: string := "Face verification failed or faces did not match."

  function MissingIndicator(missing: seq<string>): string
  {
    "Could not extract: " + Join(", ", missing)
  }

  function AgeIndicators(age: Option<int>): seq<string>
  {
    match age
    case None => []
    case Some(a) =>
      if a < 18 then ["Person appears to be under 18 (age: " + IntToString(a) + ")"]
      else if a > 120 then ["Invalid age calculated: " + IntToString(a)]
      else []
  }

  /**
   * The uncapped sum of the penalties: at least 15 per missing value, at least 40
   * when the faces did not match, and never more than 6 * 15 + 40 + 40.
   */
  function RawScore(d: KycDetails, faceMatched: bool, currentYear: int): (r: nat)
    ensures 15 * CountMissing(Values(d)) <= r
    ensures !faceMatched ==> r >= 40
    ensures r <= 170
  {
    MissingFromCounts(KeyNames, Values(d));
    15 * |MissingKeys(d)| + (if faceMatched then 0 else 40) + AgePenalty(AgeOf(d, currentYear))
  }

  function Capped(score: int): int { if score < 100 then score else 100 }

  /** The reasons, in the order the checks run: one for each check that added points. */
  function Indicators(d: KycDetails, faceMatched: bool, currentYear: int): (r: seq<string>)
    ensures |r| == (if MissingKeys(d) == [] then 0 else 1) + (if faceMatched then 0 else 1)
                   + (if AgePenalty(AgeOf(d, currentYear)) == 0 then 0 else 1)
    ensures MissingKeys(d) != [] ==> r[0] == MissingIndicator(MissingKeys(d))
    ensures !faceMatched ==> FaceIndicator in r
  {
    AgePenaltyCases(AgeOf(d, currentYear));
    (if MissingKeys(d) != [] then [MissingIndicator(MissingKeys(d))] else [])
    + (if faceMatched then [] else [FaceIndicator])
    + AgeIndicators(AgeOf(d, currentYear))
  }

  // --- the imperative computation ----------------------------------------------

  /** `calculate_fraud_score`: accumulates the score and the indicators check by check. */
  method CalculateFraudScore(d: KycDetails, faceMatched: bool, currentYear: int)
    returns (score: int, tier: RiskTier, indicators: seq<string>)
    ensures score == Capped(RawScore(d, faceMatched, currentYear))
    ensures 0 <= score <= 100
    ensures tier == TierOf(score)
    ensures indicators == Indicators(d, faceMatched, currentYear)
  {
    score := 0;
    indicators := [];

    var missing := MissingKeys(d);
    ghost var missingPart := if missing != [] then [MissingIndicator(missing)] else [];
    if missing != [] {
      score := score + |missing| * 15;
      indicators := indicators + [MissingIndicator(missing)];
    }
    assert indicators == missingPart;

    ghost var facePart := if faceMatched then [] else [FaceIndicator];
    if !faceMatched {
      score := score + 40;
      indicators := indicators + [FaceIndicator];
    }

    var points, reasons := AgeCheck(d, currentYear);
    score := score + points;
    indicators := indicators + reasons;
    IndicatorsParts(d, faceMatched, currentYear);
    assert indicators == missingPart + facePart + reasons;

    score := if score < 100 then score else 100;

    if score >= 60 {
      tier := High;
    } else if score >= 30 {
      tier := Medium;
    } else {
      tier := Low;
    }
  }

  /** The age block of `calculate_fraud_score`: the points and the reason it adds. */
  method AgeCheck(d: KycDetails, currentYear: int) returns (points: nat, reasons: seq<string>)
    ensures points == AgePenalty(AgeOf(d, currentYear))
    ensures reasons == AgeIndicators(AgeOf(d, currentYear))
  {
    points, reasons := 0, [];
    if !IsMissing(d.dateOfBirth) {
      var year := FirstYear(FieldText(d.dateOfBirth));
      if year.Some? {
        var age := currentYear - year.value;
        if age < 18 {
          points := 30;
          reasons := ["Person appears to be under 18 (age: " + IntToString(age) + ")"];
        } else if age > 120 {
          points := 40;
          reasons := ["Invalid age calculated: " + IntToString(age)];
        }
      }
    }
  }

  /** The indicators and the raw score, check by check. */
  lemma IndicatorsParts(d: KycDetails, faceMatched: bool, currentYear: int)
    ensures Indicators(d, faceMatched, currentYear) ==
      (if MissingKeys(d) != [] then [MissingIndicator(MissingKeys(d))] else [])
      + (if faceMatched then [] else [FaceIndicator])
      + AgeIndicators(AgeOf(d, currentYear))
    ensures RawScore(d, faceMatched, currentYear) ==
      15 * |MissingKeys(d)| + (if faceMatched then 0 else 40) + AgePenalty(AgeOf(d, currentYear))
  {
  }

  // --- lemmas ------------------------------------------------------------------

  /** The tier boundaries: High from 60, Medium from 30 to 59, Low below 30. */
  lemma TierThresholds(score: int)
    ensures TierOf(score) == High <==> score >= 60
    ensures TierOf(score) == Medium <==> 30 <= score < 60
    ensures TierOf(score) == Low <==> score < 30
  {
  }

  /** The age penalty is 30 exactly for an age under 18, 40 exactly for an age over 120, and never both. */
  lemma AgePenaltyCases(age: Option<int>)
    ensures AgePenalty(age) in {0, 30, 40}
    ensures AgePenalty(age) == 30 <==> age.Some? && age.value < 18
    ensures AgePenalty(age) == 40 <==> age.Some? && age.value > 120
    ensures |AgeIndicators(age)| == (if AgePenalty(age) == 0 then 0 else 1)
  {
  }

  /** Without a Date of Birth, or without a four-digit run in it, age adds nothing. */
  lemma NoAgeWithoutYear(d: KycDetails, currentYear: int)
    requires IsMissing(d.dateOfBirth) || FirstYear(FieldText(d.dateOfBirth)) == None
    ensures AgePenalty(AgeOf(d, currentYear)) == 0
    ensures AgeIndicators(AgeOf(d, currentYear)) == []
  {
  }

  /** The missing list has one key per missing value, and a key is in it exactly when its value is missing. */
  lemma {:induction false} MissingFromCounts(names: seq<string>, values: seq<Field>)
    requires |names| == |values|
    ensures |MissingFrom(names, values)| == CountMissing(values)
  {
    if names != [] {
      MissingFromCounts(names[1..], values[1..]);
    }
  }

  lemma {:induction false} MissingFromMember(names: seq<string>, values: seq<Field>, k: nat)
    requires |names| == |values| && k < |names|
    requires forall a, b :: 0 <= a < b < |names| ==> names[a] != names[b]
    ensures names[k] in MissingFrom(names, values) <==> IsMissing(values[k])
  {
    if k > 0 {
      MissingFromMember(names[1..], values[1..], k - 1);
      assert names[k] != names[0];
    } else if names[1..] != [] {
      assert names[0] !in names[1..];
    }
  }

  /** "Could not extract" names exactly the keys whose value is "Not found". */
  lemma MissingKeyIff(d: KycDetails, k: nat)
    requires k < |KeyNames|
    ensures KeyNames[k] in MissingKeys(d) <==> IsMissing(Values(d)[k])
    ensures |MissingKeys(d)| == CountMissing(Values(d))
  {
    MissingFromMember(KeyNames, Values(d), k);
    MissingFromCounts(KeyNames, Values(d));
  }

  /** `d` with the value at position `k` replaced by the sentinel. */
  function Blank(d: KycDetails, k: nat): KycDetails
    requires k < |KeyNames|
  {
    if k == 0 then d.(name := NotFound)
    else if k == 1 then d.(documentNumber := NotFound)
    else if k == 2 then d.(dateOfBirth := NotFound)
    else if k == 3 then d.(issueDate := NotFound)
    else if k == 4 then d.(address := NotFound)
    else d.(nationality := NotFound)
  }

  lemma {:induction false} CountMissingBlank(values: seq<Field>, k: nat)
    requires k < |values|
    ensures CountMissing(values[k := NotFound]) == CountMissing(values) + (if IsMissing(values[k]) then 0 else 1)
  {
    if k > 0 {
      assert values[k := NotFound][1..] == values[1..][k - 1 := NotFound];
      CountMissingBlank(values[1..], k - 1);
    } else {
      assert values[k := NotFound][1..] == values[1..];
    }
  }

  /**
   * Losing a field other than the Date of Birth never lowers the score: the field
   * adds 15 points when it was present, and the age penalty does not change.
   */
  lemma BlankRaisesScore(d: KycDetails, k: nat, faceMatched: bool, currentYear: int)
    requires k < |KeyNames| && k != 2
    ensures RawScore(Blank(d, k), faceMatched, currentYear) ==
      RawScore(d, faceMatched, currentYear) + (if IsMissing(Values(d)[k]) then 0 else 15)
    ensures Capped(RawScore(Blank(d, k), faceMatched, currentYear)) >= Capped(RawScore(d, faceMatched, currentYear))
  {
    assert Values(Blank(d, k)) == Values(d)[k := NotFound];
    CountMissingBlank(Values(d), k);
    MissingFromCounts(KeyNames, Values(d));
    MissingFromCounts(KeyNames, Values(Blank(d, k)));
  }

  /** A failed face check adds exactly 40 points before the cap. */
  lemma FaceFailureAddsForty(d: KycDetails, currentYear: int)
    ensures RawScore(d, false, currentYear) == RawScore(d, true, currentYear) + 40
    ensures Capped(RawScore(d, false, currentYear)) >= Capped(RawScore(d, true, currentYear))
  {
  }

  /** The year read from "2015-01-01" is 2015. */
  lemma YearOfBirthDate2015()
    ensures FirstYear("2015-01-01") == Some(2015)
  {
    assert FourDigitsAt("2015-01-01", 0) && "2015-01-01"[0..4] == "2015";
    assert DigitsValue("2015") == 2015 by {
      assert "2015"[..3] == "201" && "201"[..2] == "20" && "20"[..1] == "2" && "2"[..0] == "";
    }
  }

  /**
   * Blanking the Date of Birth can lower the score, because the under-18 penalty
   * goes with it: a complete record born on 2015-01-01 (a value the year-first
   * date pattern yields), scored in 2025 with matching faces, drops from Medium to Low.
   */
  lemma BlankingBirthDateCanLowerScore(d: KycDetails)
    requires CountMissing(Values(d)) == 0 && d.dateOfBirth == Found("2015-01-01")
    ensures RawScore(d, true, 2025) == 30 && TierOf(30) == Medium
    ensures RawScore(Blank(d, 2), true, 2025) == 15 && TierOf(15) == Low
  {
    YearOfBirthDate2015();
    assert AgeOf(d, 2025) == Some(10);
    MissingFromCounts(KeyNames, Values(d));
    assert Values(Blank(d, 2)) == Values(d)[2 := NotFound];
    CountMissingBlank(Values(d), 2);
    MissingFromCounts(KeyNames, Values(Blank(d, 2)));
  }

  /** The year read from a Date of Birth is the value of its leftmost four-digit run. */
  lemma {:induction false} FirstYearFromIsLeftmost(s: string, i: nat)
    ensures FirstYearFrom(s, i).None? <==> forall j :: i <= j && FourDigitsAt(s, j) ==> false
    ensures FirstYearFrom(s, i).Some? ==>
      exists j :: (i <= j && FourDigitsAt(s, j) && FirstYearFrom(s, i).value == DigitsValue(s[j..j + 4])
                   && (forall j' :: i <= j' < j ==> !FourDigitsAt(s, j')))
    decreases |s| - i
  {
    if i + 4 > |s| {
    } else if FourDigitsAt(s, i) {
    } else {
      FirstYearFromIsLeftmost(s, i + 1);
      if FirstYearFrom(s, i).Some? {
        var j :| i + 1 <= j && FourDigitsAt(s, j) &&
          FirstYearFrom(s, i).value == DigitsValue(s[j..j + 4]) &&
          (forall j' :: i + 1 <= j' < j ==> !FourDigitsAt(s, j'));
        assert forall j' :: i <= j' < j ==> !FourDigitsAt(s, j');
      }
    }
  }

  /** A four-digit value is below 10000. */
  lemma FourDigitYearBound(s: string)
    ensures FirstYear(s).Some? ==> FirstYear(s).value <= 9999
  {
    FirstYearFromIsLeftmost(s, 0);
    if FirstYear(s).Some? {
      var j :| 0 <= j && FourDigitsAt(s, j) && FirstYear(s).value == DigitsValue(s[j..j + 4]) &&
        (forall j' :: 0 <= j' < j ==> !FourDigitsAt(s, j'));
      DigitsValueBound(s[j..j + 4]);
      assert Pow10(4) == 10000;
    }
  }

  /** The score is zero exactly when nothing is missing, the faces matched and the age raised no flag. */
  lemma ZeroScoreIff(d: KycDetails, faceMatched: bool, currentYear: int)
    ensures Capped(RawScore(d, faceMatched, currentYear)) == 0 <==>
      MissingKeys(d) == [] && faceMatched && AgePenalty(AgeOf(d, currentYear)) == 0
    ensures Indicators(d, faceMatched, currentYear) == [] <==>
      MissingKeys(d) == [] && faceMatched && AgePenalty(AgeOf(d, currentYear)) == 0
  {
    AgePenaltyCases(AgeOf(d, currentYear));
  }
}
