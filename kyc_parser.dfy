/**
 * Field extraction from OCR text (`KYCAgent.parse_kyc_details`): six fields, each
 * filled by the first of an ordered list of patterns that yields a value, or left
 * at the "Not found" sentinel.
 */
module KycParser {
  import opened Wrappers
  import opened Text
  import opened Regex

  /** One value of the details record: a parsed string or the "Not found" sentinel. */
  datatype Field = NotFound | Found(value: string)

  /** The six-key details dictionary; every key is always present. */
  datatype KycDetails = KycDetails(
    name: Field,
    documentNumber: Field,
    dateOfBirth: Field,
    issueDate: Field,
    address: Field,
    nationality: Field)

  /** The string the source stores for a missing value. */
  const NotFoundText: string := "Not found"

  /** The dictionary the parser starts from: five fields missing, Nationality "NEPALESE". */
  const DefaultDetails: KycDetails :=
    KycDetails(NotFound, NotFound, NotFound, NotFound, NotFound, Found("NEPALESE"))

  /** The dictionary's keys, in insertion order. */
  const KeyNames: seq<string> :=
    ["Name", "Document Number", "Date Of Birth", "Issue Date", "Address", "Nationality"]

  /** The dictionary's values, in the order of `KeyNames`. */
  function Values(d: KycDetails): (vs: seq<Field>)
    ensures |vs| == |KeyNames|
  {
    [d.name, d.documentNumber, d.dateOfBirth, d.issueDate, d.address, d.nationality]
  }

  /** The value as the source stores it in the dictionary. */
  function FieldText(f: Field): string
  {
    match f
    case NotFound => NotFoundText
    case Found(v) => v
  }

  function FromOption(o: Option<string>): (f: Field)
    ensures f.Found? <==> o.Some?
    ensures o.Some? ==> f.value == o.value
  {
    match o
    case None => NotFound
    case Some(v) => Found(v)
  }

  // --- the patterns of the source, one per list entry ---------------------------

  const S: Re := AnySpace
  /** `[A-Z\s]` */
  const UpperOrSpace: Re := Class([Range('A', 'Z'), Space], false)
  /** `[:\.]` */
  const ColonOrDot: Re := Class([Single(':'), Single('.')], false)
  /** `[\d-]` */
  const DigitOrDash: Re := Class([Digit, Single('-')], false)
  /** `[-/]` and `[/-]` */
  const DashOrSlash: Re := Class([Single('-'), Single('/')], false)
  /** `[-.]` */
  const DashOrDot: Re := Class([Single('-'), Single('.')], false)
  /** `[A-Za-z]` */
  const Letter: Re := Class([Range('A', 'Z'), Range('a', 'z')], false)

  function Many(r: Re): Re { Star(r, true) }

  /** `FULL\s+NAME\s*\n\s*([A-Z\s]+?)\s*(\n|$)` */
  const FullNamePattern: Re := Cat([
    Str("FULL"), Plus(S), Str("NAME"), Many(S), Lit('\n'), Many(S),
    Group(1, LazyPlus(UpperOrSpace)), Many(S), Group(2, Alt(Lit('\n'), EndOfText))])

  /** `<label>\s*[:\.]?\s*\n?\s*([A-Z\s]{3,50})` for the titles NAME and NAAM */
  function LabelledNamePattern(title: string): Re
  {
    Cat([Str(title), Many(S), Opt(ColonOrDot), Many(S), Opt(Lit('\n')), Many(S),
         Group(1, Rep(UpperOrSpace, 3, 50))])
  }

  const NamePatterns: seq<Re> :=
    [FullNamePattern, LabelledNamePattern("NAME"), LabelledNamePattern("NAAM")]

  /** `CERTIFICATE\s+NO\.?\s*[:\.\s]*\n?([\d-]+)` */
  const CertificateNumberPattern: Re := Cat([
    Str("CERTIFICATE"), Plus(S), Str("NO"), Opt(Lit('.')), Many(S),
    Many(Class([Single(':'), Single('.'), Space], false)), Opt(Lit('\n')),
    Group(1, Plus(DigitOrDash))])

  /** `<label>\s+NO\.?\s*[:\.]?\s*([\d-]+)` for the titles CITIZENSHIP and ID */
  function LabelledNumberPattern(title: string): Re
  {
    Cat([Str(title), Plus(S), Str("NO"), Opt(Lit('.')), Many(S), Opt(ColonOrDot), Many(S),
         Group(1, Plus(DigitOrDash))])
  }

  /** `\b(\d{2,3}[-/]\d{2,3}[-/]\d{2,3}[-/]\d{2,5})\b` */
  const BareNumberPattern: Re := Cat([WordBoundary, Group(1, BareNumberBody), WordBoundary])

  /** `\d{2,3}[-/]\d{2,3}[-/]\d{2,3}[-/]\d{2,5}` */
  const BareNumberBody: Re := Cat([
    Rep(AnyDigit, 2, 3), DashOrSlash, Rep(AnyDigit, 2, 3), DashOrSlash,
    Rep(AnyDigit, 2, 3), DashOrSlash, Rep(AnyDigit, 2, 5)])

  const DocumentNumberPatterns: seq<Re> := [
    CertificateNumberPattern, LabelledNumberPattern("CITIZENSHIP"),
    LabelledNumberPattern("ID"), BareNumberPattern]

  /** `YEAR\s*:\s*(\d{4})\s*MONTH\s*:\s*([A-Z]{3})\s*DAY\s*\.?\s*(\d{1,2})` */
  const BirthTriplePattern: Re := Cat([
    Str("YEAR"), Many(S), Lit(':'), Many(S), Group(1, Rep(AnyDigit, 4, 4)), Many(S),
    Str("MONTH"), Many(S), Lit(':'), Many(S), Group(2, Rep(Class([Range('A', 'Z')], false), 3, 3)),
    Many(S), Str("DAY"), Many(S), Opt(Lit('.')), Many(S), Group(3, Rep(AnyDigit, 1, 2))])

  /** `\b(\d{a})[/-](\d{b})[/-](\d{c})\b` */
  function NumericDatePattern(a: nat, b: nat, c: nat): Re
  {
    Cat([WordBoundary, Group(1, Rep(AnyDigit, a, a)), DashOrSlash, Group(2, Rep(AnyDigit, b, b)),
         DashOrSlash, Group(3, Rep(AnyDigit, c, c)), WordBoundary])
  }

  /** The fallbacks for Date of Birth: year first, then day first. */
  const NumericDatePatterns: seq<Re> := [NumericDatePattern(4, 2, 2), NumericDatePattern(2, 2, 4)]

  /** `\d{4}<sep>\d{2}<sep>\d{2}` */
  function YearFirstDate(sep: Re): Re
  {
    Cat([Rep(AnyDigit, 4, 4), sep, Rep(AnyDigit, 2, 2), sep, Rep(AnyDigit, 2, 2)])
  }

  /** `<w1>\s+<w2>\s*[:\.]?\s*(\d{4}[/-]\d{2}[/-]\d{2})` for ISSUE DATE and ISSUED ON */
  function LabelledIssuePattern(w1: string, w2: string): Re
  {
    Cat([Str(w1), Plus(S), Str(w2), Many(S), Opt(ColonOrDot), Many(S),
         Group(1, YearFirstDate(DashOrSlash))])
  }

  const IssueDatePatterns: seq<Re> := [
    LabelledIssuePattern("ISSUE", "DATE"), LabelledIssuePattern("ISSUED", "ON"),
    Group(1, YearFirstDate(DashOrDot))]

  /** `PERMANENT\s+ADDRESS[\s\S]*?DISTRICT\s*:\s*([A-Za-z]+)` */
  const PermanentAddressPattern: Re := Cat([
    Str("PERMANENT"), Plus(S), Str("ADDRESS"), Star(AnyChar, false),
    Str("DISTRICT"), Many(S), Lit(':'), Many(S), Group(1, Plus(Letter))])

  /** `DISTRICT\s*:\s*([A-Za-z]+)` */
  const DistrictPattern: Re := Cat([
    Str("DISTRICT"), Many(S), Lit(':'), Many(S), Group(1, Plus(Letter))])

  /** `ADDRESS\s*[:\.]?\s*([A-Z\s,]+)` */
  const AddressPattern: Re := Cat([
    Str("ADDRESS"), Many(S), Opt(ColonOrDot), Many(S),
    Group(1, Plus(Class([Range('A', 'Z'), Space, Single(',')], false)))])

  const AddressPatterns: seq<Re> := [PermanentAddressPattern, DistrictPattern, AddressPattern]

  // --- what a successful match contributes, per field ---------------------------

  /** The field a pattern list belongs to; it fixes the flags and the post-processing. */
  datatype FieldRule = NameRule | DocumentNumberRule | BirthDateRule | IssueDateRule | AddressRule

  const NoiseWords: seq<string> := ["DATE", "YEAR", "MONTH", "DAY", "OF", "BIRTH"]

  /** The words kept for a name: longer than one character and not a noise word. */
  function KeepNameWords(ws: seq<string>): (r: seq<string>)
    ensures forall k :: 0 <= k < |r| ==> r[k] in ws && |r[k]| > 1 && r[k] !in NoiseWords
  {
    if ws == [] then []
    else (if |ws[0]| > 1 && ws[0] !in NoiseWords then [ws[0]] else []) + KeepNameWords(ws[1..])
  }

  function NameWords(candidate: string): (r: seq<string>)
    ensures forall k :: 0 <= k < |r| ==> IsToken(r[k]) && |r[k]| > 1 && r[k] !in NoiseWords
  {
    KeepNameWords(Split(candidate))
  }

  /** A name as the parser stores it: at least two kept words joined by single spaces. */
  predicate IsPersonName(n: string) {
    var ws := Split(n);
    |ws| >= 2 && n == Join(" ", ws) &&
    forall k :: 0 <= k < |ws| ==> |ws[k]| > 1 && ws[k] !in NoiseWords
  }

  /** Whether the patterns of a field are searched with IGNORECASE. */
  function IgnoresCase(rule: FieldRule): bool
  {
    rule != BirthDateRule && rule != IssueDateRule
  }

  /** Every character of `v` is a character of `s` or a joining `' '` / `'-'`. */
  predicate DrawnFrom(v: string, s: string) {
    forall i :: 0 <= i < |v| ==> v[i] in s || v[i] == ' ' || v[i] == '-'
  }

  /**
   * What one pattern contributes to its field: nothing when it does not match,
   * and for a name also nothing when fewer than two words survive the filter.
   */
  function ApplyRule(rule: FieldRule, p: Re, s: string): Option<string>
  {
    match Search(p, s, IgnoresCase(rule))
    case None => None
    case Some(m) => RuleValue(rule, s, m)
  }

  /** The value a match yields for the field, from its groups. */
  function RuleValue(rule: FieldRule, s: string, m: Match): Option<string>
    requires ValidGroups(m.groups, |s|)
  {
    var g1 := GroupText(s, m, 1);
    match rule
    case NameRule =>
      var words := NameWords(Strip(g1));
      if |words| >= 2 then Some(Join(" ", words)) else None
    case DocumentNumberRule => Some(Strip(g1))
    case BirthDateRule => Some(g1 + "-" + GroupText(s, m, 2) + "-" + GroupText(s, m, 3))
    case IssueDateRule => Some(Strip(g1))
    case AddressRule => Some("District: " + Strip(g1))
  }

  /** What each pattern of the list contributes, in list order. */
  function Outcomes(rule: FieldRule, ps: seq<Re>, s: string): (os: seq<Option<string>>)
    ensures |os| == |ps| && forall j :: 0 <= j < |ps| ==> os[j] == ApplyRule(rule, ps[j], s)
  {
    seq(|ps|, j requires 0 <= j < |ps| => ApplyRule(rule, ps[j], s))
  }

  /** The first value in a list of outcomes. */
  function FirstSome(os: seq<Option<string>>): Option<string>
  {
    if os == [] then None else if os[0].Some? then os[0] else FirstSome(os[1..])
  }

  /** The value of the first pattern, in list order, that yields one. */
  function FirstHit(rule: FieldRule, ps: seq<Re>, s: string): Option<string>
  {
    FirstSome(Outcomes(rule, ps, s))
  }

  /** The structured `YEAR: yyyy MONTH: MON DAY: dd` triple, rendered year-month-day. */
  function BirthDateTriple(upper: string): (r: Option<string>)
    ensures r.Some? ==> '-' in r.value && DrawnFrom(r.value, upper)
  {
    match Search(BirthTriplePattern, upper, true)
    case None => None
    case Some(m) =>
      var year, month, day := GroupText(upper, m, 1), GroupText(upper, m, 2), GroupText(upper, m, 3);
      assert (year + "-" + month + "-" + day)[|year|] == '-';
      Some(year + "-" + month + "-" + day)
  }

  /** Date of Birth: the triple when present, else the first numeric date shape in the original text. */
  function BirthDate(text: string, upper: string): Field
  {
    match BirthDateTriple(upper)
    case Some(v) => Found(v)
    case None => FromOption(FirstHit(BirthDateRule, NumericDatePatterns, text))
  }

  function NameOf(upper: string): Field { FromOption(FirstHit(NameRule, NamePatterns, upper)) }

  function DocumentNumberOf(upper: string): Field
  {
    FromOption(FirstHit(DocumentNumberRule, DocumentNumberPatterns, upper))
  }

  function IssueDateOf(upper: string): Field { FromOption(FirstHit(IssueDateRule, IssueDatePatterns, upper)) }

  function AddressOf(upper: string): Field { FromOption(FirstHit(AddressRule, AddressPatterns, upper)) }

  /**
   * The record `parse_kyc_details` returns for `text`: Nationality is always
   * "NEPALESE", and text shorter than ten characters once stripped gives the
   * default record.
   */
  function ParsedDetails(text: string): (d: KycDetails)
    ensures d.nationality == Found("NEPALESE")
    ensures |Strip(text)| < 10 ==> d == DefaultDetails
  {
    if |text| == 0 || |Strip(text)| < 10 then DefaultDetails
    else
      var upper := Upper(text);
      // the "NEPAL"/"CITIZENSHIP" test assigns the value Nationality already has
      KycDetails(NameOf(upper), DocumentNumberOf(upper), BirthDate(text, upper),
                 IssueDateOf(upper), AddressOf(upper), Found("NEPALESE"))
  }

  // --- the imperative parser -------------------------------------------------

  /** The `for pattern in ...: ... break` loop of one field. */
  method FirstRuleMatch(rule: FieldRule, patterns: seq<Re>, s: string) returns (hit: Option<string>)
    ensures hit == FirstHit(rule, patterns, s)
  {
    hit := None;
    var k := 0;
    while k < |patterns|
      invariant 0 <= k <= |patterns|
      invariant FirstHit(rule, patterns, s) == FirstSome(Outcomes(rule, patterns, s)[k..])
    {
      var candidate := ApplyRule(rule, patterns[k], s);
      FirstHitStep(rule, patterns, s, k);
      if candidate.Some? {
        hit := candidate;
        break;
      }
      k := k + 1;
    }
  }

  /** `parse_kyc_details`: fills the details record field by field. */
  method ParseKycDetails(text: string) returns (details: KycDetails)
    ensures details == ParsedDetails(text)
    ensures |Strip(text)| < 10 ==> details == DefaultDetails
    ensures details.nationality == Found("NEPALESE")
  {
    details := DefaultDetails;
    if |text| == 0 || |Strip(text)| < 10 {
      return;
    }
    var upper := Upper(text);

    var name := FirstRuleMatch(NameRule, NamePatterns, upper);
    if name.Some? {
      details := details.(name := Found(name.value));
    }
    ghost var nameField := NameOf(upper);
    assert details == DefaultDetails.(name := nameField);

    var number := FirstRuleMatch(DocumentNumberRule, DocumentNumberPatterns, upper);
    if number.Some? {
      details := details.(documentNumber := Found(number.value));
    }
    ghost var numberField := DocumentNumberOf(upper);
    assert details == KycDetails(nameField, numberField, NotFound, NotFound, NotFound, Found("NEPALESE"));

    var triple := BirthDateTriple(upper);
    if triple.Some? {
      details := details.(dateOfBirth := Found(triple.value));
    } else {
      var date := FirstRuleMatch(BirthDateRule, NumericDatePatterns, text);
      if date.Some? {
        details := details.(dateOfBirth := Found(date.value));
      }
    }
    ghost var birthField := BirthDate(text, upper);
    assert details == KycDetails(nameField, numberField, birthField, NotFound, NotFound, Found("NEPALESE"));

    var issued := FirstRuleMatch(IssueDateRule, IssueDatePatterns, upper);
    if issued.Some? {
      details := details.(issueDate := Found(issued.value));
    }
    ghost var issueField := IssueDateOf(upper);
    assert details == KycDetails(nameField, numberField, birthField, issueField, NotFound, Found("NEPALESE"));

    var address := FirstRuleMatch(AddressRule, AddressPatterns, upper);
    if address.Some? {
      details := details.(address := Found(address.value));
    }
    ghost var addressField := AddressOf(upper);
    assert details == KycDetails(nameField, numberField, birthField, issueField, addressField, Found("NEPALESE"));
    assert details == ParsedDetails(text);

    if Contains(upper, "NEPAL") || Contains(upper, "CITIZENSHIP") {
      details := details.(nationality := Found("NEPALESE"));
    }
  }

  // --- lemmas ------------------------------------------------------------------

  /** One step of the search loop: the first value from pattern `k` on is pattern `k`'s, or the first from `k + 1` on. */
  lemma FirstHitStep(rule: FieldRule, ps: seq<Re>, s: string, k: nat)
    requires k < |ps|
    ensures FirstSome(Outcomes(rule, ps, s)[k..]) ==
      if ApplyRule(rule, ps[k], s).Some? then ApplyRule(rule, ps[k], s)
      else FirstSome(Outcomes(rule, ps, s)[k + 1..])
  {
    var os := Outcomes(rule, ps, s);
    assert os[k..][0] == os[k];
    assert os[k..][1..] == os[k + 1..];
  }

  /** The shape of each field's value, whatever the text. */
  lemma ApplyRuleShape(rule: FieldRule, p: Re, s: string)
    ensures var r := ApplyRule(rule, p, s);
      && (rule == NameRule && r.Some? ==> IsPersonName(r.value))
      && (rule == AddressRule && r.Some? ==> |r.value| >= 10 && r.value[..10] == "District: ")
      && (rule == BirthDateRule && r.Some? ==> '-' in r.value)
      && (rule != AddressRule && r.Some? ==> DrawnFrom(r.value, s))
  {
    match Search(p, s, IgnoresCase(rule))
    case None =>
    case Some(m) =>
      var g1 := GroupText(s, m, 1);
      match rule
      case NameRule => NameValueShape(g1, s);
      case BirthDateRule => BirthDateValueShape(g1, GroupText(s, m, 2), GroupText(s, m, 3), s);
      case DocumentNumberRule => StripDrawnFrom(g1, s);
      case IssueDateRule => StripDrawnFrom(g1, s);
      case AddressRule =>
  }

  /** Stripping text taken from `s` leaves text taken from `s`. */
  lemma StripDrawnFrom(g: string, s: string)
    requires forall i :: 0 <= i < |g| ==> g[i] in s
    ensures DrawnFrom(Strip(g), s)
  {
  }

  /** A name built from a group of `s` is a person's name drawn from `s`. */
  lemma NameValueShape(g: string, s: string)
    requires forall i :: 0 <= i < |g| ==> g[i] in s
    ensures var words := NameWords(Strip(g));
      |words| >= 2 ==> IsPersonName(Join(" ", words)) && DrawnFrom(Join(" ", words), s)
  {
    var c := Strip(g);
    var words := NameWords(c);
    var split := Split(c);
    assert words == KeepNameWords(split);
    forall k, i | 0 <= k < |words| && 0 <= i < |words[k]|
      ensures words[k][i] in s
    {
      var j :| 0 <= j < |split| && split[j] == words[k];
      assert split[j][i] in c;
    }
    if |words| >= 2 {
      SplitJoin(words);
      JoinDrawnFrom(words, s);
    }
  }

  /** Three groups of `s` joined by '-' contain a '-' and are drawn from `s`. */
  lemma BirthDateValueShape(g1: string, g2: string, g3: string, s: string)
    requires forall i :: 0 <= i < |g1| ==> g1[i] in s
    requires forall i :: 0 <= i < |g2| ==> g2[i] in s
    requires forall i :: 0 <= i < |g3| ==> g3[i] in s
    ensures var v := g1 + "-" + g2 + "-" + g3; '-' in v && DrawnFrom(v, s)
  {
    var v := g1 + "-" + g2 + "-" + g3;
    assert v[|g1|] == '-';
    forall i | 0 <= i < |v| ensures v[i] in s || v[i] == ' ' || v[i] == '-' {
      if i < |g1| { assert v[i] == g1[i]; }
      else if i == |g1| { }
      else if i < |g1| + 1 + |g2| { assert v[i] == g2[i - |g1| - 1]; }
      else if i == |g1| + 1 + |g2| { }
      else { assert v[i] == g3[i - |g1| - |g2| - 2]; }
    }
  }

  lemma {:induction false} FirstSomeFromList(os: seq<Option<string>>)
    ensures FirstSome(os).Some? ==> exists j :: 0 <= j < |os| && os[j] == FirstSome(os)
  {
    if os != [] && os[0].None? {
      FirstSomeFromList(os[1..]);
      if FirstSome(os).Some? {
        var j :| 0 <= j < |os[1..]| && os[1..][j] == FirstSome(os);
        assert os[j + 1] == os[1..][j];
      }
    }
  }

  /** A field's value is always the value of one of its patterns. */
  lemma FirstHitFromSomeRule(rule: FieldRule, ps: seq<Re>, s: string)
    ensures FirstHit(rule, ps, s).Some? ==>
      exists j :: 0 <= j < |ps| && ApplyRule(rule, ps[j], s) == FirstHit(rule, ps, s)
  {
    var os := Outcomes(rule, ps, s);
    FirstSomeFromList(os);
    if FirstHit(rule, ps, s).Some? {
      var j :| 0 <= j < |os| && os[j] == FirstSome(os);
      assert ApplyRule(rule, ps[j], s) == os[j];
    }
  }

  lemma {:induction false} JoinDrawnFrom(ws: seq<string>, s: string)
    requires forall k, i :: 0 <= k < |ws| && 0 <= i < |ws[k]| ==> ws[k][i] in s
    ensures DrawnFrom(Join(" ", ws), s)
  {
    if |ws| > 1 {
      JoinDrawnFrom(ws[1..], s);
      var j := Join(" ", ws[1..]);
      assert Join(" ", ws) == ws[0] + " " + j;
      forall i | 0 <= i < |Join(" ", ws)|
        ensures Join(" ", ws)[i] in s || Join(" ", ws)[i] == ' ' || Join(" ", ws)[i] == '-'
      {
        if i > |ws[0]| {
          assert Join(" ", ws)[i] == j[i - |ws[0]| - 1];
        }
      }
    }
  }

  /** Outcome `j` is the first that holds a value, and that value is `v`. */
  predicate IsFirstSome(os: seq<Option<string>>, j: int, v: string) {
    0 <= j < |os| && os[j] == Some(v) && forall i :: 0 <= i < j ==> os[i].None?
  }

  lemma {:induction false} FirstSomeIndex(os: seq<Option<string>>, v: string) returns (j: int)
    requires FirstSome(os) == Some(v)
    ensures IsFirstSome(os, j, v)
  {
    if os[0].Some? {
      j := 0;
    } else {
      var k := FirstSomeIndex(os[1..], v);
      j := k + 1;
      forall i | 0 <= i < j ensures os[i].None? {
        if i > 0 { assert os[i] == os[1..][i - 1]; }
      }
    }
  }

  lemma {:induction false} IndexIsFirstSome(os: seq<Option<string>>, j: int, v: string)
    requires IsFirstSome(os, j, v)
    ensures FirstSome(os) == Some(v)
    decreases j
  {
    if j > 0 {
      assert os[0].None?;
      assert IsFirstSome(os[1..], j - 1, v) by {
        forall i | 0 <= i < j - 1 ensures os[1..][i].None? {
          assert os[1..][i] == os[i + 1];
        }
      }
      IndexIsFirstSome(os[1..], j - 1, v);
    }
  }

  /** Pattern `j` is the first of `ps` that yields a value for `s`, and that value is `v`. */
  predicate IsFirstSuccess(rule: FieldRule, ps: seq<Re>, s: string, j: int, v: string) {
    && 0 <= j < |ps|
    && ApplyRule(rule, ps[j], s) == Some(v)
    && forall i :: 0 <= i < j ==> ApplyRule(rule, ps[i], s).None?
  }

  /**
   * First success wins: a field's value is `v` exactly when some pattern yields `v`
   * and every earlier pattern yields nothing; later patterns play no part.
   */
  lemma FirstHitIsFirstSuccess(rule: FieldRule, ps: seq<Re>, s: string, v: string)
    ensures FirstHit(rule, ps, s) == Some(v) <==> exists j :: IsFirstSuccess(rule, ps, s, j, v)
  {
    var os := Outcomes(rule, ps, s);
    if FirstHit(rule, ps, s) == Some(v) {
      var j := FirstSomeIndex(os, v);
      assert IsFirstSuccess(rule, ps, s, j, v);
    }
    if exists j :: IsFirstSuccess(rule, ps, s, j, v) {
      var j :| IsFirstSuccess(rule, ps, s, j, v);
      IndexIsFirstSome(os, j, v);
    }
  }

  lemma {:induction false} FirstSomeNone(os: seq<Option<string>>)
    ensures FirstSome(os).None? <==> forall j :: 0 <= j < |os| ==> os[j].None?
  {
    if os != [] {
      FirstSomeNone(os[1..]);
      assert forall j :: 1 <= j < |os| ==> os[j] == os[1..][j - 1];
    }
  }

  /** A field stays "Not found" exactly when no pattern of its list yields a value. */
  lemma FirstHitNoneIffAllFail(rule: FieldRule, ps: seq<Re>, s: string)
    ensures FirstHit(rule, ps, s).None? <==> forall j :: 0 <= j < |ps| ==> ApplyRule(rule, ps[j], s).None?
  {
    FirstSomeNone(Outcomes(rule, ps, s));
  }

  /** A found value of a pattern-list field is one of its patterns' values, so it has that shape. */
  lemma FoundFieldShape(rule: FieldRule, ps: seq<Re>, s: string)
    ensures var r := FirstHit(rule, ps, s);
      && (rule == NameRule && r.Some? ==> IsPersonName(r.value))
      && (rule == AddressRule && r.Some? ==> |r.value| >= 10 && r.value[..10] == "District: ")
      && (rule == BirthDateRule && r.Some? ==> '-' in r.value)
      && (rule != AddressRule && r.Some? ==> DrawnFrom(r.value, s))
  {
    FirstHitFromSomeRule(rule, ps, s);
    if FirstHit(rule, ps, s).Some? {
      var j :| 0 <= j < |ps| && ApplyRule(rule, ps[j], s) == FirstHit(rule, ps, s);
      ApplyRuleShape(rule, ps[j], s);
    }
  }

  /**
   * The structured triple decides the Date of Birth whenever it is present; only
   * without it does the first numeric pattern that matches the original text decide.
   */
  lemma BirthDatePriority(text: string, v: string)
    ensures BirthDateTriple(Upper(text)).Some? ==>
      BirthDate(text, Upper(text)) == Found(BirthDateTriple(Upper(text)).value)
    ensures BirthDateTriple(Upper(text)).None? ==>
      (BirthDate(text, Upper(text)) == Found(v) <==>
       exists j :: IsFirstSuccess(BirthDateRule, NumericDatePatterns, text, j, v))
    ensures BirthDateTriple(Upper(text)).None? ==>
      (BirthDate(text, Upper(text)) == NotFound <==>
       forall j :: 0 <= j < |NumericDatePatterns| ==> ApplyRule(BirthDateRule, NumericDatePatterns[j], text).None?)
  {
    FirstHitIsFirstSuccess(BirthDateRule, NumericDatePatterns, text, v);
    FirstHitNoneIffAllFail(BirthDateRule, NumericDatePatterns, text);
  }

  /** Group 1 of a pattern is set by every match and captures a non-empty word without whitespace. */
  predicate SolidCapture(p: Re) {
    SolidGroups(p, 1) && 1 in CapturedBy(p)
  }

  /** `[\d-]+` captures solidly. */
  lemma DigitOrDashSolid()
    ensures Solid(Plus(DigitOrDash)) && SolidGroups(Plus(DigitOrDash), 1) && MinLen(Plus(DigitOrDash)) >= 1
  {
    assert DigitOrDash.items == [Digit, Single('-')];
  }

  lemma CertificateNumberSolid()
    ensures SolidCapture(CertificateNumberPattern)
  {
    var parts := [
      Str("CERTIFICATE"), Plus(S), Str("NO"), Opt(Lit('.')), Many(S),
      Many(Class([Single(':'), Single('.'), Space], false)), Opt(Lit('\n')),
      Group(1, Plus(DigitOrDash))];
    assert CertificateNumberPattern == Cat(parts);
    StrSolidGroups("CERTIFICATE", 1);
    StrSolidGroups("NO", 1);
    DigitOrDashSolid();
    CatGroupSolid(parts, 7, 1);
  }

  lemma LabelledNumberSolid(title: string)
    ensures SolidCapture(LabelledNumberPattern(title))
  {
    var parts := [Str(title), Plus(S), Str("NO"), Opt(Lit('.')), Many(S), Opt(ColonOrDot), Many(S),
                  Group(1, Plus(DigitOrDash))];
    StrSolidGroups(title, 1);
    StrSolidGroups("NO", 1);
    DigitOrDashSolid();
    CatGroupSolid(parts, 7, 1);
  }

  /** Runs `a`, `a`, `a`, `b` joined by a separator are solid and never empty when the pieces are solid and `a` is never empty. */
  lemma SeparatedRunsSolid(a: Re, sep: Re, b: Re)
    requires Solid(a) && SolidGroups(a, 1) && MinLen(a) >= 1
    requires Solid(sep) && SolidGroups(sep, 1) && Solid(b) && SolidGroups(b, 1)
    ensures var p := Cat([a, sep, a, sep, a, sep, b]);
      Solid(p) && SolidGroups(p, 1) && MinLen(p) >= 1
  {
    CatSolid([a, sep, a, sep, a, sep, b], 1);
  }

  /** The four digit runs and their separators are solid and never empty. */
  lemma BareNumberBodySolid()
    ensures Solid(BareNumberBody) && SolidGroups(BareNumberBody, 1) && MinLen(BareNumberBody) >= 1
  {
    assert AnyDigit.items == [Digit] && DashOrSlash.items == [Single('-'), Single('/')];
    RepSolid(AnyDigit, 2, 3, 1);
    RepSolid(AnyDigit, 2, 5, 1);
    SeparatedRunsSolid(Rep(AnyDigit, 2, 3), DashOrSlash, Rep(AnyDigit, 2, 5));
  }

  lemma BareNumberSolid()
    ensures SolidCapture(BareNumberPattern)
  {
    BareNumberBodySolid();
    CatGroupSolid([WordBoundary, Group(1, BareNumberBody), WordBoundary], 1, 1);
  }

  /** Every document-number pattern captures solidly. */
  lemma DocumentNumberPatternsSolid()
    ensures forall j :: 0 <= j < |DocumentNumberPatterns| ==> SolidCapture(DocumentNumberPatterns[j])
  {
    CertificateNumberSolid();
    LabelledNumberSolid("CITIZENSHIP");
    LabelledNumberSolid("ID");
    BareNumberSolid();
  }

  /** `\d{4}<sep>\d{2}<sep>\d{2}` with a solid separator is solid and never empty. */
  lemma YearFirstDateSolid(sep: Re)
    requires Solid(sep) && SolidGroups(sep, 1)
    ensures Solid(YearFirstDate(sep)) && SolidGroups(YearFirstDate(sep), 1) && MinLen(YearFirstDate(sep)) >= 1
  {
    var parts := [Rep(AnyDigit, 4, 4), sep, Rep(AnyDigit, 2, 2), sep, Rep(AnyDigit, 2, 2)];
    assert AnyDigit.items == [Digit];
    RepSolid(AnyDigit, 4, 4, 1);
    RepSolid(AnyDigit, 2, 2, 1);
    CatSolid(parts, 1);
  }

  lemma LabelledIssueSolid(w1: string, w2: string)
    ensures SolidCapture(LabelledIssuePattern(w1, w2))
  {
    assert DashOrSlash.items == [Single('-'), Single('/')];
    YearFirstDateSolid(DashOrSlash);
    var parts := [Str(w1), Plus(S), Str(w2), Many(S), Opt(ColonOrDot), Many(S),
                  Group(1, YearFirstDate(DashOrSlash))];
    StrSolidGroups(w1, 1);
    StrSolidGroups(w2, 1);
    CatGroupSolid(parts, 6, 1);
  }

  /** Every issue-date pattern captures solidly. */
  lemma IssueDatePatternsSolid()
    ensures forall j :: 0 <= j < |IssueDatePatterns| ==> SolidCapture(IssueDatePatterns[j])
  {
    LabelledIssueSolid("ISSUE", "DATE");
    LabelledIssueSolid("ISSUED", "ON");
    assert DashOrDot.items == [Single('-'), Single('.')];
    YearFirstDateSolid(DashOrDot);
  }

  /** A document number or an issue date is group 1 of the match, stripped. */
  lemma StripRuleValue(rule: FieldRule, s: string, m: Match)
    requires rule == DocumentNumberRule || rule == IssueDateRule
    requires ValidGroups(m.groups, |s|)
    ensures RuleValue(rule, s, m) == Some(Strip(GroupText(s, m, 1)))
  {
    if rule == DocumentNumberRule {
      assert RuleValue(DocumentNumberRule, s, m) == Some(Strip(GroupText(s, m, 1)));
    } else {
      assert RuleValue(IssueDateRule, s, m) == Some(Strip(GroupText(s, m, 1)));
    }
  }

  /** A document number or issue date from a solid pattern is the captured word itself: non-empty, no whitespace. */
  lemma CapturedValueIsToken(rule: FieldRule, p: Re, s: string)
    requires rule == DocumentNumberRule || rule == IssueDateRule
    requires SolidCapture(p)
    ensures ApplyRule(rule, p, s).Some? ==> IsToken(ApplyRule(rule, p, s).value)
  {
    var icase := IgnoresCase(rule);
    SolidGroupText(p, s, icase, 1);
    match Search(p, s, icase)
    case None =>
    case Some(m) =>
      StripRuleValue(rule, s, m);
      StripToken(GroupText(s, m, 1));
  }

  /** The same for the value of a whole list of solid patterns. */
  lemma FirstHitIsToken(rule: FieldRule, ps: seq<Re>, s: string)
    requires rule == DocumentNumberRule || rule == IssueDateRule
    requires forall j :: 0 <= j < |ps| ==> SolidCapture(ps[j])
    ensures FirstHit(rule, ps, s).Some? ==> IsToken(FirstHit(rule, ps, s).value)
  {
    FirstHitFromSomeRule(rule, ps, s);
    if FirstHit(rule, ps, s).Some? {
      var j :| 0 <= j < |ps| && ApplyRule(rule, ps[j], s) == FirstHit(rule, ps, s);
      CapturedValueIsToken(rule, ps[j], s);
    }
  }

  /** A field that is either missing or holds something other than the sentinel text. */
  predicate NotSentinel(f: Field) {
    f.Found? ==> f.value != NotFoundText
  }

  lemma NameOfShape(text: string)
    ensures var f := NameOf(Upper(text));
      NotSentinel(f) && (f.Found? ==> IsPersonName(f.value))
  {
    FoundFieldShape(NameRule, NamePatterns, Upper(text));
    var f := NameOf(Upper(text));
    if f.Found? { UpperDrawnIsNotSentinel(f.value, text); }
  }

  lemma DocumentNumberOfShape(text: string)
    ensures var f := DocumentNumberOf(Upper(text));
      NotSentinel(f) && (f.Found? ==> IsToken(f.value))
  {
    FoundFieldShape(DocumentNumberRule, DocumentNumberPatterns, Upper(text));
    DocumentNumberPatternsSolid();
    FirstHitIsToken(DocumentNumberRule, DocumentNumberPatterns, Upper(text));
    var f := DocumentNumberOf(Upper(text));
    if f.Found? { UpperDrawnIsNotSentinel(f.value, text); }
  }

  lemma IssueDateOfShape(text: string)
    ensures var f := IssueDateOf(Upper(text));
      NotSentinel(f) && (f.Found? ==> IsToken(f.value))
  {
    FoundFieldShape(IssueDateRule, IssueDatePatterns, Upper(text));
    IssueDatePatternsSolid();
    FirstHitIsToken(IssueDateRule, IssueDatePatterns, Upper(text));
    var f := IssueDateOf(Upper(text));
    if f.Found? { UpperDrawnIsNotSentinel(f.value, text); }
  }

  lemma AddressOfShape(text: string)
    ensures var f := AddressOf(Upper(text));
      NotSentinel(f) && (f.Found? ==> |f.value| >= 10 && f.value[..10] == "District: ")
  {
    FoundFieldShape(AddressRule, AddressPatterns, Upper(text));
    var f := AddressOf(Upper(text));
    if f.Found? { assert f.value[0] != NotFoundText[0]; }
  }

  lemma BirthDateShape(text: string)
    ensures var f := BirthDate(text, Upper(text));
      NotSentinel(f) && (f.Found? ==> '-' in f.value)
  {
    FoundFieldShape(BirthDateRule, NumericDatePatterns, text);
    assert '-' !in NotFoundText;
  }

  /**
   * What every parsed record satisfies: Nationality is "NEPALESE", a name is at least
   * two filtered words joined by single spaces, an address starts with "District: ",
   * a Date of Birth has a '-', a Document Number and an Issue Date are non-empty
   * words without whitespace, and no found value is the sentinel text itself, so
   * "Not found" in the dictionary means exactly a missing field.
   */
  predicate WellFormedDetails(d: KycDetails) {
    && d.nationality == Found("NEPALESE")
    && (d.name.Found? ==> IsPersonName(d.name.value))
    && (d.address.Found? ==> |d.address.value| >= 10 && d.address.value[..10] == "District: ")
    && (d.dateOfBirth.Found? ==> '-' in d.dateOfBirth.value)
    && (d.documentNumber.Found? ==> IsToken(d.documentNumber.value))
    && (d.issueDate.Found? ==> IsToken(d.issueDate.value))
    && NotSentinel(d.name) && NotSentinel(d.documentNumber) && NotSentinel(d.dateOfBirth)
    && NotSentinel(d.issueDate) && NotSentinel(d.address) && NotSentinel(d.nationality)
  }

  lemma ParsedDetailsWellFormed(text: string)
    ensures WellFormedDetails(ParsedDetails(text))
  {
    if |text| == 0 || |Strip(text)| < 10 {
      assert ParsedDetails(text) == DefaultDetails;
    } else {
      var upper := Upper(text);
      NameOfShape(text);
      DocumentNumberOfShape(text);
      BirthDateShape(text);
      IssueDateOfShape(text);
      AddressOfShape(text);
      var d := KycDetails(NameOf(upper), DocumentNumberOf(upper), BirthDate(text, upper),
                          IssueDateOf(upper), AddressOf(upper), Found("NEPALESE"));
      assert ParsedDetails(text) == d;
    }
  }

  /** Text taken from the upper-cased input cannot spell "Not found", which has lower-case letters. */
  lemma UpperDrawnIsNotSentinel(v: string, text: string)
    requires DrawnFrom(v, Upper(text))
    ensures v != NotFoundText
  {
    if |v| == |NotFoundText| {
      var c := v[1];
      if c in Upper(text) {
        var i :| 0 <= i < |text| && Upper(text)[i] == c;
        assert !IsLowerLetter(c);
      }
      assert c != NotFoundText[1];
    }
  }
}
