/**
 * The validation and normalisation rules of the utilities module: the image-size
 * threshold, date normalisation to `YYYY-MM-DD`, digit-run extraction, text
 * cleaning, and the dictionary-based overall status used by the JSON report.
 */
module Utils {
  import opened Wrappers
  import opened Text

  // --- validate_image ------------------------------------------------------------

  /** `(is_valid, error_message)` */
  datatype ImageCheck = ImageCheck(valid: bool, error: Option<string>)

  const DefaultMinSize: nat := 400

  function TooSmallMessage(minWidth: int, minHeight: int): string
  {
    "Image too small. Minimum size: " + IntToString(minWidth) + "x" + IntToString(minHeight)
  }

  /**
   * `validate_image` once the width and height have been read from the image: it
   * passes exactly when both minimums are reached, and fails with the size message
   * otherwise.
   */
  function ValidateImage(width: int, height: int, minWidth: int, minHeight: int): (r: ImageCheck)
    ensures r.valid <==> width >= minWidth && height >= minHeight
    ensures r.valid ==> r.error == None
    ensures !r.valid ==> r.error == Some(TooSmallMessage(minWidth, minHeight))
  {
    if width < minWidth || height < minHeight then ImageCheck(false, Some(TooSmallMessage(minWidth, minHeight)))
    else ImageCheck(true, None)
  }

  /** A larger image passes whenever a smaller one does, and a stricter minimum passes fewer images. */
  lemma ValidateImageMonotone(width: int, height: int, width': int, height': int, minWidth: int, minHeight: int)
    requires width <= width' && height <= height'
    requires ValidateImage(width, height, minWidth, minHeight).valid
    ensures ValidateImage(width', height', minWidth, minHeight).valid
    ensures ValidateImage(width, height, DefaultMinSize, DefaultMinSize).valid ==>
      ValidateImage(width', height', DefaultMinSize, DefaultMinSize).valid
  {
  }

  // --- validate_date_format -----------------------------------------------------

  /** The three accepted layouts, in the order they are tried. */
  datatype DateFormat =
    | YearMonthDayDash    // (\d{4})-(\d{2})-(\d{2})  with  %Y-%m-%d
    | DayMonthYearSlash   // (\d{2})/(\d{2})/(\d{4})  with  %d/%m/%Y
    | YearMonthDaySlash   // (\d{4})/(\d{2})/(\d{2})  with  %Y/%m/%d

  const DateFormats: seq<DateFormat> := [YearMonthDayDash, DayMonthYearSlash, YearMonthDaySlash]

  datatype Date = Date(year: nat, month: nat, day: nat)

  /** `(is_valid, normalized_date or error_message)` */
  datatype DateResult = DateResult(valid: bool, text: string)

  const InvalidDate: DateResult := DateResult(false, "Invalid date format")

  /** Where the year, month and day digits and the two separators sit in a layout. */
  function YearAt(f: DateFormat): nat { if f == DayMonthYearSlash then 6 else 0 }
  function MonthAt(f: DateFormat): nat { if f == DayMonthYearSlash then 3 else 5 }
  function DayAt(f: DateFormat): nat { if f == DayMonthYearSlash then 0 else 8 }
  function SeparatorsAt(f: DateFormat): (nat, nat) { if f == DayMonthYearSlash then (2, 5) else (4, 7) }
  function Separator(f: DateFormat): char { if f == YearMonthDayDash then '-' else '/' }

  /** The digits of `s` from `i` to `i + n`. */
  predicate DigitsAt(s: string, i: nat, n: nat) {
    i + n <= |s| && AllDigits(s[i..i + n])
  }

  /** `re.match(pattern, s)`: the first ten characters have the layout's shape; more may follow. */
  predicate ShapeMatches(f: DateFormat, s: string) {
    && |s| >= 10
    && DigitsAt(s, YearAt(f), 4) && DigitsAt(s, MonthAt(f), 2) && DigitsAt(s, DayAt(f), 2)
    && s[SeparatorsAt(f).0] == Separator(f) && s[SeparatorsAt(f).1] == Separator(f)
  }

  predicate IsLeapYear(y: nat) {
    y % 4 == 0 && (y % 100 != 0 || y % 400 == 0)
  }

  function DaysInMonth(y: nat, m: nat): nat
  {
    if m == 2 then (if IsLeapYear(y) then 29 else 28)
    else if m == 4 || m == 6 || m == 9 || m == 11 then 30
    else 31
  }

  /** A date the `datetime` constructor accepts. */
  predicate IsCalendarDate(d: Date) {
    1 <= d.year && 1 <= d.month <= 12 && 1 <= d.day <= DaysInMonth(d.year, d.month)
  }

  /** The year, month and day fields of a string of the layout's shape. */
  function Fields(f: DateFormat, s: string): Date
    requires ShapeMatches(f, s)
  {
    Date(DigitsValue(s[YearAt(f)..YearAt(f) + 4]), DigitsValue(s[MonthAt(f)..MonthAt(f) + 2]),
         DigitsValue(s[DayAt(f)..DayAt(f) + 2]))
  }

  /**
   * `datetime.strptime(s, format)` for a string whose first ten characters have the
   * layout's shape: it must consume the whole string, the two-digit month must be
   * 01 to 12, the two-digit day 01 to 31, and the date must exist.
   */
  function Strptime(f: DateFormat, s: string): (r: Option<Date>)
    requires ShapeMatches(f, s)
    ensures r.Some? ==> r.value.year <= 9999 && 1 <= r.value.month <= 12 && 1 <= r.value.day <= 31
    ensures r.None? <==> |s| != 10 || !IsCalendarDate(Fields(f, s))
  {
    var d := Fields(f, s);
    DigitsValueBound(s[YearAt(f)..YearAt(f) + 4]);
    assert Pow10(4) == 10000;
    if |s| == 10 && IsCalendarDate(d) then Some(d) else None
  }

  /** `date_obj.strftime('%Y-%m-%d')` */
  function IsoText(d: Date): string
  {
    PaddedDigits(d.year, 4) + "-" + PaddedDigits(d.month, 2) + "-" + PaddedDigits(d.day, 2)
  }

  /** The loop over the layouts from `formats` on, with its early return. */
  function ValidateWith(formats: seq<DateFormat>, s: string): DateResult
  {
    if formats == [] then InvalidDate
    else if ShapeMatches(formats[0], s) then
      match Strptime(formats[0], s)
      case Some(d) => DateResult(true, IsoText(d))
      case None => ValidateWith(formats[1..], s)
    else ValidateWith(formats[1..], s)
  }

  /**
   * `validate_date_format`: a success needs the whole string to be the date, so the
   * input is exactly ten characters long; every failure is the fixed message.
   */
  function ValidateDateFormat(s: string): (r: DateResult)
    ensures r.valid ==> |s| == 10
    ensures !r.valid ==> r == InvalidDate
  {
    ValidateWithCases(DateFormats, s);
    ValidateWith(DateFormats, s)
  }

  /** `s` is `YYYY-MM-DD`: ten characters, digits around two dashes. */
  predicate IsIsoShape(s: string) {
    |s| == 10 && AllDigits(s[0..4]) && s[4] == '-' && AllDigits(s[5..7]) && s[7] == '-' && AllDigits(s[8..10])
  }

  /** A valid result is the date the layout read, rendered year, month, day. */
  predicate AcceptedAs(s: string, r: DateResult, f: DateFormat) {
    ShapeMatches(f, s) && Strptime(f, s).Some? && r == DateResult(true, IsoText(Strptime(f, s).value))
  }

  /** Every outcome of the layout loop: one layout accepted the string, or the fixed failure. */
  lemma {:induction false} ValidateWithCases(formats: seq<DateFormat>, s: string)
    ensures var r := ValidateWith(formats, s);
      (r.valid && exists k :: 0 <= k < |formats| && AcceptedAs(s, r, formats[k])) || r == InvalidDate
    ensures ValidateWith(formats, s).valid ==> |s| == 10
  {
    if formats != [] {
      ValidateWithCases(formats[1..], s);
      var r := ValidateWith(formats, s);
      if !(ShapeMatches(formats[0], s) && Strptime(formats[0], s).Some?) && r.valid {
        var k :| 0 <= k < |formats[1..]| && AcceptedAs(s, r, formats[1..][k]);
        assert formats[k + 1] == formats[1..][k];
      }
    }
  }

  /** Rendered text of an existing date is `YYYY-MM-DD`. */
  lemma IsoTextShape(d: Date)
    ensures IsIsoShape(IsoText(d))
  {
    var t := IsoText(d);
    assert t[0..4] == PaddedDigits(d.year, 4);
    assert t[5..7] == PaddedDigits(d.month, 2);
    assert t[8..10] == PaddedDigits(d.day, 2);
  }

  /** A successful result is a `YYYY-MM-DD` string. */
  lemma ValidDateIsIso(s: string)
    ensures ValidateDateFormat(s).valid ==> IsIsoShape(ValidateDateFormat(s).text)
  {
    ValidateWithCases(DateFormats, s);
    var r := ValidateDateFormat(s);
    if r.valid {
      var k :| 0 <= k < |DateFormats| && AcceptedAs(s, r, DateFormats[k]);
      IsoTextShape(Strptime(DateFormats[k], s).value);
    }
  }

  /** Trailing characters after a date are rejected. */
  lemma TrailingTextRejected(s: string)
    requires |s| != 10
    ensures ValidateDateFormat(s) == InvalidDate
  {
  }

  /** An accepted string holds an existing date in the layout its shape has. */
  lemma AcceptedIsCalendarDate(s: string, f: DateFormat)
    requires ShapeMatches(f, s)
    ensures ValidateDateFormat(s).valid ==> IsCalendarDate(Fields(f, s))
  {
    ValidateWithCases(DateFormats, s);
    if ValidateDateFormat(s).valid {
      var k :| 0 <= k < |DateFormats| && AcceptedAs(s, ValidateDateFormat(s), DateFormats[k]);
      ShapesExclusive(s, f, DateFormats[k]);
    }
  }

  /** A date that does not exist (month 13, February 30, ...) is rejected with the fixed message. */
  lemma ImpossibleDateRejected(s: string, f: DateFormat)
    requires ShapeMatches(f, s) && !IsCalendarDate(Fields(f, s))
    ensures ValidateDateFormat(s) == InvalidDate
  {
    AcceptedIsCalendarDate(s, f);
  }

  /** The layout a ten-character prefix has, read off its fifth character. */
  function LayoutOf(s: string): DateFormat
    requires |s| >= 10
  {
    if IsDigit(s[4]) then DayMonthYearSlash else if s[4] == '-' then YearMonthDayDash else YearMonthDaySlash
  }

  lemma ShapeDeterminesLayout(s: string, f: DateFormat)
    requires ShapeMatches(f, s)
    ensures f == LayoutOf(s)
  {
    if f == DayMonthYearSlash {
      assert s[3..5][1] == s[4];
    } else {
      assert s[4] == Separator(f);
    }
  }

  /** At most one layout applies to a string: their separators sit in different places. */
  lemma ShapesExclusive(s: string, f: DateFormat, g: DateFormat)
    requires ShapeMatches(f, s) && ShapeMatches(g, s)
    ensures f == g
  {
    ShapeDeterminesLayout(s, f);
    ShapeDeterminesLayout(s, g);
  }

  /** The loop reaches the layout `f` when the layouts before it do not apply. */
  lemma ValidateReaches(s: string, f: DateFormat)
    requires ShapeMatches(f, s) && |s| == 10 && IsCalendarDate(Fields(f, s))
    ensures ValidateDateFormat(s) == DateResult(true, IsoText(Fields(f, s)))
  {
    var rest, last := DateFormats[1..], DateFormats[1..][1..];
    assert rest == [DayMonthYearSlash, YearMonthDaySlash] && last == [YearMonthDaySlash];
    ShapeDeterminesLayout(s, f);
    if ShapeMatches(YearMonthDayDash, s) {
      ShapeDeterminesLayout(s, YearMonthDayDash);
    }
    if ShapeMatches(DayMonthYearSlash, s) {
      ShapeDeterminesLayout(s, DayMonthYearSlash);
    }
    if f == YearMonthDayDash {
    } else if f == DayMonthYearSlash {
      assert ValidateDateFormat(s) == ValidateWith(rest, s);
    } else {
      assert ValidateDateFormat(s) == ValidateWith(rest, s);
      assert ValidateWith(rest, s) == ValidateWith(last, s);
    }
  }

  /** A day-first date is reordered: the year, then the month, then the day, joined by dashes. */
  lemma DayFirstReordered(s: string)
    requires ShapeMatches(DayMonthYearSlash, s) && |s| == 10
    requires IsCalendarDate(Fields(DayMonthYearSlash, s))
    ensures ValidateDateFormat(s) == DateResult(true, s[6..10] + "-" + s[3..5] + "-" + s[0..2])
  {
    ValidateReaches(s, DayMonthYearSlash);
    PaddedDigitsValue(s[6..10]);
    PaddedDigitsValue(s[3..5]);
    PaddedDigitsValue(s[0..2]);
  }

  /** A year-first date keeps its digits; the separators become dashes. */
  lemma YearFirstKept(s: string, f: DateFormat)
    requires f != DayMonthYearSlash && ShapeMatches(f, s) && |s| == 10
    requires IsCalendarDate(Fields(f, s))
    ensures ValidateDateFormat(s) == DateResult(true, s[0..4] + "-" + s[5..7] + "-" + s[8..10])
  {
    ValidateReaches(s, f);
    PaddedDigitsValue(s[0..4]);
    PaddedDigitsValue(s[5..7]);
    PaddedDigitsValue(s[8..10]);
  }

  /** The rendered text of a date with a four-digit year reads back as the same date. */
  lemma IsoTextReads(d: Date)
    requires d.year < 10000 && IsCalendarDate(d)
    ensures ShapeMatches(YearMonthDayDash, IsoText(d)) && Fields(YearMonthDayDash, IsoText(d)) == d
  {
    var t := IsoText(d);
    IsoTextShape(d);
    assert Pow10(4) == 10000 && Pow10(2) == 100;
    ValueOfPaddedDigits(d.year, 4);
    ValueOfPaddedDigits(d.month, 2);
    ValueOfPaddedDigits(d.day, 2);
    assert t[0..4] == PaddedDigits(d.year, 4);
    assert t[5..7] == PaddedDigits(d.month, 2);
    assert t[8..10] == PaddedDigits(d.day, 2);
  }

  /** Normalising an already normalised date changes nothing. */
  lemma ValidateDateIdempotent(s: string)
    requires ValidateDateFormat(s).valid
    ensures ValidateDateFormat(ValidateDateFormat(s).text) == ValidateDateFormat(s)
  {
    ValidateWithCases(DateFormats, s);
    var r := ValidateDateFormat(s);
    var k :| 0 <= k < |DateFormats| && AcceptedAs(s, r, DateFormats[k]);
    var f := DateFormats[k];
    var d := Fields(f, s);
    DigitsValueBound(s[YearAt(f)..YearAt(f) + 4]);
    assert Pow10(4) == 10000;
    IsoTextReads(d);
    IsoTextShape(d);
    ValidateReaches(IsoText(d), YearMonthDayDash);
  }

  /** February 29 exists in leap years only, and there is no month 13 or February 30. */
  lemma CalendarExamples()
    ensures IsCalendarDate(Date(2024, 2, 29))
    ensures !IsCalendarDate(Date(2023, 2, 29))
    ensures !IsCalendarDate(Date(1900, 2, 29)) && IsCalendarDate(Date(2000, 2, 29))
    ensures !IsCalendarDate(Date(2024, 2, 30)) && !IsCalendarDate(Date(2024, 13, 1))
    ensures !IsCalendarDate(Date(0, 1, 1))
  {
  }

  // --- extract_numbers ------------------------------------------------------------

  /** The length of the run of digits at the start of `s`. */
  function DigitRunLength(s: string): (n: nat)
    ensures n <= |s|
    ensures forall i :: 0 <= i < n ==> IsDigit(s[i])
    ensures n == |s| || !IsDigit(s[n])
    decreases |s|
  {
    if s == [] || !IsDigit(s[0]) then 0 else 1 + DigitRunLength(s[1..])
  }

  /** `re.findall(r'\d+', text)`: the maximal runs of digits, left to right. */
  function ExtractNumbers(s: string): (runs: seq<string>)
    ensures forall k :: 0 <= k < |runs| ==> |runs[k]| > 0 && AllDigits(runs[k])
    decreases |s|
  {
    if s == [] then []
    else if !IsDigit(s[0]) then ExtractNumbers(s[1..])
    else
      var n := DigitRunLength(s);
      [s[..n]] + ExtractNumbers(s[n..])
  }

  /** The digits of `s` in order. */
  function DigitsOf(s: string): string
  {
    if s == [] then [] else (if IsDigit(s[0]) then [s[0]] else []) + DigitsOf(s[1..])
  }

  function Concat(ws: seq<string>): string
  {
    if ws == [] then "" else ws[0] + Concat(ws[1..])
  }

  lemma {:induction false} DigitsOfAppend(a: string, b: string)
    ensures DigitsOf(a + b) == DigitsOf(a) + DigitsOf(b)
  {
    if a != [] {
      assert (a + b)[1..] == a[1..] + b;
      DigitsOfAppend(a[1..], b);
    } else {
      assert a + b == b;
    }
  }

  lemma {:induction false} DigitsOfAllDigits(s: string)
    requires AllDigits(s)
    ensures DigitsOf(s) == s
  {
    if s != [] {
      DigitsOfAllDigits(s[1..]);
      assert s == [s[0]] + s[1..];
    }
  }

  /** The runs together hold every digit of the text and nothing else, in order. */
  lemma {:induction false} ExtractNumbersKeepsDigits(s: string)
    ensures Concat(ExtractNumbers(s)) == DigitsOf(s)
    decreases |s|
  {
    if s != [] {
      if !IsDigit(s[0]) {
        ExtractNumbersKeepsDigits(s[1..]);
      } else {
        var n := DigitRunLength(s);
        ExtractNumbersKeepsDigits(s[n..]);
        assert s == s[..n] + s[n..];
        DigitsOfAppend(s[..n], s[n..]);
        DigitsOfAllDigits(s[..n]);
        assert Concat([s[..n]] + ExtractNumbers(s[n..])) == s[..n] + Concat(ExtractNumbers(s[n..])) by {
          assert ([s[..n]] + ExtractNumbers(s[n..]))[1..] == ExtractNumbers(s[n..]);
        }
      }
    }
  }

  lemma {:induction false} DigitRunOfRun(w: string, rest: string)
    requires |w| > 0 && AllDigits(w)
    requires rest == [] || !IsDigit(rest[0])
    ensures DigitRunLength(w + rest) == |w|
    decreases |w|
  {
    if |w| > 1 {
      assert (w + rest)[1..] == w[1..] + rest;
      DigitRunOfRun(w[1..], rest);
    } else {
      assert (w + rest)[1..] == rest;
    }
  }

  /** A non-empty string of digits is one number. */
  lemma ExtractNumbersOfRun(w: string)
    requires |w| > 0 && AllDigits(w)
    ensures ExtractNumbers(w) == [w]
  {
    DigitRunOfRun(w, []);
    assert w + [] == w;
    assert w[..|w|] == w && w[|w|..] == [];
  }

  /** The run at the start of `a` is not lengthened by what follows when it stops inside `a` or at a non-digit. */
  lemma {:induction false} DigitRunAppend(a: string, t: string)
    requires DigitRunLength(a) < |a| || (t != [] && !IsDigit(t[0]))
    ensures DigitRunLength(a + t) == DigitRunLength(a)
    decreases |a|
  {
    if a == [] {
      assert a + t == t;
    } else if IsDigit(a[0]) {
      assert (a + t)[1..] == a[1..] + t;
      DigitRunAppend(a[1..], t);
    }
  }

  /** A leading non-digit of `a` is skipped in `a` and in `a + [c] + b` alike. */
  lemma SkipNonDigitHead(a: string, c: char, b: string)
    requires a != [] && !IsDigit(a[0])
    ensures ExtractNumbers(a + [c] + b) == ExtractNumbers(a[1..] + [c] + b)
    ensures ExtractNumbers(a) == ExtractNumbers(a[1..])
  {
    var s := a + [c] + b;
    assert s[0] == a[0] && s[1..] == a[1..] + [c] + b;
  }

  /** A run at the head of `a` is the first number of `a` and of `a + [c] + b` alike, when `c` is not a digit. */
  lemma TakeDigitHead(a: string, c: char, b: string)
    requires a != [] && IsDigit(a[0]) && !IsDigit(c)
    ensures var n := DigitRunLength(a);
      ExtractNumbers(a + [c] + b) == [a[..n]] + ExtractNumbers(a[n..] + [c] + b)
    ensures ExtractNumbers(a) == [a[..DigitRunLength(a)]] + ExtractNumbers(a[DigitRunLength(a)..])
  {
    var s := a + [c] + b;
    var n := DigitRunLength(a);
    assert s == a + ([c] + b);
    DigitRunAppend(a, [c] + b);
    assert s[0] == a[0] && DigitRunLength(s) == n;
    assert s[..n] == a[..n];
    assert s[n..] == a[n..] + [c] + b;
  }

  /**
   * Runs are maximal: a non-digit always ends a number, so the numbers of
   * `a + [c] + b` are those of `a` followed by those of `b`. With
   * `ExtractNumbersOfRun` and `ExtractNumbersKeepsDigits` this fixes the result
   * for every text.
   */
  lemma {:induction false} ExtractNumbersSplitAt(a: string, c: char, b: string)
    requires !IsDigit(c)
    ensures ExtractNumbers(a + [c] + b) == ExtractNumbers(a) + ExtractNumbers(b)
    decreases |a|
  {
    if a == [] {
      SplitAtFirst(c, b);
    } else if !IsDigit(a[0]) {
      SkipNonDigitHead(a, c, b);
      ExtractNumbersSplitAt(a[1..], c, b);
    } else {
      var n := DigitRunLength(a);
      ExtractNumbersSplitAt(a[n..], c, b);
      SplitAfterDigitHead(a, c, b);
    }
  }

  /** A non-digit at the front is skipped. */
  lemma SplitAtFirst(c: char, b: string)
    requires !IsDigit(c)
    ensures ExtractNumbers([] + [c] + b) == ExtractNumbers([]) + ExtractNumbers(b)
  {
    var s := [] + [c] + b;
    assert s == [c] + b && s[1..] == b;
  }

  /** The digit branch of `ExtractNumbersSplitAt`, given the split of what follows the first run. */
  lemma SplitAfterDigitHead(a: string, c: char, b: string)
    requires a != [] && IsDigit(a[0]) && !IsDigit(c)
    requires var n := DigitRunLength(a);
      ExtractNumbers(a[n..] + [c] + b) == ExtractNumbers(a[n..]) + ExtractNumbers(b)
    ensures ExtractNumbers(a + [c] + b) == ExtractNumbers(a) + ExtractNumbers(b)
  {
    var n := DigitRunLength(a);
    TakeDigitHead(a, c, b);
    PrependAssoc(a[..n], ExtractNumbers(a[n..]), ExtractNumbers(b));
  }

  lemma PrependAssoc<T>(h: T, x: seq<T>, y: seq<T>)
    ensures [h] + (x + y) == ([h] + x) + y
  {
  }

  /**
   * Digit strings separated by a non-digit come back as separate numbers, one
   * per run.
   */
  lemma {:induction false} ExtractJoinedNumbers(ws: seq<string>, sep: char)
    requires forall k :: 0 <= k < |ws| ==> |ws[k]| > 0 && AllDigits(ws[k])
    requires !IsDigit(sep)
    ensures ExtractNumbers(Join([sep], ws)) == ws
  {
    if ws == [] {
    } else if |ws| == 1 {
      var w := ws[0];
      DigitRunOfRun(w, []);
      assert w + [] == w;
      assert w[..|w|] == w && w[|w|..] == [];
    } else {
      var w, j := ws[0], Join([sep], ws[1..]);
      var s := w + [sep] + j;
      assert s == w + ([sep] + j);
      DigitRunOfRun(w, [sep] + j);
      assert s[..|w|] == w;
      assert s[|w|..] == [sep] + j;
      assert ([sep] + j)[1..] == j;
      ExtractJoinedNumbers(ws[1..], sep);
    }
  }

  // --- clean_text ------------------------------------------------------------------

  /** The characters `[\w\s\-\.,:/]` keeps. */
  predicate IsKept(c: char) {
    IsWordChar(c) || IsSpace(c) || c == '-' || c == '.' || c == ',' || c == ':' || c == '/'
  }

  /** `re.sub(r'[^\w\s\-\.,:/]', '', s)` */
  function KeepAllowed(s: string): (r: string)
    ensures |r| <= |s|
    ensures forall i :: 0 <= i < |r| ==> IsKept(r[i]) && r[i] in s
  {
    if s == [] then [] else (if IsKept(s[0]) then [s[0]] else []) + KeepAllowed(s[1..])
  }

  /**
   * `clean_text`: collapse whitespace runs to single spaces, drop disallowed
   * characters, strip. The result neither starts nor ends with whitespace, its only
   * whitespace is the space character, and each character is a word character, a
   * space or one of `- . , : /`.
   */
  function CleanText(s: string): (r: string)
    ensures r == [] || (!IsSpace(r[0]) && !IsSpace(r[|r| - 1]))
    ensures forall i :: 0 <= i < |r| ==> IsCleanChar(r[i])
  {
    var joined := Join(" ", Split(s));
    JoinOfTokensOnlySpaces(Split(s));
    KeepAllowedClean(joined);
    StripClean(KeepAllowed(joined));
    Strip(KeepAllowed(joined))
  }

  /** The only whitespace in `s` is the space character. */
  predicate OnlySpaces(s: string) {
    forall i :: 0 <= i < |s| ==> IsSpace(s[i]) ==> s[i] == ' '
  }

  lemma {:induction false} JoinOfTokensOnlySpaces(ws: seq<string>)
    requires forall k :: 0 <= k < |ws| ==> IsToken(ws[k])
    ensures OnlySpaces(Join(" ", ws))
  {
    if |ws| > 1 {
      JoinOfTokensOnlySpaces(ws[1..]);
      var t := Join(" ", ws[1..]);
      var s := ws[0] + " " + t;
      forall i | 0 <= i < |s|
        ensures IsSpace(s[i]) ==> s[i] == ' '
      {
        if i < |ws[0]| {
          assert s[i] == ws[0][i];
        } else if i > |ws[0]| {
          assert s[i] == t[i - |ws[0]| - 1];
        }
      }
    }
  }

  /** A character `clean_text` can leave: a word character, the space, or one of `- . , : /`. */
  predicate IsCleanChar(c: char) {
    IsWordChar(c) || c == ' ' || c == '-' || c == '.' || c == ',' || c == ':' || c == '/'
  }

  lemma KeepAllowedClean(s: string)
    requires OnlySpaces(s)
    ensures forall i :: 0 <= i < |KeepAllowed(s)| ==> IsCleanChar(KeepAllowed(s)[i])
  {
    var r := KeepAllowed(s);
    forall i | 0 <= i < |r|
      ensures IsCleanChar(r[i])
    {
      var j :| 0 <= j < |s| && s[j] == r[i];
      assert IsKept(r[i]);
    }
  }

  lemma StripClean(s: string)
    requires forall i :: 0 <= i < |s| ==> IsCleanChar(s[i])
    ensures forall i :: 0 <= i < |Strip(s)| ==> IsCleanChar(Strip(s)[i])
  {
    var r := Strip(s);
    forall i | 0 <= i < |r|
      ensures IsCleanChar(r[i])
    {
      var j :| 0 <= j < |s| && s[j] == r[i];
    }
  }

  /** Text made only of kept characters is left alone by the filter. */
  lemma {:induction false} KeepAllowedOfKept(s: string)
    requires forall i :: 0 <= i < |s| ==> IsKept(s[i])
    ensures KeepAllowed(s) == s
  {
    if s != [] {
      KeepAllowedOfKept(s[1..]);
      assert s == [s[0]] + s[1..];
    }
  }

  lemma {:induction false} JoinKept(ws: seq<string>)
    requires forall k, i :: 0 <= k < |ws| && 0 <= i < |ws[k]| ==> IsKept(ws[k][i])
    ensures forall i :: 0 <= i < |Join(" ", ws)| ==> IsKept(Join(" ", ws)[i])
  {
    if |ws| > 1 {
      JoinKept(ws[1..]);
      var t := Join(" ", ws[1..]);
      var s := ws[0] + " " + t;
      forall i | 0 <= i < |s|
        ensures IsKept(s[i])
      {
        if i < |ws[0]| {
          assert s[i] == ws[0][i];
        } else if i > |ws[0]| {
          assert s[i] == t[i - |ws[0]| - 1];
        }
      }
    }
  }

  lemma {:induction false} JoinEnds(ws: seq<string>)
    requires |ws| > 0 && forall k :: 0 <= k < |ws| ==> IsToken(ws[k])
    ensures var s := Join(" ", ws); |s| > 0 && !IsSpace(s[0]) && !IsSpace(s[|s| - 1])
  {
    if |ws| > 1 {
      JoinEnds(ws[1..]);
      var t := Join(" ", ws[1..]);
      assert (ws[0] + " " + t)[0] == ws[0][0];
      assert (ws[0] + " " + t)[|ws[0] + " " + t| - 1] == t[|t| - 1];
    }
  }

  /** Stripping text that neither starts nor ends with whitespace changes nothing. */
  lemma StripUnspaced(s: string)
    requires s == [] || (!IsSpace(s[0]) && !IsSpace(s[|s| - 1]))
    ensures Strip(s) == s
  {
    assert TrimStart(s) == s;
  }

  /** Words of kept characters joined by single spaces are already clean. */
  lemma CleanTextFixedPoint(ws: seq<string>)
    requires forall k :: 0 <= k < |ws| ==> IsToken(ws[k])
    requires forall k, i :: 0 <= k < |ws| && 0 <= i < |ws[k]| ==> IsKept(ws[k][i])
    ensures CleanText(Join(" ", ws)) == Join(" ", ws)
  {
    SplitJoin(ws);
    JoinKept(ws);
    KeepAllowedOfKept(Join(" ", ws));
    if ws != [] {
      JoinEnds(ws);
    }
    StripUnspaced(Join(" ", ws));
  }

  /** The non-whitespace characters of `s`, in order. */
  function NonSpace(s: string): string
  {
    if s == [] then [] else (if IsSpace(s[0]) then [] else [s[0]]) + NonSpace(s[1..])
  }

  /** The characters of `s` that are allowed and are not whitespace, in order. */
  function Visible(s: string): string
  {
    if s == [] then [] else (if IsKept(s[0]) && !IsSpace(s[0]) then [s[0]] else []) + Visible(s[1..])
  }

  lemma {:induction false} NonSpaceAppend(a: string, b: string)
    ensures NonSpace(a + b) == NonSpace(a) + NonSpace(b)
  {
    if a != [] {
      assert (a + b)[1..] == a[1..] + b;
      NonSpaceAppend(a[1..], b);
    } else {
      assert a + b == b;
    }
  }

  lemma {:induction false} NonSpaceOfSpaces(p: string)
    requires forall i :: 0 <= i < |p| ==> IsSpace(p[i])
    ensures NonSpace(p) == []
  {
    if p != [] {
      NonSpaceOfSpaces(p[1..]);
    }
  }

  lemma {:induction false} NonSpaceOfToken(w: string)
    requires forall i :: 0 <= i < |w| ==> !IsSpace(w[i])
    ensures NonSpace(w) == w
  {
    if w != [] {
      NonSpaceOfToken(w[1..]);
      assert w == [w[0]] + w[1..];
    }
  }

  lemma DropLeadingSpaces(p: string, t: string)
    requires forall i :: 0 <= i < |p| ==> IsSpace(p[i])
    ensures NonSpace(p + t) == NonSpace(t)
  {
    NonSpaceAppend(p, t);
    NonSpaceOfSpaces(p);
  }

  lemma DropTrailingSpaces(t: string, q: string)
    requires forall i :: 0 <= i < |q| ==> IsSpace(q[i])
    ensures NonSpace(t + q) == NonSpace(t)
  {
    NonSpaceAppend(t, q);
    NonSpaceOfSpaces(q);
  }

  lemma NonSpaceTrimStart(x: string)
    ensures NonSpace(TrimStart(x)) == NonSpace(x)
  {
    var t := TrimStart(x);
    var p := x[..|x| - |t|];
    assert x == p + t;
    DropLeadingSpaces(p, t);
  }

  lemma NonSpaceTrimEnd(x: string)
    ensures NonSpace(TrimEnd(x)) == NonSpace(x)
  {
    var r := TrimEnd(x);
    var q := x[|r|..];
    assert x == r + q;
    DropTrailingSpaces(r, q);
  }

  /** `strip()` removes whitespace only. */
  lemma NonSpaceStrip(x: string)
    ensures NonSpace(Strip(x)) == NonSpace(x)
  {
    NonSpaceTrimStart(x);
    NonSpaceTrimEnd(TrimStart(x));
  }

  /** Dropping the disallowed characters and then the whitespace leaves the visible characters. */
  lemma {:induction false} NonSpaceOfKeep(x: string)
    ensures NonSpace(KeepAllowed(x)) == Visible(x)
  {
    if x != [] {
      NonSpaceOfKeep(x[1..]);
      var h := if IsKept(x[0]) then [x[0]] else [];
      assert h == [] || h[1..] == [];
      NonSpaceAppend(h, KeepAllowed(x[1..]));
    }
  }

  /** Dropping the whitespace and then the disallowed characters leaves the visible characters too. */
  lemma {:induction false} KeepOfNonSpace(x: string)
    ensures KeepAllowed(NonSpace(x)) == Visible(x)
  {
    if x != [] {
      KeepOfNonSpace(x[1..]);
      var h := if IsSpace(x[0]) then [] else [x[0]];
      assert h == [] || h[1..] == [];
      KeepAllowedAppend(h, NonSpace(x[1..]));
    }
  }

  lemma JoinSpaceCons(w: string, ws: seq<string>)
    ensures Join(" ", [w] + ws) == if ws == [] then w else w + " " + Join(" ", ws)
  {
    assert ([w] + ws)[0] == w && ([w] + ws)[1..] == ws;
  }

  /** `' '.join(s.split())` keeps every non-whitespace character, in order. */
  lemma {:induction false} NonSpaceOfWords(s: string)
    ensures NonSpace(Join(" ", Split(s))) == NonSpace(s)
    decreases |s|
  {
    if s == [] {
    } else if IsSpace(s[0]) {
      NonSpaceOfWords(s[1..]);
    } else {
      var n := WordLength(s);
      var w, rest := s[..n], s[n..];
      assert s == w + rest;
      NonSpaceAppend(w, rest);
      NonSpaceOfToken(w);
      NonSpaceOfWords(rest);
      JoinSpaceCons(w, Split(rest));
      if Split(rest) != [] {
        NonSpaceAppend(w + " ", Join(" ", Split(rest)));
        NonSpaceAppend(w, " ");
        assert NonSpace(" ") == [];
      }
    }
  }

  /**
   * `clean_text` removes only disallowed characters and whitespace: apart from
   * its spaces, the result is exactly the allowed characters of the input, in order.
   */
  lemma CleanTextVisible(s: string)
    ensures NonSpace(CleanText(s)) == Visible(s)
  {
    var joined := Join(" ", Split(s));
    NonSpaceStrip(KeepAllowed(joined));
    NonSpaceOfKeep(joined);
    KeepOfNonSpace(joined);
    KeepOfNonSpace(s);
    NonSpaceOfWords(s);
  }

  lemma SplitOfKeptText(s: string)
    requires forall i :: 0 <= i < |s| ==> IsKept(s[i])
    ensures forall k, i :: 0 <= k < |Split(s)| && 0 <= i < |Split(s)[k]| ==> IsKept(Split(s)[k][i])
  {
    forall k, i | 0 <= k < |Split(s)| && 0 <= i < |Split(s)[k]|
      ensures IsKept(Split(s)[k][i])
    {
      var j :| 0 <= j < |s| && s[j] == Split(s)[k][i];
    }
  }

  /**
   * When no character is disallowed, cleaning collapses every run of whitespace
   * between words to one space and trims the ends: the result is the words of
   * the input joined by single spaces, and it has the same words.
   */
  lemma CleanTextOfKeptText(s: string)
    requires forall i :: 0 <= i < |s| ==> IsKept(s[i])
    ensures CleanText(s) == Join(" ", Split(s))
    ensures Split(CleanText(s)) == Split(s)
  {
    var ws := Split(s);
    SplitOfKeptText(s);
    JoinKept(ws);
    KeepAllowedOfKept(Join(" ", ws));
    if ws != [] {
      JoinEnds(ws);
    }
    StripUnspaced(Join(" ", ws));
    SplitJoin(ws);
  }

  lemma {:induction false} KeepAllowedAppend(a: string, b: string)
    ensures KeepAllowed(a + b) == KeepAllowed(a) + KeepAllowed(b)
  {
    if a != [] {
      assert (a + b)[1..] == a[1..] + b;
      KeepAllowedAppend(a[1..], b);
    } else {
      assert a + b == b;
    }
  }

  /** Words made of kept characters, with no whitespace. */
  predicate IsKeptToken(w: string) {
    IsToken(w) && forall i :: 0 <= i < |w| ==> IsKept(w[i])
  }

  /** Leading whitespace does not change the words. */
  lemma SplitSkipsSpace(t: string)
    requires t != [] && IsSpace(t[0])
    ensures Split(t) == Split(t[1..])
  {
  }

  /** A word followed by whitespace and more text is the first word of the split. */
  lemma SplitFirstWord(u: string, rest: string)
    requires IsToken(u) && rest != [] && IsSpace(rest[0])
    ensures Split(u + rest) == [u] + Split(rest)
  {
    var s := u + rest;
    WordLengthOfToken(u, rest);
    assert s[..|u|] == u && s[|u|..] == rest;
  }

  /** A single word splits into itself. */
  lemma SplitToken(v: string)
    requires IsToken(v)
    ensures Split(v) == [v]
  {
    SplitJoin([v]);
  }

  /** Two leading spaces do not change the words. */
  lemma SplitTwoSpaces(v: string)
    requires IsToken(v)
    ensures Split("  " + v) == [v]
  {
    var one := " " + v;
    assert ("  " + v)[1..] == one && one[1..] == v;
    SplitSkipsSpace("  " + v);
    SplitSkipsSpace(one);
    SplitToken(v);
  }

  /** Splitting two words around a double space gives the two words. */
  lemma SplitDoubleSpace(u: string, v: string)
    requires IsToken(u) && IsToken(v)
    ensures Split(u + "  " + v) == [u, v]
  {
    var two := "  " + v;
    assert u + "  " + v == u + two;
    SplitFirstWord(u, two);
    SplitTwoSpaces(v);
  }

  /** A kept word with a space after it, or before it, passes the filter unchanged. */
  lemma KeepKeptSpace(u: string, v: string)
    requires IsKeptToken(u) && IsKeptToken(v)
    ensures KeepAllowed(u + " ") == u + " " && KeepAllowed(" " + v) == " " + v
  {
    forall i | 0 <= i < |u + " "|
      ensures IsKept((u + " ")[i])
    {
      if i < |u| { assert (u + " ")[i] == u[i]; }
    }
    forall i | 0 <= i < |" " + v|
      ensures IsKept((" " + v)[i])
    {
      if i > 0 { assert (" " + v)[i] == v[i - 1]; }
    }
    KeepAllowedOfKept(u + " ");
    KeepAllowedOfKept(" " + v);
  }

  /** A disallowed character in front is dropped. */
  lemma KeepDropsFirst(c: char, t: string)
    requires !IsKept(c)
    ensures KeepAllowed([c] + t) == KeepAllowed(t)
  {
    assert ([c] + t)[0] == c && ([c] + t)[1..] == t;
  }

  lemma KeepDropsLoneChar(u: string, c: char, v: string)
    requires IsKeptToken(u) && IsKeptToken(v) && !IsKept(c)
    ensures KeepAllowed(u + " " + [c] + " " + v) == u + "  " + v
  {
    var front, tail := u + " ", " " + v;
    assert u + " " + [c] + " " + v == front + ([c] + tail);
    assert front + tail == u + "  " + v;
    KeepKeptSpace(u, v);
    KeepDropsFirst(c, tail);
    KeepAllowedAppend(front, [c] + tail);
  }

  /** Three words joined by single spaces. */
  lemma JoinThree(u: string, c: char, v: string)
    ensures Join(" ", [u, [c], v]) == u + " " + [c] + " " + v
  {
    assert [u, [c], v][1..] == [[c], v];
    assert Join(" ", [[c], v]) == [c] + " " + v;
  }

  lemma SplitLoneChar(u: string, c: char, v: string)
    requires IsToken(u) && IsToken(v) && !IsSpace(c)
    ensures Join(" ", Split(u + " " + [c] + " " + v)) == u + " " + [c] + " " + v
  {
    assert IsToken([c]);
    JoinThree(u, c, v);
    SplitJoin([u, [c], v]);
  }

  /** A disallowed character standing alone between two words leaves a double space. */
  lemma CleanDropsLoneChar(u: string, c: char, v: string)
    requires IsKeptToken(u) && IsKeptToken(v) && !IsKept(c)
    ensures CleanText(u + " " + [c] + " " + v) == u + "  " + v
  {
    SplitLoneChar(u, c, v);
    KeepDropsLoneChar(u, c, v);
    StripUnspaced(u + "  " + v);
  }

  /** A double space between two clean words collapses to one. */
  lemma CleanCollapsesDoubleSpace(u: string, v: string)
    requires IsKeptToken(u) && IsKeptToken(v)
    ensures CleanText(u + "  " + v) == u + " " + v
  {
    SplitDoubleSpace(u, v);
    var twice := u + " " + v;
    assert Join(" ", [u, v]) == twice;
    JoinKept([u, v]);
    KeepAllowedOfKept(twice);
    JoinEnds([u, v]);
    StripUnspaced(twice);
  }

  /**
   * Cleaning twice can differ from cleaning once: a dropped character between two
   * spaces leaves a double space, which only a second pass collapses.
   */
  lemma CleanTextNotIdempotent(u: string, c: char, v: string)
    requires IsKeptToken(u) && IsKeptToken(v) && !IsKept(c)
    ensures CleanText(u + " " + [c] + " " + v) == u + "  " + v
    ensures CleanText(CleanText(u + " " + [c] + " " + v)) == u + " " + v
  {
    CleanDropsLoneChar(u, c, v);
    CleanCollapsesDoubleSpace(u, v);
  }

  // --- determine_overall_status ------------------------------------------------------

  /** The four messages, in the order the checks are made. */
  datatype OverallStatus =
    | RejectedHighRisk       // "REJECTED - High fraud risk"
    | RejectedFaceMismatch   // "REJECTED - Face mismatch"
    | ManualReviewRequired   // "MANUAL REVIEW REQUIRED"
    | Verified               // "VERIFIED"

  /** `sum(1 for v in values if v == "Not found")` */
  function CountNotFound(values: seq<string>): nat
  {
    if values == [] then 0 else (if values[0] == "Not found" then 1 else 0) + CountNotFound(values[1..])
  }

  /**
   * `determine_overall_status` over the dictionary's values, the `'match'` entry of
   * the face-verification dictionary and the `'fraud_score'` entry of the fraud
   * dictionary; `None` is a missing key. It says VERIFIED exactly when the score is
   * below 60, the faces matched and at most three fields are missing, and asks for
   * review exactly when the same holds but four or more are missing.
   */
  function DetermineOverallStatus(values: seq<string>, faceMatch: Option<bool>, fraudScore: Option<int>): (r: OverallStatus)
    ensures r == Verified <==>
      (fraudScore.None? || fraudScore.value < 60) && faceMatch == Some(true) && CountNotFound(values) <= 3
    ensures r == ManualReviewRequired <==>
      (fraudScore.None? || fraudScore.value < 60) && faceMatch == Some(true) && CountNotFound(values) >= 4
  {
    var score := match fraudScore case None => 0 case Some(v) => v;
    var matched := match faceMatch case None => false case Some(m) => m;
    if score >= 60 then RejectedHighRisk
    else if !matched then RejectedFaceMismatch
    else if CountNotFound(values) > 3 then ManualReviewRequired
    else Verified
  }

  /** A high score rejects first, whatever the face check and the fields say. */
  lemma HighRiskFirst(values: seq<string>, faceMatch: Option<bool>, score: int)
    requires score >= 60
    ensures DetermineOverallStatus(values, faceMatch, Some(score)) == RejectedHighRisk
  {
  }

  /** Below the risk threshold, a mismatch or a missing `'match'` key rejects, whatever the fields say. */
  lemma FaceMismatchSecond(values: seq<string>, faceMatch: Option<bool>, fraudScore: Option<int>)
    requires fraudScore.None? || fraudScore.value < 60
    requires faceMatch != Some(true)
    ensures DetermineOverallStatus(values, faceMatch, fraudScore) == RejectedFaceMismatch
  {
  }
}
