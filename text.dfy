/** The Option type used for "matched or not" results throughout the model. */
module Wrappers {
  datatype Option<T> = None | Some(value: T)
}

/**
 * The parts of Python's `str` that the KYC agent relies on: character classes,
 * `upper()`/`lower()`, `strip()`, `split()`, `' '.join(...)`, substring `in`
 * and `f"{n}"` for integers. Characters are classified over ASCII only.
 */
module Text {

  /**
   * The ASCII characters Python counts as whitespace (`str.isspace()`, `\s`):
   * \t, \n, \v, \f, \r, the four separators U+001C to U+001F, and the space.
   */
  predicate IsSpace(c: char) {
    ('\t' <= c <= '\r') || ('\U{001C}' <= c <= ' ')
  }

  predicate IsDigit(c: char) { '0' <= c <= '9' }

  predicate IsUpperLetter(c: char) { 'A' <= c <= 'Z' }

  predicate IsLowerLetter(c: char) { 'a' <= c <= 'z' }

  /** The regular-expression word class `\w`, restricted to ASCII. */
  predicate IsWordChar(c: char) {
    IsUpperLetter(c) || IsLowerLetter(c) || IsDigit(c) || c == '_'
  }

  function ToUpper(c: char): (u: char)
    ensures !IsLowerLetter(u)
    ensures !IsLowerLetter(c) ==> u == c
  {
    if IsLowerLetter(c) then (c as int - 32) as char else c
  }

  function ToLower(c: char): (l: char)
    ensures !IsUpperLetter(l)
    ensures !IsUpperLetter(c) ==> l == c
  {
    if IsUpperLetter(c) then (c as int + 32) as char else c
  }

  /** `s.upper()`: no ASCII lower-case letter survives, everything else is kept. */
  function Upper(s: string): (u: string)
    ensures |u| == |s|
    ensures forall i :: 0 <= i < |s| ==> u[i] == ToUpper(s[i])
  {
    seq(|s|, i requires 0 <= i < |s| => ToUpper(s[i]))
  }

  /** `s.lower()` */
  function Lower(s: string): (l: string)
    ensures |l| == |s|
    ensures forall i :: 0 <= i < |s| ==> l[i] == ToLower(s[i])
  {
    seq(|s|, i requires 0 <= i < |s| => ToLower(s[i]))
  }

  /** `s.lstrip()`: drops the leading whitespace and nothing else. */
  function TrimStart(s: string): (r: string)
    ensures |r| <= |s| && r == s[|s| - |r|..]
    ensures r == [] || !IsSpace(r[0])
    ensures forall i :: 0 <= i < |s| - |r| ==> IsSpace(s[i])
    decreases |s|
  {
    if s != [] && IsSpace(s[0]) then TrimStart(s[1..]) else s
  }

  /** `s.rstrip()`: drops the trailing whitespace and nothing else. */
  function TrimEnd(s: string): (r: string)
    ensures |r| <= |s| && r == s[..|r|]
    ensures r == [] || !IsSpace(r[|r| - 1])
    ensures forall i :: |r| <= i < |s| ==> IsSpace(s[i])
    decreases |s|
  {
    if s != [] && IsSpace(s[|s| - 1]) then TrimEnd(s[..|s| - 1]) else s
  }

  /** `s.strip()`: a contiguous piece of `s` that neither starts nor ends with whitespace. */
  function Strip(s: string): (r: string)
    ensures |r| <= |s|
    ensures r == [] || (!IsSpace(r[0]) && !IsSpace(r[|r| - 1]))
    ensures forall i :: 0 <= i < |r| ==> r[i] in s
  {
    TrimEnd(TrimStart(s))
  }

  /** A word produced by `str.split()`: non-empty and free of whitespace. */
  predicate IsToken(w: string) {
    |w| > 0 && forall i :: 0 <= i < |w| ==> !IsSpace(w[i])
  }

  /** The length of the run of non-whitespace characters at the start of `s`. */
  function WordLength(s: string): (n: nat)
    ensures n <= |s|
    ensures forall i :: 0 <= i < n ==> !IsSpace(s[i])
    ensures n == |s| || IsSpace(s[n])
    decreases |s|
  {
    if s == [] || IsSpace(s[0]) then 0 else 1 + WordLength(s[1..])
  }

  /** `s.split()` with no separator: the maximal whitespace-free runs, in order. */
  function Split(s: string): (ws: seq<string>)
    ensures forall k :: 0 <= k < |ws| ==> IsToken(ws[k])
    ensures forall k, i :: 0 <= k < |ws| && 0 <= i < |ws[k]| ==> ws[k][i] in s
    decreases |s|
  {
    if s == [] then []
    else if IsSpace(s[0]) then Split(s[1..])
    else
      var n := WordLength(s);
      [s[..n]] + Split(s[n..])
  }

  /** `sep.join(ws)` */
  function Join(sep: string, ws: seq<string>): string
  {
    if ws == [] then "" else if |ws| == 1 then ws[0] else ws[0] + sep + Join(sep, ws[1..])
  }

  /** Python's `sub in s`: `sub` occurs at some position of `s`. */
  predicate Contains(s: string, sub: string) {
    exists i: nat :: i <= |s| && OccursAt(s, sub, i)
  }

  /** `sub` occurs in `s` starting at position `i`. */
  predicate OccursAt(s: string, sub: string, i: nat) {
    i + |sub| <= |s| && s[i..i + |sub|] == sub
  }

  function DigitChar(d: nat): (c: char)
    requires d < 10
    ensures IsDigit(c)
  {
    ('0' as int + d) as char
  }

  /** `f"{n}"` for a non-negative integer. */
  function NatToString(n: nat): (s: string)
    ensures |s| > 0
    decreases n
  {
    if n < 10 then [DigitChar(n)] else NatToString(n / 10) + [DigitChar(n % 10)]
  }

  /** `f"{i}"` for any integer. */
  function IntToString(i: int): string
  {
    if i < 0 then "-" + NatToString(-i) else NatToString(i)
  }

  /** Every character of `s` is an ASCII decimal digit. */
  predicate AllDigits(s: string) {
    forall j :: 0 <= j < |s| ==> IsDigit(s[j])
  }

  /** `int(s)` for a string of decimal digits. */
  function DigitsValue(s: string): nat
    requires AllDigits(s)
  {
    if s == [] then 0
    else
      assert IsDigit(s[|s| - 1]);
      10 * DigitsValue(s[..|s| - 1]) + (s[|s| - 1] as int - '0' as int)
  }

  function Pow10(n: nat): nat { if n == 0 then 1 else 10 * Pow10(n - 1) }

  /** `f"{n:0{w}d}"` for an `n` below `10^w`: exactly `w` digits, zero-padded on the left. */
  function PaddedDigits(n: nat, w: nat): (s: string)
    ensures |s| == w && AllDigits(s)
  {
    if w == 0 then "" else PaddedDigits(n / 10, w - 1) + [DigitChar(n % 10)]
  }

  // ---------------------------------------------------------------------------
  // Lemmas

  lemma {:induction false} WordLengthOfToken(w: string, rest: string)
    requires IsToken(w)
    requires rest == [] || IsSpace(rest[0])
    ensures WordLength(w + rest) == |w|
    decreases |w|
  {
    if |w| > 1 {
      assert (w + rest)[1..] == w[1..] + rest;
      WordLengthOfToken(w[1..], rest);
    } else {
      assert (w + rest)[1..] == rest;
    }
  }

  /** Splitting words that were joined by single spaces gives back the words. */
  lemma {:induction false} SplitJoin(ws: seq<string>)
    requires forall k :: 0 <= k < |ws| ==> IsToken(ws[k])
    ensures Split(Join(" ", ws)) == ws
  {
    if ws == [] {
    } else if |ws| == 1 {
      var w := ws[0];
      WordLengthOfToken(w, []);
      assert w + [] == w;
      assert w[..|w|] == w && w[|w|..] == [];
    } else {
      var w, j := ws[0], Join(" ", ws[1..]);
      var s := w + " " + j;
      assert s == w + (" " + j);
      WordLengthOfToken(w, " " + j);
      assert s[..|w|] == w;
      assert s[|w|..] == " " + j;
      assert (" " + j)[1..] == j;
      SplitJoin(ws[1..]);
    }
  }

  /** A string without the character `c` cannot contain a string that has `c`. */
  lemma NotContainsMissingChar(s: string, sub: string, j: nat)
    requires j < |sub| && sub[j] !in s
    ensures !Contains(s, sub)
  {
    forall i: nat | i + |sub| <= |s|
      ensures !OccursAt(s, sub, i)
    {
      assert s[i..i + |sub|][j] == s[i + j];
    }
  }

  lemma ContainsAt(s: string, sub: string, i: nat)
    requires OccursAt(s, sub, i)
    ensures Contains(s, sub)
  {
  }

  /** A string contains each of its prefixes. */
  lemma ContainsPrefix(sub: string, rest: string)
    ensures Contains(sub + rest, sub)
  {
    assert (sub + rest)[..|sub|] == sub;
    ContainsAt(sub + rest, sub, 0);
  }

  /** A string of `w` digits has a value below `10^w`. */
  lemma {:induction false} DigitsValueBound(s: string)
    requires AllDigits(s)
    ensures DigitsValue(s) < Pow10(|s|)
  {
    if s != [] {
      DigitsValueBound(s[..|s| - 1]);
    }
  }

  /** Rendering the value of a digit string at its own width gives the string back. */
  lemma {:induction false} PaddedDigitsValue(s: string)
    requires AllDigits(s)
    ensures PaddedDigits(DigitsValue(s), |s|) == s
  {
    if s != [] {
      var init, last := s[..|s| - 1], s[|s| - 1];
      assert IsDigit(last);
      var d := last as int - '0' as int;
      var v := 10 * DigitsValue(init) + d;
      assert v / 10 == DigitsValue(init) && v % 10 == d;
      PaddedDigitsValue(init);
      assert DigitChar(d) == last;
      assert s == init + [last];
    }
  }

  /** The value of `w` padded digits is the number rendered, when it fits. */
  lemma {:induction false} ValueOfPaddedDigits(n: nat, w: nat)
    requires n < Pow10(w)
    ensures DigitsValue(PaddedDigits(n, w)) == n
  {
    if w > 0 {
      ValueOfPaddedDigits(n / 10, w - 1);
      var s := PaddedDigits(n, w);
      assert s[..|s| - 1] == PaddedDigits(n / 10, w - 1);
    }
  }

  /** Stripping a word without whitespace changes nothing. */
  lemma StripToken(w: string)
    requires IsToken(w)
    ensures Strip(w) == w
  {
    assert TrimStart(w) == w;
  }
}
