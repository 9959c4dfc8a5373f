/**
 * A small backtracking regular-expression matcher, enough to state the patterns
 * the field parser passes to `re.search`. `Run` lists every way a pattern can
 * match at one position, in the order a backtracking engine tries them, so the
 * first element is the match Python reports. Character classes are ASCII.
 */
module Regex {
  import opened Wrappers
  import opened Text

  datatype ClassItem =
    | Single(c: char)
    | Range(lo: char, hi: char)
    | Digit   // \d
    | Space   // \s
    | Word    // \w

  datatype Re =
    | Empty
    | Lit(c: char)
    | Class(items: seq<ClassItem>, negated: bool)
    | Concat(first: Re, second: Re)
    | Alt(left: Re, right: Re)       // left is tried first
    | Star(body: Re, greedy: bool)   // `*` when greedy, `*?` otherwise
    | Group(index: nat, body: Re)    // a numbered capturing group
    | WordBoundary                   // \b
    | EndOfText                      // $ without MULTILINE

  /** The half-open range `s[start..end]` a group captured. */
  datatype Span = Span(start: nat, end: nat)

  /** Where a match attempt stopped and what its groups captured on the way. */
  datatype Match = Match(end: nat, groups: map<nat, Span>)

  // --- pattern building blocks ----------------------------------------------

  /** `r?` */
  function Opt(r: Re): Re { Alt(r, Empty) }

  /** `r+` */
  function Plus(r: Re): Re { Concat(r, Star(r, true)) }

  /** `r+?` */
  function LazyPlus(r: Re): Re { Concat(r, Star(r, false)) }

  /** `r{lo,hi}` (greedy): `lo` copies, then up to `hi - lo` optional copies, each tried first. */
  function Rep(r: Re, lo: nat, hi: nat): Re
    requires lo <= hi
    decreases hi
  {
    if lo > 0 then Concat(r, Rep(r, lo - 1, hi - 1))
    else if hi > 0 then Opt(Concat(r, Rep(r, 0, hi - 1)))
    else Empty
  }

  /** A sequence of patterns matched one after another. */
  function Cat(parts: seq<Re>): Re
  {
    if parts == [] then Empty else if |parts| == 1 then parts[0] else Concat(parts[0], Cat(parts[1..]))
  }

  /** A literal word. */
  function Str(w: string): Re
  {
    Cat(seq(|w|, i requires 0 <= i < |w| => Lit(w[i])))
  }

  const AnySpace: Re := Class([Space], false)
  const AnyDigit: Re := Class([Digit], false)
  /** `[\s\S]`: every character. */
  const AnyChar: Re := Class([], true)

  // --- matching --------------------------------------------------------------

  predicate ItemHas(item: ClassItem, c: char) {
    match item
    case Single(x) => c == x
    case Range(lo, hi) => lo <= c <= hi
    case Digit => IsDigit(c)
    case Space => IsSpace(c)
    case Word => IsWordChar(c)
  }

  /** Under IGNORECASE a character also matches when its other-case form does. */
  predicate ItemMatches(item: ClassItem, c: char, icase: bool) {
    ItemHas(item, c) || (icase && (ItemHas(item, ToUpper(c)) || ItemHas(item, ToLower(c))))
  }

  predicate ClassMatches(items: seq<ClassItem>, negated: bool, c: char, icase: bool) {
    (exists k :: 0 <= k < |items| && ItemMatches(items[k], c, icase)) != negated
  }

  predicate LitMatches(x: char, c: char, icase: bool) {
    c == x || (icase && (ToUpper(c) == ToUpper(x)))
  }

  /** `\b`: exactly one of the characters around position `i` is a word character. */
  predicate AtWordBoundary(s: string, i: nat)
    requires i <= |s|
  {
    (i > 0 && IsWordChar(s[i - 1])) != (i < |s| && IsWordChar(s[i]))
  }

  /** `$`: the end of the text, or just before a final newline. */
  predicate AtEnd(s: string, i: nat)
    requires i <= |s|
  {
    i == |s| || (i + 1 == |s| && s[i] == '\n')
  }

  /** Every recorded group lies inside a text of length `n`. */
  predicate ValidGroups(groups: map<nat, Span>, n: nat) {
    forall k :: k in groups ==> groups[k].start <= groups[k].end <= n
  }

  /** The groups that every match of `r` is certain to have set. */
  function CapturedBy(r: Re): set<nat>
  {
    match r
    case Concat(a, b) => CapturedBy(a) + CapturedBy(b)
    case Alt(a, b) => CapturedBy(a) * CapturedBy(b)
    case Group(k, body) => {k} + CapturedBy(body)
    case _ => {}
  }

  /**
   * All matches of `r` starting at position `i` of `s`, in backtracking order,
   * given the groups captured so far.
   */
  function Run(r: Re, s: string, icase: bool, i: nat, groups: map<nat, Span>): (ms: seq<Match>)
    requires i <= |s| && ValidGroups(groups, |s|)
    ensures forall m :: m in ms ==> i <= m.end <= |s| && ValidGroups(m.groups, |s|)
    decreases |s| - i, r, 0, 0
  {
    match r
    case Empty => [Match(i, groups)]
    case Lit(x) =>
      if i < |s| && LitMatches(x, s[i], icase) then [Match(i + 1, groups)] else []
    case Class(items, negated) =>
      if i < |s| && ClassMatches(items, negated, s[i], icase) then [Match(i + 1, groups)] else []
    case Concat(a, b) =>
      var first := Run(a, s, icase, i, groups);
      RunEach(b, s, icase, first, i)
    case Alt(a, b) =>
      Run(a, s, icase, i, groups) + Run(b, s, icase, i, groups)
    case Star(body, greedy) =>
      var again := RunStar(body, greedy, s, icase, Run(body, s, icase, i, groups), i);
      if greedy then again + [Match(i, groups)] else [Match(i, groups)] + again
    case Group(k, body) =>
      Tag(Run(body, s, icase, i, groups), k, i, |s|)
    case WordBoundary =>
      if AtWordBoundary(s, i) then [Match(i, groups)] else []
    case EndOfText =>
      if AtEnd(s, i) then [Match(i, groups)] else []
  }

  /** Records, in each of the matches `inner` of a group's body from `start`, where group `k` spans. */
  function Tag(inner: seq<Match>, k: nat, start: nat, n: nat): (out: seq<Match>)
    requires start <= n
    requires forall m :: m in inner ==> start <= m.end <= n && ValidGroups(m.groups, n)
    ensures forall m :: m in out ==> start <= m.end <= n && ValidGroups(m.groups, n)
  {
    var out := seq(|inner|, j requires 0 <= j < |inner| =>
      Match(inner[j].end, inner[j].groups[k := Span(start, inner[j].end)]));
    TagFacts(inner, k, start, n, out);
    out
  }

  lemma TagFacts(inner: seq<Match>, k: nat, start: nat, n: nat, out: seq<Match>)
    requires start <= n
    requires forall m :: m in inner ==> start <= m.end <= n && ValidGroups(m.groups, n)
    requires |out| == |inner|
    requires forall j :: 0 <= j < |out| ==>
      out[j] == Match(inner[j].end, inner[j].groups[k := Span(start, inner[j].end)])
    ensures forall m :: m in out ==> start <= m.end <= n && ValidGroups(m.groups, n)
  {
    forall m | m in out
      ensures start <= m.end <= n && ValidGroups(m.groups, n)
    {
      var j :| 0 <= j < |out| && out[j] == m;
      assert inner[j] in inner;
    }
  }

  /** Continues each of the partial matches `ms` (all ending at or after `lo`) with `b`. */
  function RunEach(b: Re, s: string, icase: bool, ms: seq<Match>, lo: nat): (out: seq<Match>)
    requires lo <= |s|
    requires forall m :: m in ms ==> lo <= m.end <= |s| && ValidGroups(m.groups, |s|)
    ensures forall m :: m in out ==> lo <= m.end <= |s| && ValidGroups(m.groups, |s|)
    decreases |s| - lo, b, 1, |ms|
  {
    if ms == [] then []
    else Run(b, s, icase, ms[0].end, ms[0].groups) + RunEach(b, s, icase, ms[1..], lo)
  }

  /**
   * One more round of a star: every iteration that consumed input (Python stops a
   * repetition whose body matched the empty string) continues with the star again.
   */
  function RunStar(body: Re, greedy: bool, s: string, icase: bool, ms: seq<Match>, i: nat): (out: seq<Match>)
    requires i <= |s|
    requires forall m :: m in ms ==> i <= m.end <= |s| && ValidGroups(m.groups, |s|)
    ensures forall m :: m in out ==> i < m.end <= |s| && ValidGroups(m.groups, |s|)
    decreases |s| - i, body, 1, |ms|
  {
    if ms == [] then []
    else
      var rest := RunStar(body, greedy, s, icase, ms[1..], i);
      if ms[0].end == i then rest
      else Run(Star(body, greedy), s, icase, ms[0].end, ms[0].groups) + rest
  }

  /** `re.search` from position `start` on: the first match at the leftmost position that has one. */
  function SearchFrom(r: Re, s: string, icase: bool, start: nat): (res: Option<Match>)
    requires start <= |s|
    ensures res.Some? ==> res.value.end <= |s| && ValidGroups(res.value.groups, |s|)
    decreases |s| - start
  {
    var ms := Run(r, s, icase, start, map[]);
    if ms != [] then Some(ms[0])
    else if start == |s| then None
    else SearchFrom(r, s, icase, start + 1)
  }

  /** `re.search(r, s)`, with `icase` standing for the IGNORECASE flag. */
  function Search(r: Re, s: string, icase: bool): (res: Option<Match>)
    ensures res.Some? ==> res.value.end <= |s| && ValidGroups(res.value.groups, |s|)
  {
    SearchFrom(r, s, icase, 0)
  }

  /** `match.group(k)`: the text group `k` captured (the empty string if it took no part). */
  function GroupText(s: string, m: Match, k: nat): (g: string)
    requires ValidGroups(m.groups, |s|)
    ensures forall i :: 0 <= i < |g| ==> g[i] in s
  {
    if k in m.groups then s[m.groups[k].start..m.groups[k].end] else ""
  }

  // --- what a match consumes ------------------------------------------------

  /** The fewest characters any match of `r` consumes. */
  function MinLen(r: Re): nat
  {
    match r
    case Lit(_) => 1
    case Class(_, _) => 1
    case Concat(a, b) => MinLen(a) + MinLen(b)
    case Alt(a, b) => if MinLen(a) <= MinLen(b) then MinLen(a) else MinLen(b)
    case Group(_, body) => MinLen(body)
    case _ => 0
  }

  /** A class item no whitespace character matches, with or without IGNORECASE. */
  predicate SolidItem(item: ClassItem) {
    match item
    case Single(x) => !IsSpace(x)
    case Range(lo, _) => ' ' < lo
    case Digit => true
    case Space => false
    case Word => true
  }

  /** A pattern that never consumes a whitespace character. */
  predicate Solid(r: Re) {
    match r
    case Lit(x) => !IsSpace(x)
    case Class(items, negated) => !negated && forall k :: 0 <= k < |items| ==> SolidItem(items[k])
    case Concat(a, b) => Solid(a) && Solid(b)
    case Alt(a, b) => Solid(a) && Solid(b)
    case Star(body, _) => Solid(body)
    case Group(_, body) => Solid(body)
    case _ => true
  }

  /** Every group numbered `k` in `r` captures at least one character and no whitespace. */
  predicate SolidGroups(r: Re, k: nat) {
    match r
    case Concat(a, b) => SolidGroups(a, k) && SolidGroups(b, k)
    case Alt(a, b) => SolidGroups(a, k) && SolidGroups(b, k)
    case Star(body, _) => SolidGroups(body, k)
    case Group(j, body) => SolidGroups(body, k) && (j == k ==> Solid(body) && MinLen(body) >= 1)
    case _ => true
  }

  /** No character of `s[i..e]` is whitespace. */
  predicate Unspaced(s: string, i: nat, e: nat) {
    forall j :: i <= j < e && j < |s| ==> !IsSpace(s[j])
  }

  /** Group `k`, when recorded, spans at least one character and no whitespace of `s`. */
  predicate SolidSpan(groups: map<nat, Span>, k: nat, s: string) {
    k in groups ==> groups[k].start < groups[k].end && Unspaced(s, groups[k].start, groups[k].end)
  }

  /** A whitespace character matches no solid class item. */
  lemma SpaceMissesSolidClass(items: seq<ClassItem>, c: char, icase: bool)
    requires forall k :: 0 <= k < |items| ==> SolidItem(items[k])
    requires IsSpace(c)
    ensures !ClassMatches(items, false, c, icase)
  {
    assert ToUpper(c) == c && ToLower(c) == c;
    forall k | 0 <= k < |items|
      ensures !ItemMatches(items[k], c, icase)
    {
    }
  }

  /**
   * Every match of `r` from `i` consumes at least `MinLen(r)` characters, a solid
   * pattern consumes no whitespace, and a pattern whose groups `k` are solid keeps
   * group `k` solid.
   */
  lemma RunFacts(r: Re, s: string, icase: bool, i: nat, groups: map<nat, Span>, k: nat)
    requires i <= |s| && ValidGroups(groups, |s|)
    requires SolidGroups(r, k) && SolidSpan(groups, k, s)
    ensures forall m :: m in Run(r, s, icase, i, groups) ==>
      && i + MinLen(r) <= m.end
      && (Solid(r) ==> Unspaced(s, i, m.end))
      && SolidSpan(m.groups, k, s)
    decreases |s| - i, r, 0, 0
  {
    match r
    case Empty => ZeroWidthFacts(r, s, icase, i, groups, k);
    case Lit(_) => CharFacts(r, s, icase, i, groups, k);
    case Class(_, _) => CharFacts(r, s, icase, i, groups, k);
    case Concat(a, b) =>
      RunFacts(a, s, icase, i, groups, k);
      var first := Run(a, s, icase, i, groups);
      RunEachFacts(b, s, icase, first, i, k, MinLen(a), Solid(a));
      ConcatFacts(a, b, s, icase, i, groups, k);
    case Alt(a, b) =>
      RunFacts(a, s, icase, i, groups, k);
      RunFacts(b, s, icase, i, groups, k);
      AltFacts(a, b, s, icase, i, groups, k);
    case Star(body, greedy) =>
      RunFacts(body, s, icase, i, groups, k);
      RunStarFacts(body, greedy, s, icase, Run(body, s, icase, i, groups), i, k);
      StarFacts(body, greedy, s, icase, i, groups, k);
    case Group(j, body) =>
      RunFacts(body, s, icase, i, groups, k);
      GroupFacts(j, body, s, icase, i, groups, k);
    case WordBoundary => ZeroWidthFacts(r, s, icase, i, groups, k);
    case EndOfText => ZeroWidthFacts(r, s, icase, i, groups, k);
  }

  /** `RunFacts` for the patterns that consume nothing: they end where they start and keep the groups. */
  lemma ZeroWidthFacts(r: Re, s: string, icase: bool, i: nat, groups: map<nat, Span>, k: nat)
    requires r.Empty? || r.WordBoundary? || r.EndOfText?
    requires i <= |s| && ValidGroups(groups, |s|) && SolidSpan(groups, k, s)
    ensures forall m :: m in Run(r, s, icase, i, groups) ==>
      && i + MinLen(r) <= m.end
      && (Solid(r) ==> Unspaced(s, i, m.end))
      && SolidSpan(m.groups, k, s)
  {
  }

  /** `RunFacts` for a sequence, from `RunEachFacts` for its continuations. */
  lemma ConcatFacts(a: Re, b: Re, s: string, icase: bool, i: nat, groups: map<nat, Span>, k: nat)
    requires i <= |s| && ValidGroups(groups, |s|)
    requires forall m :: m in RunEach(b, s, icase, Run(a, s, icase, i, groups), i) ==>
      && i + MinLen(a) + MinLen(b) <= m.end
      && (Solid(a) && Solid(b) ==> Unspaced(s, i, m.end))
      && SolidSpan(m.groups, k, s)
    ensures forall m :: m in Run(Concat(a, b), s, icase, i, groups) ==>
      && i + MinLen(Concat(a, b)) <= m.end
      && (Solid(Concat(a, b)) ==> Unspaced(s, i, m.end))
      && SolidSpan(m.groups, k, s)
  {
    assert Run(Concat(a, b), s, icase, i, groups) == RunEach(b, s, icase, Run(a, s, icase, i, groups), i);
  }

  /** `RunFacts` for an alternative, from `RunFacts` for both branches. */
  lemma AltFacts(a: Re, b: Re, s: string, icase: bool, i: nat, groups: map<nat, Span>, k: nat)
    requires i <= |s| && ValidGroups(groups, |s|)
    requires forall m :: m in Run(a, s, icase, i, groups) ==>
      && i + MinLen(a) <= m.end
      && (Solid(a) ==> Unspaced(s, i, m.end))
      && SolidSpan(m.groups, k, s)
    requires forall m :: m in Run(b, s, icase, i, groups) ==>
      && i + MinLen(b) <= m.end
      && (Solid(b) ==> Unspaced(s, i, m.end))
      && SolidSpan(m.groups, k, s)
    ensures forall m :: m in Run(Alt(a, b), s, icase, i, groups) ==>
      && i + MinLen(Alt(a, b)) <= m.end
      && (Solid(Alt(a, b)) ==> Unspaced(s, i, m.end))
      && SolidSpan(m.groups, k, s)
  {
    assert Run(Alt(a, b), s, icase, i, groups) == Run(a, s, icase, i, groups) + Run(b, s, icase, i, groups);
  }

  /** `RunFacts` for a star, from `RunStarFacts` for its further rounds. */
  lemma StarFacts(body: Re, greedy: bool, s: string, icase: bool, i: nat, groups: map<nat, Span>, k: nat)
    requires i <= |s| && ValidGroups(groups, |s|) && SolidSpan(groups, k, s)
    requires forall m :: m in RunStar(body, greedy, s, icase, Run(body, s, icase, i, groups), i) ==>
      (Solid(body) ==> Unspaced(s, i, m.end)) && SolidSpan(m.groups, k, s)
    ensures forall m :: m in Run(Star(body, greedy), s, icase, i, groups) ==>
      && i + MinLen(Star(body, greedy)) <= m.end
      && (Solid(Star(body, greedy)) ==> Unspaced(s, i, m.end))
      && SolidSpan(m.groups, k, s)
  {
    var again := RunStar(body, greedy, s, icase, Run(body, s, icase, i, groups), i);
    assert Run(Star(body, greedy), s, icase, i, groups) ==
      if greedy then again + [Match(i, groups)] else [Match(i, groups)] + again;
  }

  /** `RunFacts` for a literal or a class: it consumes one character, which is not whitespace when it is solid. */
  lemma CharFacts(r: Re, s: string, icase: bool, i: nat, groups: map<nat, Span>, k: nat)
    requires r.Lit? || r.Class?
    requires i <= |s| && ValidGroups(groups, |s|) && SolidSpan(groups, k, s)
    ensures forall m :: m in Run(r, s, icase, i, groups) ==>
      && i + MinLen(r) <= m.end
      && (Solid(r) ==> Unspaced(s, i, m.end))
      && SolidSpan(m.groups, k, s)
  {
    if i < |s| && IsSpace(s[i]) {
      if r.Lit? {
        assert ToUpper(s[i]) == s[i];
      } else if Solid(r) {
        SpaceMissesSolidClass(r.items, s[i], icase);
      }
    }
  }

  /** `RunFacts` for a group, from `RunFacts` for its body. */
  lemma GroupFacts(j: nat, body: Re, s: string, icase: bool, i: nat, groups: map<nat, Span>, k: nat)
    requires i <= |s| && ValidGroups(groups, |s|)
    requires SolidGroups(Group(j, body), k)
    requires forall m :: m in Run(body, s, icase, i, groups) ==>
      && i + MinLen(body) <= m.end
      && (Solid(body) ==> Unspaced(s, i, m.end))
      && SolidSpan(m.groups, k, s)
    ensures forall m :: m in Run(Group(j, body), s, icase, i, groups) ==>
      && i + MinLen(Group(j, body)) <= m.end
      && (Solid(Group(j, body)) ==> Unspaced(s, i, m.end))
      && SolidSpan(m.groups, k, s)
  {
    var inner := Run(body, s, icase, i, groups);
    var out := Run(Group(j, body), s, icase, i, groups);
    assert out == Tag(inner, j, i, |s|);
    forall m | m in out
      ensures i + MinLen(body) <= m.end && (Solid(body) ==> Unspaced(s, i, m.end)) && SolidSpan(m.groups, k, s)
    {
      var t :| 0 <= t < |out| && out[t] == m;
      assert inner[t] in inner;
    }
  }

  /** `RunFacts` for the continuations of partial matches that consumed `n` characters or more. */
  lemma RunEachFacts(b: Re, s: string, icase: bool, ms: seq<Match>, lo: nat, k: nat, n: nat, solid: bool)
    requires lo <= |s|
    requires forall m :: m in ms ==> lo <= m.end <= |s| && ValidGroups(m.groups, |s|)
    requires SolidGroups(b, k)
    requires forall m :: m in ms ==>
      lo + n <= m.end && (solid ==> Unspaced(s, lo, m.end)) && SolidSpan(m.groups, k, s)
    ensures forall m :: m in RunEach(b, s, icase, ms, lo) ==>
      && lo + n + MinLen(b) <= m.end
      && (solid && Solid(b) ==> Unspaced(s, lo, m.end))
      && SolidSpan(m.groups, k, s)
    decreases |s| - lo, b, 1, |ms|
  {
    if ms != [] {
      assert ms[0] in ms;
      RunFacts(b, s, icase, ms[0].end, ms[0].groups, k);
      RunEachFacts(b, s, icase, ms[1..], lo, k, n, solid);
      assert forall m :: m in ms[1..] ==> m in ms;
    }
  }

  /** `RunFacts` for the further rounds of a star whose first round started at `i`. */
  lemma RunStarFacts(body: Re, greedy: bool, s: string, icase: bool, ms: seq<Match>, i: nat, k: nat)
    requires i <= |s|
    requires forall m :: m in ms ==> i <= m.end <= |s| && ValidGroups(m.groups, |s|)
    requires SolidGroups(body, k)
    requires forall m :: m in ms ==> (Solid(body) ==> Unspaced(s, i, m.end)) && SolidSpan(m.groups, k, s)
    ensures forall m :: m in RunStar(body, greedy, s, icase, ms, i) ==>
      (Solid(body) ==> Unspaced(s, i, m.end)) && SolidSpan(m.groups, k, s)
    decreases |s| - i, body, 1, |ms|
  {
    if ms != [] {
      assert ms[0] in ms;
      RunStarFacts(body, greedy, s, icase, ms[1..], i, k);
      assert forall m :: m in ms[1..] ==> m in ms;
      if ms[0].end != i {
        RunFacts(Star(body, greedy), s, icase, ms[0].end, ms[0].groups, k);
      }
    }
  }

  /** The match `re.search` reports keeps every solid group `k` solid. */
  lemma {:induction false} SearchFromSolid(r: Re, s: string, icase: bool, start: nat, k: nat)
    requires start <= |s| && SolidGroups(r, k)
    ensures SearchFrom(r, s, icase, start).Some? ==> SolidSpan(SearchFrom(r, s, icase, start).value.groups, k, s)
    decreases |s| - start
  {
    RunFacts(r, s, icase, start, map[], k);
    var ms := Run(r, s, icase, start, map[]);
    if ms != [] {
      assert ms[0] in ms;
    } else if start < |s| {
      SearchFromSolid(r, s, icase, start + 1, k);
    }
  }

  // --- which groups a match sets ---------------------------------------------

  /** Group `k`, once set or when `r` is certain to set it, is set in every match of `r`. */
  lemma RunSets(r: Re, s: string, icase: bool, i: nat, groups: map<nat, Span>, k: nat)
    requires i <= |s| && ValidGroups(groups, |s|)
    requires k in groups || k in CapturedBy(r)
    ensures forall m :: m in Run(r, s, icase, i, groups) ==> k in m.groups
    decreases |s| - i, r, 0, 0
  {
    match r
    case Concat(a, b) =>
      var first := Run(a, s, icase, i, groups);
      if k in groups || k in CapturedBy(a) {
        RunSets(a, s, icase, i, groups, k);
      }
      RunEachSets(b, s, icase, first, i, k);
    case Alt(a, b) =>
      RunSets(a, s, icase, i, groups, k);
      RunSets(b, s, icase, i, groups, k);
    case Star(body, greedy) =>
      RunSets(body, s, icase, i, groups, k);
      RunStarSets(body, greedy, s, icase, Run(body, s, icase, i, groups), i, k);
    case Group(j, body) =>
      if j != k {
        RunSets(body, s, icase, i, groups, k);
      }
    case _ =>
  }

  /** `RunSets` for the continuations of partial matches. */
  lemma RunEachSets(b: Re, s: string, icase: bool, ms: seq<Match>, lo: nat, k: nat)
    requires lo <= |s|
    requires forall m :: m in ms ==> lo <= m.end <= |s| && ValidGroups(m.groups, |s|)
    requires k in CapturedBy(b) || forall m :: m in ms ==> k in m.groups
    ensures forall m :: m in RunEach(b, s, icase, ms, lo) ==> k in m.groups
    decreases |s| - lo, b, 1, |ms|
  {
    if ms != [] {
      assert ms[0] in ms;
      assert forall m :: m in ms[1..] ==> m in ms;
      RunSets(b, s, icase, ms[0].end, ms[0].groups, k);
      RunEachSets(b, s, icase, ms[1..], lo, k);
    }
  }

  /** `RunSets` for the further rounds of a star. */
  lemma RunStarSets(body: Re, greedy: bool, s: string, icase: bool, ms: seq<Match>, i: nat, k: nat)
    requires i <= |s|
    requires forall m :: m in ms ==> i <= m.end <= |s| && ValidGroups(m.groups, |s|) && k in m.groups
    ensures forall m :: m in RunStar(body, greedy, s, icase, ms, i) ==> k in m.groups
    decreases |s| - i, body, 1, |ms|
  {
    if ms != [] {
      assert ms[0] in ms;
      assert forall m :: m in ms[1..] ==> m in ms;
      RunStarSets(body, greedy, s, icase, ms[1..], i, k);
      if ms[0].end != i {
        RunSets(Star(body, greedy), s, icase, ms[0].end, ms[0].groups, k);
      }
    }
  }

  /** The match `re.search` reports sets every group `r` is certain to set. */
  lemma {:induction false} SearchFromSets(r: Re, s: string, icase: bool, start: nat, k: nat)
    requires start <= |s| && k in CapturedBy(r)
    ensures SearchFrom(r, s, icase, start).Some? ==> k in SearchFrom(r, s, icase, start).value.groups
    decreases |s| - start
  {
    RunSets(r, s, icase, start, map[], k);
    var ms := Run(r, s, icase, start, map[]);
    if ms != [] {
      assert ms[0] in ms;
    } else if start < |s| {
      SearchFromSets(r, s, icase, start + 1, k);
    }
  }

  /** The text a solid group captured is a non-empty word without whitespace. */
  lemma SolidGroupText(r: Re, s: string, icase: bool, k: nat)
    requires SolidGroups(r, k) && k in CapturedBy(r)
    ensures Search(r, s, icase).Some? ==> IsToken(GroupText(s, Search(r, s, icase).value, k))
  {
    SearchFromSolid(r, s, icase, 0, k);
    SearchFromSets(r, s, icase, 0, k);
  }

  // --- building blocks and sequences -----------------------------------------

  /** A sequence of patterns is solid, or keeps group `k` solid, when each part does. */
  lemma {:induction false} CatSolid(parts: seq<Re>, k: nat)
    ensures (forall j :: 0 <= j < |parts| ==> SolidGroups(parts[j], k)) ==> SolidGroups(Cat(parts), k)
    ensures (forall j :: 0 <= j < |parts| ==> Solid(parts[j])) ==> Solid(Cat(parts))
    ensures |parts| > 0 ==> MinLen(Cat(parts)) >= MinLen(parts[0])
  {
    if |parts| > 1 {
      CatSolid(parts[1..], k);
      assert forall j :: 1 <= j < |parts| ==> parts[1..][j - 1] == parts[j];
    }
  }

  /** Group `k` of a sequence pattern is set by every match when one of the parts sets it. */
  lemma {:induction false} CatCaptures(parts: seq<Re>, j: nat, k: nat)
    requires j < |parts| && k in CapturedBy(parts[j])
    ensures k in CapturedBy(Cat(parts))
  {
    if |parts| > 1 && j > 0 {
      CatCaptures(parts[1..], j - 1, k);
    }
  }

  /** A sequence whose part `j` is group `k` sets that group in every match and keeps it solid, when every part keeps it solid. */
  lemma CatGroupSolid(parts: seq<Re>, j: nat, k: nat)
    requires j < |parts| && parts[j].Group? && parts[j].index == k
    requires forall i :: 0 <= i < |parts| ==> SolidGroups(parts[i], k)
    ensures SolidGroups(Cat(parts), k) && k in CapturedBy(Cat(parts))
  {
    CatSolid(parts, k);
    CatCaptures(parts, j, k);
  }

  /** A literal word has no groups. */
  lemma StrSolidGroups(w: string, k: nat)
    ensures SolidGroups(Str(w), k)
  {
    var parts := seq(|w|, i requires 0 <= i < |w| => Lit(w[i]));
    CatSolid(parts, k);
  }

  /** A bounded repetition of a pattern without groups numbered `k` has none either, and keeps solidity. */
  lemma {:induction false} RepSolid(r: Re, lo: nat, hi: nat, k: nat)
    requires lo <= hi
    ensures SolidGroups(r, k) ==> SolidGroups(Rep(r, lo, hi), k)
    ensures Solid(r) ==> Solid(Rep(r, lo, hi))
    ensures lo > 0 ==> MinLen(Rep(r, lo, hi)) >= MinLen(r)
    decreases hi
  {
    if lo > 0 {
      RepSolid(r, lo - 1, hi - 1, k);
    } else if hi > 0 {
      RepSolid(r, 0, hi - 1, k);
    }
  }
}
