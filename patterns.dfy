/** Hand-written scanners for the five regular expressions of the price
    pipeline, with a declarative statement of what each pattern matches.

    Python's `re` engine backtracks and returns, at the leftmost start that
    matches, the first match in priority order. For these patterns that match
    is unique in where its group starts and has the longest group: `\d+` is
    followed by a separator or a non-digit, `\s*` by a digit or `r`, so a
    shorter repetition can never be completed, and in `A|B` every match of
    `\d+` at a start is shorter than a match of `\d+\.\d+` there.
    `FindFirstIsLeftmostLongest` proves that the scanners return exactly that
    match. */
module Patterns {
  import opened Outcomes
  import opened Text

  /** The half-open index range of a capture group. */
  datatype Span = Span(start: nat, end: nat)

  /** A match starting at index `at` whose group is `group`. */
  datatype Hit = Hit(at: nat, group: Span)

  datatype Pattern =
    | AnyNumber         // (\d+[,.]\d+|\d+)     , the "looks like a price" test
    | CanonicalNumber   // \d+\.\d+|\d+          , the normaliser's token
    | CurrencyPrefixed  // R\$\s*(\d+[,.]\d+)
    | ReaisSuffixed     // (\d+[,.]\d+)\s*reais
    | BareDecimal       // (\d+[,.]\d+)

  /** `[,.]` when `commaToo`, otherwise `\.`. */
  predicate IsSeparator(c: char, commaToo: bool) {
    c == '.' || (commaToo && c == ',')
  }

  // ----- The scanners -----

  /** The end of the longest run of digits that starts at `i`. */
  function DigitRunEnd(s: string, i: nat): (j: nat)
    requires i <= |s|
    ensures i <= j <= |s|
    ensures forall k :: i <= k < j ==> IsDigit(s[k])
    ensures j == |s| || !IsDigit(s[j])
    decreases |s| - i
  {
    if i < |s| && IsDigit(s[i]) then DigitRunEnd(s, i + 1) else i
  }

  /** The end of the longest run of whitespace that starts at `i`. */
  function SpaceRunEnd(s: string, i: nat): (j: nat)
    requires i <= |s|
    ensures i <= j <= |s|
    ensures forall k :: i <= k < j ==> IsSpace(s[k])
    ensures j == |s| || !IsSpace(s[j])
    decreases |s| - i
  {
    if i < |s| && IsSpace(s[i]) then SpaceRunEnd(s, i + 1) else i
  }

  /** The end of the match of `\d+[sep]\d+` anchored at `i`, if there is one. */
  function DecimalEnd(s: string, i: nat, commaToo: bool): (r: Option<nat>)
    requires i <= |s|
    ensures r.Some? ==> i < r.value <= |s| && IsDigit(s[i])
  {
    var q := DigitRunEnd(s, i);
    if i < q && q + 1 < |s| && IsSeparator(s[q], commaToo) && IsDigit(s[q + 1])
    then Some(DigitRunEnd(s, q + 1))
    else None
  }

  /** The match of `\d+[sep]\d+|\d+` anchored at `i`, if there is one. */
  function NumberAt(s: string, i: nat, commaToo: bool): (r: Option<Span>)
    requires i <= |s|
    ensures r.Some? ==> r.value.start == i < r.value.end <= |s| && IsDigit(s[i])
  {
    match DecimalEnd(s, i, commaToo)
    case Some(k) => Some(Span(i, k))
    case None =>
      var q := DigitRunEnd(s, i);
      if i < q then Some(Span(i, q)) else None
  }

  /** The group of `pat`'s match anchored at `p`, if there is one. */
  function MatchAt(pat: Pattern, s: string, p: nat): (r: Option<Span>)
    requires p <= |s|
    ensures r.Some? ==> p <= r.value.start < r.value.end <= |s| && IsDigit(s[r.value.start])
  {
    match pat
    case AnyNumber => NumberAt(s, p, true)
    case CanonicalNumber => NumberAt(s, p, false)
    case BareDecimal =>
      (match DecimalEnd(s, p, true)
       case Some(k) => Some(Span(p, k))
       case None => None)
    case CurrencyPrefixed =>
      if p + 1 < |s| && s[p] == 'R' && s[p + 1] == '$' then
        var w := SpaceRunEnd(s, p + 2);
        match DecimalEnd(s, w, true)
        case Some(k) => Some(Span(w, k))
        case None => None
      else None
    case ReaisSuffixed =>
      match DecimalEnd(s, p, true)
      case Some(k) =>
        var w := SpaceRunEnd(s, k);
        if w + 5 <= |s| && s[w..w + 5] == "reais" then Some(Span(p, k)) else None
      case None => None
  }

  /** `re.search(pat, s[from..])`: the match at the first start, from `from` on,
      where `pat` matches. */
  function FindFirst(pat: Pattern, s: string, from: nat): (r: Option<Hit>)
    requires from <= |s|
    ensures r.None? ==> forall p :: from <= p <= |s| ==> MatchAt(pat, s, p).None?
    ensures r.Some? ==> from <= r.value.at <= |s| && MatchAt(pat, s, r.value.at) == Some(r.value.group)
    ensures r.Some? ==> forall p :: from <= p < r.value.at ==> MatchAt(pat, s, p).None?
    decreases |s| - from
  {
    var m := MatchAt(pat, s, from);
    if m.Some? then Some(Hit(from, m.value))
    else if from == |s| then None
    else
      var r := FindFirst(pat, s, from + 1);
      NoMatchExtends(pat, s, from, if r.Some? then r.value.at else |s| + 1);
      r
  }

  /** A start without a match extends a match-free range to the left. */
  lemma NoMatchExtends(pat: Pattern, s: string, from: nat, to: int)
    requires from < to <= |s| + 1 && MatchAt(pat, s, from).None?
    ensures (forall p :: from + 1 <= p < to ==> MatchAt(pat, s, p).None?) ==>
              forall p :: from <= p < to ==> MatchAt(pat, s, p).None?
  {
  }

  /** The text of the group of `pat`'s first match in `s`: `re.findall(pat, s)[0]`
      for the patterns with one group, `re.search(pat, s).group()` for the others. */
  function FirstGroup(pat: Pattern, s: string): Option<string> {
    match FindFirst(pat, s, 0)
    case Some(h) => Some(s[h.group.start..h.group.end])
    case None => None
  }

  /** `re.search(r'(\d+[,.]\d+|\d+)', text)` finds a match. */
  predicate LooksLikePrice(text: string) {
    FindFirst(AnyNumber, text, 0).Some?
  }

  // ----- What the patterns match, stated declaratively -----

  ghost predicate AllDigits(s: string, i: int, j: int) {
    0 <= i <= j <= |s| && forall k :: i <= k < j ==> IsDigit(s[k])
  }

  ghost predicate AllSpaces(s: string, i: int, j: int) {
    0 <= i <= j <= |s| && forall k :: i <= k < j ==> IsSpace(s[k])
  }

  /** `s[i..j]` is in the language of `\d+[sep]\d+`. */
  ghost predicate DecimalSpan(s: string, i: int, j: int, commaToo: bool) {
    exists q :: i < q && q + 1 < j && AllDigits(s, i, q) && AllDigits(s, q + 1, j) && IsSeparator(s[q], commaToo)
  }

  /** `s[i..j]` is in the language of `\d+`. */
  ghost predicate DigitSpan(s: string, i: int, j: int) {
    i < j && AllDigits(s, i, j)
  }

  /** Some match of `pat` starts at `p` and has its group at `s[a..b]`. */
  ghost predicate Matches(pat: Pattern, s: string, p: int, a: int, b: int) {
    0 <= p <= a <= b <= |s| &&
    match pat
    case AnyNumber => a == p && (DecimalSpan(s, a, b, true) || DigitSpan(s, a, b))
    case CanonicalNumber => a == p && (DecimalSpan(s, a, b, false) || DigitSpan(s, a, b))
    case BareDecimal => a == p && DecimalSpan(s, a, b, true)
    case CurrencyPrefixed =>
      p + 2 <= a && s[p] == 'R' && s[p + 1] == '$' && AllSpaces(s, p + 2, a) && DecimalSpan(s, a, b, true)
    case ReaisSuffixed =>
      a == p && DecimalSpan(s, a, b, true) &&
      exists w :: b <= w && w + 5 <= |s| && AllSpaces(s, b, w) && s[w..w + 5] == "reais"
  }

  /** The match of `pat` at `p` with group `s[a..b]` is the one Python reports:
      nothing matches further left, and no match at `p` has a longer group or
      one that starts elsewhere. */
  ghost predicate IsLeftmostLongest(pat: Pattern, s: string, p: int, a: int, b: int) {
    && Matches(pat, s, p, a, b)
    && (forall p', a', b' :: p' < p ==> !Matches(pat, s, p', a', b'))
    && (forall a', b' :: Matches(pat, s, p, a', b') ==> a' == a && b' <= b)
  }

  /** `\d+(\.\d+)?` matches the whole of `t`. */
  ghost predicate IsCanonical(t: string) {
    Matches(CanonicalNumber, t, 0, 0, |t|)
  }

  // ----- The scanners agree with the declarative statement -----

  lemma DigitRunEndExact(s: string, i: int, j: int)
    requires AllDigits(s, i, j) && (j == |s| || !IsDigit(s[j]))
    ensures DigitRunEnd(s, i) == j
  {
  }

  lemma DigitRunEndCovers(s: string, i: int, j: int)
    requires AllDigits(s, i, j)
    ensures j <= DigitRunEnd(s, i)
  {
  }

  lemma SpaceRunEndExact(s: string, i: int, j: int)
    requires AllSpaces(s, i, j) && j < |s| && !IsSpace(s[j])
    ensures SpaceRunEnd(s, i) == j
  {
  }

  lemma DecimalEndSound(s: string, i: nat, commaToo: bool)
    requires i <= |s|
    ensures DecimalEnd(s, i, commaToo).Some? ==> DecimalSpan(s, i, DecimalEnd(s, i, commaToo).value, commaToo)
  {
    var q := DigitRunEnd(s, i);
    if DecimalEnd(s, i, commaToo).Some? {
      assert AllDigits(s, i, q) && AllDigits(s, q + 1, DigitRunEnd(s, q + 1));
    }
  }

  /** Every match of `\d+[sep]\d+` at `i` ends no later than the scanner's. */
  lemma DecimalEndComplete(s: string, i: nat, j: int, commaToo: bool)
    requires i <= |s| && DecimalSpan(s, i, j, commaToo)
    ensures DecimalEnd(s, i, commaToo).Some? && j <= DecimalEnd(s, i, commaToo).value
  {
    var q :| i < q && q + 1 < j && AllDigits(s, i, q) && AllDigits(s, q + 1, j) && IsSeparator(s[q], commaToo);
    DigitRunEndExact(s, i, q);
    DigitRunEndCovers(s, q + 1, j);
    assert IsDigit(s[q + 1]);
  }

  /** What `NumberAt` returns is a match, and no match at `i` is longer. */
  lemma NumberAtExact(s: string, i: nat, commaToo: bool)
    requires i <= |s|
    ensures NumberAt(s, i, commaToo).Some? ==>
              var g := NumberAt(s, i, commaToo).value;
              DecimalSpan(s, i, g.end, commaToo) || DigitSpan(s, i, g.end)
    ensures forall b :: DecimalSpan(s, i, b, commaToo) || DigitSpan(s, i, b) ==>
              NumberAt(s, i, commaToo).Some? && b <= NumberAt(s, i, commaToo).value.end
  {
    DecimalEndSound(s, i, commaToo);
    var q := DigitRunEnd(s, i);
    assert AllDigits(s, i, q);
    forall b | DecimalSpan(s, i, b, commaToo) || DigitSpan(s, i, b)
      ensures NumberAt(s, i, commaToo).Some? && b <= NumberAt(s, i, commaToo).value.end
    {
      if DecimalSpan(s, i, b, commaToo) {
        DecimalEndComplete(s, i, b, commaToo);
      } else {
        DigitRunEndCovers(s, i, b);
      }
    }
  }

  /** The scanner returns only genuine matches. */
  lemma MatchAtSound(pat: Pattern, s: string, p: nat)
    requires p <= |s|
    ensures MatchAt(pat, s, p).Some? ==> Matches(pat, s, p, MatchAt(pat, s, p).value.start, MatchAt(pat, s, p).value.end)
  {
    match pat
    case AnyNumber => NumberAtExact(s, p, true);
    case CanonicalNumber => NumberAtExact(s, p, false);
    case BareDecimal => DecimalEndSound(s, p, true);
    case CurrencyPrefixed =>
      if p + 1 < |s| && s[p] == 'R' && s[p + 1] == '$' {
        var w := SpaceRunEnd(s, p + 2);
        assert AllSpaces(s, p + 2, w);
        DecimalEndSound(s, w, true);
      }
    case ReaisSuffixed =>
      DecimalEndSound(s, p, true);
      if DecimalEnd(s, p, true).Some? {
        var k := DecimalEnd(s, p, true).value;
        var w := SpaceRunEnd(s, k);
        assert AllSpaces(s, k, w);
      }
  }

  lemma CurrencyPrefixedAt(s: string, p: int, a: int, q: int, b: int)
    requires 0 <= p && p + 2 <= a && a < q && q + 1 < b <= |s| && s[p] == 'R' && s[p + 1] == '$'
    requires AllSpaces(s, p + 2, a) && AllDigits(s, a, q) && AllDigits(s, q + 1, b) && IsSeparator(s[q], true)
    ensures MatchAt(CurrencyPrefixed, s, p) == Some(Span(a, DecimalEnd(s, a, true).value))
    ensures b <= DecimalEnd(s, a, true).value
  {
    assert IsDigit(s[a]);
    SpaceRunEndExact(s, p + 2, a);
    assert DecimalSpan(s, a, b, true);
    DecimalEndComplete(s, a, b, true);
  }

  lemma CurrencyPrefixedComplete(s: string, p: int, a: int, b: int)
    requires Matches(CurrencyPrefixed, s, p, a, b)
    ensures MatchAt(CurrencyPrefixed, s, p) == Some(Span(a, DecimalEnd(s, a, true).value))
    ensures b <= DecimalEnd(s, a, true).value
  {
    var q :| a < q && q + 1 < b && AllDigits(s, a, q) && AllDigits(s, q + 1, b) && IsSeparator(s[q], true);
    CurrencyPrefixedAt(s, p, a, q, b);
  }

  /** Whitespace followed by "reais" ends the whitespace run and begins with
      no digit. */
  lemma ReaisAfterSpaces(s: string, b: int, w: int)
    requires AllSpaces(s, b, w) && w + 5 <= |s| && s[w..w + 5] == "reais"
    ensures !IsDigit(s[b]) && SpaceRunEnd(s, b) == w
  {
    assert s[w] == s[w..w + 5][0];
    SpaceRunEndExact(s, b, w);
    if b < w {
      assert IsSpace(s[b]);
    }
  }

  lemma ReaisSuffixedAt(s: string, p: int, q: int, b: int, w: int)
    requires p < q && q + 1 < b && AllDigits(s, p, q) && AllDigits(s, q + 1, b) && IsSeparator(s[q], true)
    requires b <= w && w + 5 <= |s| && AllSpaces(s, b, w) && s[w..w + 5] == "reais"
    ensures MatchAt(ReaisSuffixed, s, p) == Some(Span(p, b))
  {
    ReaisAfterSpaces(s, b, w);
    DigitRunEndExact(s, p, q);
    DigitRunEndExact(s, q + 1, b);
    assert DecimalEnd(s, p, true) == Some(b);
  }

  lemma ReaisSuffixedComplete(s: string, p: int, b: int)
    requires Matches(ReaisSuffixed, s, p, p, b)
    ensures MatchAt(ReaisSuffixed, s, p) == Some(Span(p, b))
  {
    var q :| p < q && q + 1 < b && AllDigits(s, p, q) && AllDigits(s, q + 1, b) && IsSeparator(s[q], true);
    var w :| b <= w && w + 5 <= |s| && AllSpaces(s, b, w) && s[w..w + 5] == "reais";
    ReaisSuffixedAt(s, p, q, b, w);
  }

  /** Every match at `p` is found by the scanner, whose group starts where the
      match's does and is at least as long. */
  lemma MatchAtComplete(pat: Pattern, s: string, p: int, a: int, b: int)
    requires Matches(pat, s, p, a, b)
    ensures MatchAt(pat, s, p).Some? && MatchAt(pat, s, p).value.start == a && b <= MatchAt(pat, s, p).value.end
  {
    match pat
    case AnyNumber => NumberAtExact(s, p, true);
    case CanonicalNumber => NumberAtExact(s, p, false);
    case BareDecimal => DecimalEndComplete(s, p, b, true);
    case CurrencyPrefixed => CurrencyPrefixedComplete(s, p, a, b);
    case ReaisSuffixed => ReaisSuffixedComplete(s, p, b);
  }

  /** `FindFirst` from the start of `s` reports Python's match: it finds
      nothing exactly when `pat` matches nowhere, and otherwise the match at
      the leftmost start with the longest group. */
  lemma FindFirstIsLeftmostLongest(pat: Pattern, s: string)
    ensures FindFirst(pat, s, 0).None? <==> forall p, a, b :: !Matches(pat, s, p, a, b)
    ensures FindFirst(pat, s, 0).Some? ==>
              var h := FindFirst(pat, s, 0).value;
              IsLeftmostLongest(pat, s, h.at, h.group.start, h.group.end)
  {
    forall p, a, b | Matches(pat, s, p, a, b)
      ensures MatchAt(pat, s, p).Some? && MatchAt(pat, s, p).value.start == a && b <= MatchAt(pat, s, p).value.end
    {
      MatchAtComplete(pat, s, p, a, b);
    }
    var r := FindFirst(pat, s, 0);
    if r.Some? {
      MatchAtSound(pat, s, r.value.at);
    }
  }

  /** `pat` matches somewhere in `s`. */
  ghost predicate PatternHits(pat: Pattern, s: string) {
    exists p, a, b :: Matches(pat, s, p, a, b)
  }

  /** There is only one leftmost, longest match. */
  lemma LeftmostLongestUnique(pat: Pattern, s: string, p: int, a: int, b: int, p': int, a': int, b': int)
    requires IsLeftmostLongest(pat, s, p, a, b) && IsLeftmostLongest(pat, s, p', a', b')
    ensures p == p' && a == a' && b == b'
  {
    assert !(p' < p) && !(p < p');
  }

  /** `re.findall(pat, s)[0]` (or `re.search(pat, s).group()`) exists exactly
      when `pat` matches somewhere, and it is the group of the leftmost,
      longest match, which holds at least one character. */
  lemma FirstGroupSpec(pat: Pattern, s: string)
    ensures FirstGroup(pat, s).None? <==> !PatternHits(pat, s)
    ensures forall p, a, b :: IsLeftmostLongest(pat, s, p, a, b) ==> FirstGroup(pat, s) == Some(s[a..b])
    ensures FirstGroup(pat, s).Some? ==> FirstGroup(pat, s).value != ""
  {
    FindFirstIsLeftmostLongest(pat, s);
    match FindFirst(pat, s, 0)
    case Some(h) =>
      forall p, a, b | IsLeftmostLongest(pat, s, p, a, b) ensures FirstGroup(pat, s) == Some(s[a..b]) {
        LeftmostLongestUnique(pat, s, h.at, h.group.start, h.group.end, p, a, b);
      }
    case None =>
  }

  /** Every match of every pattern holds a digit, so a digit-free string
      matches nothing. */
  lemma MatchesNeedADigit(pat: Pattern, s: string)
    requires !ContainsDigit(s)
    ensures FindFirst(pat, s, 0).None?
  {
  }

  /** `\d+` alone already matches at any digit, so the two number patterns
      find a match exactly when the text contains a digit. */
  lemma NumberFoundIffDigit(pat: Pattern, s: string)
    requires pat == AnyNumber || pat == CanonicalNumber
    ensures FindFirst(pat, s, 0).Some? <==> ContainsDigit(s)
  {
    if ContainsDigit(s) {
      var i :| 0 <= i < |s| && IsDigit(s[i]);
      assert DigitRunEnd(s, i) > i;
      assert MatchAt(pat, s, i).Some?;
    } else {
      MatchesNeedADigit(pat, s);
    }
  }

  /** The "looks like a price" test accepts exactly the texts that contain a
      digit. */
  lemma LooksLikePriceIffDigit(text: string)
    ensures LooksLikePrice(text) <==> ContainsDigit(text)
  {
    NumberFoundIffDigit(AnyNumber, text);
  }

  lemma AllDigitsSlice(s: string, a: int, b: int, i: int, j: int)
    requires 0 <= a <= i <= j <= b <= |s| && AllDigits(s, i, j)
    ensures AllDigits(s[a..b], i - a, j - a)
  {
    assert forall k :: i - a <= k < j - a ==> s[a..b][k] == s[a + k];
  }

  /** The group of a match of the canonical-number pattern is itself a
      canonical number. */
  lemma CanonicalGroup(s: string, p: int, b: int)
    requires Matches(CanonicalNumber, s, p, p, b)
    ensures IsCanonical(s[p..b])
  {
    var t := s[p..b];
    if DecimalSpan(s, p, b, false) {
      var q :| p < q && q + 1 < b && AllDigits(s, p, q) && AllDigits(s, q + 1, b) && IsSeparator(s[q], false);
      AllDigitsSlice(s, p, b, p, q);
      AllDigitsSlice(s, p, b, q + 1, b);
      assert t[q - p] == s[q];
      assert DecimalSpan(t, 0, |t|, false);
    } else {
      AllDigitsSlice(s, p, b, p, b);
    }
  }

  /** A canonical number is made of digits and dots and begins and ends with a
      digit. */
  lemma CanonicalShape(t: string)
    requires IsCanonical(t)
    ensures t != [] && IsDigit(t[0]) && IsDigit(t[|t| - 1])
    ensures forall i :: 0 <= i < |t| ==> IsDigit(t[i]) || t[i] == '.'
  {
    if DecimalSpan(t, 0, |t|, false) {
      var q :| 0 < q && q + 1 < |t| && AllDigits(t, 0, q) && AllDigits(t, q + 1, |t|) && IsSeparator(t[q], false);
      assert IsDigit(t[0]) && IsDigit(t[|t| - 1]);
      forall i | 0 <= i < |t| ensures IsDigit(t[i]) || t[i] == '.' {
        if i != q {
          assert i < q || q + 1 <= i;
        }
      }
    }
  }

  /** The canonical-number search finds a whole canonical number as its own
      first match. */
  lemma CanonicalFindsItself(t: string)
    requires IsCanonical(t)
    ensures FindFirst(CanonicalNumber, t, 0) == Some(Hit(0, Span(0, |t|)))
  {
    MatchAtComplete(CanonicalNumber, t, 0, 0, |t|);
  }
}
