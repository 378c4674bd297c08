/** Finding the raw price text on the pages the task visits: the primary
    selector, the ordered selector scans and the regular-expression fallback
    over the page source. */
module Extraction {
  import opened Outcomes
  import opened Text
  import opened Patterns
  import opened Normalizer

  /** A page as the browser shows it once loaded. `elements` holds, for each
      XPath the task asks about, the outcome of `find_elements`: the elements'
      `.text` outcomes in document order, or the exception the lookup raised.
      An XPath that is not in the map matches no element. `source` is the
      outcome of reading `page_source`. */
  datatype Page = Page(elements: map<string, Try<seq<Try<string>>>>, source: Try<string>)

  function FindElements(page: Page, xpath: string): Try<seq<Try<string>>> {
    if xpath in page.elements then page.elements[xpath] else Ok([])
  }

  /** The Google Finance price box. */
  const PrimarySelector := "//div[contains(@class, \"YMlKec\") and contains(@class, \"fxKbKc\")]"

  /** Tried in order on the quote page when the primary selector fails. */
  const AlternativeSelectors: seq<string> := [
    "//div[contains(@class, \"YMlKec\")]",
    "//div[contains(@class, \"kf1m0\")]",
    "//span[@jsname=\"vWLAgc\"]",
    "//div[@aria-label=\"Last price\"]",
    "//div[contains(@class, \"P6K39c\") and contains(@class, \"W9Ufie\")]//div[contains(@class, \"YMlKec\")]"
  ]

  /** Tried in order on the Google search page. */
  const SearchSelectors: seq<string> := [
    "//div[contains(@data-attrid, \"Price\")]//span",
    "//div[contains(@class, \"BNeawe\") and contains(@class, \"iBp4i\")]",
    "//div[contains(@class, \"BNeawe\") and contains(@class, \"tAd8D\") and contains(@class, \"AP7Wnd\")]",
    "//span[contains(text(), \"R$\")]",
    "//div[contains(text(), \"R$\")]"
  ]

  /** The page-source patterns, in priority order. */
  const PricePatterns: seq<Pattern> := [CurrencyPrefixed, ReaisSuffixed, BareDecimal]

  /** The text of the element the primary wait returns, the first element
      the primary selector finds; `None` when the wait times out (no element),
      the lookup raises or reading the text raises. */
  function PrimaryText(page: Page): Option<string> {
    match FindElements(page, PrimarySelector)
    case Ok(elements) =>
      if |elements| > 0 && elements[0].Ok? then Some(elements[0].value) else None
    case Raised(_) => None
  }

  // ----- The selector scans -----

  /** What the inner loop over one selector's elements yields: the first
      stripped text that looks like a price, or "" when the elements run out
      or reading a text raises first (the selector is then abandoned). */
  function FirstPriceInElements(elements: seq<Try<string>>): string {
    if elements == [] then ""
    else match elements[0]
      case Raised(_) => ""
      case Ok(t) => if LooksLikePrice(Strip(t)) then Strip(t) else FirstPriceInElements(elements[1..])
  }

  /** What a whole selector scan yields: the first selector, in list order,
      whose elements yield a price text; a selector whose lookup raises is
      skipped. */
  function FirstPriceIn(page: Page, selectors: seq<string>): string {
    if selectors == [] then ""
    else
      var found := SelectorText(page, selectors[0]);
      if found != "" then found else FirstPriceIn(page, selectors[1..])
  }

  /** What one selector yields: nothing when its lookup raises. */
  function SelectorText(page: Page, selector: string): string {
    match FindElements(page, selector)
    case Raised(_) => ""
    case Ok(elements) => FirstPriceInElements(elements)
  }

  /** The loop over one selector's elements, leaving it at the first
      stripped text that looks like a price or at the first text that raises. */
  method ScanElements(elements: seq<Try<string>>) returns (priceText: string)
    ensures priceText == FirstPriceInElements(elements)
  {
    priceText := "";
    var j := 0;
    while j < |elements|
      invariant 0 <= j <= |elements|
      invariant priceText == ""
      invariant FirstPriceInElements(elements) == FirstPriceInElements(elements[j..])
    {
      assert elements[j..][1..] == elements[j + 1..];
      if elements[j].Raised? {
        return;
      }
      var text := Strip(elements[j].value);
      if LooksLikePrice(text) {
        priceText := text;
        return;
      }
      j := j + 1;
    }
  }

  /** The scan over `selectors`, selector by selector and element by element,
      leaving the loop at the first text that looks like a price; a selector
      whose lookup raises is skipped. */
  method ScanSelectors(page: Page, selectors: seq<string>) returns (priceText: string)
    ensures priceText == FirstPriceIn(page, selectors)
  {
    priceText := "";
    var i := 0;
    while i < |selectors|
      invariant 0 <= i <= |selectors|
      invariant priceText == ""
      invariant FirstPriceIn(page, selectors) == FirstPriceIn(page, selectors[i..])
    {
      assert selectors[i..][1..] == selectors[i + 1..];
      var lookup := FindElements(page, selectors[i]);
      if lookup.Ok? {
        priceText := ScanElements(lookup.value);
        if priceText != "" {
          return;
        }
      }
      i := i + 1;
    }
  }

  // ----- The page-source fallback -----

  /** The group of the first match of the first pattern, in list order, that
      matches `source` anywhere; "" when none does. */
  function FirstPatternGroup(patterns: seq<Pattern>, source: string): string {
    if patterns == [] then ""
    else match FirstGroup(patterns[0], source)
      case Some(g) => g
      case None => FirstPatternGroup(patterns[1..], source)
  }

  /** The loop over the price patterns, leaving it at the first pattern that
      has a match. */
  method ScanPatterns(source: string) returns (priceText: string)
    ensures priceText == FirstPatternGroup(PricePatterns, source)
  {
    priceText := "";
    var k := 0;
    while k < |PricePatterns|
      invariant 0 <= k <= |PricePatterns|
      invariant priceText == ""
      invariant FirstPatternGroup(PricePatterns, source) == FirstPatternGroup(PricePatterns[k..], source)
    {
      assert PricePatterns[k..][1..] == PricePatterns[k + 1..];
      var matches := FirstGroup(PricePatterns[k], source);
      if matches.Some? {
        priceText := matches.value;
        break;
      }
      k := k + 1;
    }
  }

  // ----- The cascade -----

  /** Which assignment gave the price text its value. */
  datatype Stage = PrimaryStage | AlternativeStage | SearchStage | SourceStage | SentinelStage

  /** The price text handed to the normaliser and the stage that set it. */
  datatype Candidate = Candidate(text: string, stage: Stage)

  /** The price text once the quote page has been examined: the primary text
      as it is, or the alternative scan's result when the primary selector
      failed. */
  function QuoteText(quote: Page): string {
    match PrimaryText(quote)
    case Some(t) => t
    case None => FirstPriceIn(quote, AlternativeSelectors)
  }

  /** The whole cascade. `search` is the outcome of visiting the search page,
      consulted only when the quote page left the price text empty; its
      `source` only when the search selectors found nothing too. A failed
      visit or source read propagates as the exception. */
  function PriceText(quote: Page, search: Try<Page>): Try<Candidate> {
    var q := QuoteText(quote);
    if q != "" then
      Ok(Candidate(q, if PrimaryText(quote).Some? then PrimaryStage else AlternativeStage))
    else match search
      case Raised(e) => Raised(e)
      case Ok(page) =>
        var s := FirstPriceIn(page, SearchSelectors);
        if s != "" then Ok(Candidate(s, SearchStage))
        else match page.source
          case Raised(e) => Raised(e)
          case Ok(html) =>
            var g := FirstPatternGroup(PricePatterns, html);
            if g != "" then Ok(Candidate(g, SourceStage)) else Ok(Candidate(Sentinel, SentinelStage))
  }

  // ----- The element scan, stated declaratively -----

  /** Element `j` is the one whose text is taken: every element before it
      reads without raising and has no digit once stripped, and it has one. */
  ghost predicate ElementHit(elements: seq<Try<string>>, j: int) {
    && 0 <= j < |elements|
    && elements[j].Ok? && ContainsDigit(Strip(elements[j].value))
    && forall k :: 0 <= k < j ==> elements[k].Ok? && !ContainsDigit(Strip(elements[k].value))
  }

  /** A text that looks like a price is not empty, so it ends the scans. */
  lemma LooksLikePriceNonEmpty(t: string)
    ensures LooksLikePrice(t) ==> t != ""
  {
  }

  lemma ElementHitRaisedHead(elements: seq<Try<string>>)
    requires elements != [] && elements[0].Raised?
    ensures forall j :: !ElementHit(elements, j)
  {
    forall j ensures !ElementHit(elements, j) {
      if 0 < j < |elements| {
        assert !(elements[0].Ok?);
      }
    }
  }

  lemma ElementHitDigitHead(elements: seq<Try<string>>)
    requires elements != [] && elements[0].Ok? && ContainsDigit(Strip(elements[0].value))
    ensures ElementHit(elements, 0)
    ensures forall j :: ElementHit(elements, j) ==> j == 0
  {
    forall j | ElementHit(elements, j) ensures j == 0 {
    }
  }

  lemma ElementHitShiftDown(elements: seq<Try<string>>, j: int)
    requires elements != [] && elements[0].Ok? && !ContainsDigit(Strip(elements[0].value))
    requires ElementHit(elements, j)
    ensures 1 <= j && ElementHit(elements[1..], j - 1)
  {
    var rest := elements[1..];
    assert j != 0;
    forall k | 0 <= k < j - 1 ensures rest[k].Ok? && !ContainsDigit(Strip(rest[k].value)) {
      assert rest[k] == elements[k + 1];
    }
    assert rest[j - 1] == elements[j];
  }

  lemma ElementHitShiftUp(elements: seq<Try<string>>, j: int)
    requires elements != [] && elements[0].Ok? && !ContainsDigit(Strip(elements[0].value))
    requires ElementHit(elements[1..], j)
    ensures ElementHit(elements, j + 1)
  {
    var rest := elements[1..];
    forall k | 0 <= k < j + 1 ensures elements[k].Ok? && !ContainsDigit(Strip(elements[k].value)) {
      if k > 0 {
        assert elements[k] == rest[k - 1];
      }
    }
    assert elements[j + 1] == rest[j];
  }

  /** The inner loop yields a text exactly when some element is hit, and
      then it yields that element's stripped text. */
  lemma {:induction false} FirstPriceInElementsSpec(elements: seq<Try<string>>)
    ensures FirstPriceInElements(elements) != "" <==> exists j :: ElementHit(elements, j)
    ensures forall j :: ElementHit(elements, j) ==> FirstPriceInElements(elements) == Strip(elements[j].value)
  {
    if elements != [] {
      var rest := elements[1..];
      FirstPriceInElementsSpec(rest);
      match elements[0]
      case Raised(_) =>
        ElementHitRaisedHead(elements);
      case Ok(t) =>
        LooksLikePriceIffDigit(Strip(t));
        LooksLikePriceNonEmpty(Strip(t));
        if ContainsDigit(Strip(t)) {
          ElementHitDigitHead(elements);
        } else {
          forall j | ElementHit(elements, j)
            ensures FirstPriceInElements(elements) == Strip(elements[j].value)
          {
            ElementHitShiftDown(elements, j);
          }
          if exists j :: ElementHit(rest, j) {
            var j :| ElementHit(rest, j);
            ElementHitShiftUp(elements, j);
          }
          if exists j :: ElementHit(elements, j) {
            var j :| ElementHit(elements, j);
            ElementHitShiftDown(elements, j);
          }
        }
    }
  }

  // ----- The selector scan, stated declaratively -----

  /** Some element found by `selector` is hit. */
  ghost predicate SelectorHit(page: Page, selector: string) {
    FindElements(page, selector).Ok? && exists j :: ElementHit(FindElements(page, selector).value, j)
  }

  /** Element `j` of selector `i` is the one whose text is taken: no earlier
      selector has a hit, and within selector `i` element `j` is hit. */
  ghost predicate ScanHit(page: Page, selectors: seq<string>, i: int, j: int) {
    && 0 <= i < |selectors|
    && (forall i' :: 0 <= i' < i ==> !SelectorHit(page, selectors[i']))
    && FindElements(page, selectors[i]).Ok?
    && ElementHit(FindElements(page, selectors[i]).value, j)
  }

  lemma SelectorTextSpec(page: Page, selector: string)
    ensures SelectorText(page, selector) != "" <==> SelectorHit(page, selector)
    ensures forall j :: FindElements(page, selector).Ok? && ElementHit(FindElements(page, selector).value, j) ==>
              SelectorText(page, selector) == Strip(FindElements(page, selector).value[j].value)
  {
    match FindElements(page, selector)
    case Ok(elements) => FirstPriceInElementsSpec(elements);
    case Raised(_) =>
  }

  lemma ScanHitHead(page: Page, selectors: seq<string>, i: int, j: int)
    requires selectors != [] && SelectorHit(page, selectors[0]) && ScanHit(page, selectors, i, j)
    ensures i == 0
  {
  }

  lemma ScanHitShiftDown(page: Page, selectors: seq<string>, i: int, j: int)
    requires selectors != [] && !SelectorHit(page, selectors[0]) && ScanHit(page, selectors, i, j)
    ensures 1 <= i && ScanHit(page, selectors[1..], i - 1, j)
  {
    var rest := selectors[1..];
    forall i' | 0 <= i' < i - 1 ensures !SelectorHit(page, rest[i']) {
      assert rest[i'] == selectors[i' + 1];
    }
    assert rest[i - 1] == selectors[i];
  }

  lemma ScanHitShiftUp(page: Page, selectors: seq<string>, i: int, j: int)
    requires selectors != [] && !SelectorHit(page, selectors[0]) && ScanHit(page, selectors[1..], i, j)
    ensures ScanHit(page, selectors, i + 1, j)
  {
    var rest := selectors[1..];
    forall i' | 0 <= i' < i + 1 ensures !SelectorHit(page, selectors[i']) {
      if i' > 0 {
        assert selectors[i'] == rest[i' - 1];
      }
    }
    assert selectors[i + 1] == rest[i];
  }

  /** A selector scan yields nothing exactly when no selector has a hit, and
      otherwise the stripped text of the first hit element of the first
      selector that has one. */
  lemma {:induction false} FirstPriceInSpec(page: Page, selectors: seq<string>)
    ensures FirstPriceIn(page, selectors) == "" <==> forall i :: 0 <= i < |selectors| ==> !SelectorHit(page, selectors[i])
    ensures FirstPriceIn(page, selectors) != "" ==> exists i, j :: ScanHit(page, selectors, i, j)
    ensures forall i, j :: ScanHit(page, selectors, i, j) ==>
              FirstPriceIn(page, selectors) == Strip(FindElements(page, selectors[i]).value[j].value)
  {
    if selectors != [] {
      var rest := selectors[1..];
      FirstPriceInSpec(page, rest);
      SelectorTextSpec(page, selectors[0]);
      if SelectorHit(page, selectors[0]) {
        var j :| ElementHit(FindElements(page, selectors[0]).value, j);
        assert ScanHit(page, selectors, 0, j);
        forall i, j' | ScanHit(page, selectors, i, j')
          ensures FirstPriceIn(page, selectors) == Strip(FindElements(page, selectors[i]).value[j'].value)
        {
          ScanHitHead(page, selectors, i, j');
        }
      } else {
        assert forall i :: 1 <= i < |selectors| ==> selectors[i] == rest[i - 1];
        if FirstPriceIn(page, rest) != "" {
          var i, j :| ScanHit(page, rest, i, j);
          ScanHitShiftUp(page, selectors, i, j);
        }
        forall i, j | ScanHit(page, selectors, i, j)
          ensures FirstPriceIn(page, selectors) == Strip(FindElements(page, selectors[i]).value[j].value)
        {
          ScanHitShiftDown(page, selectors, i, j);
        }
      }
    }
  }

  /** Scanning more selectors after a scan that found a text changes
      nothing: later selectors are not examined. After a scan that found
      nothing, the scan goes on as if the later list were the whole list. */
  lemma {:induction false} FirstPriceInConcat(page: Page, first: seq<string>, later: seq<string>)
    ensures FirstPriceIn(page, first + later) ==
              if FirstPriceIn(page, first) != "" then FirstPriceIn(page, first) else FirstPriceIn(page, later)
  {
    if first == [] {
      assert first + later == later;
    } else {
      assert (first + later)[0] == first[0];
      assert (first + later)[1..] == first[1..] + later;
      FirstPriceInConcat(page, first[1..], later);
    }
  }

  /** Elements after the one whose text is taken are not examined. */
  lemma {:induction false} FirstPriceInElementsConcat(elements: seq<Try<string>>, later: seq<Try<string>>)
    requires FirstPriceInElements(elements) != ""
    ensures FirstPriceInElements(elements + later) == FirstPriceInElements(elements)
  {
    var all := elements + later;
    assert all[0] == elements[0] && all[1..] == elements[1..] + later;
    match elements[0]
    case Ok(t) =>
      if !LooksLikePrice(Strip(t)) {
        FirstPriceInElementsConcat(elements[1..], later);
      }
    case Raised(_) =>
  }

  // ----- The page-source fallback, stated declaratively -----

  /** Pattern `k` decides the fallback, with the match at `p` whose group is
      `source[a..b]`: no earlier pattern matches anywhere, and this match is
      its leftmost, longest one. */
  ghost predicate PatternWins(patterns: seq<Pattern>, source: string, k: int, p: int, a: int, b: int) {
    && 0 <= k < |patterns|
    && (forall k' :: 0 <= k' < k ==> !PatternHits(patterns[k'], source))
    && IsLeftmostLongest(patterns[k], source, p, a, b)
  }

  /** A winner among the later patterns wins the whole list when the first
      pattern matches nowhere. */
  lemma PatternWinsShiftUp(patterns: seq<Pattern>, source: string, k: int, p: int, a: int, b: int)
    requires patterns != [] && !PatternHits(patterns[0], source)
    requires PatternWins(patterns[1..], source, k, p, a, b)
    ensures PatternWins(patterns, source, k + 1, p, a, b)
  {
    forall k' | 0 <= k' < k + 1 ensures !PatternHits(patterns[k'], source) {
      if k' > 0 {
        assert patterns[k'] == patterns[1..][k' - 1];
      }
    }
    assert patterns[k + 1] == patterns[1..][k];
  }

  /** The fallback yields nothing exactly when no pattern matches anywhere,
      and otherwise the group of the winning pattern's leftmost, longest
      match. */
  lemma {:induction false} FirstPatternGroupSpec(patterns: seq<Pattern>, source: string)
    ensures FirstPatternGroup(patterns, source) == "" <==>
              forall k :: 0 <= k < |patterns| ==> !PatternHits(patterns[k], source)
    ensures FirstPatternGroup(patterns, source) != "" ==>
              exists k, p, a, b :: PatternWins(patterns, source, k, p, a, b)
    ensures forall k, p, a, b :: PatternWins(patterns, source, k, p, a, b) ==>
              FirstPatternGroup(patterns, source) == source[a..b]
  {
    if patterns != [] {
      var rest := patterns[1..];
      FirstPatternGroupSpec(rest, source);
      FirstGroupSpec(patterns[0], source);
      FindFirstIsLeftmostLongest(patterns[0], source);
      if FirstGroup(patterns[0], source).Some? {
        var h := FindFirst(patterns[0], source, 0).value;
        assert PatternWins(patterns, source, 0, h.at, h.group.start, h.group.end);
      } else if FirstPatternGroup(rest, source) != "" {
        var k, p, a, b :| PatternWins(rest, source, k, p, a, b);
        PatternWinsShiftUp(patterns, source, k, p, a, b);
      }
      assert forall k :: 1 <= k < |patterns| ==> patterns[k] == rest[k - 1];
      forall k, p, a, b | PatternWins(patterns, source, k, p, a, b)
        ensures FirstPatternGroup(patterns, source) == source[a..b]
      {
        if k > 0 {
          forall k' | 0 <= k' < k - 1 ensures !PatternHits(rest[k'], source) {
            assert rest[k'] == patterns[k' + 1];
          }
          assert PatternWins(rest, source, k - 1, p, a, b);
        }
      }
    }
  }

  // ----- The cascade, stated declaratively -----

  /** The quote page leaves the price text empty: the primary element's text
      is empty, or the primary selector failed and no alternative selector
      has a hit. */
  ghost predicate QuoteYieldsNothing(quote: Page) {
    || PrimaryText(quote) == Some("")
    || (PrimaryText(quote).None? &&
        forall i :: 0 <= i < |AlternativeSelectors| ==> !SelectorHit(quote, AlternativeSelectors[i]))
  }

  /** No search selector has a hit on the search page. */
  ghost predicate SearchYieldsNothing(search: Page) {
    forall i :: 0 <= i < |SearchSelectors| ==> !SelectorHit(search, SearchSelectors[i])
  }

  /** No price pattern matches anywhere in the page source. */
  ghost predicate SourceYieldsNothing(html: string) {
    forall k :: 0 <= k < |PricePatterns| ==> !PatternHits(PricePatterns[k], html)
  }

  lemma QuoteTextSpec(quote: Page)
    ensures QuoteText(quote) == "" <==> QuoteYieldsNothing(quote)
  {
    FirstPriceInSpec(quote, AlternativeSelectors);
  }

  /** A non-empty primary text is the price text as it is, digits or not,
      whatever the search page holds. */
  lemma PrimaryTakenAsIs(quote: Page, search: Try<Page>, t: string)
    requires PrimaryText(quote) == Some(t) && t != ""
    ensures PriceText(quote, search) == Ok(Candidate(t, PrimaryStage))
  {
  }

  /** An empty primary text skips the alternative selectors and hands over to
      the search page, whose failure to load is the result. */
  lemma EmptyPrimaryGoesToSearch(quote: Page, search: Try<Page>)
    requires PrimaryText(quote) == Some("")
    ensures search.Raised? ==> PriceText(quote, search) == Raised(search.message)
    ensures PriceText(quote, search).Ok? ==>
              PriceText(quote, search).value.stage in {SearchStage, SourceStage, SentinelStage}
  {
  }

  /** The stages run in order, each only when every earlier one left the
      price text empty, and the text the cascade ends with is never empty. */
  lemma StagesInOrder(quote: Page, search: Try<Page>)
    ensures PriceText(quote, search).Ok? ==> PriceText(quote, search).value.text != ""
    ensures PriceText(quote, search).Ok? && PriceText(quote, search).value.stage == PrimaryStage ==>
              PrimaryText(quote) == Some(PriceText(quote, search).value.text)
    ensures PriceText(quote, search).Ok? && PriceText(quote, search).value.stage == AlternativeStage ==>
              PrimaryText(quote).None? && PriceText(quote, search).value.text == FirstPriceIn(quote, AlternativeSelectors)
    ensures PriceText(quote, search).Ok? &&
            PriceText(quote, search).value.stage in {SearchStage, SourceStage, SentinelStage} ==>
              QuoteYieldsNothing(quote) && search.Ok?
    ensures PriceText(quote, search).Ok? && PriceText(quote, search).value.stage == SearchStage ==>
              PriceText(quote, search).value.text == FirstPriceIn(search.value, SearchSelectors)
    ensures PriceText(quote, search).Ok? && PriceText(quote, search).value.stage in {SourceStage, SentinelStage} ==>
              SearchYieldsNothing(search.value) && search.value.source.Ok?
    ensures PriceText(quote, search).Ok? && PriceText(quote, search).value.stage == SourceStage ==>
              PriceText(quote, search).value.text == FirstPatternGroup(PricePatterns, search.value.source.value)
  {
    QuoteTextSpec(quote);
    if search.Ok? {
      FirstPriceInSpec(search.value, SearchSelectors);
    }
  }

  /** The sentinel is the price text exactly when every earlier stage left it
      empty. */
  lemma SentinelOnlyWhenAllEmpty(quote: Page, search: Try<Page>)
    ensures PriceText(quote, search) == Ok(Candidate(Sentinel, SentinelStage)) <==>
              && QuoteYieldsNothing(quote)
              && search.Ok? && SearchYieldsNothing(search.value)
              && search.value.source.Ok? && SourceYieldsNothing(search.value.source.value)
    ensures PriceText(quote, search).Ok? && PriceText(quote, search).value.stage == SentinelStage ==>
              PriceText(quote, search).value.text == Sentinel
  {
    QuoteTextSpec(quote);
    if search.Ok? {
      FirstPriceInSpec(search.value, SearchSelectors);
      if search.value.source.Ok? {
        FirstPatternGroupSpec(PricePatterns, search.value.source.value);
      }
    }
  }

  /** The cascade raises only on the search page: when its visit fails, or
      when reading its source fails after its selectors found nothing. */
  lemma ErrorsOnlyFromSearchPage(quote: Page, search: Try<Page>)
    ensures PriceText(quote, search).Raised? <==>
              QuoteYieldsNothing(quote) &&
              (search.Raised? || (SearchYieldsNothing(search.value) && search.value.source.Raised?))
    ensures PriceText(quote, search).Raised? ==>
              PriceText(quote, search).message ==
                if search.Raised? then search.message else search.value.source.message
  {
    QuoteTextSpec(quote);
    if search.Ok? {
      FirstPriceInSpec(search.value, SearchSelectors);
    }
  }

  /** A page on which no lookup that succeeds finds any element yields no
      price text. */
  lemma {:induction false} NothingFoundOnEmptyPage(page: Page, selectors: seq<string>)
    requires forall x :: FindElements(page, x).Ok? ==> FindElements(page, x).value == []
    ensures FirstPriceIn(page, selectors) == ""
  {
    if selectors != [] {
      assert FindElements(page, selectors[0]).Ok? ==> FindElements(page, selectors[0]).value == [];
      NothingFoundOnEmptyPage(page, selectors[1..]);
    }
  }

  /** Every price pattern needs a digit, so a digit-free page source yields
      no price text. */
  lemma {:induction false} DigitFreeSourceMatchesNothing(patterns: seq<Pattern>, html: string)
    requires !ContainsDigit(html)
    ensures FirstPatternGroup(patterns, html) == ""
  {
    if patterns != [] {
      MatchesNeedADigit(patterns[0], html);
      DigitFreeSourceMatchesNothing(patterns[1..], html);
    }
  }
}
