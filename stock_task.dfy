/** The task as a whole: it resolves the symbol, drives the browser through
    the quote page and, when needed, the search page, normalises the price
    text, closes the browser, saves the price and reports it, turning any
    exception into an error string. */
module StockTask {
  import opened Outcomes
  import opened Text
  import opened Patterns
  import opened Symbols
  import opened Normalizer
  import opened Extraction

  /** The browser session as the task sees it: whether starting Chrome
      raises, what visiting a URL yields (navigation, the wait and the
      screenshot, any of which may raise), and whether `quit()` raises. */
  datatype Browser = Browser(launch: Try<()>, visit: string -> Try<Page>, quit: Try<()>)

  /** The row the task saves. */
  datatype PriceRecord = PriceRecord(name: string, price: string)

  /** What the task returns in front of an exception's message. */
  const ErrorPrefix := "Erro: "

  /** Everything the outer `try` runs, up to and including `driver.quit()`:
      the normalised price, or the first exception raised. The search page is
      visited only when the quote page leaves the price text empty, which is
      when `PriceText` consults it. */
  function Run(stockName: string, browser: Browser): Try<string> {
    if browser.launch.Raised? then Raised(browser.launch.message)
    else match browser.visit(QuoteUrl(ResolveSymbol(stockName)))
      case Raised(e) => Raised(e)
      case Ok(quote) =>
        match PriceText(quote, browser.visit(SearchUrl(stockName)))
        case Raised(e) => Raised(e)
        case Ok(c) =>
          if browser.quit.Raised? then Raised(browser.quit.message) else Ok(NormalizePrice(c.text))
  }

  /** The string the task returns for an outcome of `Run`. */
  function Report(outcome: Try<string>): string {
    match outcome
    case Ok(price) => price
    case Raised(message) => ErrorPrefix + message
  }

  /** The price text without the stage that set it. */
  function CandidateText(c: Try<Candidate>): Try<string> {
    match c
    case Ok(candidate) => Ok(candidate.text)
    case Raised(e) => Raised(e)
  }

  /** The cascade as the task runs it on an open browser that shows `quote`:
      the primary text, else the alternative scan; when the text is still
      empty, the search page and its scan; when it is empty still, the page
      source and its patterns; and last the sentinel. The search page is
      visited only when needed. */
  method FindPriceText(stockName: string, browser: Browser, quote: Page) returns (found: Try<string>)
    ensures found == CandidateText(PriceText(quote, browser.visit(SearchUrl(stockName))))
  {
    var priceText: string;
    var primary := PrimaryText(quote);
    if primary.Some? {
      priceText := primary.value;
    } else {
      priceText := ScanSelectors(quote, AlternativeSelectors);
    }
    if priceText == "" {
      var search := browser.visit(SearchUrl(stockName));
      if search.Raised? {
        return Raised(search.message);
      }
      priceText := ScanSelectors(search.value, SearchSelectors);
      if priceText == "" {
        var html := search.value.source;
        if html.Raised? {
          return Raised(html.message);
        }
        priceText := ScanPatterns(html.value);
      }
    }
    if priceText == "" {
      priceText := Sentinel;
    }
    found := Ok(priceText);
  }

  /** The task. `store` is the outcome of the database write; a failed write
      is swallowed, so the returned string does not depend on it, and the
      record is saved only when the run succeeded. */
  method GetStockPrice(stockName: string, browser: Browser, store: Try<()>)
    returns (result: string, saved: Option<PriceRecord>)
    ensures result == Report(Run(stockName, browser))
    ensures saved == if Run(stockName, browser).Ok? && store.Ok?
                     then Some(PriceRecord(stockName, Run(stockName, browser).value))
                     else None
  {
    saved := None;
    if browser.launch.Raised? {
      result := ErrorPrefix + browser.launch.message;
      return;
    }
    var symbol := ResolveSymbol(stockName);
    var quote := browser.visit(QuoteUrl(symbol));
    if quote.Raised? {
      result := ErrorPrefix + quote.message;
      return;
    }
    var found := FindPriceText(stockName, browser, quote.value);
    if found.Raised? {
      result := ErrorPrefix + found.message;
      return;
    }
    var price := NormalizePrice(found.value);
    if browser.quit.Raised? {
      result := ErrorPrefix + browser.quit.message;
      return;
    }
    if store.Ok? {
      saved := Some(PriceRecord(stockName, price));
    }
    result := price;
  }

  // ----- Properties of the task -----

  /** The task returns a canonical number `\d+(\.\d+)?` exactly when the run
      succeeded, and otherwise "Erro: " followed by the exception's message;
      so the two kinds of result can never be confused. */
  lemma ResultIsPriceOrError(stockName: string, browser: Browser)
    ensures IsCanonical(Report(Run(stockName, browser))) <==> Run(stockName, browser).Ok?
    ensures Run(stockName, browser).Ok? ==>
              Report(Run(stockName, browser)) == Run(stockName, browser).value
    ensures Run(stockName, browser).Raised? ==>
              Report(Run(stockName, browser)) == ErrorPrefix + Run(stockName, browser).message
  {
    var outcome := Run(stockName, browser);
    match outcome
    case Ok(price) =>
      var quote := browser.visit(QuoteUrl(ResolveSymbol(stockName))).value;
      NormalizePriceSpec(PriceText(quote, browser.visit(SearchUrl(stockName))).value.text);
    case Raised(message) =>
      var r := ErrorPrefix + message;
      assert r[0] == 'E';
      if IsCanonical(r) {
        CanonicalShape(r);
      }
  }

  /** When the quote page yields nothing, a failed visit of the search page is
      not caught: the task reports it as an error. */
  lemma SearchFailureIsReported(stockName: string, browser: Browser, quote: Page, message: string)
    requires browser.launch.Ok?
    requires browser.visit(QuoteUrl(ResolveSymbol(stockName))) == Ok(quote)
    requires QuoteYieldsNothing(quote)
    requires browser.visit(SearchUrl(stockName)) == Raised(message)
    ensures Report(Run(stockName, browser)) == ErrorPrefix + message
  {
    QuoteTextSpec(quote);
  }

  /** The primary text is not checked for digits: a non-empty one without
      digits ends the search and the task reports the sentinel price. */
  lemma UncheckedPrimaryText(stockName: string, browser: Browser, quote: Page, t: string)
    requires browser.launch.Ok? && browser.quit.Ok?
    requires browser.visit(QuoteUrl(ResolveSymbol(stockName))) == Ok(quote)
    requires PrimaryText(quote) == Some(t) && t != "" && !ContainsDigit(t)
    ensures Report(Run(stockName, browser)) == Sentinel
  {
    PrimaryTakenAsIs(quote, browser.visit(SearchUrl(stockName)), t);
    NormalizePriceSpec(t);
  }

  /** A page on which nothing is found and whose source is empty. */
  const BlankPage := Page(map[], Ok(""))

  /** When every page is blank, every stage comes up empty and the task
      reports the sentinel price. */
  lemma BlankPagesGiveSentinel(stockName: string)
    ensures Report(Run(stockName, Browser(Ok(()), (url: string) => Ok(BlankPage), Ok(())))) == Sentinel
  {
    assert FindElements(BlankPage, PrimarySelector) == Ok([]);
    NothingFoundOnEmptyPage(BlankPage, AlternativeSelectors);
    NothingFoundOnEmptyPage(BlankPage, SearchSelectors);
    DigitFreeSourceMatchesNothing(PricePatterns, "");
    SentinelIsCanonical();
    NormalizeCanonical(Sentinel);
  }

  /** A quote page whose primary price box reads "123,45". */
  const QuotePage := Page(map[PrimarySelector := Ok([Ok("123,45")])], Ok(""))

  lemma QuotePagePrimary()
    ensures PrimaryText(QuotePage) == Some("123,45")
  {
  }

  /** End to end: the primary text "123,45" of the quote page is reported as
      the price "123.45". */
  lemma PrimaryPriceReported(stockName: string)
    ensures Report(Run(stockName, Browser(Ok(()), (url: string) => Ok(QuotePage), Ok(())))) == "123.45"
  {
    QuotePagePrimary();
    NormalizeDecimalComma();
  }
}
