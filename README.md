# Stock price task: a Dafny model

The modelled code is the Celery task `get_stock_price` in `stocks/tasks.py`. It fetches a quoted stock price from Google Finance by driving a headless Chrome. Given a ticker, it does the following:

1. It resolves the ticker to a Google Finance symbol.
2. It opens the quote page and reads the price box.
3. If the box is missing, it scans an ordered list of alternative XPath selectors, and after that an ordered list of selectors on a Google search page.
4. If those find nothing, it runs three regular expressions over the search page's HTML source, and finally falls back to the sentinel price `"0.0"`.
5. The raw text it picked is normalised to a decimal string: currency markers are removed, the thousands dot is removed and the decimal comma becomes a decimal point.
6. It closes the browser, saves the price and returns it as a string.

An exception not caught inside the outer `try` becomes the string `"Erro: " + message`. The exceptions of the primary wait (line 72), of the selector scans (lines 100 and 145) and of the database write (line 203) are caught inside it.

The model is split into modules that follow these steps:

| file | module | what it holds |
|---|---|---|
| `outcomes.dfy` | `Outcomes` | `Option`, and `Try` (a value or a raised exception's message) |
| `text.dfy` | `Text` | the Python `str` operations used: `\d`, `isspace()`, `upper()`, `strip()`, `replace()` |
| `patterns.dfy` | `Patterns` | scanners for the five regular expressions, and a declarative statement of what each one matches |
| `symbols.dfy` | `Symbols` | the ticker table, symbol resolution and the two URLs |
| `normalizer.dfy` | `Normalizer` | the price normaliser (lines 174-189) |
| `extraction.dfy` | `Extraction` | the selector scans, the regex fallback and the whole cascade |
| `stock_task.dfy` | `StockTask` | the task with the browser, the quit, the save and the error result |

How the code's parts are modelled:

- **Loops are methods.** The selector scans and the pattern loop (lines 84-102, 129-147, 161-166) are imperative: loops that assign to `price_text` and leave through `break`. They are written as methods with `while` loops. Each method is proved equal to a recursive function, and the lemmas about the scans are stated on those functions.
- **Pure steps are functions.** Symbol resolution and the normaliser are straight-line string transformations, written as functions with lemmas.
- **Regular expressions.** Each pattern is a hand-written scanner. For these five patterns, Python's backtracking search returns a unique match: the leftmost one, with the longest group. `Patterns.FindFirstIsLeftmostLongest` proves the scanners return exactly that match, measured against the declarative `Matches`.
- **Pages and the browser are data.** A page is a map from XPath to the outcome of `find_elements`: the elements' texts, any of which may raise, or the exception the lookup raised. A page's `page_source` is a `Try<string>`. The browser is the outcome of starting Chrome, a function from URL to the outcome of visiting it, and the outcome of `quit()`. The database write is a `Try<()>`.

Two behaviours of the code are worth noting:

- **Search-page errors propagate.** A failed visit of the search page (line 111) is not caught locally, and neither is a failed `page_source` read (line 152). Both reach the outer handler at line 208 and produce `"Erro: ..."` (`Extraction.ErrorsOnlyFromSearchPage`, `StockTask.SearchFailureIsReported`).
- **The primary text is used as it is.** It is neither stripped nor checked for digits (line 70). A non-empty primary text without digits therefore ends in the sentinel price (`StockTask.UncheckedPrimaryText`). An empty primary text skips the alternative selectors and goes straight to the search page (`Extraction.EmptyPrimaryGoesToSearch`).

## Model

| member | source | states |
|---|---|---|
| Symbols.ResolveSymbol | stocks/tasks.py:38-47 | computes the table entry of the upper-cased ticker, or the upper-cased ticker followed by ":BVMF"; its properties are the two lemmas below |
| Symbols.QuoteUrl | stocks/tasks.py:50 | computes the Google Finance quote address of a symbol |
| Symbols.QuoteUrlOfTicker | stocks/tasks.py:47-50 | the quote address is the fixed prefix followed by the upper-cased ticker and ":BVMF", so the symbol can be read back from it |
| Symbols.SearchUrl | stocks/tasks.py:109 | computes the search address from the raw ticker; its property is the next row |
| Symbols.ResolveSymbolIsQualified | stocks/tasks.py:38-47 | a ticker in the table resolves to its table entry; because every entry has the default's shape, the symbol is always the upper-cased ticker followed by ":BVMF" |
| Symbols.ResolveSymbolIgnoresCase | stocks/tasks.py:47 | resolution depends only on the upper-cased ticker; "petr4" resolves to "PETR4:BVMF" |
| Symbols.SearchUrlQuery | stocks/tasks.py:109 | the search URL is the fixed prefix followed by the raw ticker, case kept, with each ':' replaced by '+' and every other character kept; no ':' is left in the query |
| Text.Upper | stocks/tasks.py:47 | `Upper` keeps the length and upper-cases each ASCII letter; no lower-case ASCII letter is left |
| Text.UpperIdempotent | stocks/tasks.py:47 | upper-casing twice is upper-casing once |
| Text.ReplaceChar | stocks/tasks.py:109 | `replace` of one character keeps the length and replaces exactly the target's occurrences |
| Text.Strip | stocks/tasks.py:89 | `strip()` yields the infix left when whitespace is cut from both ends; everything cut is whitespace; the result starts and ends with no whitespace |
| Text.StripEmptyIff | stocks/tasks.py:89 | `strip()` yields "" exactly when the text is all whitespace |
| Text.StripKeepsPlain | stocks/tasks.py:174 | text that does not start or end with whitespace is its own `strip()` |
| Text.StripKeepsDigits | stocks/tasks.py:174 | `strip()` keeps every digit, in order |
| Text.RemoveAll | stocks/tasks.py:174-179 | computes `replace(pat, '')`: deletes the occurrences found by a left-to-right scan that does not overlap them; its properties are the next five rows |
| Text.RemoveCharGone | stocks/tasks.py:174 | `replace('$', '')` leaves no '$' |
| Text.RemoveAllAbsent | stocks/tasks.py:174 | a pattern whose first character does not occur is not deleted |
| Text.RemoveAllKeepsDigits | stocks/tasks.py:174 | deleting a digit-free pattern keeps every digit, in order |
| Text.RemoveCharSplit | stocks/tasks.py:179 | deleting a character that occurs once removes exactly that occurrence |
| Text.RemoveMarkerSplit | stocks/tasks.py:174 | for every a without '$' and b without 'R' or '$', deleting "R$" from a + "R$" + b gives a + b: the marker goes whole, its 'R' included |
| Text.ReplaceCharKeepsDigits | stocks/tasks.py:179-182 | replacing a non-digit by a non-digit keeps every digit and leaves no target |
| Text.DigitsEmptyIff | stocks/tasks.py:93 | the digit sequence of a text is empty exactly when the text contains no digit |
| Patterns.MatchAt | stocks/tasks.py:93 | the group of a pattern's match anchored at a start, if any: for each of the five patterns, greedy digit and whitespace runs and the separator test; the group lies after the start and begins with a digit |
| Patterns.FindFirst | stocks/tasks.py:162-164 | `re.search`: the match at the first start where the pattern matches; no start before it matches, and `None` only when no start does |
| Patterns.FirstGroup | stocks/tasks.py:185-187 | computes the text of the first match's group; its property is `Patterns.FirstGroupSpec` |
| Patterns.LooksLikePrice | stocks/tasks.py:138 | computes the "looks like a price" test of lines 93 and 138; its property is `Patterns.LooksLikePriceIffDigit` |
| Patterns.MatchAtSound | stocks/tasks.py:93 | every match the scanners report at a start is a match of the pattern there |
| Patterns.MatchAtComplete | stocks/tasks.py:156-158 | every match of the pattern at a start is found by the scanner, with the same group start and a group at least as long |
| Patterns.FindFirstIsLeftmostLongest | stocks/tasks.py:185 | the search finds nothing exactly when the pattern matches nowhere; otherwise it reports the leftmost match, with the longest group at that start |
| Patterns.LeftmostLongestUnique | stocks/tasks.py:185 | there is only one leftmost, longest match |
| Patterns.FirstGroupSpec | stocks/tasks.py:162-164 | `re.findall(...)[0]` exists exactly when the pattern matches somewhere; it is the group of the leftmost, longest match and is never empty |
| Patterns.MatchesNeedADigit | stocks/tasks.py:155-159 | none of the patterns matches digit-free text |
| Patterns.NumberFoundIffDigit | stocks/tasks.py:185 | the normaliser's token pattern and the "looks like a price" pattern find a match exactly when the text has a digit |
| Patterns.LooksLikePriceIffDigit | stocks/tasks.py:93 | the "looks like a price" test accepts exactly the texts with a digit |
| Patterns.CanonicalGroup | stocks/tasks.py:185-187 | the match of the normaliser's token pattern is itself a canonical number |
| Patterns.CanonicalShape | stocks/tasks.py:185-189 | a canonical number is made of digits and dots, starts and ends with a digit, and so has no 'R', '$', ',' or whitespace |
| Patterns.CanonicalFindsItself | stocks/tasks.py:185-187 | the search over a canonical number matches the whole of it |
| Normalizer.StripCurrency | stocks/tasks.py:174 | after removing "R$", "$" and surrounding whitespace, no '$' is left and the text starts and ends with no whitespace; how "R$" is removed is `Normalizer.StripCurrencyMarker` |
| Normalizer.StripCurrencyMarker | stocks/tasks.py:174 | for the same a and b, the currency strip of a + "R$" + b is the `strip()` of a + b |
| Normalizer.UnifySeparators | stocks/tasks.py:177-182 | after the locale rule no ',' is left, and text without ',' is unchanged; the rule itself is the next two rows |
| Normalizer.UnifyDecimalComma | stocks/tasks.py:180-182 | for all separator-free a and b, a + "," + b becomes a + "." + b: a lone comma is the decimal mark |
| Normalizer.UnifyGrouped | stocks/tasks.py:177-179 | for all separator-free a, b and c, a + "." + b + "," + c becomes a + b + "." + c: the dot grouping thousands is deleted and the comma becomes the decimal point |
| Normalizer.Converted | stocks/tasks.py:174-182 | computes the text the number is taken from, currency strip followed by the locale rule; its properties are the next two rows |
| Normalizer.LeadingNumber | stocks/tasks.py:184-189 | computes the first number token, or "0.0" when there is none |
| Normalizer.NormalizePrice | stocks/tasks.py:174-189 | computes the whole normaliser; its properties are the rows from `Normalizer.NormalizePriceSpec` on |
| Normalizer.ConvertedKeepsDigits | stocks/tasks.py:174-182 | the conversion keeps every digit of the raw text, in order |
| Normalizer.ConvertedHasDigitIff | stocks/tasks.py:174-182 | the converted text has a digit exactly when the raw text has one |
| Normalizer.NormalizePriceSpec | stocks/tasks.py:174-189 | the normaliser always yields a canonical number `\d+(\.\d+)?`: the sentinel "0.0" when the raw text has no digit, and otherwise the leftmost, longest number token (digits, optionally a dot and digits) of the converted text |
| Normalizer.StripCurrencyKeeps | stocks/tasks.py:174 | text without 'R', '$' or surrounding whitespace passes the currency strip unchanged |
| Normalizer.NormalizeConvertedCanonical | stocks/tasks.py:184-187 | when the converted text is a canonical number, it is the result |
| Normalizer.NormalizeCanonical | stocks/tasks.py:174-189 | a canonical number normalises to itself |
| Normalizer.NormalizePriceIdempotent | stocks/tasks.py:174-189 | normalising twice is normalising once |
| Normalizer.SentinelIsCanonical | stocks/tasks.py:171 | the sentinel "0.0" is a canonical number |
| Normalizer.NormalizeThousands | stocks/tasks.py:177-179 | "1.234,56" normalises to "1234.56" |
| Normalizer.NormalizeDecimalComma | stocks/tasks.py:180-182 | "123,45" normalises to "123.45" |
| Normalizer.NormalizeCurrencyPrefix | stocks/tasks.py:174 | "R$ 45.10" normalises to "45.10" |
| Normalizer.NormalizeNoDigits | stocks/tasks.py:185-189 | every text without a digit normalises to "0.0" |
| Normalizer.NormalizeWords | stocks/tasks.py:185-189 | the example "no digits here" normalises to "0.0" |
| Extraction.PrimaryText | stocks/tasks.py:67-70 | computes the text of the first element the primary selector finds, or `None` when there is no element, the lookup raises or the text raises |
| Extraction.FirstPriceInElements | stocks/tasks.py:88-96 | computes what the element loop yields; its property is `Extraction.FirstPriceInElementsSpec` |
| Extraction.SelectorText | stocks/tasks.py:85-102 | computes what one selector yields, "" when its lookup raises; its property is `Extraction.SelectorTextSpec` |
| Extraction.FirstPriceIn | stocks/tasks.py:129-147 | computes what a selector scan yields; its property is `Extraction.FirstPriceInSpec` |
| Extraction.FirstPatternGroup | stocks/tasks.py:161-166 | computes what the pattern loop yields; its property is `Extraction.FirstPatternGroupSpec` |
| Extraction.QuoteText | stocks/tasks.py:63-102 | computes the price text the quote page leaves; its property is `Extraction.QuoteTextSpec` |
| Extraction.PriceText | stocks/tasks.py:63-171 | computes the whole cascade with the stage that set the text, or the exception it raises; its properties are `Extraction.StagesInOrder`, `Extraction.SentinelOnlyWhenAllEmpty` and `Extraction.ErrorsOnlyFromSearchPage` |
| Extraction.ScanElements | stocks/tasks.py:88-96 | the loop over one selector's elements, with its `break`, yields what `FirstPriceInElements` states: the first stripped text that looks like a price, or "" once a text raises or the elements run out |
| Extraction.ScanSelectors | stocks/tasks.py:84-102 | the loop over the selectors, which skips a raising lookup and leaves at the first selector that yields a text, yields what `FirstPriceIn` states the scan yields |
| Extraction.FirstPriceInElementsSpec | stocks/tasks.py:88-96 | the element loop yields a text exactly when some element is hit, and then the stripped text of the first one; an element whose text raises ends the selector |
| Extraction.SelectorTextSpec | stocks/tasks.py:85-102 | a selector yields a text exactly when its lookup succeeds and one of its elements is hit; a raising lookup is skipped |
| Extraction.FirstPriceInSpec | stocks/tasks.py:129-147 | a selector scan yields "" exactly when no selector has a hit; otherwise it yields the stripped text of the first hit element of the first selector that has a hit |
| Extraction.FirstPriceInConcat | stocks/tasks.py:98-99 | once a selector has found a text, later selectors are not examined; otherwise the scan goes on with the later list |
| Extraction.FirstPriceInElementsConcat | stocks/tasks.py:94-96 | elements after the one whose text is taken are not examined |
| Extraction.ScanPatterns | stocks/tasks.py:161-166 | the loop over the three patterns yields what `FirstPatternGroup` states |
| Extraction.FirstPatternGroupSpec | stocks/tasks.py:155-166 | the fallback yields "" exactly when no pattern matches anywhere; otherwise some pattern wins, and the fallback yields the group of the leftmost, longest match of the first pattern, in list order, that matches |
| Extraction.QuoteTextSpec | stocks/tasks.py:63-102 | the quote page leaves the price text empty exactly when the primary text is empty, or the primary selector failed and no alternative selector has a hit |
| Extraction.PrimaryTakenAsIs | stocks/tasks.py:67-70 | a non-empty primary text is the price text as it is, digits or not, and no later stage runs |
| Extraction.EmptyPrimaryGoesToSearch | stocks/tasks.py:70 | an empty primary text skips the alternative selectors and hands over to the search page |
| Extraction.StagesInOrder | stocks/tasks.py:63-171 | each stage runs only when every earlier one left the price text empty, and yields what its scan yields; the final text is never empty |
| Extraction.SentinelOnlyWhenAllEmpty | stocks/tasks.py:169-171 | the sentinel is the price text exactly when the quote page, the search selectors and the source patterns all found nothing |
| Extraction.ErrorsOnlyFromSearchPage | stocks/tasks.py:105-152 | the cascade raises exactly when the quote page yields nothing and then the search visit fails, or the search selectors find nothing and reading the source fails; the message is that exception's |
| Extraction.NothingFoundOnEmptyPage | stocks/tasks.py:84-87 | a page on which every lookup that succeeds finds no element yields no text from a selector scan |
| Extraction.DigitFreeSourceMatchesNothing | stocks/tasks.py:161-166 | a digit-free page source yields no text from the patterns |
| StockTask.Run | stocks/tasks.py:28-206 | computes the outer `try`: the normalised price, or the first exception raised by the launch, a visit, the source read or `quit()` |
| StockTask.Report | stocks/tasks.py:206-215 | computes the returned string: the price, or "Erro: " followed by the message |
| StockTask.FindPriceText | stocks/tasks.py:63-171 | the cascade, which visits the search page only when needed, yields the price text the cascade function states, or the exception it raises |
| StockTask.GetStockPrice | stocks/tasks.py:28-215 | the task returns the run's price or "Erro: " + the message of the first exception; a record with the same price is saved exactly when the run succeeded and the write did not raise |
| StockTask.ResultIsPriceOrError | stocks/tasks.py:206-215 | the returned string is a canonical number exactly when the run succeeded, and otherwise "Erro: " + the message, so the two cannot be confused |
| StockTask.SearchFailureIsReported | stocks/tasks.py:105-111 | when the quote page yields nothing, a failed search-page visit is reported as "Erro: " + its message |
| StockTask.UncheckedPrimaryText | stocks/tasks.py:67-70 | a non-empty, digit-free primary text ends in the price "0.0" |
| StockTask.BlankPagesGiveSentinel | stocks/tasks.py:169-189 | when every page is blank, any ticker gets the price "0.0" |
| StockTask.PrimaryPriceReported | stocks/tasks.py:67-70 | a primary price box reading "123,45" is reported as "123.45" |

## Left out

- Chrome options, `ChromeDriverManager`, the user agent and `sleep(3)` are browser set-up with no effect on the result, so they are not modelled. The browser is a function from URL to the outcome of a visit.
- `WebDriverWait` with its 15-second timeout is not modelled as time: the wait succeeds exactly when the primary selector finds an element on the page.
- Screenshots and logging are side channels. A failing screenshot is folded into the outcome of a visit.
- XPath evaluation and the DOM are not modelled. Each selector's result on a page is given data.
- `Stock.objects.create` and `float(price)` are not modelled: the database write is a given success or failure, and the saved price is kept as its string.
- The `@shared_task` decorator and Celery worker concurrency are not modelled.
- The text of exception messages (`str(e)`) is not modelled: a message is an arbitrary string.
- The second `driver.quit()` in the outer handler is not modelled: it can only swallow its own exception.
- Text.IsDigit: Python's `\d` also matches non-ASCII decimal digits; the model keeps to ASCII `0-9`.
- Text.Upper: Python's `upper()` also maps non-ASCII letters and can change the length ("ß" becomes "SS"); the model maps only ASCII `a-z` and keeps the length.
- Text.ReplaceChar: `replace` is modelled only for the one-character arguments the task uses.
