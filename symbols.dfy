/** Symbol resolution and the two URLs the task visits. */
module Symbols {
  import opened Text

  /** The exchange suffix of unmapped tickers. */
  const DefaultExchange := "BVMF"

  /** Brazilian tickers mapped to their Google Finance symbols. */
  const StockMapping: map<string, string> := map[
    "PETR4" := "PETR4:BVMF",  // Petrobras PN
    "PETR3" := "PETR3:BVMF",  // Petrobras ON
    "VALE3" := "VALE3:BVMF",  // Vale
    "ITUB4" := "ITUB4:BVMF",  // Itau
    "BBDC4" := "BBDC4:BVMF"   // Bradesco
  ]

  const QuotePrefix := "https://www.google.com/finance/quote/"
  const SearchPrefix := "https://www.google.com/search?q=preço+ação+"

  /** `stock_mapping.get(ticker.upper(), f"{ticker.upper()}:BVMF")`. */
  function ResolveSymbol(ticker: string): string {
    var key := Upper(ticker);
    if key in StockMapping then StockMapping[key] else key + ":" + DefaultExchange
  }

  /** The Google Finance quote page of a symbol. */
  function QuoteUrl(symbol: string): string {
    QuotePrefix + symbol
  }

  /** The Google search page, queried with the raw ticker whose colons became
      plus signs. */
  function SearchUrl(ticker: string): string {
    SearchPrefix + ReplaceChar(ticker, ':', '+')
  }

  /** Every entry of the table has the shape of the default rule, so the
      resolved symbol is always the upper-cased ticker followed by ":BVMF";
      in particular an unmapped ticker gets that default. */
  lemma ResolveSymbolIsQualified(ticker: string)
    ensures Upper(ticker) in StockMapping ==> ResolveSymbol(ticker) == StockMapping[Upper(ticker)]
    ensures ResolveSymbol(ticker) == Upper(ticker) + ":BVMF"
  {
    var key := Upper(ticker);
    if key in StockMapping {
      assert key == "PETR4" || key == "PETR3" || key == "VALE3" || key == "ITUB4" || key == "BBDC4";
    }
  }

  /** Resolution ignores case: the five table entries are reached from any
      spelling of their tickers; "petr4", for one, resolves to its table
      entry. */
  lemma ResolveSymbolIgnoresCase(ticker: string)
    ensures ResolveSymbol(Upper(ticker)) == ResolveSymbol(ticker)
    ensures ResolveSymbol("petr4") == "PETR4:BVMF"
  {
    UpperIdempotent(ticker);
    assert Upper("petr4") == "PETR4";
  }

  /** The search query is the raw ticker, case kept, with every ':' turned
      into '+', so no ':' is left in it. */
  lemma SearchUrlQuery(ticker: string)
    ensures SearchUrl(ticker)[..|SearchPrefix|] == SearchPrefix
    ensures |SearchUrl(ticker)| == |SearchPrefix| + |ticker|
    ensures forall i :: 0 <= i < |ticker| ==>
              SearchUrl(ticker)[|SearchPrefix| + i] == (if ticker[i] == ':' then '+' else ticker[i])
    ensures ':' !in SearchUrl(ticker)[|SearchPrefix|..]
  {
    var q := ReplaceChar(ticker, ':', '+');
    ConcatParts(SearchPrefix, q);
    ReplaceCharKeepsDigits(ticker, ':', '+');
  }

  /** The quote page's address ends in the resolved symbol, which can be read
      back from it: the upper-cased ticker followed by ":BVMF". */
  lemma QuoteUrlOfTicker(ticker: string)
    ensures QuoteUrl(ResolveSymbol(ticker))[..|QuotePrefix|] == QuotePrefix
    ensures QuoteUrl(ResolveSymbol(ticker))[|QuotePrefix|..] == Upper(ticker) + ":BVMF"
  {
    ResolveSymbolIsQualified(ticker);
    ConcatParts(QuotePrefix, ResolveSymbol(ticker));
  }

  /** The two halves of a concatenation are found where they were put. */
  lemma ConcatParts(a: string, b: string)
    ensures (a + b)[..|a|] == a && (a + b)[|a|..] == b
    ensures forall i :: 0 <= i < |b| ==> (a + b)[|a| + i] == b[i]
  {
  }
}
