# tg_kantor rate analysis, modelled in Dafny

`tg.py` is a Telegram bot that scrapes the kantor.live listing of currency
exchange offices (kantory) in Lublin. It collects every office's sell and buy
rate for 71 currencies, then looks for arbitrage: for each currency it buys at
the office with the lowest buy rate and sells at the office with the highest
sell rate. The second office must have a different name, and its sell rate
must exceed the first office's buy rate.

This project models the computational core of the bot and proves properties
of it:

- `clean_rate` (module `RateCleaner`). Commas become dots. The first match of
  `\d+(\.\d+)?` is then read as a number. The regular-expression search is a
  scan, proved to return the leftmost-longest match of the pattern's
  language. `float` becomes an exact `real`.
- the row loop of `fetch_kantor_live` and its HTTP status handling (module
  `QuoteParser`). Each office row arrives as a `Row`: the texts that
  BeautifulSoup's lookups would find, with `None` where a lookup finds
  nothing. The model then strips the texts, cleans the rates, applies the
  truthiness test and appends the quote. The network is a parameter
  `fetch: string -> Response`, keyed by URL.
- `get_all_rates` (module `RateCollector`). Every currency's page quotes,
  joined in the order of `CURRENCIES`.
- `get_profitable_opportunities` (module `Arbitrage`). The per-currency
  filter, stable `min`/`max` by key, the office-name and price test, and the
  profit percentage.

Module layout:

- `Wrappers`: the `Option` type.
- `Selection`: the filter-map `Somes` used by every loop that appends
  conditionally, and the predicate `Selects`, which states that such a loop
  keeps exactly the produced items in their original order.
- `Quotes`: the quote record `[name, address, currency, sell, buy]` and the
  per-currency filter.

Each `for` statement of the source is a `method` with a `for` loop, proved
equal to a recursive specification function. The lemmas are stated about those
functions.

## Model

| member | source | states |
|---|---|---|
| RateCleaner.ReplaceCommas | tg.py:37 | the result has the input's length, with every `,` replaced by `.` and every other character unchanged |
| RateCleaner.Search | tg.py:38 | finds no match exactly when the text holds no digit; otherwise the match is the leftmost-longest slice in the language of `\d+(\.\d+)?` (greedy: a fraction only when a digit follows the dot) |
| RateCleaner.LeftmostLongestUnique | tg.py:38 | at most one span meets the leftmost-longest specification, so the search's result is fully determined by it |
| RateCleaner.NumeralValue | tg.py:39 | the value read from a match is never negative |
| RateCleaner.CleanRate | tg.py:35-39 | `None` exactly when the text has no digit (with or without commas); otherwise a non-negative number |
| RateCleaner.CleanRateDecimal | tg.py:35-39 | text without digits, then `whole`, then `,` or `.`, then `frac`, then text not starting with a digit, reads as exactly `whole + frac / 10^len(frac)` |
| RateCleaner.CleanRateWhole | tg.py:35-39 | a digit run not followed by a decimal point and a digit, after text without digits, reads as its integer value |
| RateCleaner.CleanRateIgnoresCommas | tg.py:37 | replacing commas beforehand changes nothing: commas and dots are read alike |
| RateCleaner.DecimalValueFloor | tg.py:38-39 | the fraction never carries into the whole part: the floor of the value is the digit run before the point |
| RateCleaner.CleanRateCommaExample | tg.py:35-39 | `clean_rate("12,50 zł")` is 12.5 |
| RateCleaner.CleanRateLettersExample | tg.py:39 | `clean_rate("abc")` is `None` |
| Quotes.QuotesFor | tg.py:88 | the filter keeps exactly the quotes of the currency, from the input: membership both ways and no growth |
| Quotes.QuotesForAppend | tg.py:88 | filtering distributes over concatenation, so input order is kept |
| Quotes.QuotesForSame | tg.py:88 | a list all of the currency passes unchanged |
| Quotes.QuotesForOther | tg.py:88 | a list with none of the currency filters to nothing |
| QuoteParser.StripTrims | tg.py:58-59 | `strip()` returns a slice of the input with Python whitespace removed from both ends: whitespace only, on the outside only, and none left at either end |
| QuoteParser.FirstLine | tg.py:59 | `split("\n")[0]` is a prefix of the text with no line break, ending at the first line break or at the end |
| QuoteParser.RowToQuote | tg.py:57-67 | a row yields a quote exactly when name and address are found, there are at least two rate cells, and both cleaned rates are present and positive; the quote carries the stripped name, the first line of the stripped address, the currency and the two cleaned rates |
| QuoteParser.RowOutcomesAt | tg.py:56-67 | each row's outcome depends on that row alone |
| QuoteParser.ParseRows | tg.py:55-68 | the loop's list is the quotes of the rows that yield one, in document order; a failing row is skipped and the loop continues |
| QuoteParser.ParsedRowsAppend | tg.py:56-67 | parsing distributes over concatenation of rows: a bad row does not affect the rows after it |
| QuoteParser.ParsedRowsInDocumentOrder | tg.py:56-67 | the output is exactly the rows' quotes, selected at increasing row positions |
| QuoteParser.ParsedRowsValid | tg.py:61-65 | at most one quote per row; every quote has positive rates and the requested currency |
| QuoteParser.Url | tg.py:44 | the page URL is the listing prefix followed by the currency code |
| QuoteParser.UrlInjective | tg.py:44 | different currencies are fetched from different URLs |
| QuoteParser.FetchKantorLive | tg.py:42-68 | a transport error or a status other than 200 yields `[]`; otherwise the row loop's quotes; every quote is valid and carries the currency |
| RateCollector.GetAllRates | tg.py:71-79 | the result is every currency's page quotes, joined in the order of `CURRENCIES` |
| RateCollector.AllRatesLength | tg.py:76-77 | the joined list's length is the sum of the per-currency lengths |
| RateCollector.AllRatesValid | tg.py:71-79 | every collected quote is valid and for a requested currency |
| RateCollector.AllRatesByCurrency | tg.py:71-79 | with distinct currencies, filtering the joined list by one currency gives exactly that currency's page quotes, in page order |
| RateCollector.PageQuotesCurrency | tg.py:44-68 | a page only ever yields quotes of its own currency |
| RateCollector.FailedFetchIsolated | tg.py:45-51 | for any currency list, repeated codes included, a failing page for one currency leaves every other currency's quotes unchanged |
| RateCollector.FailedFetchIsolatedInCurrencies | tg.py:71-79 | for `CURRENCIES` itself, a failing page for one currency leaves every other currency's quotes unchanged |
| Arbitrage.FirstMinBuy | tg.py:92 | `min` by buy rate picks the first position holding the lowest buy rate |
| Arbitrage.FirstMaxSell | tg.py:93 | `max` by sell rate picks the first position holding the highest sell rate |
| Arbitrage.FirstMinBuyUnique | tg.py:92 | only one position is the first lowest buy rate |
| Arbitrage.FirstMaxSellUnique | tg.py:93 | only one position is the first highest sell rate |
| Arbitrage.ProfitPercent | tg.py:96 | with a positive buy rate, the profit is positive exactly when the sell rate exceeds the buy rate |
| Arbitrage.CurrencyOpportunity | tg.py:88-100 | an opportunity has the currency, two differently named offices, a sell price above a positive buy price and a positive profit of `(sell - buy) / buy * 100`; its buy price is at most, and its sell price at least, every quote of the currency |
| Arbitrage.CurrencyOpportunityIff | tg.py:88-95 | an opportunity exists exactly when the currency has quotes, some sell rate exceeds some buy rate, and the first cheapest-buy and first dearest-sell offices have different names |
| Arbitrage.SomeSellAboveSomeBuy | tg.py:92-95 | some sell rate exceeds some buy rate exactly when the highest sell rate exceeds the lowest buy rate |
| Arbitrage.CurrencyOpportunityPicks | tg.py:92-100 | the buy side is the name, address and rate of the first lowest-buy quote; the sell side those of the first highest-sell quote |
| Arbitrage.CurrencyOutcomesAt | tg.py:87-100 | each currency's outcome depends on that currency alone |
| Arbitrage.FindOpportunities | tg.py:85-102 | the loop's list is the opportunities of `CURRENCIES`, in that order |
| Arbitrage.GetProfitableOpportunities | tg.py:82-102 | the collected quotes all have positive buy rates, and the result is the opportunities found in them |
| Arbitrage.OpportunitiesInCurrencyOrder | tg.py:87-100 | opportunities come in currency order: the `k`-th is for the currency at the `k`-th selected, increasing position |
| Arbitrage.OpportunitiesOnePerCurrency | tg.py:87-100 | with distinct currencies there is at most one opportunity per currency, and no more opportunities than currencies |
| Arbitrage.OpportunitiesOfNoQuotes | tg.py:88-90 | no quotes yield no opportunities |
| Arbitrage.TwoOfficesExample | tg.py:88-100 | offices A (buy 4.0, sell 4.2) and B (buy 3.9, sell 4.1) give: buy at B for 3.9, sell at A for 4.2, profit 100/13 per cent |

## Left out

- The Telegram bot (tg.py:105-175): menus, callbacks, message formatting and `main`. It is user interface, not computation.
- `load_dotenv`, the token, logging, the `print` of a failed request, and the unused `kantor_annajanek` and `kantor_olimp` entries of `EXCHANGE_SOURCES`.
- HTML parsing with BeautifulSoup. The page arrives as `Response.Received(status, rows)`. Each `Row` holds the texts that `find`/`find_all` would return for the row's CSS classes, with `None` for a missing element. The `except: continue` of the row loop is modelled for a missing element, the only way that body can raise here.
- The network. `requests.get` becomes the parameter `fetch`, a deterministic function from URL to `Response`. Timeouts, headers and any exception other than the transport error are not modelled.
- Threads. `ThreadPoolExecutor.map` returns its results in input order, so `GetAllRates` is a sequential loop. Concurrency is not modelled.
- RateCleaner.CleanRate: Python's `\d` also matches non-ASCII Unicode decimal digits; the model takes only `0`–`9`.
- RateCleaner.CleanRate: `float` is an exact `real`. Binary rounding and overflow to `inf` for very long digit runs are not modelled.
- Arbitrage.CurrencyOpportunity: the stored profit is the exact percentage, not `round(profit, 2)`. Floating-point rounding is not modelled.
- Arbitrage.CurrencyOpportunity: the `best_buy and best_sell` test of tg.py:95 is dropped. Both are always non-empty lists at that point, so the test is always true.
- RateCollector.AllRatesByCurrency, Arbitrage.OpportunitiesOnePerCurrency: these assume distinct currency codes. They are proved for any such list. That the 71 literal codes of `CURRENCIES` are pairwise distinct is not proved: the solver cannot compare that many string literals within the resource limit.
