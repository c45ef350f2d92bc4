/**
  `get_all_rates` of tg.py: one fetch per code of `CURRENCIES`, the per-page
  quote lists joined end to end. `executor.map` yields its results in input
  order, so the thread pool is modelled as a sequential loop.
 */
module RateCollector {
  import opened Quotes
  import opened QuoteParser

  const CURRENCIES: seq<string> := [
    "USD", "EUR", "GBP", "CZK", "NOK", "DKK", "HRK", "HUF", "SEK", "TRY", "UAH",
    "LTL", "THB", "HKD", "ILS", "MOP", "SCR", "MXN", "CVE", "RUB", "ZAR", "SAR",
    "MYR", "QAR", "AED", "CLP", "RSD", "KES", "AZN", "AUD", "BGN", "TWD", "COP",
    "CRC", "BHD", "TND", "OMR", "MVR", "RON", "JOD", "CHF", "CAD", "GEL", "LKR",
    "MDL", "EEK", "NZD", "VND", "PEN", "UZS", "BRL", "EGP", "PHP", "ISK", "MUR",
    "CNY", "BAM", "INR", "ALL", "MAD", "AMD", "KRW", "DOP", "MKD", "KWD", "TZS",
    "BYN", "KZT", "SGD", "JPY", "LVL"
  ]

  /** Each currency's page quotes, joined in the order of `currencies`. */
  function AllRates(fetch: string -> Response, currencies: seq<string>): seq<Quote>
  {
    if currencies == [] then []
    else
      var c := currencies[|currencies| - 1];
      AllRates(fetch, currencies[..|currencies| - 1]) + PageQuotes(fetch(Url(c)), c)
  }

  /** One more currency appends its own page quotes at the end. */
  lemma AllRatesStep(fetch: string -> Response, currencies: seq<string>, i: nat)
    requires i < |currencies|
    ensures AllRates(fetch, currencies[..i + 1])
         == AllRates(fetch, currencies[..i]) + PageQuotes(fetch(Url(currencies[i])), currencies[i])
  {
    assert currencies[..i + 1][..i] == currencies[..i];
  }

  /** `get_all_rates()` */
  method GetAllRates(fetch: string -> Response) returns (allData: seq<Quote>)
    ensures allData == AllRates(fetch, CURRENCIES)
  {
    allData := [];
    for i := 0 to |CURRENCIES|
      invariant allData == AllRates(fetch, CURRENCIES[..i])
    {
      var result := FetchKantorLive(fetch, CURRENCIES[i]);
      AllRatesStep(fetch, CURRENCIES, i);
      allData := allData + result;
    }
    assert CURRENCIES[..|CURRENCIES|] == CURRENCIES;
  }

  /** The sum of the per-currency list lengths. */
  function QuoteCount(fetch: string -> Response, currencies: seq<string>): nat
  {
    if currencies == [] then 0
    else
      var c := currencies[|currencies| - 1];
      QuoteCount(fetch, currencies[..|currencies| - 1]) + |PageQuotes(fetch(Url(c)), c)|
  }

  /** Nothing is lost or added when the lists are joined. */
  lemma {:induction false} AllRatesLength(fetch: string -> Response, currencies: seq<string>)
    ensures |AllRates(fetch, currencies)| == QuoteCount(fetch, currencies)
  {
    if currencies != [] {
      AllRatesLength(fetch, currencies[..|currencies| - 1]);
    }
  }

  /** Every collected quote is valid and is for one of the requested currencies. */
  lemma {:induction false} AllRatesValid(fetch: string -> Response, currencies: seq<string>)
    ensures forall q :: q in AllRates(fetch, currencies) ==> IsValid(q) && q.currency in currencies
  {
    if currencies != [] {
      var init := currencies[..|currencies| - 1];
      var c := currencies[|currencies| - 1];
      AllRatesValid(fetch, init);
      var response := fetch(Url(c));
      if response.Received? && response.status == 200 {
        ParsedRowsValid(response.rows, c);
      }
      assert forall d :: d in init ==> d in currencies;
    }
  }

  /**
    Restricted to one currency, the joined list is exactly that currency's own
    page quotes, in page order: no other fetch adds to it or takes from it.
   */
  lemma {:induction false} AllRatesByCurrency(fetch: string -> Response, currencies: seq<string>, c: string)
    requires Distinct(currencies)
    ensures QuotesFor(AllRates(fetch, currencies), c)
         == if c in currencies then PageQuotes(fetch(Url(c)), c) else []
  {
    if currencies != [] {
      var init := currencies[..|currencies| - 1];
      var d := currencies[|currencies| - 1];
      var page := PageQuotes(fetch(Url(d)), d);
      AllRatesByCurrency(fetch, init, c);
      QuotesForAppend(AllRates(fetch, init), page, c);
      if fetch(Url(d)).Received? && fetch(Url(d)).status == 200 {
        ParsedRowsValid(fetch(Url(d)).rows, d);
      }
      if c == d {
        QuotesForSame(page, c);
        assert c !in init;
      } else {
        QuotesForOther(page, c);
        assert c in currencies <==> c in init;
      }
    }
  }

  /** A page only ever yields quotes of its own currency. */
  lemma PageQuotesCurrency(response: Response, currency: string)
    ensures forall q :: q in PageQuotes(response, currency) ==> q.currency == currency
  {
    if response.Received? && response.status == 200 {
      ParsedRowsValid(response.rows, currency);
    }
  }

  /**
    A fetch that fails for one currency changes nothing for the others: if two
    networks agree on every page but `Url(failed)`, every other currency gets
    the same quotes. Repeated codes in `currencies` do not matter.
   */
  lemma {:induction false} FailedFetchIsolated(fetch: string -> Response, fetch': string -> Response, currencies: seq<string>, failed: string, c: string)
    requires forall url :: url != Url(failed) ==> fetch'(url) == fetch(url)
    requires c != failed
    ensures QuotesFor(AllRates(fetch', currencies), c) == QuotesFor(AllRates(fetch, currencies), c)
  {
    if currencies != [] {
      var init := currencies[..|currencies| - 1];
      var d := currencies[|currencies| - 1];
      var page, page' := PageQuotes(fetch(Url(d)), d), PageQuotes(fetch'(Url(d)), d);
      FailedFetchIsolated(fetch, fetch', init, failed, c);
      QuotesForAppend(AllRates(fetch, init), page, c);
      QuotesForAppend(AllRates(fetch', init), page', c);
      if d == failed {
        PageQuotesCurrency(fetch(Url(d)), d);
        PageQuotesCurrency(fetch'(Url(d)), d);
        QuotesForOther(page, c);
        QuotesForOther(page', c);
      } else {
        UrlInjective(d, failed);
      }
    }
  }

  /** The same, for the bot's own currency list. */
  lemma FailedFetchIsolatedInCurrencies(fetch: string -> Response, fetch': string -> Response, failed: string, c: string)
    requires forall url :: url != Url(failed) ==> fetch'(url) == fetch(url)
    requires c != failed
    ensures QuotesFor(AllRates(fetch', CURRENCIES), c) == QuotesFor(AllRates(fetch, CURRENCIES), c)
  {
    FailedFetchIsolated(fetch, fetch', CURRENCIES, failed, c);
  }
}
