/**
  The quote record of tg.py, `[name, address, currency, sell_rate, buy_rate]`,
  and the per-currency filter that the analyzer applies to a list of them.
 */
module Quotes {

  /** One office's posted rates for one currency; `sell` is listed before `buy`, as in the source's list. */
  datatype Quote = Quote(name: string, address: string, currency: string, sell: real, buy: real)

  /** The record's invariant: both rates were parsed and are strictly positive. */
  predicate IsValid(q: Quote) {
    q.sell > 0.0 && q.buy > 0.0
  }

  /** No code appears twice in the list. */
  predicate Distinct(cs: seq<string>) {
    forall i, j :: 0 <= i < j < |cs| ==> cs[i] != cs[j]
  }

  /** `[x for x in data if x[2] == currency]` */
  function QuotesFor(data: seq<Quote>, currency: string): (r: seq<Quote>)
    ensures |r| <= |data|
    ensures forall q :: q in r ==> q in data && q.currency == currency
    ensures forall q :: q in data && q.currency == currency ==> q in r
  {
    if data == [] then []
    else
      var last := data[|data| - 1];
      QuotesFor(data[..|data| - 1], currency) + (if last.currency == currency then [last] else [])
  }

  /** Filtering distributes over concatenation: the filter keeps the input order. */
  lemma {:induction false} QuotesForAppend(a: seq<Quote>, b: seq<Quote>, currency: string)
    ensures QuotesFor(a + b, currency) == QuotesFor(a, currency) + QuotesFor(b, currency)
  {
    if b == [] {
      assert a + b == a;
    } else {
      var b' := b[..|b| - 1];
      assert (a + b)[..|a + b| - 1] == a + b';
      assert (a + b)[|a + b| - 1] == b[|b| - 1];
      QuotesForAppend(a, b', currency);
    }
  }

  /** A list of quotes all for `currency` passes the filter unchanged. */
  lemma {:induction false} QuotesForSame(data: seq<Quote>, currency: string)
    requires forall i :: 0 <= i < |data| ==> data[i].currency == currency
    ensures QuotesFor(data, currency) == data
  {
    if data != [] {
      var init := data[..|data| - 1];
      QuotesForSame(init, currency);
      assert data == init + [data[|data| - 1]];
    }
  }

  /** A list without any quote for `currency` filters to nothing. */
  lemma QuotesForOther(data: seq<Quote>, currency: string)
    requires forall q :: q in data ==> q.currency != currency
    ensures QuotesFor(data, currency) == []
  {
  }
}
