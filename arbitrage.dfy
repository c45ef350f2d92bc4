/**
  `get_profitable_opportunities` of tg.py: per currency of `CURRENCIES`, the
  cheapest buy rate and the dearest sell rate over that currency's quotes, and
  an opportunity when they come from two differently named offices and the
  sell rate exceeds the buy rate.
 */
module Arbitrage {
  import opened Wrappers
  import opened Quotes
  import opened Selection
  import opened QuoteParser
  import opened RateCollector

  /**
    `[currency, buy name, buy address, buy rate, sell name, sell address,
    sell rate, profit]`; `profit` is the percentage before `round(…, 2)`.
   */
  datatype Opportunity = Opportunity(
    currency: string,
    buyOffice: string, buyAddress: string, buyPrice: real,
    sellOffice: string, sellAddress: string, sellPrice: real,
    profit: real)

  /** Every quote has a positive buy rate, so the profit's division is defined. */
  predicate BuyRatesPositive(data: seq<Quote>) {
    forall q :: q in data ==> q.buy > 0.0
  }

  /** `k` is the first position holding the lowest buy rate. */
  predicate IsFirstMinBuy(qs: seq<Quote>, k: nat) {
    && k < |qs|
    && (forall j :: 0 <= j < |qs| ==> qs[k].buy <= qs[j].buy)
    && (forall j :: 0 <= j < k ==> qs[k].buy < qs[j].buy)
  }

  /** `k` is the first position holding the highest sell rate. */
  predicate IsFirstMaxSell(qs: seq<Quote>, k: nat) {
    && k < |qs|
    && (forall j :: 0 <= j < |qs| ==> qs[j].sell <= qs[k].sell)
    && (forall j :: 0 <= j < k ==> qs[j].sell < qs[k].sell)
  }

  /**
    `min(qs, key=lambda x: x[4])`, as a position: the scan from the left
    replaces its candidate only on a strictly lower key, so ties keep the first.
   */
  function FirstMinBuy(qs: seq<Quote>): (k: nat)
    requires |qs| > 0
    ensures IsFirstMinBuy(qs, k)
  {
    if |qs| == 1 then 0
    else
      var n := |qs| - 1;
      var k := FirstMinBuy(qs[..n]);
      assert forall j :: 0 <= j < n ==> qs[..n][j] == qs[j];
      if qs[n].buy < qs[k].buy then n else k
  }

  /** `max(qs, key=lambda x: x[3])`, as a position; ties keep the first. */
  function FirstMaxSell(qs: seq<Quote>): (k: nat)
    requires |qs| > 0
    ensures IsFirstMaxSell(qs, k)
  {
    if |qs| == 1 then 0
    else
      var n := |qs| - 1;
      var k := FirstMaxSell(qs[..n]);
      assert forall j :: 0 <= j < n ==> qs[..n][j] == qs[j];
      if qs[n].sell > qs[k].sell then n else k
  }

  /** `(sell - buy) / buy * 100`, before rounding. */
  function ProfitPercent(buy: real, sell: real): (p: real)
    requires buy > 0.0
    ensures p > 0.0 <==> sell > buy
  {
    (sell - buy) / buy * 100.0
  }

  /** One pass of the loop body over `CURRENCIES`: the opportunity for `currency`, if any. */
  function CurrencyOpportunity(data: seq<Quote>, currency: string): (r: Option<Opportunity>)
    requires BuyRatesPositive(data)
    ensures r.Some? ==> && r.value.currency == currency
                        && r.value.buyOffice != r.value.sellOffice
                        && r.value.sellPrice > r.value.buyPrice > 0.0
                        && r.value.profit == (r.value.sellPrice - r.value.buyPrice) / r.value.buyPrice * 100.0
                        && r.value.profit > 0.0
    ensures r.Some? ==> forall q :: q in data && q.currency == currency ==>
                          r.value.buyPrice <= q.buy && q.sell <= r.value.sellPrice
  {
    var filtered := QuotesFor(data, currency);
    if filtered == [] then None
    else
      var bestBuy := filtered[FirstMinBuy(filtered)];
      var bestSell := filtered[FirstMaxSell(filtered)];
      if bestBuy.name != bestSell.name && bestSell.sell > bestBuy.buy then
        assert bestBuy in data;
        Some(Opportunity(currency, bestBuy.name, bestBuy.address, bestBuy.buy,
                         bestSell.name, bestSell.address, bestSell.sell,
                         ProfitPercent(bestBuy.buy, bestSell.sell)))
      else None
  }

  /**
    An opportunity is emitted exactly when the currency has quotes, some quote's
    sell rate exceeds some quote's buy rate, and the first cheapest-buy office
    and the first dearest-sell office have different names.
   */
  lemma CurrencyOpportunityIff(data: seq<Quote>, currency: string)
    requires BuyRatesPositive(data)
    ensures var qs := QuotesFor(data, currency);
      CurrencyOpportunity(data, currency).Some? <==>
        && qs != []
        && (exists i, j :: 0 <= i < |qs| && 0 <= j < |qs| && qs[i].sell > qs[j].buy)
        && qs[FirstMinBuy(qs)].name != qs[FirstMaxSell(qs)].name
  {
    var qs := QuotesFor(data, currency);
    if qs != [] {
      SomeSellAboveSomeBuy(qs);
    }
  }

  /** Some sell rate exceeds some buy rate exactly when the highest sell rate exceeds the lowest buy rate. */
  lemma SomeSellAboveSomeBuy(qs: seq<Quote>)
    requires qs != []
    ensures (exists i, j :: 0 <= i < |qs| && 0 <= j < |qs| && qs[i].sell > qs[j].buy)
        <==> qs[FirstMaxSell(qs)].sell > qs[FirstMinBuy(qs)].buy
  {
    var b, s := FirstMinBuy(qs), FirstMaxSell(qs);
    if exists i, j :: 0 <= i < |qs| && 0 <= j < |qs| && qs[i].sell > qs[j].buy {
      var i, j :| 0 <= i < |qs| && 0 <= j < |qs| && qs[i].sell > qs[j].buy;
      assert qs[s].sell >= qs[i].sell && qs[j].buy >= qs[b].buy;
    }
  }

  /** Only one position is the first lowest buy rate: the one `FirstMinBuy` finds. */
  lemma FirstMinBuyUnique(qs: seq<Quote>, k: nat)
    requires IsFirstMinBuy(qs, k)
    ensures FirstMinBuy(qs) == k
  {
    var b := FirstMinBuy(qs);
    var atK, atB := qs[k].buy, qs[b].buy;
    assert k < b ==> atB < atK;
    assert b < k ==> atK < atB;
  }

  /** Only one position is the first highest sell rate: the one `FirstMaxSell` finds. */
  lemma FirstMaxSellUnique(qs: seq<Quote>, k: nat)
    requires IsFirstMaxSell(qs, k)
    ensures FirstMaxSell(qs) == k
  {
    var m := FirstMaxSell(qs);
    var atK, atM := qs[k].sell, qs[m].sell;
    assert k < m ==> atK < atM;
    assert m < k ==> atM < atK;
  }

  /**
    The buy side of an emitted opportunity is the first quote of the currency
    with the lowest buy rate (`b`), and the sell side the first with the
    highest sell rate (`s`).
   */
  lemma CurrencyOpportunityPicks(data: seq<Quote>, currency: string, b: nat, s: nat)
    requires BuyRatesPositive(data)
    requires CurrencyOpportunity(data, currency).Some?
    requires IsFirstMinBuy(QuotesFor(data, currency), b)
    requires IsFirstMaxSell(QuotesFor(data, currency), s)
    ensures var qs, o := QuotesFor(data, currency), CurrencyOpportunity(data, currency).value;
      && qs[b].name == o.buyOffice && qs[b].address == o.buyAddress && qs[b].buy == o.buyPrice
      && qs[s].name == o.sellOffice && qs[s].address == o.sellAddress && qs[s].sell == o.sellPrice
  {
    FirstMinBuyUnique(QuotesFor(data, currency), b);
    FirstMaxSellUnique(QuotesFor(data, currency), s);
  }

  /** What each currency of `currencies` yields, in order. */
  function CurrencyOutcomes(data: seq<Quote>, currencies: seq<string>): (os: seq<Option<Opportunity>>)
    requires BuyRatesPositive(data)
    ensures |os| == |currencies|
  {
    if currencies == [] then []
    else
      CurrencyOutcomes(data, currencies[..|currencies| - 1])
      + [CurrencyOpportunity(data, currencies[|currencies| - 1])]
  }

  lemma {:induction false} CurrencyOutcomesAt(data: seq<Quote>, currencies: seq<string>, i: nat)
    requires BuyRatesPositive(data)
    requires i < |currencies|
    ensures CurrencyOutcomes(data, currencies)[i] == CurrencyOpportunity(data, currencies[i])
  {
    if i < |currencies| - 1 {
      CurrencyOutcomesAt(data, currencies[..|currencies| - 1], i);
    }
  }

  /** The opportunities found for `currencies`, in their order. */
  function Opportunities(data: seq<Quote>, currencies: seq<string>): seq<Opportunity>
    requires BuyRatesPositive(data)
  {
    Somes(CurrencyOutcomes(data, currencies))
  }

  /** One more currency adds its own opportunity, if any, at the end. */
  lemma OpportunitiesStep(data: seq<Quote>, currencies: seq<string>, i: nat)
    requires BuyRatesPositive(data)
    requires i < |currencies|
    ensures Opportunities(data, currencies[..i + 1])
         == Opportunities(data, currencies[..i]) + OptionToSeq(CurrencyOpportunity(data, currencies[i]))
  {
    assert currencies[..i + 1][..i] == currencies[..i];
  }

  /** The loop over `CURRENCIES` of `get_profitable_opportunities`, given the collected quotes. */
  method FindOpportunities(allData: seq<Quote>) returns (opportunities: seq<Opportunity>)
    requires BuyRatesPositive(allData)
    ensures opportunities == Opportunities(allData, CURRENCIES)
  {
    opportunities := [];
    for i := 0 to |CURRENCIES|
      invariant opportunities == Opportunities(allData, CURRENCIES[..i])
    {
      var currency := CURRENCIES[i];
      OpportunitiesStep(allData, CURRENCIES, i);
      var filteredData := QuotesFor(allData, currency);
      if filteredData == [] {
        continue;
      }
      var bestBuy := filteredData[FirstMinBuy(filteredData)];
      var bestSell := filteredData[FirstMaxSell(filteredData)];
      if bestBuy.name != bestSell.name && bestSell.sell > bestBuy.buy {
        assert bestBuy in allData;
        var profit := ProfitPercent(bestBuy.buy, bestSell.sell);
        opportunities := opportunities + [Opportunity(currency, bestBuy.name, bestBuy.address, bestBuy.buy,
                                                      bestSell.name, bestSell.address, bestSell.sell, profit)];
      }
    }
    assert CURRENCIES[..|CURRENCIES|] == CURRENCIES;
  }

  /** `get_profitable_opportunities()`: collect every currency's quotes, then look for opportunities. */
  method GetProfitableOpportunities(fetch: string -> Response) returns (opportunities: seq<Opportunity>)
    ensures BuyRatesPositive(AllRates(fetch, CURRENCIES))
    ensures opportunities == Opportunities(AllRates(fetch, CURRENCIES), CURRENCIES)
  {
    var allData := GetAllRates(fetch);
    AllRatesValid(fetch, CURRENCIES);
    opportunities := FindOpportunities(allData);
  }

  /**
    The output follows the order of `currencies`: `idx` lists, increasing, the
    positions of the currencies that yield an opportunity, and the `k`-th
    opportunity is for currency `currencies[idx[k]]`.
   */
  lemma OpportunitiesInCurrencyOrder(data: seq<Quote>, currencies: seq<string>)
    requires BuyRatesPositive(data)
    ensures exists idx :: && Selects(CurrencyOutcomes(data, currencies), Opportunities(data, currencies), idx)
                          && forall k :: 0 <= k < |idx| ==> Opportunities(data, currencies)[k].currency == currencies[idx[k]]
  {
    var os, opps := CurrencyOutcomes(data, currencies), Opportunities(data, currencies);
    SomesSelects(os);
    var idx :| Selects(os, Somes(os), idx);
    forall k | 0 <= k < |idx| ensures opps[k].currency == currencies[idx[k]] {
      CurrencyOutcomesAt(data, currencies, idx[k]);
    }
    assert Selects(os, opps, idx);
  }

  /** With each currency listed once, no currency gets two opportunities. */
  lemma OpportunitiesOnePerCurrency(data: seq<Quote>, currencies: seq<string>)
    requires BuyRatesPositive(data)
    requires Distinct(currencies)
    ensures |Opportunities(data, currencies)| <= |currencies|
    ensures var opps := Opportunities(data, currencies);
      forall k, l :: 0 <= k < l < |opps| ==> opps[k].currency != opps[l].currency
  {
    SomesLength(CurrencyOutcomes(data, currencies));
    OpportunitiesInCurrencyOrder(data, currencies);
  }

  /** No quotes, no opportunities. */
  lemma OpportunitiesOfNoQuotes(currencies: seq<string>)
    ensures Opportunities([], currencies) == []
  {
    var os := CurrencyOutcomes([], currencies);
    SomesSelects(os);
    var idx :| Selects(os, Somes(os), idx);
    if idx != [] {
      CurrencyOutcomesAt([], currencies, idx[0]);
    }
  }

  /**
    Two offices quoting one currency, A (buy 4.0, sell 4.2) and B (buy 3.9,
    sell 4.1): buy at B for 3.9, sell at A for 4.2, a profit of 100/13 (about
    7.69) per cent.
   */
  lemma TwoOfficesExample()
    ensures CurrencyOpportunity(
              [Quote("A", "a", "USD", 4.2, 4.0), Quote("B", "b", "USD", 4.1, 3.9)], "USD")
         == Some(Opportunity("USD", "B", "b", 3.9, "A", "a", 4.2, 100.0 / 13.0))
  {
    var a, b := Quote("A", "a", "USD", 4.2, 4.0), Quote("B", "b", "USD", 4.1, 3.9);
    var data := [a, b];
    assert QuotesFor(data, "USD") == data by {
      QuotesForSame(data, "USD");
    }
    assert FirstMinBuy(data) == 1;
    assert FirstMaxSell(data) == 0;
  }
}
