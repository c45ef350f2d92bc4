/**
  `fetch_kantor_live` of tg.py: the HTTP status handling and the loop over the
  office rows of one currency's page. The HTML lookups are abstracted into a
  `Row` record; the network call is a parameter.
 */
module QuoteParser {
  import opened Wrappers
  import opened RateCleaner
  import opened Quotes
  import opened Selection

  /** Python's `str.isspace()` for one character. */
  predicate IsSpace(c: char) {
    || c == ' '
    || '\t' <= c <= '\r'
    || '\U{1C}' <= c <= '\U{1F}'
    || c == '\U{85}' || c == '\U{A0}' || c == '\U{1680}'
    || '\U{2000}' <= c <= '\U{200A}'
    || c == '\U{2028}' || c == '\U{2029}' || c == '\U{202F}' || c == '\U{205F}' || c == '\U{3000}'
  }

  /** First index at or after `i` that is not whitespace, or `|s|`. */
  function SkipSpaces(s: string, i: nat): (k: nat)
    requires i <= |s|
    ensures i <= k <= |s|
    ensures forall j :: i <= j < k ==> IsSpace(s[j])
    ensures k < |s| ==> !IsSpace(s[k])
    decreases |s| - i
  {
    if i < |s| && IsSpace(s[i]) then SkipSpaces(s, i + 1) else i
  }

  /** Last index `k` down to `lo` such that `s[k..j]` is all whitespace. */
  function SkipSpacesBack(s: string, lo: nat, j: nat): (k: nat)
    requires lo <= j <= |s|
    ensures lo <= k <= j
    ensures forall i :: k <= i < j ==> IsSpace(s[i])
    ensures k > lo ==> !IsSpace(s[k - 1])
    decreases j
  {
    if j > lo && IsSpace(s[j - 1]) then SkipSpacesBack(s, lo, j - 1) else j
  }

  /** `s.strip()`: the slice left once whitespace is removed from both ends. */
  function Strip(s: string): string
  {
    var i := SkipSpaces(s, 0);
    s[i..SkipSpacesBack(s, i, |s|)]
  }

  /** `Strip` removes whitespace, and only whitespace, from both ends and nowhere else. */
  lemma StripTrims(s: string)
    ensures var r := Strip(s);
      && (|r| > 0 ==> !IsSpace(r[0]) && !IsSpace(r[|r| - 1]))
      && exists i, j :: && 0 <= i <= j <= |s| && r == s[i..j]
                        && (forall k :: 0 <= k < i ==> IsSpace(s[k]))
                        && (forall k :: j <= k < |s| ==> IsSpace(s[k]))
  {
    var i := SkipSpaces(s, 0);
    var j := SkipSpacesBack(s, i, |s|);
    assert Strip(s) == s[i..j];
  }

  /** `s.split("\n")[0]`: the text before the first line break, or all of it. */
  function FirstLine(s: string): (r: string)
    ensures r <= s
    ensures '\n' !in r
    ensures |r| < |s| ==> s[|r|] == '\n'
  {
    if s == [] || s[0] == '\n' then [] else [s[0]] + FirstLine(s[1..])
  }

  /**
    One office row of the listing, as the row loop sees it: the text of the
    office-name link and of the address cell (`None` when `find` finds no such
    element) and the texts of the rate cells, in document order.
   */
  datatype Row = Row(name: Option<string>, address: Option<string>, rates: seq<string>)

  /** Python truthiness of a cleaned rate: `None` and `0.0` are false. */
  predicate Truthy(r: Option<real>) {
    r.Some? && r.value != 0.0
  }

  predicate Positive(r: Option<real>) {
    r.Some? && r.value > 0.0
  }

  /**
    What one pass of the loop body makes of one row: a quote, or nothing when
    an element is missing (the `except: continue`), when there are fewer than
    two rate cells, or when either rate is not truthy.
   */
  function RowToQuote(row: Row, currency: string): (r: Option<Quote>)
    ensures r.Some? <==> && row.name.Some? && row.address.Some? && |row.rates| >= 2
                         && Positive(CleanRate(Strip(row.rates[0])))
                         && Positive(CleanRate(Strip(row.rates[1])))
    ensures r.Some? ==> && IsValid(r.value) && r.value.currency == currency
                        && r.value.name == Strip(row.name.value)
                        && r.value.address == FirstLine(Strip(row.address.value))
                        && CleanRate(Strip(row.rates[0])) == Some(r.value.sell)
                        && CleanRate(Strip(row.rates[1])) == Some(r.value.buy)
  {
    if row.name.None? || row.address.None? || |row.rates| < 2 then None
    else
      var sellRate := CleanRate(Strip(row.rates[0]));
      var buyRate := CleanRate(Strip(row.rates[1]));
      if Truthy(sellRate) && Truthy(buyRate) then
        Some(Quote(Strip(row.name.value), FirstLine(Strip(row.address.value)), currency, sellRate.value, buyRate.value))
      else None
  }

  /** What each row of `rows` yields, position by position. */
  function RowOutcomes(rows: seq<Row>, currency: string): (os: seq<Option<Quote>>)
    ensures |os| == |rows|
  {
    if rows == [] then [] else RowOutcomes(rows[..|rows| - 1], currency) + [RowToQuote(rows[|rows| - 1], currency)]
  }

  lemma {:induction false} RowOutcomesAt(rows: seq<Row>, currency: string, i: nat)
    requires i < |rows|
    ensures RowOutcomes(rows, currency)[i] == RowToQuote(rows[i], currency)
  {
    if i < |rows| - 1 {
      RowOutcomesAt(rows[..|rows| - 1], currency, i);
    }
  }

  lemma {:induction false} RowOutcomesAppend(a: seq<Row>, b: seq<Row>, currency: string)
    ensures RowOutcomes(a + b, currency) == RowOutcomes(a, currency) + RowOutcomes(b, currency)
  {
    if b == [] {
      assert a + b == a;
    } else {
      var b' := b[..|b| - 1];
      assert (a + b)[..|a + b| - 1] == a + b';
      RowOutcomesAppend(a, b', currency);
    }
  }

  /** The quotes of `rows`, in document order, one for each row that yields one. */
  function ParsedRows(rows: seq<Row>, currency: string): seq<Quote>
  {
    Somes(RowOutcomes(rows, currency))
  }

  /** The loop of `fetch_kantor_live` over the rows of one page. */
  method ParseRows(rows: seq<Row>, currency: string) returns (data: seq<Quote>)
    ensures data == ParsedRows(rows, currency)
  {
    data := [];
    for i := 0 to |rows|
      invariant data == ParsedRows(rows[..i], currency)
    {
      var kantor := rows[i];
      assert ParsedRows(rows[..i + 1], currency) == data + OptionToSeq(RowToQuote(kantor, currency)) by {
        assert rows[..i + 1][..i] == rows[..i];
        var after := RowOutcomes(rows[..i + 1], currency);
        assert after == RowOutcomes(rows[..i], currency) + [RowToQuote(kantor, currency)];
        assert after[..i] == RowOutcomes(rows[..i], currency);
      }
      if kantor.name.None? || kantor.address.None? {
        // `find` returned None and `.text` raised: the row is skipped
        assert RowToQuote(kantor, currency) == None;
        continue;
      }
      var name := Strip(kantor.name.value);
      var address := FirstLine(Strip(kantor.address.value));
      if |kantor.rates| >= 2 {
        var sellRate := CleanRate(Strip(kantor.rates[0]));
        var buyRate := CleanRate(Strip(kantor.rates[1]));
        if Truthy(sellRate) && Truthy(buyRate) {
          assert RowToQuote(kantor, currency) == Some(Quote(name, address, currency, sellRate.value, buyRate.value));
          data := data + [Quote(name, address, currency, sellRate.value, buyRate.value)];
        } else {
          assert RowToQuote(kantor, currency) == None;
        }
      } else {
        assert RowToQuote(kantor, currency) == None;
      }
    }
    assert rows[..|rows|] == rows;
  }

  /** A row that yields nothing does not stop the rows after it: parsing distributes over concatenation. */
  lemma ParsedRowsAppend(a: seq<Row>, b: seq<Row>, currency: string)
    ensures ParsedRows(a + b, currency) == ParsedRows(a, currency) + ParsedRows(b, currency)
  {
    RowOutcomesAppend(a, b, currency);
    SomesAppend(RowOutcomes(a, currency), RowOutcomes(b, currency));
  }

  /**
    The output keeps document order and holds exactly the quotes of the rows
    that parse: `idx` lists those rows in increasing order and the `k`-th quote
    is the one row `idx[k]` yields.
   */
  lemma ParsedRowsInDocumentOrder(rows: seq<Row>, currency: string)
    ensures exists idx :: Selects(RowOutcomes(rows, currency), ParsedRows(rows, currency), idx)
  {
    var os := RowOutcomes(rows, currency);
    SomesSelects(os);
    var idx :| Selects(os, Somes(os), idx);
    assert Selects(os, ParsedRows(rows, currency), idx);
  }

  /** Every parsed quote is valid and carries the requested currency; there is at most one per row. */
  lemma ParsedRowsValid(rows: seq<Row>, currency: string)
    ensures |ParsedRows(rows, currency)| <= |rows|
    ensures forall q :: q in ParsedRows(rows, currency) ==> IsValid(q) && q.currency == currency
  {
    var os := RowOutcomes(rows, currency);
    SomesLength(os);
    SomesSelects(os);
    var idx :| Selects(os, ParsedRows(rows, currency), idx);
    forall q | q in ParsedRows(rows, currency) ensures IsValid(q) && q.currency == currency {
      var k :| 0 <= k < |idx| && ParsedRows(rows, currency)[k] == q;
      RowOutcomesAt(rows, currency, idx[k]);
    }
  }

  /** Outcome of `requests.get(url, ...)`: a transport error, or a status code with the office rows of the body. */
  datatype Response = RequestError | Received(status: int, rows: seq<Row>)

  /** `EXCHANGE_SOURCES["kantor_live"]` without its `{}` placeholder. */
  const KANTOR_LIVE := "https://kantor.live/kantory/lublin/"

  /** `EXCHANGE_SOURCES["kantor_live"].format(currency)` */
  function Url(currency: string): (url: string)
    ensures |url| >= |KANTOR_LIVE|
    ensures url[..|KANTOR_LIVE|] == KANTOR_LIVE && url[|KANTOR_LIVE|..] == currency
  {
    KANTOR_LIVE + currency
  }

  /** Different currencies are fetched from different pages. */
  lemma UrlInjective(c: string, d: string)
    requires c != d
    ensures Url(c) != Url(d)
  {
    assert Url(c)[|KANTOR_LIVE|..] == c;
  }

  /** The quotes one page yields: none unless the request succeeded with status 200. */
  function PageQuotes(response: Response, currency: string): seq<Quote>
  {
    if response.Received? && response.status == 200 then ParsedRows(response.rows, currency) else []
  }

  /** `fetch_kantor_live(currency)`, with `fetch` standing for the network. */
  method FetchKantorLive(fetch: string -> Response, currency: string) returns (data: seq<Quote>)
    ensures data == PageQuotes(fetch(Url(currency)), currency)
    ensures forall q :: q in data ==> IsValid(q) && q.currency == currency
  {
    var response := fetch(Url(currency));
    if response.RequestError? || response.status != 200 {
      return [];
    }
    data := ParseRows(response.rows, currency);
    ParsedRowsValid(response.rows, currency);
  }
}
