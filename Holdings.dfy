/**
 * The in-memory portfolio list of main.py (`app.portfolio_data`) and the
 * form handler `PortfolioPage.add_ticker` that appends to it. This path
 * keeps one entry per ticker and never averages: a repeated ticker is ignored.
 */
module Holdings {
  import opened Results
  import opened Text

  /** One entry of the list: `{"ticker": ..., "quantity": ...}`. */
  datatype Holding = Holding(ticker: string, quantity: nat)

  ghost predicate UniqueTickers(items: seq<Holding>) {
    forall i, j :: 0 <= i < j < |items| ==> items[i].ticker != items[j].ticker
  }

  predicate HasTicker(items: seq<Holding>, ticker: string) {
    exists i :: 0 <= i < |items| && items[i].ticker == ticker
  }

  /** The ticker field as `add_ticker` reads it: stripped, then upper-cased. */
  function NormalTicker(entry: string): (t: string)
    ensures |t| <= |entry|
    ensures forall i :: 0 <= i < |t| ==> !IsLower(t[i])
  {
    Upper(Strip(entry))
  }

  /**
   * The entry the form describes, or None when the form is rejected: the
   * ticker must be non-empty once normalised and the stripped quantity must
   * consist of digits only; a quantity longer than `int()` converts makes it
   * raise, and nothing is stored.
   */
  function ParseForm(tickerEntry: string, quantityEntry: string): (h: Option<Holding>)
    ensures h.Some? ==> h.value.ticker != [] && h.value.ticker == NormalTicker(tickerEntry)
    ensures h.None? <==>
      (NormalTicker(tickerEntry) == [] || !IsDigits(Strip(quantityEntry)) || |Strip(quantityEntry)| > IntMaxStrDigits)
  {
    var ticker := NormalTicker(tickerEntry);
    var quantity := Strip(quantityEntry);
    if ticker != [] && IsDigits(quantity) && |quantity| <= IntMaxStrDigits then Some(Holding(ticker, ParseDigits(quantity)))
    else None
  }

  /**
   * The list after `add_ticker`: the form's entry is appended when the form
   * is accepted and no entry has its ticker yet; otherwise the list is unchanged.
   */
  function Added(items: seq<Holding>, tickerEntry: string, quantityEntry: string): (r: seq<Holding>)
    ensures items <= r && |r| <= |items| + 1
    ensures |r| == |items| + 1 <==>
      ParseForm(tickerEntry, quantityEntry).Some? && !HasTicker(items, ParseForm(tickerEntry, quantityEntry).value.ticker)
  {
    match ParseForm(tickerEntry, quantityEntry)
    case None => items
    case Some(h) => if HasTicker(items, h.ticker) then items else items + [h]
  }

  /**
   * `add_ticker` never changes or drops an existing entry, adds at most one
   * entry, and keeps tickers unique.
   */
  lemma AddedKeepsEntries(items: seq<Holding>, tickerEntry: string, quantityEntry: string)
    ensures var r := Added(items, tickerEntry, quantityEntry);
      && |items| <= |r| <= |items| + 1
      && r[..|items|] == items
      && (UniqueTickers(items) ==> UniqueTickers(r))
  {
  }

  /** An accepted form for a ticker not yet listed appends exactly its normalised ticker and its quantity. */
  lemma AddedAppendsNew(items: seq<Holding>, tickerEntry: string, quantityEntry: string)
    requires NormalTicker(tickerEntry) != [] && IsDigits(Strip(quantityEntry))
    requires |Strip(quantityEntry)| <= IntMaxStrDigits
    requires !HasTicker(items, NormalTicker(tickerEntry))
    ensures Added(items, tickerEntry, quantityEntry)
         == items + [Holding(NormalTicker(tickerEntry), ParseDigits(Strip(quantityEntry)))]
  {
  }

  /** A ticker already listed, in any case and with any surrounding whitespace, is ignored: no averaging, no quantity change. */
  lemma AddedIgnoresListed(items: seq<Holding>, tickerEntry: string, quantityEntry: string)
    requires HasTicker(items, NormalTicker(tickerEntry))
    ensures Added(items, tickerEntry, quantityEntry) == items
  {
  }

  /** Submitting the same form twice is the same as submitting it once. */
  lemma AddedIdempotent(items: seq<Holding>, tickerEntry: string, quantityEntry: string)
    ensures var once := Added(items, tickerEntry, quantityEntry);
      Added(once, tickerEntry, quantityEntry) == once
  {
    var once := Added(items, tickerEntry, quantityEntry);
    match ParseForm(tickerEntry, quantityEntry)
    case None =>
    case Some(h) =>
      assert once[|once| - 1].ticker == h.ticker || HasTicker(items, h.ticker);
      assert HasTicker(once, h.ticker);
  }

  /** Every ticker the form stores is stripped and upper case. */
  lemma StoredTickerIsNormal(tickerEntry: string, quantityEntry: string)
    requires ParseForm(tickerEntry, quantityEntry).Some?
    ensures var t := ParseForm(tickerEntry, quantityEntry).value.ticker;
      && NormalTicker(t) == t
      && !IsSpace(t[0]) && !IsSpace(t[|t| - 1])
      && forall i :: 0 <= i < |t| ==> !IsLower(t[i])
  {
    var s := Strip(tickerEntry);
    var t := Upper(s);
    StripTrims(tickerEntry);
    UpperIdempotent(s);
    UpperKeepsSpace(s[0]);
    UpperKeepsSpace(s[|s| - 1]);
    StripIdempotent(s);
    UpperCommutesWithStrip(s);
    assert Strip(t) == t;
  }

  /** The shared list `app.portfolio_data`. */
  class Portfolio {
    var items: seq<Holding>

    ghost predicate Valid()
      reads this
    {
      UniqueTickers(items)
    }

    /** The application starts with an empty list. */
    constructor ()
      ensures Valid() && items == []
    {
      items := [];
    }

    /** `any(item["ticker"] == ticker for item in items)`: scans the list until the ticker turns up. */
    method Lists(ticker: string) returns (found: bool)
      ensures found <==> HasTicker(items, ticker)
    {
      found := false;
      var i := 0;
      while i < |items| && !found
        invariant 0 <= i <= |items|
        invariant found <==> exists j :: 0 <= j < i && items[j].ticker == ticker
      {
        found := items[i].ticker == ticker;
        i := i + 1;
      }
    }

    /** `add_ticker`: normalise the form, look for the ticker, append when it is new. */
    method AddTicker(tickerEntry: string, quantityEntry: string)
      requires Valid()
      modifies this
      ensures Valid()
      ensures items == Added(old(items), tickerEntry, quantityEntry)
    {
      var ticker := Upper(Strip(tickerEntry));
      var quantity := Strip(quantityEntry);
      ghost var form := ParseForm(tickerEntry, quantityEntry);
      assert form == if ticker != [] && IsDigits(quantity) && |quantity| <= IntMaxStrDigits
        then Some(Holding(ticker, ParseDigits(quantity))) else None;
      if ticker != [] && IsDigits(quantity) {
        if |quantity| > IntMaxStrDigits {
          // `int(quantity)` raises `ValueError`: the handler ends before the append.
          return;
        }
        var n := ParseDigits(quantity);
        var found := Lists(ticker);
        if !found {
          items := items + [Holding(ticker, n)];
        }
      }
    }
  }
}
