/** One dashboard row per asset: the body of the per-asset loop of the dashboard
    endpoint (app/api/dashboard/route.ts). */
module Rows {
  import opened Wrappers
  import opened Quotes
  import opened Registry

  /** What the endpoint reports for one asset. */
  datatype Row = Row(
    ticker: string,
    name: string,
    exchange: string,
    strategy: string,
    price: Num,
    low52: Num,
    low52DiffPct: Num,
    high52: Num,
    high52DiffPct: Num,
    pe: Num,
    evEbitda: Num,
    currency: Option<string>)

  /** The row literal pushed at the end of one loop iteration: identity copied from the
      asset, and each deviation present exactly when price and its reference are. */
  function AssembleRow(a: Asset, q: QuoteFields, v: Valuation): (r: Row)
    ensures r.ticker == a.ticker && r.name == a.name && r.exchange == a.exchange
    ensures r.strategy == a.strategy
    ensures r.price == q.price && r.low52 == q.low52 && r.high52 == q.high52 && r.currency == q.currency
    ensures r.pe == v.pe && r.evEbitda == v.evEbitda
    ensures r.low52DiffPct.Some? <==> r.price.Some? && r.low52.Some? && r.low52.value != 0.0
    ensures r.high52DiffPct.Some? <==> r.price.Some? && r.high52.Some? && r.high52.value != 0.0
    ensures r.low52DiffPct.Some? ==> r.low52.value * (1.0 + r.low52DiffPct.value / 100.0) == r.price.value
    ensures r.high52DiffPct.Some? ==> r.high52.value * (1.0 + r.high52DiffPct.value / 100.0) == r.price.value
  {
    Row(a.ticker, a.name, a.exchange, a.strategy,
        q.price,
        q.low52, DiffPct(q.price, q.low52),
        q.high52, DiffPct(q.price, q.high52),
        v.pe, v.evEbitda,
        q.currency)
  }

  /** The row of asset `a` given the outcome of its time-series fetch `ts` and of its
      fundamentals fetch `m`. Each fetch only feeds its own fields. */
  function ComputeRow(a: Asset, ts: Fetched<TimeSeries>, m: Fetched<Option<Metrics>>): (r: Row)
    ensures r.ticker == a.ticker && r.name == a.name && r.exchange == a.exchange
    ensures r.strategy == a.strategy
    ensures ts.Err? ==> r.price.None? && r.low52.None? && r.high52.None? && r.currency.None?
    ensures m.Err? ==> r.pe.None? && r.evEbitda.None?
  {
    AssembleRow(a, ReadQuote(ts), ReadValuation(m))
  }

  /** A failed time-series fetch nulls price, range and currency, and leaves the
      valuation exactly as a successful one would have. */
  lemma QuoteFailureIsolated(a: Asset, ts: TimeSeries, m: Fetched<Option<Metrics>>)
    ensures var failed := ComputeRow(a, Err, m);
      && failed.price.None? && failed.low52.None? && failed.high52.None? && failed.currency.None?
      && failed.low52DiffPct.None? && failed.high52DiffPct.None?
      && failed.pe == ComputeRow(a, Ok(ts), m).pe
      && failed.evEbitda == ComputeRow(a, Ok(ts), m).evEbitda
  {
  }

  /** A failed fundamentals fetch nulls P/E and EV/EBITDA, and leaves price, range,
      deviations and currency exactly as a successful one would have. */
  lemma ValuationFailureIsolated(a: Asset, ts: Fetched<TimeSeries>, m: Option<Metrics>)
    ensures var failed := ComputeRow(a, ts, Err);
      var ok := ComputeRow(a, ts, Ok(m));
      && failed.pe.None? && failed.evEbitda.None?
      && failed == ok.(pe := None, evEbitda := None)
  {
  }

  /** With a readable, non-empty series of consistent bars (low <= close <= high),
      a row that has a price has both range ends around it and both deviations present
      with the expected signs, unless a range end is zero. */
  lemma RowPriceWithinRange(a: Asset, ts: TimeSeries, m: Fetched<Option<Metrics>>)
    requires ts.values.Some? && Readable(ts.values.value)
    requires forall i :: 0 <= i < |ts.values.value| ==> Consistent(ts.values.value[i].bar)
    ensures var r := ComputeRow(a, Ok(ts), m);
      r.price.Some? ==> (r.low52.Some? && r.high52.Some? && r.low52.value <= r.price.value <= r.high52.value)
    ensures var r := ComputeRow(a, Ok(ts), m);
      r.price.Some? && r.low52.value > 0.0 ==> r.low52DiffPct.Some? && r.low52DiffPct.value >= 0.0
    ensures var r := ComputeRow(a, Ok(ts), m);
      r.price.Some? && r.high52.value > 0.0 ==> r.high52DiffPct.Some? && r.high52DiffPct.value <= 0.0
  {
    var bars := BarsOf(ts.values.value);
    PriceWithinRange(bars);
    var r := ComputeRow(a, Ok(ts), m);
    if r.price.Some? && r.low52.value > 0.0 {
      assert PctDiff(r.price.value, r.low52.value) >= 0.0;
    }
    if r.price.Some? && r.high52.value > 0.0 {
      assert PctDiff(r.price.value, r.high52.value) <= 0.0;
    }
  }
}
