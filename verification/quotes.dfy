/** The derived-metric arithmetic of the dashboard endpoint (app/api/dashboard/route.ts):
    current price and 52-week range from a daily bar series, percentage deviation, and
    the P/E and EV/EBITDA fallbacks. */
module Quotes {
  import opened Wrappers

  /** A JavaScript number as the dashboard sees it after `Number(...)` and
      `Number.isFinite`: `None` stands for null, NaN and both infinities. */
  type Num = Option<real>

  /** One daily bar of the time-series provider, fields already passed through `Number`.
      `open`, `volume` and the date are never read and are not modelled. */
  datatype Bar = Bar(high: Num, low: Num, close: Num)

  /** One element of the provider's `values` array. Reading a field of a JSON `null`
      element throws, so such an element is kept apart; any other non-object element
      reads as a bar of non-finite fields. */
  datatype Entry = NullEntry | Point(bar: Bar)

  /** The decoded time-series body: `meta.currency` and the `values` array (`None` when
      `values` is not an array). */
  datatype TimeSeries = TimeSeries(currency: Option<string>, values: Option<seq<Entry>>)

  /** The three fundamentals the dashboard reads from the provider's `metric` object. A
      field that is missing or not a finite number (strings included) is `None`. */
  datatype Metrics = Metrics(peTTM: Num, peBasicExclExtraTTM: Num, evEbitdaTTM: Num)

  /** The finite values of `xs`, in order (`.map(Number).filter(Number.isFinite)`). */
  function Finite(xs: seq<Num>): (r: seq<real>)
    ensures |r| <= |xs|
  {
    if |xs| == 0 then []
    else if xs[0].Some? then [xs[0].value] + Finite(xs[1..])
    else Finite(xs[1..])
  }

  /** The finite values are exactly the present entries; there are none exactly when
      every entry is absent, and the first of them is the first present entry. */
  lemma {:induction false} FiniteSpec(xs: seq<Num>)
    ensures forall v :: v in Finite(xs) <==> Some(v) in xs
    ensures forall i :: 0 <= i < |xs| && xs[i].Some? ==> xs[i].value in Finite(xs)
    ensures |Finite(xs)| == 0 <==> forall i :: 0 <= i < |xs| ==> xs[i].None?
    ensures |Finite(xs)| > 0 ==> exists i :: FirstAt(xs, Finite(xs)[0], i)
  {
    if |xs| > 0 {
      assert xs == [xs[0]] + xs[1..];
      FiniteSpec(xs[1..]);
      var rest := Finite(xs[1..]);
      if xs[0].Some? {
        assert FirstAt(xs, Finite(xs)[0], 0);
      } else if |rest| > 0 {
        var k :| FirstAt(xs[1..], rest[0], k);
        FirstAtShift(xs, rest[0], k);
      }
    }
  }

  /** `xs[i]` is the first finite entry of `xs` and it equals `v`. */
  ghost predicate FirstAt(xs: seq<Num>, v: real, i: int) {
    0 <= i < |xs| && xs[i] == Some(v) && forall j :: 0 <= j < i ==> xs[j].None?
  }

  /** A leading non-finite entry moves the first finite entry one place on. */
  lemma FirstAtShift(xs: seq<Num>, v: real, k: int)
    requires |xs| > 0 && xs[0].None? && FirstAt(xs[1..], v, k)
    ensures FirstAt(xs, v, k + 1)
  {
    assert forall j :: 0 < j < k + 1 ==> xs[j] == xs[1..][j - 1];
  }

  /** The first finite value of `xs`, or null (`finite[0] ?? null`). */
  function FirstFinite(xs: seq<Num>): (r: Num)
    ensures r.None? <==> forall i :: 0 <= i < |xs| ==> xs[i].None?
    ensures r.Some? ==> exists i :: FirstAt(xs, r.value, i)
  {
    FiniteSpec(xs);
    var f := Finite(xs);
    if |f| > 0 then Some(f[0]) else None
  }

  /** `Math.max` over a non-empty list. */
  function Max(s: seq<real>): (r: real)
    requires |s| > 0
    ensures r in s
    ensures forall x :: x in s ==> x <= r
  {
    if |s| == 1 then s[0]
    else
      assert s == [s[0]] + s[1..];
      var m := Max(s[1..]);
      if s[0] >= m then s[0] else m
  }

  /** `Math.min` over a non-empty list. */
  function Min(s: seq<real>): (r: real)
    requires |s| > 0
    ensures r in s
    ensures forall x :: x in s ==> r <= x
  {
    if |s| == 1 then s[0]
    else
      assert s == [s[0]] + s[1..];
      var m := Min(s[1..]);
      if s[0] <= m then s[0] else m
  }

  /** The largest finite value of `xs`, or null when there is none. */
  function Highest(xs: seq<Num>): (r: Num)
    ensures r.None? <==> forall i :: 0 <= i < |xs| ==> xs[i].None?
    ensures r.Some? ==> r in xs
    ensures r.Some? ==> forall i :: 0 <= i < |xs| && xs[i].Some? ==> xs[i].value <= r.value
  {
    FiniteSpec(xs);
    var f := Finite(xs);
    if |f| > 0 then
      assert forall i :: 0 <= i < |xs| && xs[i].Some? ==> xs[i].value in f;
      Some(Max(f))
    else None
  }

  /** The smallest finite value of `xs`, or null when there is none. */
  function Lowest(xs: seq<Num>): (r: Num)
    ensures r.None? <==> forall i :: 0 <= i < |xs| ==> xs[i].None?
    ensures r.Some? ==> r in xs
    ensures r.Some? ==> forall i :: 0 <= i < |xs| && xs[i].Some? ==> r.value <= xs[i].value
  {
    FiniteSpec(xs);
    var f := Finite(xs);
    if |f| > 0 then
      assert forall i :: 0 <= i < |xs| && xs[i].Some? ==> xs[i].value in f;
      Some(Min(f))
    else None
  }

  function Closes(bars: seq<Bar>): (r: seq<Num>)
    ensures |r| == |bars| && forall i :: 0 <= i < |bars| ==> r[i] == bars[i].close
  {
    seq(|bars|, i requires 0 <= i < |bars| => bars[i].close)
  }

  function Highs(bars: seq<Bar>): (r: seq<Num>)
    ensures |r| == |bars| && forall i :: 0 <= i < |bars| ==> r[i] == bars[i].high
  {
    seq(|bars|, i requires 0 <= i < |bars| => bars[i].high)
  }

  function Lows(bars: seq<Bar>): (r: seq<Num>)
    ensures |r| == |bars| && forall i :: 0 <= i < |bars| ==> r[i] == bars[i].low
  {
    seq(|bars|, i requires 0 <= i < |bars| => bars[i].low)
  }

  /** The current price: the first finite close (the provider lists the most recent bar
      first), or null. */
  function LatestClose(bars: seq<Bar>): (r: Num)
    ensures r.None? <==> forall i :: 0 <= i < |bars| ==> bars[i].close.None?
    ensures r.Some? ==> exists i :: FirstAt(Closes(bars), r.value, i)
  {
    FirstFinite(Closes(bars))
  }

  /** The 52-week high: the largest finite high, attained by some bar, or null. */
  function HighOf(bars: seq<Bar>): (r: Num)
    ensures r.None? <==> forall i :: 0 <= i < |bars| ==> bars[i].high.None?
    ensures r.Some? ==> exists i :: 0 <= i < |bars| && bars[i].high == r
    ensures r.Some? ==> forall i :: 0 <= i < |bars| && bars[i].high.Some? ==> bars[i].high.value <= r.value
  {
    var h := Highs(bars);
    var r := Highest(h);
    assert r.Some? ==> exists i :: 0 <= i < |h| && h[i] == r;
    r
  }

  /** The 52-week low: the smallest finite low, attained by some bar, or null. */
  function LowOf(bars: seq<Bar>): (r: Num)
    ensures r.None? <==> forall i :: 0 <= i < |bars| ==> bars[i].low.None?
    ensures r.Some? ==> exists i :: 0 <= i < |bars| && bars[i].low == r
    ensures r.Some? ==> forall i :: 0 <= i < |bars| && bars[i].low.Some? ==> r.value <= bars[i].low.value
  {
    var l := Lows(bars);
    var r := Lowest(l);
    assert r.Some? ==> exists i :: 0 <= i < |l| && l[i] == r;
    r
  }

  /** Current price and 52-week range of a bar series. */
  datatype PriceRange = PriceRange(price: Num, low52: Num, high52: Num)

  function RangeOf(bars: seq<Bar>): PriceRange {
    PriceRange(LatestClose(bars), LowOf(bars), HighOf(bars))
  }

  /** A bar is consistent when a finite close lies between a finite low and high. */
  predicate Consistent(b: Bar) {
    b.close.Some? ==> b.low.Some? && b.high.Some? && b.low.value <= b.close.value <= b.high.value
  }

  /** When every bar is consistent, the derived price lies inside the derived range. */
  lemma PriceWithinRange(bars: seq<Bar>)
    requires forall i :: 0 <= i < |bars| ==> Consistent(bars[i])
    ensures var r := RangeOf(bars);
      r.price.Some? ==> (r.low52.Some? && r.high52.Some? && r.low52.value <= r.price.value <= r.high52.value)
  {
    var r := RangeOf(bars);
    if r.price.Some? {
      var i :| FirstAt(Closes(bars), r.price.value, i);
      assert Consistent(bars[i]);
    }
  }

  /** The fields the quote block of the dashboard loop leaves behind. */
  datatype QuoteFields = QuoteFields(price: Num, low52: Num, high52: Num, currency: Option<string>)

  const NoQuote := QuoteFields(None, None, None, None)

  /** Holds when no element of `values` is a JSON null. */
  predicate Readable(values: seq<Entry>) {
    forall i :: 0 <= i < |values| ==> values[i].Point?
  }

  function BarsOf(values: seq<Entry>): (r: seq<Bar>)
    requires Readable(values)
    ensures |r| == |values| && forall i :: 0 <= i < |values| ==> r[i] == values[i].bar
  {
    seq(|values|, i requires 0 <= i < |values| => values[i].bar)
  }

  /** The quote block: a failed fetch leaves every field null; otherwise the currency is
      taken first, and the price and range follow only when the bars can all be read.
      A null element in `values` throws after the currency has been assigned, so the
      currency survives while the numbers stay null. */
  function ReadQuote(f: Fetched<TimeSeries>): (q: QuoteFields)
    ensures f.Err? ==> q == NoQuote
    ensures f.Ok? ==> q.currency == f.payload.currency
    ensures f.Ok? && !Readable(f.payload.values.GetOr([])) ==>
      q.price.None? && q.low52.None? && q.high52.None?
    ensures f.Ok? && Readable(f.payload.values.GetOr([])) ==>
      PriceRange(q.price, q.low52, q.high52) == RangeOf(BarsOf(f.payload.values.GetOr([])))
  {
    match f
    case Err => NoQuote
    case Ok(ts) =>
      var values := ts.values.GetOr([]);
      if |values| > 0 && Readable(values) then
        var r := RangeOf(BarsOf(values));
        QuoteFields(r.price, r.low52, r.high52, ts.currency)
      else
        QuoteFields(None, None, None, ts.currency)
  }

  /** `((current - ref) / ref) * 100`, for a non-zero reference. */
  function PctDiff(current: real, ref: real): (r: real)
    requires ref != 0.0
    ensures ref * (1.0 + r / 100.0) == current
    ensures ref > 0.0 ==> (r > 0.0 <==> current > ref) && (r == 0.0 <==> current == ref)
    ensures ref < 0.0 ==> (r > 0.0 <==> current < ref) && (r == 0.0 <==> current == ref)
  {
    ((current - ref) / ref) * 100.0
  }

  /** The deviation of `price` from a reference, present only when both are present and
      the reference is non-zero. The source divides unguarded; a zero reference gives
      NaN or an infinity, which this model (and the JSON response) renders as null. */
  function DiffPct(price: Num, ref: Num): (r: Num)
    ensures r.Some? <==> price.Some? && ref.Some? && ref.value != 0.0
    ensures r.Some? ==> ref.value * (1.0 + r.value / 100.0) == price.value
  {
    if price.Some? && ref.Some? && ref.value != 0.0 then Some(PctDiff(price.value, ref.value))
    else None
  }

  /** P/E and EV/EBITDA of one asset. */
  datatype Valuation = Valuation(pe: Num, evEbitda: Num)

  /** The `metric` object of a fetched body, or the empty object on failure or absence. */
  function MetricsOf(f: Fetched<Option<Metrics>>): Metrics {
    if f.Ok? && f.payload.Some? then f.payload.value else Metrics(None, None, None)
  }

  /** The valuation block: P/E prefers the trailing-twelve-month figure and falls back
      to the variant excluding extraordinary items; EV/EBITDA has no fallback. */
  function ReadValuation(f: Fetched<Option<Metrics>>): (v: Valuation)
    ensures f.Err? ==> v == Valuation(None, None)
    ensures v.pe == FirstFinite([MetricsOf(f).peTTM, MetricsOf(f).peBasicExclExtraTTM])
    ensures v.evEbitda == FirstFinite([MetricsOf(f).evEbitdaTTM])
  {
    var m := MetricsOf(f);
    FiniteSpec([m.peTTM, m.peBasicExclExtraTTM]);
    FiniteSpec([m.evEbitdaTTM]);
    Valuation(
      if m.peTTM.Some? then m.peTTM else if m.peBasicExclExtraTTM.Some? then m.peBasicExclExtraTTM else None,
      if m.evEbitdaTTM.Some? then m.evEbitdaTTM else None)
  }
}
