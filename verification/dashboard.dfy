/** The dashboard endpoint `GET` (app/api/dashboard/route.ts): configuration check,
    the sequential per-asset loop, and grouping of the rows. Provider calls are
    parameters; the endpoint's answer is paired with the list of calls it would make. */
module Dashboard {
  import opened Wrappers
  import opened Config
  import opened Quotes
  import opened Registry
  import opened Rows
  import opened Grouping
  import StringOrder
  import Sorting
  import Seqs

  /** The server environment variables the endpoint reads. */
  datatype Env = Env(twelveDataKey: Option<string>, finnhubKey: Option<string>)

  /** One upstream request: a daily series by provider symbol, or fundamentals by ticker. */
  datatype Call = TimeSeriesCall(symbol: string) | MetricsCall(ticker: string)

  /** The JSON body of the response: the grouped rows (status 200), or a configuration
      error (status 500). The `updatedAt` timestamp reads the clock and is not modelled. */
  datatype Response = Grouped(groups: seq<Group>) | ConfigError(error: string)

  /** What each provider answers for a symbol within this request. The answer depends on
      the symbol only, so two requests for the same symbol get the same answer; the
      shipped registry makes no request twice (`UniverseRequestsDistinct`). A fundamentals
      body without a `metric` object, such as a status-200 error body, is `Ok(None)`. */
  type QuoteProvider = string -> Fetched<TimeSeries>
  type MetricsProvider = string -> Fetched<Option<Metrics>>

  /** The row of one asset, fed by its own two fetches only. */
  function RowOf(a: Asset, quotes: QuoteProvider, metrics: MetricsProvider): Row {
    ComputeRow(a, quotes(a.providerSymbol), metrics(a.ticker))
  }

  /** The rows the loop pushes: one per asset, in registry order. */
  function RowsOf(universe: seq<Asset>, quotes: QuoteProvider, metrics: MetricsProvider): (r: seq<Row>)
    ensures |r| == |universe|
  {
    Seqs.Map(universe, a => RowOf(a, quotes, metrics))
  }

  /** The row at each position is the row of the asset at that position. */
  lemma RowsOfAt(universe: seq<Asset>, quotes: QuoteProvider, metrics: MetricsProvider, i: nat)
    requires i < |universe|
    ensures RowsOf(universe, quotes, metrics)[i] == RowOf(universe[i], quotes, metrics)
  {
    Seqs.MapAt(universe, a => RowOf(a, quotes, metrics), i);
  }

  /** A row carries the identity of the asset it was computed for. */
  lemma RowOfIdentity(a: Asset, quotes: QuoteProvider, metrics: MetricsProvider)
    ensures RowOf(a, quotes, metrics).ticker == a.ticker
    ensures RowOf(a, quotes, metrics).strategy == a.strategy
  {
  }

  /** Every asset yields exactly one row, at its own position, carrying the asset's
      ticker and strategy. */
  lemma RowsFollowRegistry(universe: seq<Asset>, quotes: QuoteProvider, metrics: MetricsProvider)
    ensures var r := RowsOf(universe, quotes, metrics);
      forall i :: 0 <= i < |universe| ==> r[i].ticker == universe[i].ticker && r[i].strategy == universe[i].strategy
  {
    forall i | 0 <= i < |universe|
      ensures RowsOf(universe, quotes, metrics)[i].ticker == universe[i].ticker
      ensures RowsOf(universe, quotes, metrics)[i].strategy == universe[i].strategy
    {
      RowsOfAt(universe, quotes, metrics, i);
      RowOfIdentity(universe[i], quotes, metrics);
    }
  }

  /** The requests the loop issues: for each asset in order, its series, then its
      fundamentals. */
  function Plan(universe: seq<Asset>): (r: seq<Call>)
    ensures |r| == 2 * |universe|
    ensures forall i :: 0 <= i < |universe| ==>
      r[2 * i] == TimeSeriesCall(universe[i].providerSymbol) && r[2 * i + 1] == MetricsCall(universe[i].ticker)
  {
    if |universe| == 0 then []
    else
      var a := universe[|universe| - 1];
      Plan(universe[..|universe| - 1]) + [TimeSeriesCall(a.providerSymbol), MetricsCall(a.ticker)]
  }

  /** The handler. A missing key answers with an error before any request is made;
      otherwise every asset is fetched in turn and the rows are grouped. */
  method Get(env: Env, universe: seq<Asset>, quotes: QuoteProvider, metrics: MetricsProvider)
    returns (response: Response, calls: seq<Call>)
    ensures Missing(env.twelveDataKey) ==>
      response == ConfigError("Missing TWELVE_DATA_API_KEY") && calls == []
    ensures !Missing(env.twelveDataKey) && Missing(env.finnhubKey) ==>
      response == ConfigError("Missing FINNHUB_API_KEY") && calls == []
    ensures !Missing(env.twelveDataKey) && !Missing(env.finnhubKey) ==>
      response == Grouped(GroupByStrategy(RowsOf(universe, quotes, metrics))) && calls == Plan(universe)
  {
    if Missing(env.twelveDataKey) {
      return ConfigError("Missing TWELVE_DATA_API_KEY"), [];
    }
    if Missing(env.finnhubKey) {
      return ConfigError("Missing FINNHUB_API_KEY"), [];
    }
    var rows: seq<Row> := [];
    calls := [];
    var i := 0;
    while i < |universe|
      invariant 0 <= i <= |universe|
      invariant rows == RowsOf(universe[..i], quotes, metrics)
      invariant calls == Plan(universe[..i])
    {
      var a := universe[i];
      var series := quotes(a.providerSymbol);
      calls := calls + [TimeSeriesCall(a.providerSymbol)];
      var fundamentals := metrics(a.ticker);
      calls := calls + [MetricsCall(a.ticker)];
      rows := rows + [ComputeRow(a, series, fundamentals)];
      Seqs.MapSnoc(universe, a => RowOf(a, quotes, metrics), i);
      assert universe[..i + 1][..i] == universe[..i];
      i := i + 1;
    }
    assert universe[..i] == universe;
    response := Grouped(GroupByStrategy(rows));
  }

  /** The registry never makes the same upstream request twice in one `GET`, so a
      provider modelled as a function of the symbol answers each request independently. */
  lemma UniverseRequestsDistinct()
    ensures Sorting.NoDup(Plan(Universe))
  {
    var p := Plan(Universe);
    assert p[2 * 0] == TimeSeriesCall("ADBE") && p[2 * 0 + 1] == MetricsCall("ADBE");
    assert p[2 * 1] == TimeSeriesCall("PYPL") && p[2 * 1 + 1] == MetricsCall("PYPL");
    assert p[2 * 2] == TimeSeriesCall("PANW") && p[2 * 2 + 1] == MetricsCall("PANW");
    assert p[2 * 3] == TimeSeriesCall("GOOGL") && p[2 * 3 + 1] == MetricsCall("GOOGL");
    assert p == [p[0], p[1], p[2], p[3], p[4], p[5], p[6], p[7]];
  }

  /** One asset's row depends only on that asset's own two fetches: whatever the
      providers answer for other symbols leaves it unchanged. */
  lemma RowIsolatedFromOtherAssets(universe: seq<Asset>, i: nat,
                                   q1: QuoteProvider, m1: MetricsProvider,
                                   q2: QuoteProvider, m2: MetricsProvider)
    requires i < |universe|
    requires q1(universe[i].providerSymbol) == q2(universe[i].providerSymbol)
    requires m1(universe[i].ticker) == m2(universe[i].ticker)
    ensures RowsOf(universe, q1, m1)[i] == RowsOf(universe, q2, m2)[i]
  {
    RowsOfAt(universe, q1, m1, i);
    RowsOfAt(universe, q2, m2, i);
  }

  /** Rows carrying the shipped registry's tickers and strategies, in its order. */
  ghost predicate ShapedLikeUniverse(rows: seq<Row>) {
    && |rows| == |Universe|
    && forall i :: 0 <= i < |rows| ==>
      rows[i].ticker == Universe[i].ticker && rows[i].strategy == Universe[i].strategy
  }

  const Cyber := "Cybersecurity & Defense"

  lemma UniverseDistinctStrategies()
    ensures Distinct([AiInfra, "Others", Cyber, AiInfra]) == [AiInfra, "Others", Cyber]
  {
    var ss := [AiInfra, "Others", Cyber, AiInfra];
    assert ss[..3][..2][..1] == [AiInfra];
    assert ss[..3][..2] == [AiInfra, "Others"];
    assert ss[..3] == [AiInfra, "Others", Cyber];
    assert Distinct([AiInfra]) == [AiInfra];
    assert Distinct([AiInfra, "Others"]) == [AiInfra, "Others"];
    assert Distinct([AiInfra, "Others", Cyber]) == [AiInfra, "Others", Cyber];
  }

  lemma MembersOfFour(rows: seq<Row>, k: string)
    requires |rows| == 4
    ensures Members(rows, k) ==
      (if rows[0].strategy == k then [rows[0]] else []) + (if rows[1].strategy == k then [rows[1]] else [])
      + (if rows[2].strategy == k then [rows[2]] else []) + (if rows[3].strategy == k then [rows[3]] else [])
  {
    var p0, p1, p2, p3 := rows[..0], rows[..1], rows[..2], rows[..3];
    MembersStep(p0, rows[0], k);
    MembersStep(p1, rows[1], k);
    MembersStep(p2, rows[2], k);
    MembersStep(p3, rows[3], k);
    assert p0 + [rows[0]] == p1 && p1 + [rows[1]] == p2 && p2 + [rows[2]] == p3 && p3 + [rows[3]] == rows;
  }

  lemma UniverseMembers(rows: seq<Row>)
    requires ShapedLikeUniverse(rows)
    ensures Members(rows, AiInfra) == [rows[0], rows[3]]
    ensures Members(rows, "Others") == [rows[1]]
    ensures Members(rows, Cyber) == [rows[2]]
  {
    assert rows[0].strategy == AiInfra;
    MembersOfFour(rows, AiInfra);
    MembersOfFour(rows, "Others");
    MembersOfFour(rows, Cyber);
  }

  lemma SortSingle(x: Row)
    ensures Sorting.SortBy([x], TickerOf) == [x]
  {
    assert [x][..0] == [];
  }

  lemma AdbeBeforeGoogl(x: Row, y: Row)
    requires x.ticker == "ADBE" && y.ticker == "GOOGL"
    ensures Sorting.SortBy([x, y], TickerOf) == [x, y]
  {
    assert [x, y][..1] == [x];
    assert StringOrder.Le("ADBE", "GOOGL");
  }

  lemma UniverseStrategies(rows: seq<Row>)
    requires ShapedLikeUniverse(rows)
    ensures Strategies(rows) == [AiInfra, "Others", Cyber, AiInfra]
  {
  }

  lemma UniverseAccumulate(rows: seq<Row>)
    requires ShapedLikeUniverse(rows)
    ensures |Accumulate(rows)| == 3
    ensures Accumulate(rows)[0] == Group(AiInfra, [rows[0], rows[3]])
    ensures Accumulate(rows)[1] == Group("Others", [rows[1]])
    ensures Accumulate(rows)[2] == Group(Cyber, [rows[2]])
  {
    UniverseStrategies(rows);
    UniverseDistinctStrategies();
    UniverseMembers(rows);
    AccumulateGroups(rows);
  }

  /** Grouping rows shaped like the shipped registry yields three groups in order of
      first appearance, with ADBE before GOOGL in the AI group. */
  lemma UniverseShapeGroups(rows: seq<Row>)
    requires ShapedLikeUniverse(rows)
    ensures var g := GroupByStrategy(rows);
      && Keys(g) == [AiInfra, "Others", Cyber]
      && g[0].rows == [rows[0], rows[3]] && g[1].rows == [rows[1]] && g[2].rows == [rows[2]]
  {
    UniverseAccumulate(rows);
    var acc := Accumulate(rows);
    assert rows[0].ticker == "ADBE" && rows[3].ticker == "GOOGL";
    AdbeBeforeGoogl(rows[0], rows[3]);
    SortSingle(rows[1]);
    SortSingle(rows[2]);
    var g := GroupByStrategy(rows);
    assert g[0] == SortGroup(acc[0]) && g[1] == SortGroup(acc[1]) && g[2] == SortGroup(acc[2]);
  }

  /** The shipped registry always yields three groups, in order of first appearance,
      with ADBE before GOOGL in the AI group, whatever the providers answer. */
  lemma UniverseGroups(quotes: QuoteProvider, metrics: MetricsProvider)
    ensures var g := GroupByStrategy(RowsOf(Universe, quotes, metrics));
      && Keys(g) == [AiInfra, "Others", Cyber]
      && |g[0].rows| == 2 && g[0].rows[0].ticker == "ADBE" && g[0].rows[1].ticker == "GOOGL"
  {
    var rows := RowsOf(Universe, quotes, metrics);
    RowsFollowRegistry(Universe, quotes, metrics);
    assert ShapedLikeUniverse(rows);
    UniverseShapeGroups(rows);
  }
}
