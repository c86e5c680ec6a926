/** Grouping of the dashboard rows by strategy, then sorting each group by ticker
    (app/api/dashboard/route.ts, after the per-asset loop). */
module Grouping {
  import opened Wrappers
  import StringOrder
  import Sorting
  import opened Rows

  /** One entry of the `grouped` object: a strategy label and its rows. Entries are kept
      in the object's key order. */
  datatype Group = Group(key: string, rows: seq<Row>)

  function Keys(groups: seq<Group>): (r: seq<string>)
    ensures |r| == |groups| && forall i :: 0 <= i < |groups| ==> r[i] == groups[i].key
  {
    seq(|groups|, i requires 0 <= i < |groups| => groups[i].key)
  }

  function Strategies(rows: seq<Row>): (r: seq<string>)
    ensures |r| == |rows| && forall i :: 0 <= i < |rows| ==> r[i] == rows[i].strategy
  {
    seq(|rows|, i requires 0 <= i < |rows| => rows[i].strategy)
  }

  function TickerOf(r: Row): string {
    r.ticker
  }

  /** The distinct elements of `xs`, each at the position of its first occurrence. */
  function Distinct(xs: seq<string>): (r: seq<string>)
    ensures Sorting.NoDup(r)
    ensures forall x :: x in r <==> x in xs
  {
    if |xs| == 0 then []
    else
      var p := xs[..|xs| - 1];
      assert xs == p + [xs[|xs| - 1]];
      var d := Distinct(p);
      if xs[|xs| - 1] in d then d else d + [xs[|xs| - 1]]
  }

  /** The rows whose strategy is `k`, in their original order. */
  function Members(rows: seq<Row>, k: string): seq<Row> {
    if |rows| == 0 then []
    else Members(rows[..|rows| - 1], k) + (if rows[|rows| - 1].strategy == k then [rows[|rows| - 1]] else [])
  }

  /** A row is a member of `k` exactly when it is an input row with strategy `k`. */
  lemma {:induction false} MembersSpec(rows: seq<Row>, k: string, x: Row)
    ensures x in Members(rows, k) <==> x in rows && x.strategy == k
    decreases |rows|
  {
    if |rows| > 0 {
      var p := rows[..|rows| - 1];
      MembersSpec(p, k, x);
      assert rows == p + [rows[|rows| - 1]];
    }
  }

  /** A strategy no row carries has no members. */
  lemma {:induction false} MembersOfAbsentKey(p: seq<Row>, k: string)
    requires forall j :: 0 <= j < |p| ==> p[j].strategy != k
    ensures Members(p, k) == []
    decreases |p|
  {
    if |p| > 0 {
      MembersOfAbsentKey(p[..|p| - 1], k);
    }
  }

  /** The position of the group keyed `k`, if any (`acc[k]` is defined). */
  function KeyIndex(groups: seq<Group>, k: string): (r: Option<nat>)
    ensures r.Some? ==> r.value < |groups| && groups[r.value].key == k
    ensures r.None? ==> forall i :: 0 <= i < |groups| ==> groups[i].key != k
  {
    if |groups| == 0 then None
    else if groups[|groups| - 1].key == k then Some(|groups| - 1)
    else KeyIndex(groups[..|groups| - 1], k)
  }

  /** One step of the `reduce`: append the row to its strategy's group, creating the
      group at the end when the strategy is new. */
  function Add(acc: seq<Group>, r: Row): seq<Group> {
    match KeyIndex(acc, r.strategy)
    case Some(i) => acc[i := Group(acc[i].key, acc[i].rows + [r])]
    case None => acc + [Group(r.strategy, [r])]
  }

  /** The `reduce` over the rows, from the empty object. */
  function Accumulate(rows: seq<Row>): seq<Group> {
    if |rows| == 0 then []
    else Add(Accumulate(rows[..|rows| - 1]), rows[|rows| - 1])
  }

  /** What the `reduce` should build: one group per distinct strategy, in order of first
      appearance, holding that strategy's rows in order. */
  ghost predicate GroupsOf(groups: seq<Group>, rows: seq<Row>) {
    var ks := Distinct(Strategies(rows));
    |groups| == |ks| && forall i :: 0 <= i < |groups| ==> groups[i] == Group(ks[i], Members(rows, ks[i]))
  }

  lemma StrategiesStep(p: seq<Row>, x: Row)
    ensures Strategies(p + [x]) == Strategies(p) + [x.strategy]
  {
  }

  lemma DistinctStep(p: seq<Row>, x: Row)
    ensures var kp := Distinct(Strategies(p));
      Distinct(Strategies(p + [x])) == if x.strategy in kp then kp else kp + [x.strategy]
  {
    StrategiesStep(p, x);
    var xs := Strategies(p + [x]);
    assert xs[..|xs| - 1] == Strategies(p);
  }

  lemma MembersStep(p: seq<Row>, x: Row, k: string)
    ensures Members(p + [x], k) == Members(p, k) + (if x.strategy == k then [x] else [])
  {
    assert (p + [x])[..|p|] == p;
  }

  /** One `reduce` step keeps the accumulator equal to the grouping of the rows seen. */
  lemma AddKeepsGroups(acc: seq<Group>, rows: seq<Row>)
    requires |rows| > 0 && GroupsOf(acc, rows[..|rows| - 1])
    ensures GroupsOf(Add(acc, rows[|rows| - 1]), rows)
  {
    var p, x := rows[..|rows| - 1], rows[|rows| - 1];
    assert rows == p + [x];
    var kp := Distinct(Strategies(p));
    DistinctStep(p, x);
    var ks := Distinct(Strategies(p + [x]));
    var res := Add(acc, x);
    forall j | 0 <= j < |kp|
      ensures acc[j].key == kp[j]
    {
    }
    match KeyIndex(acc, x.strategy)
    case Some(i) =>
      assert kp[i] == x.strategy;
      forall j | 0 <= j < |res|
        ensures res[j] == Group(ks[j], Members(p + [x], ks[j]))
      {
        MembersStep(p, x, ks[j]);
        if j != i {
          assert kp[j] != kp[i];
        }
      }
    case None =>
      assert x.strategy !in kp;
      forall j | 0 <= j < |p|
        ensures p[j].strategy != x.strategy
      {
        assert Strategies(p)[j] == p[j].strategy;
      }
      MembersOfAbsentKey(p, x.strategy);
      forall j | 0 <= j < |res|
        ensures res[j] == Group(ks[j], Members(p + [x], ks[j]))
      {
        MembersStep(p, x, ks[j]);
      }
  }

  /** The `reduce` builds exactly one group per distinct strategy, in order of first
      appearance, each holding its rows in input order. */
  lemma {:induction false} AccumulateGroups(rows: seq<Row>)
    ensures GroupsOf(Accumulate(rows), rows)
    decreases |rows|
  {
    if |rows| > 0 {
      var p := rows[..|rows| - 1];
      AccumulateGroups(p);
      AddKeepsGroups(Accumulate(p), rows);
    }
  }

  /** Sorts one group's rows by ticker. */
  function SortGroup(g: Group): (r: Group)
    ensures r.key == g.key
    ensures multiset(r.rows) == multiset(g.rows)
    ensures Sorting.SortedBy(r.rows, TickerOf)
  {
    Sorting.SortByIsSorted(g.rows, TickerOf);
    Group(g.key, Sorting.SortBy(g.rows, TickerOf))
  }

  /** Sorts every group's rows by ticker, in place of the `for ... of Object.keys` loop. */
  function SortGroups(groups: seq<Group>): (r: seq<Group>)
    ensures |r| == |groups|
    ensures forall i :: 0 <= i < |groups| ==> r[i].key == groups[i].key
    ensures forall i :: 0 <= i < |groups| ==>
      multiset(r[i].rows) == multiset(groups[i].rows) && Sorting.SortedBy(r[i].rows, TickerOf)
  {
    seq(|groups|, i requires 0 <= i < |groups| => SortGroup(groups[i]))
  }

  /** The `grouped` object of the dashboard response. */
  function GroupByStrategy(rows: seq<Row>): seq<Group> {
    SortGroups(Accumulate(rows))
  }

  /** The keys of the result are the distinct strategies in order of first appearance;
      each group is its strategy's rows, permuted into ticker order. */
  lemma GroupByStrategyContents(rows: seq<Row>)
    ensures var g := GroupByStrategy(rows);
      var ks := Distinct(Strategies(rows));
      && Keys(g) == ks
      && (forall i :: 0 <= i < |g| ==> multiset(g[i].rows) == multiset(Members(rows, ks[i])))
      && (forall i :: 0 <= i < |g| ==> Sorting.SortedBy(g[i].rows, TickerOf))
  {
    AccumulateGroups(rows);
  }

  /** The group keys are exactly the strategies that occur, each once. */
  lemma KeysAreDistinctStrategies(rows: seq<Row>)
    ensures var ks := Keys(GroupByStrategy(rows));
      && Sorting.NoDup(ks)
      && forall s :: s in ks <==> exists i :: 0 <= i < |rows| && rows[i].strategy == s
  {
    GroupByStrategyContents(rows);
    var ks := Keys(GroupByStrategy(rows));
    forall s
      ensures s in ks <==> exists i :: 0 <= i < |rows| && rows[i].strategy == s
    {
      if s in ks {
        assert s in Strategies(rows);
      }
    }
  }

  /** Every grouped row is an input row with the group's strategy. */
  lemma GroupedRowsBelong(rows: seq<Row>)
    ensures var g := GroupByStrategy(rows);
      forall x, i :: 0 <= i < |g| && x in g[i].rows ==> x in rows && x.strategy == g[i].key
  {
    var g := GroupByStrategy(rows);
    var ks := Distinct(Strategies(rows));
    GroupByStrategyContents(rows);
    forall x, i | 0 <= i < |g| && x in g[i].rows
      ensures x in rows && x.strategy == g[i].key
    {
      assert x in multiset(g[i].rows);
      assert x in Members(rows, ks[i]);
      MembersSpec(rows, ks[i], x);
    }
  }

  /** Every input row lies in the group keyed by its strategy. */
  lemma EveryRowGrouped(rows: seq<Row>)
    ensures var g := GroupByStrategy(rows);
      forall x :: x in rows ==> exists i :: 0 <= i < |g| && g[i].key == x.strategy && x in g[i].rows
  {
    forall x | x in rows
      ensures var g := GroupByStrategy(rows);
        exists i :: 0 <= i < |g| && g[i].key == x.strategy && x in g[i].rows
    {
      RowGrouped(rows, x);
    }
  }

  lemma RowGrouped(rows: seq<Row>, x: Row)
    requires x in rows
    ensures var g := GroupByStrategy(rows);
      exists i :: 0 <= i < |g| && g[i].key == x.strategy && x in g[i].rows
  {
    var g := GroupByStrategy(rows);
    var ks := Distinct(Strategies(rows));
    GroupByStrategyContents(rows);
    var n :| 0 <= n < |rows| && rows[n] == x;
    assert Strategies(rows)[n] == x.strategy;
    assert x.strategy in ks;
    var i :| 0 <= i < |ks| && ks[i] == x.strategy;
    MembersSpec(rows, ks[i], x);
    assert x in multiset(Members(rows, ks[i]));
    assert x in multiset(g[i].rows);
    assert g[i].key == ks[i];
  }

  /** No row lies in two groups. */
  lemma NoRowInTwoGroups(rows: seq<Row>)
    ensures var g := GroupByStrategy(rows);
      forall x, i, j :: 0 <= i < |g| && 0 <= j < |g| && x in g[i].rows && x in g[j].rows ==> i == j
  {
    var g := GroupByStrategy(rows);
    GroupedRowsBelong(rows);
    KeysAreDistinctStrategies(rows);
    forall x, i, j | 0 <= i < |g| && 0 <= j < |g| && x in g[i].rows && x in g[j].rows
      ensures i == j
    {
      assert g[i].key == x.strategy == g[j].key;
      assert Keys(g)[i] == Keys(g)[j];
    }
  }

  /** Position of the first occurrence of `x` in `xs`. */
  function FirstIndex(xs: seq<string>, x: string): (r: nat)
    requires x in xs
    ensures r < |xs| && xs[r] == x && forall j :: 0 <= j < r ==> xs[j] != x
  {
    if xs[0] == x then 0 else 1 + FirstIndex(xs[1..], x)
  }

  /** The elements of `d`, all drawn from `xs`, appear in the order in which they
      first occur in `xs`. */
  ghost predicate InFirstOccurrenceOrder(xs: seq<string>, d: seq<string>)
    requires forall x :: x in d ==> x in xs
  {
    forall i, j :: 0 <= i < j < |d| ==> FirstIndex(xs, d[i]) < FirstIndex(xs, d[j])
  }

  /** `Distinct` lists its elements in order of first occurrence. */
  lemma {:induction false} DistinctKeepsFirstOccurrenceOrder(xs: seq<string>)
    ensures InFirstOccurrenceOrder(xs, Distinct(xs))
    decreases |xs|
  {
    if |xs| > 0 {
      var p := xs[..|xs| - 1];
      var last := xs[|xs| - 1];
      assert xs == p + [last];
      DistinctKeepsFirstOccurrenceOrder(p);
      var dp := Distinct(p);
      assert InFirstOccurrenceOrder(p, dp);
      var d := Distinct(xs);
      forall y | y in p
        ensures FirstIndex(xs, y) == FirstIndex(p, y)
      {
        var k := FirstIndex(p, y);
        assert xs[k] == y;
        assert forall j :: 0 <= j < k ==> xs[j] == p[j];
      }
      if last !in dp {
        assert forall j :: 0 <= j < |p| ==> xs[j] != last;
        assert FirstIndex(xs, last) == |xs| - 1;
        assert d == dp + [last];
        forall i, j | 0 <= i < j < |d|
          ensures FirstIndex(xs, d[i]) < FirstIndex(xs, d[j])
        {
          assert d[i] == dp[i] && dp[i] in p;
          assert FirstIndex(xs, d[i]) == FirstIndex(p, dp[i]) < |p|;
          if j < |dp| {
            assert d[j] == dp[j] && dp[j] in p;
            assert FirstIndex(xs, d[j]) == FirstIndex(p, dp[j]);
            assert FirstIndex(p, dp[i]) < FirstIndex(p, dp[j]);
          } else {
            assert d[j] == last;
          }
        }
      } else {
        forall i | 0 <= i < |d|
          ensures d[i] in p
        {
          assert d[i] in dp;
        }
      }
    }
  }
}
