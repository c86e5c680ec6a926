/** The derivations of the dashboard page (app/page.tsx): the number formatters, the
    sorted cluster list and the groups shown for the selected cluster. React state,
    effects and layout are not modelled; the loaded response and the selection are
    inputs. */
module View {
  import opened Wrappers
  import StringOrder
  import Sorting
  import opened Quotes
  import opened Rows
  import opened Grouping

  /** The text shown for a missing or non-finite number. */
  const Placeholder := "—"

  /** What `toFixed` can produce: an optional minus sign followed by a digit (this also
      covers the exponential form used for very large magnitudes). */
  predicate RendersNumber(s: string) {
    |s| > 0 && (s[0] == '-' || '0' <= s[0] <= '9')
  }

  /** A stand-in for `Number.prototype.toFixed`, whose digit rendering is not modelled:
      every output looks like a number. */
  ghost predicate Renderer(fixed: (real, nat) -> string) {
    forall x, d :: RendersNumber(fixed(x, d))
  }

  lemma RendererOutput(fixed: (real, nat) -> string, x: real, d: nat)
    requires Renderer(fixed)
    ensures RendersNumber(fixed(x, d)) && fixed(x, d) != Placeholder
  {
    assert Placeholder[0] == '—';
  }

  /** `fmtNum`: the placeholder for null or non-finite input, the fixed-point rendering
      otherwise. */
  function FmtNum(n: Num, fixed: (real, nat) -> string, decimals: nat := 2): (r: string)
    requires Renderer(fixed)
    ensures r == Placeholder <==> n.None?
    ensures n.Some? ==> r == fixed(n.value, decimals)
  {
    if n.None? then Placeholder
    else
      RendererOutput(fixed, n.value, decimals);
      fixed(n.value, decimals)
  }

  /** `fmtPct`: the placeholder for null or non-finite input; otherwise a one-decimal
      rendering, prefixed with "+" exactly when the value is positive, and followed by
      "%". */
  function FmtPct(n: Num, fixed: (real, nat) -> string): (r: string)
    requires Renderer(fixed)
    ensures r == Placeholder <==> n.None?
    ensures n.Some? ==> |r| >= 2 && r[|r| - 1] == '%'
    ensures n.Some? ==> (r[0] == '+' <==> n.value > 0.0)
  {
    if n.None? then Placeholder
    else
      var digits := fixed(n.value, 1);
      RendererOutput(fixed, n.value, 1);
      (if n.value > 0.0 then "+" else "") + digits + "%"
  }

  /** Removing the sign prefix and the "%" suffix from a formatted percentage gives back
      the one-decimal rendering of the value. */
  lemma FmtPctRecoversDigits(n: Num, fixed: (real, nat) -> string)
    requires Renderer(fixed) && n.Some?
    ensures var r := FmtPct(n, fixed);
      var start := if n.value > 0.0 then 1 else 0;
      start <= |r| - 1 && r[start..|r| - 1] == fixed(n.value, 1)
  {
  }

  /** The `grouped` object of a dashboard response: its entries in key order, no key
      occurring twice, as in any JSON object. */
  type Record = g: seq<Group> | Sorting.NoDup(Keys(g)) witness []

  /** The body of a successful dashboard response. `updatedAt` is never used by the
      derivations modelled here. */
  datatype ApiResp = ApiResp(grouped: Record)

  /** One displayed section: a cluster label and the rows listed under it. */
  datatype Section = Section(cluster: string, rows: seq<Row>)

  function Id(s: string): string {
    s
  }

  /** Each element sorts strictly before every later one. */
  ghost predicate StrictlyIncreasing(s: seq<string>) {
    forall i, j :: 0 <= i < j < |s| ==> StringOrder.Lt(s[i], s[j])
  }

  /** A sorted sequence without repetitions is strictly increasing. */
  lemma SortedDistinctIsStrict(s: seq<string>)
    requires Sorting.SortedBy(s, Id) && Sorting.NoDup(s)
    ensures StrictlyIncreasing(s)
  {
    forall i, j | 0 <= i < j < |s|
      ensures StringOrder.Lt(s[i], s[j])
    {
      assert Id(s[i]) == s[i] && Id(s[j]) == s[j];
    }
  }

  /** `clusters`: the keys of `grouped`, sorted ascending. */
  function Clusters(grouped: Record): (r: seq<string>)
    ensures |r| == |grouped|
    ensures forall k :: k in r <==> k in Keys(grouped)
    ensures StrictlyIncreasing(r)
  {
    var keys := Keys(grouped);
    var r := Sorting.SortBy(keys, Id);
    Sorting.SortByIsSorted(keys, Id);
    Sorting.PermutationKeepsNoDup(keys, r);
    SortedDistinctIsStrict(r);
    assert forall k :: k in r <==> k in multiset(keys);
    r
  }

  /** The cluster list is the only strictly increasing listing of the keys, so it does
      not depend on the order in which the keys arrive. */
  lemma ClustersUnique(grouped: Record, s: seq<string>)
    requires StrictlyIncreasing(s)
    requires forall k :: k in s <==> k in Keys(grouped)
    ensures s == Clusters(grouped)
  {
    Sorting.StrictlySortedUnique(s, Clusters(grouped));
  }

  /** `grouped[k]`: the rows of the entry keyed `k`, if there is one. */
  function Lookup(groups: seq<Group>, k: string): (r: Option<seq<Row>>)
    ensures r.Some? <==> k in Keys(groups)
    ensures r.Some? ==> exists i :: 0 <= i < |groups| && groups[i].key == k && groups[i].rows == r.value
  {
    if |groups| == 0 then None
    else if groups[0].key == k then
      assert groups[0].key == Keys(groups)[0];
      Some(groups[0].rows)
    else
      var r := Lookup(groups[1..], k);
      assert Keys(groups) == [groups[0].key] + Keys(groups[1..]);
      assert r.Some? ==> exists i :: 0 <= i < |groups| && groups[i].key == k && groups[i].rows == r.value by {
        if r.Some? {
          var i :| 0 <= i < |groups[1..]| && groups[1..][i].key == k && groups[1..][i].rows == r.value;
          assert groups[i + 1] == groups[1..][i];
        }
      }
      r
  }

  /** In an object without repeated keys, looking up an entry's key finds that entry's
      rows. */
  lemma {:induction false} LookupFindsEntry(groups: seq<Group>, i: nat)
    requires Sorting.NoDup(Keys(groups)) && i < |groups|
    ensures Lookup(groups, groups[i].key) == Some(groups[i].rows)
  {
    if i > 0 {
      assert Keys(groups)[0] != Keys(groups)[i];
      var tail := groups[1..];
      assert Sorting.NoDup(Keys(tail)) by {
        forall a, b | 0 <= a < b < |tail|
          ensures Keys(tail)[a] != Keys(tail)[b]
        {
          assert Keys(groups)[a + 1] != Keys(groups)[b + 1];
        }
      }
      LookupFindsEntry(tail, i - 1);
      assert tail[i - 1] == groups[i];
    }
  }

  /** The section shown for cluster `k`: its rows, or none when the key is absent
      (`grouped[k] ?? []`). */
  function SectionOf(grouped: Record, k: string): (s: Section)
    ensures s.cluster == k
    ensures k !in Keys(grouped) ==> s.rows == []
    ensures forall i :: 0 <= i < |grouped| && grouped[i].key == k ==> s.rows == grouped[i].rows
  {
    forall i | 0 <= i < |grouped| && grouped[i].key == k
      ensures Lookup(grouped, k) == Some(grouped[i].rows)
    {
      LookupFindsEntry(grouped, i);
    }
    Section(k, Lookup(grouped, k).GetOr([]))
  }

  /** `visibleGroups`: nothing before data is loaded; under "ALL" one section per
      cluster in cluster order; otherwise the single selected section. */
  function VisibleGroups(data: Option<ApiResp>, selected: string): (r: seq<Section>)
    ensures data.None? ==> r == []
    ensures data.Some? && selected == "ALL" ==>
      && |r| == |Clusters(data.value.grouped)|
      && forall i :: 0 <= i < |r| ==> r[i] == SectionOf(data.value.grouped, Clusters(data.value.grouped)[i])
    ensures data.Some? && selected != "ALL" ==> r == [SectionOf(data.value.grouped, selected)]
  {
    if data.None? then []
    else
      var g := data.value.grouped;
      if selected == "ALL" then
        var cs := Clusters(g);
        seq(|cs|, i requires 0 <= i < |cs| => SectionOf(g, cs[i]))
      else
        [SectionOf(g, selected)]
  }

  /** Under "ALL", the section at position `j` is the entry of its cluster. */
  lemma AllSectionIsEntry(resp: ApiResp, j: nat)
    requires j < |VisibleGroups(Some(resp), "ALL")|
    ensures exists i :: (0 <= i < |resp.grouped| &&
      VisibleGroups(Some(resp), "ALL")[j] == Section(resp.grouped[i].key, resp.grouped[i].rows))
  {
    var g := resp.grouped;
    var cs := Clusters(g);
    assert cs[j] in Keys(g);
    var i :| 0 <= i < |g| && Keys(g)[i] == cs[j];
    assert VisibleGroups(Some(resp), "ALL")[j] == SectionOf(g, cs[j]);
  }

  /** Under "ALL", the entry at position `i` of `grouped` is shown, with its own rows. */
  lemma AllShowsEntry(resp: ApiResp, i: nat)
    requires i < |resp.grouped|
    ensures exists j :: (0 <= j < |VisibleGroups(Some(resp), "ALL")| &&
      VisibleGroups(Some(resp), "ALL")[j] == Section(resp.grouped[i].key, resp.grouped[i].rows))
  {
    var g := resp.grouped;
    var cs := Clusters(g);
    assert g[i].key == Keys(g)[i] && Keys(g)[i] in Keys(g);
    assert g[i].key in cs;
    var j :| 0 <= j < |cs| && cs[j] == g[i].key;
    assert VisibleGroups(Some(resp), "ALL")[j] == SectionOf(g, cs[j]);
  }

  /** Under "ALL", the sections are in strictly ascending cluster order, so no cluster
      is shown twice. */
  lemma AllInClusterOrder(resp: ApiResp)
    ensures var r := VisibleGroups(Some(resp), "ALL");
      forall i, j :: 0 <= i < j < |r| ==> StringOrder.Lt(r[i].cluster, r[j].cluster)
  {
  }
}
