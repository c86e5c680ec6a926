# portfolio-news, modelled in Dafny

This project models the pure core of the portfolio-news dashboard: a Next.js application that shows
price, 52-week range and valuation figures for a fixed list of stocks, and gathers company news for a
language-model brief. The core modelled here is the following.

- **Row derivation** (app/api/dashboard/route.ts). For each registry asset the endpoint makes two
  requests: a daily time series and a set of fundamentals. From their results it computes
  - the current price: the first finite close;
  - the 52-week high and low: max and min of the finite highs and lows;
  - the percentage deviation of the price from each range end;
  - P/E with its fallback, and EV/EBITDA.

  A failed request nulls only its own fields.
- **Grouping** (same file). Rows are grouped by strategy, with keys in first-occurrence order. Each
  group is then sorted by ticker.
- **View derivation** (app/page.tsx). This covers
  - the placeholder and sign rules of `fmtNum` and `fmtPct`;
  - the sorted cluster list;
  - the sections shown for the "ALL" selection or for a single cluster.
- **News gathering** (app/api/brief/route.ts). This covers the token check, the `daysBack` default
  of 3 and the throw when the look-back date cannot be computed. It also covers the per-ticker trimming of the news answer:
  - a non-array answer becomes an empty list;
  - at most the first 12 items are kept;
  - five fields are mapped, with `summary` defaulting to "".
- **The registry** (lib/universe.ts). It is used as a concrete constant.

Conventions:

- A JavaScript number is `Option<real>` (`Quotes.Num`). `None` stands for null, NaN and ±Infinity.
- A request outcome is `Ok(payload) | Err` (`Wrappers.Fetched`). For the dashboard's series provider
  `Err` covers a rejected request, a non-OK status, an error envelope and a body that is not JSON.
  The fundamentals provider checks only the status: a status-200 error body is an `Ok` answer
  without metrics (`Ok(None)`), which yields the same null P/E and EV/EBITDA as `Err`. The
  brief endpoint never checks the status, so for its news provider `Err` covers only a rejected
  request and a body that is not JSON; an error envelope is an `Ok` payload that is not an array.
- Upstream providers are function parameters. The handlers also return the list of requests they
  issue, so that "no request is made" can be stated. The news provider is indexed by the position
  of the request, since a ticker may be requested more than once in one brief request; the
  dashboard's providers are indexed by symbol only, which the shipped registry never repeats
  (`Dashboard.UniverseRequestsDistinct`).
- Ticker and key comparison (`localeCompare`) is modelled as lexicographic order on code points
  (`StringOrder.Le`). Sorting is a stable insertion sort (`Sorting.SortBy`), as `Array.prototype.sort`
  is stable.

Modules, one file each:

- `Wrappers`, `Seqs`, `StringOrder` and `Sorting` are generic support.
- `Config` holds the missing-variable test shared by both endpoints.
- `Registry` holds the registry constant.
- `Quotes` holds the series and fundamentals arithmetic.
- `Rows` holds one asset's row.
- `Grouping` holds group-by-strategy and the sorting of the groups.
- `Dashboard` holds the `GET` handler and the registry facts.
- `View` holds the page derivations.
- `Brief` holds the news half of the brief `POST` handler.

Facts about the code that the model keeps:

- The dashboard has no `errors` array. Failures are swallowed into null fields
  (app/api/dashboard/route.ts:95-97, 109-111).
- The configuration errors carry the messages `Missing TWELVE_DATA_API_KEY` and
  `Missing FINNHUB_API_KEY`.
- In the brief endpoint, a rejected news request, an undecodable body, or a `null` item among the
  first twelve throws out of the whole request (`Brief.BriefResult.Thrown`); failures are not isolated
  per ticker.
- In the brief endpoint, a `daysBack` that does not coerce to a number, or that moves the date out
  of range, makes `isoDateDaysAgo` throw after the token check and before any news request.

## Model

| member | source | states |
|---|---|---|
| Quotes.FiniteSpec | app/api/dashboard/route.ts:87-89 | the values kept by `.map(Number).filter(Number.isFinite)` are exactly the finite entries; the list is empty iff no entry is finite; its head is the first finite entry in provider order |
| Quotes.FirstFinite | app/api/dashboard/route.ts:91 | `finite[0] ?? null` is null iff no entry is finite, and otherwise is the value of the first finite entry |
| Quotes.Max | app/api/dashboard/route.ts:92 | `Math.max` of a non-empty list is one of its elements and bounds every element from above |
| Quotes.Min | app/api/dashboard/route.ts:93 | `Math.min` of a non-empty list is one of its elements and bounds every element from below |
| Quotes.Highest | app/api/dashboard/route.ts:88-92 | the largest finite value is null iff none is finite; otherwise it is one of the entries and at least every finite entry |
| Quotes.Lowest | app/api/dashboard/route.ts:89-93 | the smallest finite value is null iff none is finite; otherwise it is one of the entries and at most every finite entry |
| Quotes.LatestClose | app/api/dashboard/route.ts:87-91 | the price is null iff no bar has a finite close; otherwise it is the close of the first bar (most recent first) whose close is finite |
| Quotes.HighOf | app/api/dashboard/route.ts:88-92 | `high52` is null iff no bar has a finite high; otherwise some bar attains it and no finite high exceeds it |
| Quotes.LowOf | app/api/dashboard/route.ts:89-93 | `low52` is null iff no bar has a finite low; otherwise some bar attains it and no finite low is below it |
| Quotes.PriceWithinRange | app/api/dashboard/route.ts:87-93 | when every bar has low <= close <= high, a present price comes with a present range and low52 <= price <= high52 |
| Quotes.ReadQuote | app/api/dashboard/route.ts:75-97 | a failed series request leaves price, range and currency null; otherwise the currency is taken, and the price and range are those of the bars when every element of `values` can be read, null when one is a JSON null (it throws after the currency was set) |
| Quotes.PctDiff | app/api/dashboard/route.ts:24-26 | the deviation d satisfies ref * (1 + d/100) = current; for ref > 0 it is positive iff current > ref and zero iff they are equal; for ref < 0 the sign flips |
| Quotes.DiffPct | app/api/dashboard/route.ts:120-122 | a deviation is present iff the price and the reference are present and the reference is non-zero, and it inverts back to the price |
| Quotes.ReadValuation | app/api/dashboard/route.ts:100-111 | a failed fundamentals request gives null P/E and EV/EBITDA; otherwise P/E is the first finite of `peTTM`, `peBasicExclExtraTTM` and EV/EBITDA is `evEbitdaTTM` if finite |
| Rows.AssembleRow | app/api/dashboard/route.ts:113-126 | the pushed row copies the asset's identity and the computed fields; each deviation is present exactly when the price and its range end are present (range end non-zero) and inverts back to the price |
| Rows.ComputeRow | app/api/dashboard/route.ts:74-127 | one asset's row keeps the asset's identity; a failed series request nulls price, range and currency; a failed fundamentals request nulls P/E and EV/EBITDA |
| Rows.QuoteFailureIsolated | app/api/dashboard/route.ts:81-111 | a failed series request nulls price, range, deviations and currency but leaves P/E and EV/EBITDA as a successful one would |
| Rows.ValuationFailureIsolated | app/api/dashboard/route.ts:100-111 | a failed fundamentals request changes nothing in the row but P/E and EV/EBITDA, which become null |
| Rows.RowPriceWithinRange | app/api/dashboard/route.ts:85-122 | with consistent bars a present price lies within the present range, the low deviation is >= 0 and the high deviation <= 0 when the range ends are positive |
| Dashboard.RowsOfAt | app/api/dashboard/route.ts:72-127 | the loop pushes one row per asset, in registry order: row i is asset i's row |
| Dashboard.RowOfIdentity | app/api/dashboard/route.ts:113-117 | a row carries the ticker and strategy of its asset |
| Dashboard.RowsFollowRegistry | app/api/dashboard/route.ts:72-127 | row i carries the ticker and strategy of registry entry i |
| Dashboard.UniverseRequestsDistinct | lib/universe.ts:15-23 | with the shipped registry no upstream request is made twice in one `GET` |
| Dashboard.RowIsolatedFromOtherAssets | app/api/dashboard/route.ts:74-127 | an asset's row depends only on the answers to its own two requests, not on any other asset's |
| Dashboard.Plan | app/api/dashboard/route.ts:74-111 | the requests are issued asset by asset, in registry order: the series by provider symbol, then the fundamentals by ticker |
| Dashboard.Get | app/api/dashboard/route.ts:61-141 | a missing series key or fundamentals key answers with its configuration error and makes no request; otherwise the response is the grouped rows of every asset and the requests are exactly the plan |
| Dashboard.UniverseGroups | lib/universe.ts:15-23 | the shipped registry always yields three groups in first-occurrence order, the AI group holding ADBE then GOOGL, whatever the providers answer |
| Dashboard.UniverseShapeGroups | lib/universe.ts:15-23 | rows shaped like the registry are grouped as AI {rows 0, 3}, Others {row 1}, Cybersecurity {row 2} |
| Grouping.Distinct | app/api/dashboard/route.ts:130-134 | the distinct strategies have no repetition and the same elements as the input |
| Grouping.MembersSpec | app/api/dashboard/route.ts:130-134 | a row is a member of strategy k iff it is an input row whose strategy is k |
| Grouping.KeyIndex | app/api/dashboard/route.ts:131 | `acc[k]` is found exactly when some accumulated group has key k, and then at that group |
| Grouping.AccumulateGroups | app/api/dashboard/route.ts:130-134 | the `reduce` builds one group per distinct strategy, in first-occurrence order, each holding exactly its strategy's rows in input order |
| Grouping.SortGroup | app/api/dashboard/route.ts:138 | sorting a group keeps its key, permutes its rows and orders them by ticker |
| Grouping.SortGroups | app/api/dashboard/route.ts:137-139 | every group is sorted in place and keeps its position and key |
| Grouping.GroupByStrategyContents | app/api/dashboard/route.ts:130-139 | the keys of `grouped` are the distinct strategies in first-occurrence order; each group is a permutation of its strategy's rows, sorted by ticker |
| Grouping.KeysAreDistinctStrategies | app/api/dashboard/route.ts:130-139 | the keys are exactly the strategies that occur, each once |
| Grouping.GroupedRowsBelong | app/api/dashboard/route.ts:130-139 | every grouped row is an input row carrying its group's strategy |
| Grouping.EveryRowGrouped | app/api/dashboard/route.ts:130-139 | every input row lies in the group keyed by its strategy |
| Grouping.NoRowInTwoGroups | app/api/dashboard/route.ts:130-139 | no row lies in two groups |
| Grouping.DistinctKeepsFirstOccurrenceOrder | app/api/dashboard/route.ts:130-134 | the keys appear in the order in which their strategies first occur |
| Sorting.Insert | app/api/dashboard/route.ts:138 | inserting adds exactly one element (as a multiset) |
| Sorting.SortBy | app/api/dashboard/route.ts:138 | the sort is a permutation of its input |
| Sorting.InsertKeepsSorted | app/api/dashboard/route.ts:138 | inserting into a sorted list keeps it sorted |
| Sorting.SortByIsSorted | app/api/dashboard/route.ts:138 | the sort's output is ordered by the key |
| Sorting.PermutationKeepsNoDup | app/page.tsx:62-66 | a permutation of a list without repetitions has none |
| Sorting.StrictlySortedUnique | app/page.tsx:62-66 | two strictly increasing lists with the same elements are equal |
| View.FmtNum | app/page.tsx:25-28 | the placeholder "—" is returned iff the number is null or non-finite; otherwise the fixed-point rendering with the requested decimals (2 by default) |
| View.FmtPct | app/page.tsx:30-34 | the placeholder iff the number is null or non-finite; otherwise the text ends with "%" and starts with "+" iff the number is positive |
| View.FmtPctRecoversDigits | app/page.tsx:30-34 | stripping the sign prefix and the "%" gives back the one-decimal rendering |
| View.Clusters | app/page.tsx:62-66 | the cluster list has exactly the keys of `grouped`, one entry per key, in strictly ascending order |
| View.ClustersUnique | app/page.tsx:62-66 | any strictly ascending listing of the keys is the cluster list, whatever order the keys arrive in |
| View.Lookup | app/page.tsx:70-71 | `grouped[k]` is defined iff k is a key, and then holds the rows of an entry keyed k |
| View.LookupFindsEntry | app/page.tsx:70-71 | in an object without repeated keys, `grouped[k]` is the rows of the entry keyed k |
| View.SectionOf | app/page.tsx:71 | the section for k carries k, the rows of k's entry when there is one, and no rows otherwise |
| View.VisibleGroups | app/page.tsx:68-72 | nothing before data is loaded; under "ALL" one section per cluster in cluster order; otherwise exactly one section for the selection |
| View.AllShowsEntry | app/page.tsx:70 | under "ALL" every entry of `grouped` is shown with its own rows |
| View.AllSectionIsEntry | app/page.tsx:70 | under "ALL" every section shown is an entry of `grouped` with its own rows |
| View.AllInClusterOrder | app/page.tsx:70 | under "ALL" the sections are in strictly ascending cluster order, so none repeats |
| Brief.Field | app/api/brief/route.ts:43-47 | reading a property throws exactly on `null`, and yields an object's own value when the key is present |
| Brief.OrEmpty | app/api/brief/route.ts:46 | `?? ""` never leaves `undefined` or `null`, and keeps any other value |
| Brief.TrimItem | app/api/brief/route.ts:42-48 | an item maps to its `headline`, `source`, `datetime` and `url` unchanged and its `summary` or ""; a `null` item throws |
| Brief.TrimItems | app/api/brief/route.ts:42-48 | mapping succeeds iff no item is `null`, and then maps each item at its own position |
| Brief.FirstItems | app/api/brief/route.ts:41 | `.slice(0, 12)` is a prefix of at most 12 items, all of them when there are fewer |
| Brief.TrimNews | app/api/brief/route.ts:40-48 | a non-array answer gives an empty list; otherwise at most 12 items, the provider's first ones in order and field-mapped, and it throws iff one of them is `null` |
| Brief.TrimNewsIgnoresTail | app/api/brief/route.ts:41 | items after the twelfth do not affect the result |
| Brief.DaysBack | app/api/brief/route.ts:18 | an absent `daysBack` becomes 3; a present one is kept |
| Brief.CollectStep | app/api/brief/route.ts:31-49 | storing one more served request's news keeps exactly one entry per ticker seen, each holding the news of the last request made for that ticker |
| Brief.LatestStep | app/api/brief/route.ts:40 | assigning a request's news under its ticker replaces that ticker's earlier entry and keeps every other ticker's latest news |
| Brief.EntryIsLatestAnswer | app/api/brief/route.ts:31-49 | in a complete collection, a requested ticker's entry is the trimmed answer to the last request made for it, and an unrequested ticker has no entry |
| Brief.FetchAll | app/api/brief/route.ts:31-49 | the tickers are requested in order; it throws at the first request that fails and requests no later ticker, and otherwise completes iff every request is served, with one entry per ticker holding the answer to its last request |
| Brief.Post | app/api/brief/route.ts:11-49 | a missing token answers with its configuration error before any request; a look-back the clock rejects (always a plain object) throws before any news request; otherwise the tickers are fetched in order, the whole request throws at the first ticker that fails and requests no later one, and it reaches the summariser iff the dates are computable and every request is served, with exactly one entry per requested ticker holding the trimmed answer to its last request |

## Left out

- Network requests, URL construction, JSON decoding, `NextResponse` wrapping and status codes. Provider answers are inputs. A series request that is rejected or answers an error payload is `Err`; a fundamentals request is `Err` when it is rejected, answers a non-OK status or a body that is not JSON, and a status-200 error payload is `Ok(None)`; a news request of the brief endpoint is `Err` only when it is rejected or its body is not JSON, and an error payload is an `Ok` answer.
- The language-model call of the brief endpoint and its prompt (app/api/brief/route.ts:4, 51-84). It is a foreign service; `Brief.Post` ends with the input that call would be given.
- The `from`/`to` date strings and the `updatedAt` timestamp: they read the system clock. `from` and `to` only enter the news request URLs, which are not modelled.
- Dashboard.Get: each provider answers as a function of the symbol, so two requests for the same symbol would get the same answer, where the source makes a fresh request each time (app/api/dashboard/route.ts:82, 104) and may be rate-limited on a repeat. The shipped registry requests no symbol twice (`Dashboard.UniverseRequestsDistinct`), so this matters only for a different registry.
- Brief.Post: whether `isoDateDaysAgo(daysBack)` returns depends on the current date and on JavaScript's number coercion, so it is the `clock` parameter; the model pins down only that a plain object is always rejected and the default of 3 is always accepted (`Brief.Coercing`), not which strings or numbers fall outside the date range.
- `toFixed` digit rendering. `View.FmtNum` and `View.FmtPct` take the rendering as a parameter whose output starts with a digit or "-". Only the placeholder and sign rules are modelled.
- IEEE floating point. Numbers are exact reals. A deviation from a zero range end is NaN or an infinity in the source, which JSON serialisation turns into null; the model gives null directly.
- `Number(...)` coercion of provider fields. Bar fields are taken after conversion, so `Number(null) == 0` and numeric strings are absorbed by the input.
- `localeCompare`. It is replaced by code-point lexicographic order.
- JavaScript object key order. Integer-like keys come first in `Object.keys`; the model keeps insertion order for every key.
- The special key `__proto__`, and keys inherited from `Object.prototype` such as `constructor`. A strategy, ticker or selection with such a name behaves differently in the source.
- A cluster literally named "ALL". The page cannot select it alone, because the "ALL" selection shadows it.
- The outer `catch` of the dashboard handler (`dashboard_failed`). No modelled step throws outside the inner `try` blocks.
- Parsing the brief request body. In the source a body that is not JSON throws, and so does a `tickers` that cannot be iterated (absent, `null`, a number, a plain object); any iterable is accepted, so a string is walked character by character and non-string array elements are turned into strings by the URL encoding and the object key. The model takes a parsed request whose `tickers` is already the list of values the loop visits, as strings.
- React state, effects, the loading and error flags of `load`, and all layout in app/page.tsx. The loaded response and the selection are inputs to `View.VisibleGroups`.
- Parallel or concurrent fetching. The source is sequential and so is the model.
- Dashboard.UniverseGroups: states only the group keys and the order within the AI group. The other two groups hold one row each, and `Dashboard.UniverseShapeGroups` states them.
