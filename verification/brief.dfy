/** The news-gathering half of the brief endpoint (app/api/brief/route.ts): the request
    defaults, the token check and the per-ticker trimming of the news provider's
    answer. The summarising call that follows is not modelled; the model ends with the
    input that call would receive. */
module Brief {
  import opened Wrappers
  import opened Config

  /** A decoded JSON value. Numbers are finite, as `JSON.parse` produces them. */
  datatype Json =
    | JNull
    | JBool(b: bool)
    | JNum(n: real)
    | JStr(s: string)
    | JArr(elems: seq<Json>)
    | JObj(fields: map<string, Json>)

  /** The value of a property read in JavaScript: `undefined`, or a JSON value. */
  datatype Prop = Undefined | Defined(value: Json)

  /** `x.name`: reading a property of `null` throws (`None`); any other non-object, or an
      object without that key, gives `undefined`. */
  function Field(x: Json, name: string): (r: Option<Prop>)
    ensures r.None? <==> x.JNull?
    ensures r.Some? && r.value.Defined? ==> x.JObj? && name in x.fields && r.value.value == x.fields[name]
    ensures x.JObj? && name in x.fields ==> r == Some(Defined(x.fields[name]))
  {
    match x
    case JNull => None
    case JObj(fields) => Some(if name in fields then Defined(fields[name]) else Undefined)
    case _ => Some(Undefined)
  }

  /** The fields kept of one news item. */
  datatype NewsItem = NewsItem(headline: Prop, source: Prop, datetime: Prop, summary: Prop, url: Prop)

  /** `x ?? ""`: the empty string replaces `undefined` and `null`. */
  function OrEmpty(p: Prop): (r: Prop)
    ensures r.Undefined? == false && r != Defined(JNull)
    ensures p.Defined? && p.value != JNull ==> r == p
  {
    if p.Undefined? || p.value == JNull then Defined(JStr("")) else p
  }

  /** The per-item mapping; it throws on a `null` item. */
  function TrimItem(x: Json): (r: Option<NewsItem>)
    ensures r.None? <==> x.JNull?
    ensures r.Some? ==> && Some(r.value.headline) == Field(x, "headline")
                        && Some(r.value.source) == Field(x, "source")
                        && Some(r.value.datetime) == Field(x, "datetime")
                        && Some(r.value.url) == Field(x, "url")
                        && r.value.summary == OrEmpty(Field(x, "summary").value)
  {
    if x.JNull? then None
    else
      Some(NewsItem(Field(x, "headline").value, Field(x, "source").value, Field(x, "datetime").value,
                    OrEmpty(Field(x, "summary").value), Field(x, "url").value))
  }

  /** Maps every item, failing on the first one that throws. */
  function TrimItems(xs: seq<Json>): (r: Option<seq<NewsItem>>)
    ensures r.Some? <==> forall i :: 0 <= i < |xs| ==> xs[i] != JNull
    ensures r.Some? ==> |r.value| == |xs| && forall i :: 0 <= i < |xs| ==> Some(r.value[i]) == TrimItem(xs[i])
  {
    if |xs| == 0 then Some([])
    else
      var init := TrimItems(xs[..|xs| - 1]);
      var last := TrimItem(xs[|xs| - 1]);
      if init.Some? && last.Some? then
        Some(init.value + [last.value])
      else
        assert init.None? ==> exists i :: 0 <= i < |xs| - 1 && xs[i] == JNull;
        None
  }

  /** The largest number of items kept per ticker. */
  const MaxNews := 12

  /** The array part of the provider's answer: the answer itself when it is an array, the
      empty list otherwise. */
  function ItemsOf(data: Json): seq<Json> {
    if data.JArr? then data.elems else []
  }

  /** The first `MaxNews` items of `xs`, or all of them when there are fewer. */
  function FirstItems(xs: seq<Json>): (r: seq<Json>)
    ensures |r| <= MaxNews && r <= xs
    ensures |xs| >= MaxNews ==> |r| == MaxNews
    ensures |xs| < MaxNews ==> r == xs
  {
    if |xs| <= MaxNews then xs else xs[..MaxNews]
  }

  /** One ticker's news list: a non-array answer gives no news; otherwise the first
      twelve items are mapped, and a `null` among them throws. */
  function TrimNews(data: Json): (r: Option<seq<NewsItem>>)
    ensures !data.JArr? ==> r == Some([])
    ensures r.Some? ==> |r.value| <= MaxNews
    ensures r.Some? ==> |r.value| == |FirstItems(ItemsOf(data))|
    ensures r.Some? <==> forall i :: 0 <= i < |ItemsOf(data)| && i < MaxNews ==> ItemsOf(data)[i] != JNull
    ensures r.Some? ==> forall i :: 0 <= i < |r.value| ==> Some(r.value[i]) == TrimItem(ItemsOf(data)[i])
  {
    var first := FirstItems(ItemsOf(data));
    assert forall i :: 0 <= i < |first| ==> first[i] == ItemsOf(data)[i];
    TrimItems(first)
  }

  /** Only the first twelve items matter: two arrays that agree on them give the same
      news list, whatever follows. */
  lemma TrimNewsIgnoresTail(xs: seq<Json>, ys: seq<Json>)
    requires |xs| >= MaxNews && |ys| >= MaxNews
    requires xs[..MaxNews] == ys[..MaxNews]
    ensures TrimNews(JArr(xs)) == TrimNews(JArr(ys))
  {
    assert FirstItems(ItemsOf(JArr(xs))) == xs[..MaxNews];
    assert FirstItems(ItemsOf(JArr(ys))) == ys[..MaxNews];
  }

  /** The body of a brief request. `daysBack` may be absent. */
  datatype BriefRequest = BriefRequest(tickers: seq<string>, daysBack: Prop)

  /** `const { daysBack = 3 } = ...`: the default replaces an absent value only. */
  function DaysBack(req: BriefRequest): (d: Json)
    ensures req.daysBack.Undefined? ==> d == JNum(3.0)
    ensures req.daysBack.Defined? ==> d == req.daysBack.value
  {
    match req.daysBack
    case Undefined => JNum(3.0)
    case Defined(v) => v
  }

  /** What the summarising call would be given: the look-back (named in the prompt's
      period), the requested tickers and the trimmed news of each. */
  datatype SummaryInput = SummaryInput(daysBack: Json, tickers: seq<string>, newsByTicker: map<string, seq<NewsItem>>)

  /** The outcome of the news-gathering half: a missing token (status 500), a request
      that throws while gathering news, or the summariser's input. */
  datatype BriefResult = MissingToken(error: string) | Thrown | Summarize(input: SummaryInput)

  /** What the news provider answers to the `n`-th request (counting from 0) of one
      brief request, made for ticker `t`: the decoded body whatever the status (an error
      envelope is an `Ok` payload that is not an array), or `Err` when the request is
      rejected or the body is not JSON (neither is caught, so the whole request throws).
      Every request is a fresh one, so a repeated ticker may get a different answer. */
  type NewsProvider = (nat, string) -> Fetched<Json>

  /** The answer to request `n`, for `t`, can be fetched, decoded and trimmed without
      throwing. */
  predicate Serves(news: NewsProvider, n: nat, t: string) {
    news(n, t).Ok? && TrimNews(news(n, t).payload).Some?
  }

  /** The news list of a served request. */
  function NewsOf(news: NewsProvider, n: nat, t: string): seq<NewsItem>
    requires Serves(news, n, t)
  {
    TrimNews(news(n, t).payload).value
  }

  /** Every request made for the tickers `seen`, in order, is served. */
  ghost predicate AllServed(news: NewsProvider, seen: seq<string>) {
    forall i :: 0 <= i < |seen| ==> Serves(news, i, seen[i])
  }

  /** `seen[i]` is the last occurrence of its ticker in `seen`. */
  ghost predicate LastAt(seen: seq<string>, i: int) {
    0 <= i < |seen| && forall j :: i < j < |seen| ==> seen[j] != seen[i]
  }

  /** `byTicker` has exactly one entry per ticker of `seen`, holding the news of the
      last request made for that ticker (a later assignment overwrites an earlier one). */
  ghost predicate Collected(news: NewsProvider, seen: seq<string>, byTicker: map<string, seq<NewsItem>>) {
    && (forall t :: t in byTicker <==> t in seen)
    && HoldsLatest(news, seen, byTicker)
  }

  /** The entry of each ticker of `seen` is the news of the last request made for it. */
  ghost predicate HoldsLatest(news: NewsProvider, seen: seq<string>, byTicker: map<string, seq<NewsItem>>) {
    forall i :: LastAt(seen, i) ==>
      seen[i] in byTicker && Serves(news, i, seen[i]) && byTicker[seen[i]] == NewsOf(news, i, seen[i])
  }

  /** Every ticker of `seen` has a last occurrence. */
  lemma {:induction false} LastOccurrence(seen: seq<string>, t: string)
    requires t in seen
    ensures exists i :: LastAt(seen, i) && seen[i] == t
    decreases |seen|
  {
    var n := |seen| - 1;
    if seen[n] == t {
      assert LastAt(seen, n);
    } else {
      assert seen == seen[..n] + [seen[n]];
      LastOccurrence(seen[..n], t);
      var i :| LastAt(seen[..n], i) && seen[..n][i] == t;
      assert LastAt(seen, i);
    }
  }

  /** In a complete collection, the entry of a requested ticker is the news of the last
      request made for it, and an unrequested ticker has no entry. */
  lemma EntryIsLatestAnswer(news: NewsProvider, seen: seq<string>, byTicker: map<string, seq<NewsItem>>, t: string)
    requires Collected(news, seen, byTicker)
    ensures t !in seen ==> t !in byTicker
    ensures t in seen ==> exists i :: && LastAt(seen, i) && seen[i] == t && t in byTicker
                                      && Serves(news, i, t) && byTicker[t] == NewsOf(news, i, t)
  {
    if t in seen {
      LastOccurrence(seen, t);
    }
  }

  /** The last occurrence of a ticker other than the appended one stays the last
      occurrence without it. */
  lemma LastAtStep(seen: seq<string>, t: string, i: int)
    requires LastAt(seen + [t], i) && i < |seen|
    ensures LastAt(seen, i) && seen[i] != t && (seen + [t])[i] == seen[i]
  {
    var seen' := seen + [t];
    assert seen'[|seen|] == t;
    forall j | i < j < |seen|
      ensures seen[j] != seen[i]
    {
      assert seen'[j] == seen[j];
    }
  }

  /** One more served request keeps every request served. */
  lemma ServedStep(news: NewsProvider, seen: seq<string>, t: string)
    requires AllServed(news, seen) && Serves(news, |seen|, t)
    ensures AllServed(news, seen + [t])
  {
    var seen' := seen + [t];
    forall i | 0 <= i < |seen'|
      ensures Serves(news, i, seen'[i])
    {
      if i < |seen| {
        assert seen'[i] == seen[i];
      }
    }
  }

  /** Storing an entry for one more ticker keeps one entry per ticker seen. */
  lemma KeysStep(seen: seq<string>, byTicker: map<string, seq<NewsItem>>, t: string, v: seq<NewsItem>)
    requires forall x :: x in byTicker <==> x in seen
    ensures forall x :: x in byTicker[t := v] <==> x in seen + [t]
  {
    forall x
      ensures x in byTicker[t := v] <==> x in seen + [t]
    {
      assert x in seen + [t] <==> x in seen || x == t;
    }
  }

  /** Storing the news of request `|seen|` under its ticker replaces that ticker's
      earlier entry and leaves every other ticker's latest news in place. */
  lemma LatestStep(news: NewsProvider, seen: seq<string>, byTicker: map<string, seq<NewsItem>>, t: string)
    requires HoldsLatest(news, seen, byTicker) && Serves(news, |seen|, t)
    ensures HoldsLatest(news, seen + [t], byTicker[t := NewsOf(news, |seen|, t)])
  {
    var seen' := seen + [t];
    var byTicker' := byTicker[t := NewsOf(news, |seen|, t)];
    forall i | LastAt(seen', i)
      ensures seen'[i] in byTicker' && Serves(news, i, seen'[i]) && byTicker'[seen'[i]] == NewsOf(news, i, seen'[i])
    {
      if i < |seen| {
        LastAtStep(seen, t, i);
      }
    }
  }

  /** Storing the news of one more served request keeps the collection complete, the
      new answer replacing any earlier one for the same ticker. */
  lemma CollectStep(news: NewsProvider, seen: seq<string>, byTicker: map<string, seq<NewsItem>>, t: string)
    requires Collected(news, seen, byTicker) && AllServed(news, seen) && Serves(news, |seen|, t)
    ensures Collected(news, seen + [t], byTicker[t := NewsOf(news, |seen|, t)])
    ensures AllServed(news, seen + [t])
  {
    ServedStep(news, seen, t);
    KeysStep(seen, byTicker, t, NewsOf(news, |seen|, t));
    LatestStep(news, seen, byTicker, t);
  }

  /** The clock's verdict on a look-back: whether `isoDateDaysAgo(daysBack)` returns.
      It subtracts the look-back, coerced to a number, from the current day of the month
      and renders the date with `toISOString`, which throws when the coercion gives NaN
      (an object, a non-numeric string) or the date leaves the representable range
      (about 10^8 days from 1970). The outcome depends on the current date, so it is a
      parameter; `from` and `to` themselves only enter the request URLs. */
  type DateClock = Json -> bool

  /** A clock consistent with JavaScript's number coercion: a plain object coerces to
      NaN, so no clock accepts it, and the default look-back of three days is always in
      range. */
  ghost predicate Coercing(clock: DateClock) {
    && (forall fields :: !clock(JObj(fields)))
    && clock(JNum(3.0))
  }

  /** The news loop: the tickers are fetched in order, and the first request whose answer
      cannot be fetched, decoded or trimmed throws (`None`), no later ticker being
      fetched. When all succeed, every ticker has exactly one entry, holding the trimmed
      news of the last request made for it (a repeated ticker is fetched again and its
      entry replaced). */
  method FetchAll(tickers: seq<string>, news: NewsProvider)
    returns (byTicker: Option<map<string, seq<NewsItem>>>, calls: seq<string>)
    ensures byTicker.Some? <==> AllServed(news, tickers)
    ensures byTicker.Some? ==> calls == tickers && Collected(news, tickers, byTicker.value)
    ensures byTicker.None? ==>
      && 0 < |calls| <= |tickers| && calls == tickers[..|calls|]
      && !Serves(news, |calls| - 1, calls[|calls| - 1])
      && AllServed(news, calls[..|calls| - 1])
  {
    var collected: map<string, seq<NewsItem>> := map[];
    calls := [];
    var i := 0;
    while i < |tickers|
      invariant 0 <= i <= |tickers|
      invariant calls == tickers[..i]
      invariant AllServed(news, calls)
      invariant Collected(news, calls, collected)
    {
      var t := tickers[i];
      var data := news(i, t);
      var trimmed := if data.Ok? then TrimNews(data.payload) else None;
      if trimmed.None? {
        assert calls + [t] == tickers[..i + 1];
        assert (calls + [t])[..i] == calls;
        assert !Serves(news, i, tickers[i]);
        return None, calls + [t];
      }
      CollectStep(news, calls, collected, t);
      collected := collected[t := trimmed.value];
      calls := calls + [t];
      assert calls == tickers[..i + 1];
      i := i + 1;
    }
    assert calls == tickers;
    byTicker := Some(collected);
  }

  /** The handler up to the summarising call. A missing token answers before any news
      request. Otherwise the look-back dates are computed, which throws before any news
      request when the clock rejects the look-back. Then the news loop runs (`FetchAll`),
      and the request throws if the loop does. */
  method Post(token: Option<string>, req: BriefRequest, clock: DateClock, news: NewsProvider)
    returns (result: BriefResult, calls: seq<string>)
    ensures Missing(token) ==> result == MissingToken("Missing FINNHUB_API_KEY") && calls == []
    ensures !Missing(token) ==> !result.MissingToken?
    ensures !Missing(token) && !clock(DaysBack(req)) ==> result == Thrown && calls == []
    ensures !Missing(token) && Coercing(clock) && req.daysBack.Defined? && req.daysBack.value.JObj? ==>
      result == Thrown && calls == []
    ensures !Missing(token) ==>
      (result.Summarize? <==> clock(DaysBack(req)) && AllServed(news, req.tickers))
    ensures result.Summarize? ==>
      && calls == req.tickers
      && result.input.daysBack == DaysBack(req)
      && result.input.tickers == req.tickers
      && Collected(news, req.tickers, result.input.newsByTicker)
    ensures result.Thrown? ==> (calls == [] <==> !clock(DaysBack(req)))
    ensures result.Thrown? && calls != [] ==>
      && |calls| <= |req.tickers| && calls == req.tickers[..|calls|]
      && !Serves(news, |calls| - 1, calls[|calls| - 1])
      && AllServed(news, calls[..|calls| - 1])
  {
    if Missing(token) {
      return MissingToken("Missing FINNHUB_API_KEY"), [];
    }
    var daysBack := DaysBack(req);
    if !clock(daysBack) {
      return Thrown, [];
    }
    var byTicker;
    byTicker, calls := FetchAll(req.tickers, news);
    if byTicker.None? {
      return Thrown, calls;
    }
    result := Summarize(SummaryInput(daysBack, req.tickers, byTicker.value));
  }
}
