/**
 Model of `DataModel` in stock-monitor.py: the hourly quote cache.

 The source keeps six class-level dictionaries keyed by ticker symbol (download hour,
 2-year, 5-year and 3-month history, price, short name). They are always written together
 by one download, so here they are one map from symbol to `Entry`. The wall clock becomes
 an `Hour` parameter and the Yahoo service becomes a `remote` oracle.
 */
module QuoteCache {
  import opened Wrappers

  type Symbol = string

  /** The hour-of-day field of `datetime.now()`; it carries no date. */
  type Hour = h: int | 0 <= h < 24

  /** The download hour the source assumes for a symbol it has never downloaded. */
  const NoHour: int := 99

  /** The short name stored for a ticker the remote source reports as invalid. */
  const UnknownName: string := "Unknown Ticker"

  /** An opaque price-history series (the source plots its `high` column). */
  datatype Series = Series(highs: seq<real>)

  /** Everything one download asks the remote source about a symbol. */
  datatype Quote = Quote(
    valid: bool,
    history2y: Series,
    history5y: Series,
    history3mo: Series,
    price: real,
    shortName: string)

  /** What the cache holds for one symbol; a history is `None` for an invalid ticker. */
  datatype Entry = Entry(
    hour: Hour,
    history2y: Option<Series>,
    history5y: Option<Series>,
    history3mo: Option<Series>,
    price: real,
    shortName: string)

  type Cache = map<Symbol, Entry>

  /** The tuple `(price, 3mo, 5y, 2y)` that `get_ticker_data` returns. */
  datatype Chart = Chart(
    price: real,
    history3mo: Option<Series>,
    history5y: Option<Series>,
    history2y: Option<Series>)

  /** The cache after a lookup, what was returned, and whether the remote source was asked. */
  datatype Fetched = Fetched(cache: Cache, chart: Chart, downloaded: bool)

  /** The stored download hour, defaulting to `NoHour`. */
  function StoredHour(cache: Cache, s: Symbol): int
  {
    if s in cache then cache[s].hour else NoHour
  }

  /** The stored 2-year series, defaulting to `None`. */
  function Stored2y(cache: Cache, s: Symbol): Option<Series>
  {
    if s in cache then cache[s].history2y else None
  }

  /** A symbol whose entry may be served without asking the remote source. */
  predicate IsFresh(cache: Cache, s: Symbol, hour: Hour)
  {
    s in cache && cache[s].hour == hour && cache[s].history2y.Some?
  }

  /** The sentinel entry stored for an invalid ticker. */
  predicate IsSentinel(e: Entry)
  {
    && e.history2y == None && e.history5y == None && e.history3mo == None
    && e.price == 0.0 && e.shortName == UnknownName
  }

  function ChartOf(e: Entry): Chart
  {
    Chart(e.price, e.history3mo, e.history5y, e.history2y)
  }

  /** The entry one download produces from the remote source's answer. */
  function Download(q: Quote, hour: Hour): (e: Entry)
    ensures e.hour == hour
    ensures e.history2y.Some? <==> q.valid
    ensures q.valid ==>
      && e.history2y == Some(q.history2y) && e.history5y == Some(q.history5y)
      && e.history3mo == Some(q.history3mo)
      && e.price == q.price && e.shortName == q.shortName
    ensures !q.valid ==> IsSentinel(e)
  {
    if q.valid then
      Entry(hour, Some(q.history2y), Some(q.history5y), Some(q.history3mo), q.price, q.shortName)
    else
      Entry(hour, None, None, None, 0.0, UnknownName)
  }

  /**
   `get_ticker_data`: download when the stored hour is not the current one or the stored
   2-year series is `None`, otherwise serve the stored values.
   */
  function Fetch(cache: Cache, s: Symbol, hour: Hour, remote: Symbol -> Quote): (r: Fetched)
    ensures r.downloaded <==> !IsFresh(cache, s, hour)
    ensures r.downloaded <==> (s !in cache || cache[s].hour != hour || cache[s].history2y == None)
    ensures r.downloaded ==> r.cache == cache[s := Download(remote(s), hour)]
    ensures !r.downloaded ==> r.cache == cache
    ensures s in r.cache && r.cache[s].hour == hour
    ensures r.chart == ChartOf(r.cache[s])
    ensures forall t :: t != s ==> (t in r.cache <==> t in cache)
    ensures forall t :: t != s && t in cache ==> r.cache[t] == cache[t]
  {
    if StoredHour(cache, s) != hour || Stored2y(cache, s).None? then
      var e := Download(remote(s), hour);
      Fetched(cache[s := e], ChartOf(e), true)
    else
      Fetched(cache, ChartOf(cache[s]), false)
  }

  /** `get_short_name`: the cached name, or "" when the symbol was never downloaded. */
  function ShortName(cache: Cache, s: Symbol): (name: string)
    ensures s !in cache ==> name == ""
    ensures s in cache ==> name == cache[s].shortName
  {
    if s in cache then cache[s].shortName else ""
  }

  /** `get_price`: the cached price, or 0 when the symbol was never downloaded. */
  function Price(cache: Cache, s: Symbol): (p: real)
    ensures s !in cache ==> p == 0.0
    ensures s in cache ==> p == cache[s].price
  {
    if s in cache then cache[s].price else 0.0
  }

  /** A fresh entry is served as stored: no download, cache unchanged. */
  lemma CacheHit(cache: Cache, s: Symbol, hour: Hour, remote: Symbol -> Quote)
    requires s in cache && cache[s].hour == hour && cache[s].history2y.Some?
    ensures var r := Fetch(cache, s, hour, remote);
      && !r.downloaded && r.cache == cache
      && r.chart.price == cache[s].price
      && r.chart.history3mo == cache[s].history3mo
      && r.chart.history5y == cache[s].history5y
      && r.chart.history2y == cache[s].history2y
  {
  }

  /** Without an entry, with a different hour, or with no 2-year series, the source is asked. */
  lemma CacheMiss(cache: Cache, s: Symbol, hour: Hour, remote: Symbol -> Quote)
    requires s !in cache || cache[s].hour != hour || cache[s].history2y.None?
    ensures var r := Fetch(cache, s, hour, remote);
      && r.downloaded
      && r.cache[s] == Download(remote(s), hour)
      && r.chart == ChartOf(Download(remote(s), hour))
  {
  }

  /** A download for an invalid ticker returns and stores the sentinel. */
  lemma InvalidTicker(cache: Cache, s: Symbol, hour: Hour, remote: Symbol -> Quote)
    requires !remote(s).valid
    requires !IsFresh(cache, s, hour)
    ensures var r := Fetch(cache, s, hour, remote);
      && r.chart == Chart(0.0, None, None, None)
      && ShortName(r.cache, s) == UnknownName
      && Price(r.cache, s) == 0.0
  {
  }

  /**
   Whatever a lookup returns is what the cache now holds: the price returned by the fetch is
   the one `get_price` reports, and the name is the remote one, the sentinel, or the old one.
   */
  lemma LookupsAfterFetch(cache: Cache, s: Symbol, hour: Hour, remote: Symbol -> Quote)
    ensures var r := Fetch(cache, s, hour, remote);
      && Price(r.cache, s) == r.chart.price
      && (r.downloaded && remote(s).valid ==> ShortName(r.cache, s) == remote(s).shortName)
      && (r.downloaded && !remote(s).valid ==> ShortName(r.cache, s) == UnknownName)
      && (!r.downloaded ==> ShortName(r.cache, s) == cache[s].shortName)
  {
  }

  /** Two calls in the same hour for a valid ticker: the second is served from the cache. */
  lemma SameHourValid(cache: Cache, s: Symbol, hour: Hour, remote: Symbol -> Quote, remote': Symbol -> Quote)
    requires remote(s).valid
    ensures var r1 := Fetch(cache, s, hour, remote);
      var r2 := Fetch(r1.cache, s, hour, remote');
      && !r2.downloaded && r2.cache == r1.cache && r2.chart == r1.chart
  {
  }

  /** Two calls in different hours: the second one asks the remote source. */
  lemma HourChangeDownloads(cache: Cache, s: Symbol, hour: Hour, hour': Hour, remote: Symbol -> Quote, remote': Symbol -> Quote)
    requires hour != hour'
    ensures Fetch(Fetch(cache, s, hour, remote).cache, s, hour', remote').downloaded
  {
  }

  /** The entry of an invalid ticker is never fresh, so the next call downloads again. */
  lemma InvalidNeverFresh(cache: Cache, s: Symbol, hour: Hour, remote: Symbol -> Quote, hour': Hour, remote': Symbol -> Quote)
    requires !remote(s).valid
    requires !IsFresh(cache, s, hour)
    ensures !IsFresh(Fetch(cache, s, hour, remote).cache, s, hour')
    ensures Fetch(Fetch(cache, s, hour, remote).cache, s, hour', remote').downloaded
  {
  }

  /** A cache after a sequence of lookups, and the symbols downloaded, in call order. */
  datatype Trace = Trace(cache: Cache, downloads: seq<Symbol>)

  /** `get_ticker_data` called for each symbol of `calls` in turn within one hour. */
  function FetchEach(cache: Cache, hour: Hour, remote: Symbol -> Quote, calls: seq<Symbol>): (r: Trace)
    ensures |r.downloads| <= |calls|
    ensures forall i :: 0 <= i < |r.downloads| ==> r.downloads[i] in calls
    ensures forall t :: t !in calls ==> (t in r.cache <==> t in cache)
    ensures forall t :: t !in calls && t in cache ==> t in r.cache && r.cache[t] == cache[t]
    decreases |calls|
  {
    if calls == [] then Trace(cache, [])
    else
      var f := Fetch(cache, calls[0], hour, remote);
      var rest := FetchEach(f.cache, hour, remote, calls[1..]);
      assert calls == [calls[0]] + calls[1..];
      Trace(rest.cache, (if f.downloaded then [calls[0]] else []) + rest.downloads)
  }

  /** A fresh entry stays fresh and untouched for the rest of the hour. */
  lemma {:induction false} FreshStaysFresh(cache: Cache, hour: Hour, remote: Symbol -> Quote, calls: seq<Symbol>, s: Symbol)
    requires IsFresh(cache, s, hour)
    ensures var r := FetchEach(cache, hour, remote, calls);
      && multiset(r.downloads)[s] == 0
      && s in r.cache && r.cache[s] == cache[s]
    decreases |calls|
  {
    if calls != [] {
      var f := Fetch(cache, calls[0], hour, remote);
      FreshStaysFresh(f.cache, hour, remote, calls[1..], s);
    }
  }

  /** A valid ticker is downloaded at most once per hour, however often it is asked for. */
  lemma {:induction false} ValidAtMostOncePerHour(cache: Cache, hour: Hour, remote: Symbol -> Quote, calls: seq<Symbol>, s: Symbol)
    requires remote(s).valid
    ensures multiset(FetchEach(cache, hour, remote, calls).downloads)[s] <= 1
    decreases |calls|
  {
    if calls != [] {
      var f := Fetch(cache, calls[0], hour, remote);
      if calls[0] == s && f.downloaded {
        FreshStaysFresh(f.cache, hour, remote, calls[1..], s);
      } else {
        ValidAtMostOncePerHour(f.cache, hour, remote, calls[1..], s);
      }
    }
  }

  /** One call leaves a stale invalid ticker stale, and a call for it downloads. */
  lemma InvalidStaysStale(cache: Cache, t: Symbol, hour: Hour, remote: Symbol -> Quote, s: Symbol)
    requires !remote(s).valid
    requires !IsFresh(cache, s, hour)
    ensures !IsFresh(Fetch(cache, t, hour, remote).cache, s, hour)
    ensures t == s ==> Fetch(cache, t, hour, remote).downloaded
  {
  }

  lemma CountCons(x: Symbol, xs: seq<Symbol>, s: Symbol)
    ensures multiset([x] + xs)[s] == (if x == s then 1 else 0) + multiset(xs)[s]
  {
  }

  lemma CountHead(xs: seq<Symbol>, s: Symbol)
    requires xs != []
    ensures multiset(xs)[s] == (if xs[0] == s then 1 else 0) + multiset(xs[1..])[s]
  {
    assert xs == [xs[0]] + xs[1..];
    CountCons(xs[0], xs[1..], s);
  }

  /** An invalid ticker is downloaded again on every call asking for it. */
  lemma {:induction false} InvalidOnEveryCall(cache: Cache, hour: Hour, remote: Symbol -> Quote, calls: seq<Symbol>, s: Symbol)
    requires !remote(s).valid
    requires !IsFresh(cache, s, hour)
    ensures multiset(FetchEach(cache, hour, remote, calls).downloads)[s] == multiset(calls)[s]
    decreases |calls|
  {
    if calls != [] {
      var f := Fetch(cache, calls[0], hour, remote);
      InvalidStaysStale(cache, calls[0], hour, remote, s);
      InvalidOnEveryCall(f.cache, hour, remote, calls[1..], s);
      var rest := FetchEach(f.cache, hour, remote, calls[1..]);
      CountHead(calls, s);
      if f.downloaded {
        CountCons(calls[0], rest.downloads, s);
      } else {
        assert calls[0] != s;
        assert FetchEach(cache, hour, remote, calls).downloads == rest.downloads;
      }
    }
  }

  /**
   Deferred population: a symbol that no call has asked for still has the empty name and the
   zero price, whatever other symbols were downloaded meanwhile.
   */
  lemma {:induction false} DeferredPopulation(cache: Cache, hour: Hour, remote: Symbol -> Quote, calls: seq<Symbol>, s: Symbol)
    requires s !in cache && s !in calls
    ensures var r := FetchEach(cache, hour, remote, calls);
      ShortName(r.cache, s) == "" && Price(r.cache, s) == 0.0
    decreases |calls|
  {
    if calls != [] {
      assert s != calls[0];
      DeferredPopulation(Fetch(cache, calls[0], hour, remote).cache, hour, remote, calls[1..], s);
    }
  }

  /** Example: an unknown ticker yields price 0, no histories and the name "Unknown Ticker". */
  lemma ExampleInvalidTicker(hour: Hour, remote: Symbol -> Quote)
    requires !remote("ZZZZINVALID").valid
    ensures var r := Fetch(map[], "ZZZZINVALID", hour, remote);
      && r.downloaded
      && r.chart == Chart(0.0, None, None, None)
      && ShortName(r.cache, "ZZZZINVALID") == "Unknown Ticker"
  {
  }
}
