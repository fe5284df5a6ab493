/**
 Model of the event handling of `App` in stock-monitor.py: a timer tick or a click moves the
 cursor (module `Rotation`); a redraw fetches the current symbol through the quote cache
 (module `QuoteCache`) and then refreshes that symbol's row with the cached name and price.
 Drawing itself is reduced to the `Frame` that would be handed to the plotting layer.
 */
module Monitor {
  import opened Wrappers
  import opened QuoteCache
  import opened Rotation

  /** The three callbacks the application registers. */
  datatype Event = Timer | TableClicked(text: string) | GraphClicked

  /** One callback together with the hour of the wall clock when it runs. */
  datatype Input = Input(event: Event, hour: Hour)

  /** The application's state: the cursor and the (class-level) quote cache. */
  datatype AppState = AppState(cursor: Cursor, cache: Cache)

  /** What one redraw shows: the chart of the current symbol and the values of its table row. */
  datatype Frame = Frame(symbol: Symbol, chart: Chart, rowName: string, rowPrice: real)

  /** The state after a callback, the frame it drew (if any) and whether it downloaded. */
  datatype Outcome = Outcome(state: AppState, frame: Option<Frame>, downloaded: bool)

  /** `get_current_symbol`. */
  function CurrentSymbol(tickers: seq<Symbol>, c: Cursor): (s: Symbol)
    requires 0 <= c.index < |tickers|
    ensures s in tickers && s == tickers[c.index]
  {
    tickers[c.index]
  }

  /**
   `update_graph`: one cache fetch for the current symbol, whose result is charted, then the
   row of that symbol shows the cached short name and price.
   */
  function Redraw(tickers: seq<Symbol>, c: Cursor, cache: Cache, hour: Hour, remote: Symbol -> Quote): (r: Outcome)
    requires 0 <= c.index < |tickers|
    ensures r.state.cursor == c && r.frame.Some?
    ensures r.frame.value.symbol == tickers[c.index]
    ensures r.downloaded <==> !IsFresh(cache, tickers[c.index], hour)
    ensures IsFresh(r.state.cache, tickers[c.index], hour)
      <==> IsFresh(cache, tickers[c.index], hour) || remote(tickers[c.index]).valid
    ensures tickers[c.index] in r.state.cache
    ensures r.frame.value.chart == ChartOf(r.state.cache[tickers[c.index]])
    ensures r.downloaded ==> r.state.cache[tickers[c.index]] == Download(remote(tickers[c.index]), hour)
    ensures !r.downloaded ==> r.state.cache == cache
    ensures r.frame.value.rowPrice == r.frame.value.chart.price
    ensures r.frame.value.rowName == ShortName(r.state.cache, tickers[c.index])
    ensures forall t :: t != tickers[c.index] ==> (t in r.state.cache <==> t in cache)
    ensures forall t :: t != tickers[c.index] && t in cache ==> r.state.cache[t] == cache[t]
  {
    var s := CurrentSymbol(tickers, c);
    var f := Fetch(cache, s, hour, remote);
    Outcome(AppState(c, f.cache), Some(Frame(s, f.chart, ShortName(f.cache, s), Price(f.cache, s))), f.downloaded)
  }

  /** Startup: the cursor at the first ticker, nothing suspended, an empty cache, one redraw. */
  function Start(tickers: seq<Symbol>, hour: Hour, remote: Symbol -> Quote): (r: Outcome)
    requires |tickers| > 0
    ensures r.state.cursor == Cursor(0, 0) && Valid(r.state.cursor, |tickers|)
    ensures r.downloaded && r.frame.Some? && r.frame.value.symbol == tickers[0]
    ensures r.state.cache.Keys == {tickers[0]}
    ensures r.state.cache == map[tickers[0] := Download(remote(tickers[0]), hour)]
    ensures r.frame.value.chart == ChartOf(Download(remote(tickers[0]), hour))
  {
    Redraw(tickers, Cursor(0, 0), map[], hour, remote)
  }

  /** The cursor transition a callback makes. */
  function Move(c: Cursor, tickers: seq<Symbol>, ev: Event): Step
  {
    match ev
    case Timer => Tick(c, |tickers|)
    case TableClicked(text) => TableClick(c, tickers, text)
    case GraphClicked => GraphClick(c)
  }

  /**
   One callback: move the cursor; a redraw fetches exactly the new current symbol, and a
   callback that does not redraw leaves the cache alone.
   */
  function Handle(m: AppState, tickers: seq<Symbol>, input: Input, remote: Symbol -> Quote): (r: Outcome)
    requires 0 <= m.cursor.index < |tickers|
    ensures 0 <= r.state.cursor.index < |tickers|
    ensures Valid(m.cursor, |tickers|) ==> Valid(r.state.cursor, |tickers|)
    ensures r.frame.Some? <==> Move(m.cursor, tickers, input.event).redraw
    ensures r.state.cursor == Move(m.cursor, tickers, input.event).cursor
    ensures r.frame.None? ==> r.state.cache == m.cache && !r.downloaded
    ensures r.frame.Some? ==> r.frame.value.symbol == tickers[r.state.cursor.index]
    ensures r.downloaded ==> r.frame.Some?
    ensures r.frame.Some? ==> r == Redraw(tickers, r.state.cursor, m.cache, input.hour, remote)
    ensures r.frame.Some? ==> (r.downloaded <==> !IsFresh(m.cache, r.frame.value.symbol, input.hour))
    ensures forall t :: t !in tickers ==> (t in r.state.cache <==> t in m.cache)
    ensures forall t :: t !in tickers && t in m.cache ==> r.state.cache[t] == m.cache[t]
  {
    var step := Move(m.cursor, tickers, input.event);
    if step.redraw then Redraw(tickers, step.cursor, m.cache, input.hour, remote)
    else Outcome(AppState(step.cursor, m.cache), None, false)
  }

  /** A sequence of callbacks: the final state, the symbols drawn in order, the downloads made. */
  datatype History = History(state: AppState, shown: seq<Symbol>, downloads: nat)

  function Run(m: AppState, tickers: seq<Symbol>, inputs: seq<Input>, remote: Symbol -> Quote): (r: History)
    requires 0 <= m.cursor.index < |tickers|
    ensures Valid(m.cursor, |tickers|) ==> Valid(r.state.cursor, |tickers|)
    ensures 0 <= r.state.cursor.index < |tickers|
    ensures forall i :: 0 <= i < |r.shown| ==> r.shown[i] in tickers
    ensures r.downloads <= |r.shown| <= |inputs|
    ensures forall t :: t !in tickers ==> (t in r.state.cache <==> t in m.cache)
    decreases |inputs|
  {
    if inputs == [] then History(m, [], 0)
    else
      var o := Handle(m, tickers, inputs[0], remote);
      var rest := Run(o.state, tickers, inputs[1..], remote);
      var drawn := if o.frame.Some? then [o.frame.value.symbol] else [];
      History(rest.state, drawn + rest.shown, rest.downloads + if o.downloaded then 1 else 0)
  }

  /** Clicks on the chart and suspended ticks draw nothing and never reach the remote source. */
  lemma QuietCallbacks(m: AppState, tickers: seq<Symbol>, hour: Hour, remote: Symbol -> Quote)
    requires Valid(m.cursor, |tickers|)
    ensures var r := Handle(m, tickers, Input(GraphClicked, hour), remote);
      r.frame.None? && r.state == AppState(Cursor(m.cursor.index, Cooldown), m.cache)
    ensures m.cursor.skip > 0 ==>
      var r := Handle(m, tickers, Input(Timer, hour), remote);
      r.frame.None? && r.state == AppState(Cursor(m.cursor.index, m.cursor.skip - 1), m.cache)
  {
  }

  /**
   While the current symbol is an invalid ticker, every redraw of it asks the remote source
   again, whatever the hour.
   */
  lemma InvalidCurrentRedrawsDownload(m: AppState, tickers: seq<Symbol>, hour: Hour, hour': Hour, remote: Symbol -> Quote)
    requires Valid(m.cursor, |tickers|)
    requires !remote(tickers[m.cursor.index]).valid
    requires !IsFresh(m.cache, tickers[m.cursor.index], hour)
    ensures var first := Redraw(tickers, m.cursor, m.cache, hour, remote);
      && first.downloaded
      && first.frame.value.rowName == UnknownName
      && Redraw(tickers, m.cursor, first.state.cache, hour', remote).downloaded
  {
  }

  /** A redrawing callback changes the cache exactly as one fetch of the symbol it draws. */
  lemma HandleIsFetch(m: AppState, tickers: seq<Symbol>, input: Input, remote: Symbol -> Quote)
    requires 0 <= m.cursor.index < |tickers|
    ensures var r := Handle(m, tickers, input, remote);
      r.frame.Some? ==>
        var f := Fetch(m.cache, r.frame.value.symbol, input.hour, remote);
        r.state.cache == f.cache && r.downloaded == f.downloaded
  {
  }

  /** Fetching a list that starts with `s` is one fetch of `s`, then the rest. */
  lemma FetchEachCons(cache: Cache, hour: Hour, remote: Symbol -> Quote, s: Symbol, rest: seq<Symbol>)
    ensures var f := Fetch(cache, s, hour, remote);
      var t := FetchEach(f.cache, hour, remote, rest);
      FetchEach(cache, hour, remote, [s] + rest)
        == Trace(t.cache, (if f.downloaded then [s] else []) + t.downloads)
  {
    assert ([s] + rest)[0] == s;
    assert ([s] + rest)[1..] == rest;
  }

  /**
   Within one hour, running the application is the same as fetching the drawn symbols in the
   order they were drawn: the final cache and the number of downloads are those of
   `FetchEach` over `shown`. The cache's hourly laws (`ValidAtMostOncePerHour`,
   `InvalidOnEveryCall`) therefore hold of the application as a whole.
   */
  lemma {:induction false} RunIsFetchEach(m: AppState, tickers: seq<Symbol>, inputs: seq<Input>, remote: Symbol -> Quote, hour: Hour)
    requires 0 <= m.cursor.index < |tickers|
    requires forall i :: 0 <= i < |inputs| ==> inputs[i].hour == hour
    ensures var r := Run(m, tickers, inputs, remote);
      var t := FetchEach(m.cache, hour, remote, r.shown);
      r.state.cache == t.cache && r.downloads == |t.downloads|
    decreases |inputs|
  {
    if inputs != [] {
      var o := Handle(m, tickers, inputs[0], remote);
      var rest := Run(o.state, tickers, inputs[1..], remote);
      RunIsFetchEach(o.state, tickers, inputs[1..], remote, hour);
      if o.frame.Some? {
        var sym := o.frame.value.symbol;
        HandleIsFetch(m, tickers, inputs[0], remote);
        FetchEachCons(m.cache, hour, remote, sym, rest.shown);
        assert Run(m, tickers, inputs, remote).shown == [sym] + rest.shown;
      } else {
        assert Run(m, tickers, inputs, remote).shown == rest.shown;
      }
    }
  }

  /**
   A run of timer callbacks moves the cursor exactly as the same number of ticks of the
   rotation, and draws once per tick that redraws; by `TicksLaw` it therefore first waits out
   the suspension and then shows one symbol after another.
   */
  lemma {:induction false} TimerRunIsTicks(m: AppState, tickers: seq<Symbol>, inputs: seq<Input>, remote: Symbol -> Quote)
    requires 0 <= m.cursor.index < |tickers|
    requires forall i :: 0 <= i < |inputs| ==> inputs[i].event == Timer
    ensures var r := Run(m, tickers, inputs, remote);
      var t := Ticks(m.cursor, |tickers|, |inputs|);
      r.state.cursor == t.cursor && |r.shown| == t.redraws
    decreases |inputs|
  {
    if inputs != [] {
      var o := Handle(m, tickers, inputs[0], remote);
      TimerRunIsTicks(o.state, tickers, inputs[1..], remote);
    }
  }

  /** The first of a run of unsuspended timer callbacks advances by one and draws that ticker. */
  lemma TimerRunHead(m: AppState, tickers: seq<Symbol>, inputs: seq<Input>, remote: Symbol -> Quote)
    returns (next: AppState)
    requires Valid(m.cursor, |tickers|) && m.cursor.skip == 0
    requires inputs != [] && inputs[0].event == Timer
    ensures next.cursor == Cursor(Succ(m.cursor.index, |tickers|), 0)
    ensures Run(m, tickers, inputs, remote).shown
      == [tickers[Succ(m.cursor.index, |tickers|)]] + Run(next, tickers, inputs[1..], remote).shown
  {
    var n := |tickers|;
    var step := Tick(m.cursor, n);
    assert step.redraw && step.cursor == Cursor(Succ(m.cursor.index, n), 0);
    assert Move(m.cursor, tickers, inputs[0].event) == step;
    var o := Handle(m, tickers, inputs[0], remote);
    assert o.frame.Some? && o.frame.value.symbol == tickers[Succ(m.cursor.index, n)];
    next := o.state;
  }

  /**
   Unsuspended, `k` timer callbacks draw exactly the next `k` tickers in list order, wrapping
   round the list (`RotationOrder`).
   */
  lemma {:induction false} TimerRunShowsRotation(m: AppState, tickers: seq<Symbol>, inputs: seq<Input>, remote: Symbol -> Quote)
    requires Valid(m.cursor, |tickers|) && m.cursor.skip == 0
    requires forall i :: 0 <= i < |inputs| ==> inputs[i].event == Timer
    ensures Run(m, tickers, inputs, remote).shown == RotationOrder(tickers, m.cursor.index, |inputs|)
    decreases |inputs|
  {
    if inputs != [] {
      var next := TimerRunHead(m, tickers, inputs, remote);
      TimerRunShowsRotation(next, tickers, inputs[1..], remote);
    }
  }
}
