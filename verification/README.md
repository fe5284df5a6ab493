# Ultra-Simple Stock Monitor: quote cache and rotation, in Dafny

This project models the two pieces of stock-monitor.py that hold state:

- **The hourly quote cache** (`DataModel`, module `QuoteCache` in `quote_cache.dfy`).
  For each ticker symbol the cache keeps the hour of its last download, three price-history
  series (2 years, 5 years, 3 months), a price and a short name. `get_ticker_data` downloads
  from the remote quote service when the symbol has no stored hour (the source defaults it
  to 99), when the stored hour is not the current hour of the day, or when the stored 2-year
  series is `None`. Otherwise it serves the stored values. `get_short_name` and `get_price`
  only read the cache.
- **The rotation state machine** (module `Rotation` in `rotation.dfy`). This is the pair
  (`current_symbol_index`, `skip_next_update_timer_update`) over the fixed ticker list.
  A timer tick either counts a suspension down or moves to the next symbol with wrap-around.
  A click on a table cell moves to the first other position whose ticker equals the cell's
  text. The ticker column holds the symbol and the name column the short name
  (stock-monitor.py:151-152, 166-168), so a click on a name cell usually changes nothing.
  A click on the chart suspends auto-advance for five ticks.
- **The glue between them** (module `Monitor` in `monitor.dfy`). A callback moves the cursor.
  A redraw fetches the current symbol through the cache once. Then the table row of that
  symbol shows the cached short name and price.

Everything is an immutable value with pure transition functions:

- The six class-level dictionaries are one `map<Symbol, Entry>`.
- The wall clock is an `Hour` parameter in 0..23.
- The Yahoo service is a `remote: Symbol -> Quote` oracle. It returns a validity flag, three
  opaque series, a price and a short name.
- `wrappers.dfy` holds the `Option` type that stands for Python's `None`.

## Two behaviours of the code worth knowing

- **Invalid tickers.** The script's own docstring (stock-monitor.py:5) says the data is
  downloaded from the quote service every hour. That holds for valid tickers: a valid ticker
  is downloaded at most once per hour (`QuoteCache.ValidAtMostOncePerHour`). An invalid ticker
  is stored with `None` as its 2-year series, and a `None` 2-year series forces a download. So
  an invalid ticker is downloaded again on every call (`QuoteCache.InvalidOnEveryCall`,
  `QuoteCache.InvalidNeverFresh`).
- **Duplicate tickers.** A table click moves to the first position whose text matches and
  that is not the current index. So when a ticker appears twice in the list, clicking it
  while one occurrence is shown moves to the other occurrence. `Rotation.TableClick` states
  this rule.

## Model

| member | source | states |
|---|---|---|
| `QuoteCache.Fetch` | stock-monitor.py:74-111 | downloads exactly when the symbol has no entry, its stored hour differs from the current hour, or its stored 2-year series is `None`; a download replaces that symbol's whole entry with the remote answer and stamps the current hour; otherwise the cache is unchanged; every other symbol's entry is untouched; the returned (price, 3mo, 5y, 2y) is what the cache now holds for the symbol |
| `QuoteCache.Download` | stock-monitor.py:86-97 | a valid answer is stored with all three series, the price and the name; an invalid one becomes the sentinel (no series, price 0, "Unknown Ticker"); the stored 2-year series is present exactly when the ticker is valid |
| `QuoteCache.ShortName` | stock-monitor.py:113-116 | the cached short name, or "" for a symbol never downloaded |
| `QuoteCache.Price` | stock-monitor.py:118-121 | the cached price, or 0 for a symbol never downloaded |
| `QuoteCache.CacheHit` | stock-monitor.py:77-79 | with the current hour stored and a 2-year series present, no download happens, the cache is unchanged, and the stored price and series are returned |
| `QuoteCache.CacheMiss` | stock-monitor.py:77-82 | with no entry, another hour, or no 2-year series, a download happens and the symbol's entry and result are the ones built from the remote answer |
| `QuoteCache.InvalidTicker` | stock-monitor.py:92-97 | a download of an invalid ticker returns price 0 and no series, and afterwards the name lookup gives "Unknown Ticker" and the price lookup 0 |
| `QuoteCache.LookupsAfterFetch` | stock-monitor.py:99-121 | after a fetch, `get_price` reports the returned price, and `get_short_name` reports the remote name, the sentinel name, or the previously cached name, according to the branch taken |
| `QuoteCache.SameHourValid` | stock-monitor.py:76-79 | a second call for a valid ticker in the same hour does not download and returns the same values from an unchanged cache |
| `QuoteCache.HourChangeDownloads` | stock-monitor.py:76-82 | a second call in a different hour always downloads |
| `QuoteCache.InvalidNeverFresh` | stock-monitor.py:77-93 | after an invalid ticker is downloaded, its entry is stale for every hour, so the next call downloads again |
| `QuoteCache.FetchEach` | stock-monitor.py:79-82 | over a sequence of calls, there are at most as many downloads as calls, every downloaded symbol was asked for, and a symbol never asked for neither appears in nor leaves the cache and keeps its entry |
| `QuoteCache.FreshStaysFresh` | stock-monitor.py:104-108 | a fresh entry is neither downloaded again nor changed by any later calls in the same hour |
| `QuoteCache.ValidAtMostOncePerHour` | stock-monitor.py:76-82 | however many calls in one hour ask for a valid ticker, it is downloaded at most once |
| `QuoteCache.InvalidOnEveryCall` | stock-monitor.py:79-93 | an invalid ticker that is not fresh is downloaded once for every call that asks for it |
| `QuoteCache.DeferredPopulation` | stock-monitor.py:113-121 | a symbol that no call has asked for keeps the empty short name and the zero price, however many other symbols are downloaded |
| `QuoteCache.ExampleInvalidTicker` | stock-monitor.py:92-97 | example: "ZZZZINVALID" on an empty cache downloads, returns (0, None, None, None) and afterwards has the name "Unknown Ticker" |
| `Rotation.Tick` | stock-monitor.py:179-188 | a suspended tick decreases the countdown by exactly one, keeps the index and does not redraw; otherwise the index becomes (index + 1) mod N, with a redraw; both branches keep 0 <= index < N and 0 <= skip <= 5 |
| `Rotation.ClickTarget` | stock-monitor.py:167-169 | the result is the first position holding the clicked text that differs from the current index, or none if there is no such position |
| `Rotation.TableClick` | stock-monitor.py:164-173 | a redraw happens exactly when some position other than the current one holds the clicked text; it then moves to the first such position and sets the countdown to exactly 5; otherwise the state is unchanged |
| `Rotation.GraphClick` | stock-monitor.py:175-177 | the countdown becomes exactly 5, the index is unchanged, and there is no redraw |
| `Rotation.HandlersPreserveValid` | stock-monitor.py:164-187 | all three handlers keep the index inside the ticker list and the countdown in 0..5 |
| `Rotation.Ticks` | stock-monitor.py:179-188 | k ticks redraw at most k times and keep a reachable cursor reachable |
| `Rotation.SuspendedTicks` | stock-monitor.py:181-182 | up to `skip` ticks only count down, without a redraw |
| `Rotation.FreeRunningTicks` | stock-monitor.py:183-187 | unsuspended, k ticks move the index to (index + k) mod N with k redraws |
| `Rotation.TicksLaw` | stock-monitor.py:179-188 | from a reachable state, k ticks first use up the countdown and then advance once per remaining tick, with one redraw per advance |
| `Rotation.ClickHoldsForCooldown` | stock-monitor.py:169-187 | after a table click picks a symbol, five ticks keep it on screen without a redraw, and the sixth moves on to the next symbol with one redraw |
| `Rotation.FullRound` | stock-monitor.py:184-186 | N unsuspended ticks show every position of the list and return to the starting symbol with N redraws |
| `Rotation.RoundVisitsAll` | stock-monitor.py:183-187 | unsuspended, every position of the list is shown within the first N ticks |
| `Rotation.RotationOrderAt` | stock-monitor.py:184-186 | the k tickers shown next by an unsuspended cursor at i are, in order, those at (i + j + 1) mod N for j < k |
| `Rotation.ExampleWrap` | stock-monitor.py:184-187 | example: on [AAPL, MSFT, GOOG] at index 2, a tick wraps to index 0 and redraws |
| `Rotation.ExampleSelectCurrent` | stock-monitor.py:167-173 | example: clicking MSFT while MSFT (index 1) is shown changes nothing and does not redraw |
| `Monitor.CurrentSymbol` | stock-monitor.py:207-209 | the symbol under the cursor is the ticker at the cursor's index, one of the configured tickers |
| `Monitor.Redraw` | stock-monitor.py:191-217 | a redraw fetches only the current symbol; it downloads exactly when that symbol is not fresh, and then stores the entry built from the remote answer; otherwise the cache is unchanged; the chart is what the cache now holds for the symbol; afterwards the symbol is fresh exactly when it already was or the ticker is valid; the row shows the cached name and the charted price; other symbols' entries are untouched |
| `Monitor.Start` | stock-monitor.py:154-157 | startup puts the cursor on the first ticker with no suspension, downloads it into the empty cache so that the cache holds exactly the entry built from the remote answer, and draws that entry's chart |
| `Monitor.Handle` | stock-monitor.py:164-188 | a callback moves the cursor as its handler says; it draws exactly when the handler redraws, and then the outcome is exactly one redraw of the new current symbol, which downloads exactly when that symbol is stale; without a redraw the cache is untouched and nothing is downloaded |
| `Monitor.Run` | stock-monitor.py:162-188 | over any sequence of callbacks the cursor stays valid, every drawn symbol is a configured ticker, there are at most as many downloads as redraws, and symbols outside the list never enter the cache |
| `Monitor.RunIsFetchEach` | stock-monitor.py:162-217 | within one hour, the final cache and the number of downloads of a run are those of fetching the drawn symbols one after another, so the once-per-hour law for valid tickers and the every-call law for invalid ones hold for the whole application |
| `Monitor.TimerRunIsTicks` | stock-monitor.py:179-188 | a run of timer callbacks leaves the cursor exactly where the same number of rotation ticks leaves it, and draws exactly once per tick that redraws |
| `Monitor.TimerRunShowsRotation` | stock-monitor.py:183-193 | from an unsuspended state, a run of timer callbacks draws exactly the next tickers in list order, wrapping round the list |
| `Monitor.QuietCallbacks` | stock-monitor.py:175-182 | a chart click and a suspended tick draw nothing and leave the cache unchanged |
| `Monitor.InvalidCurrentRedrawsDownload` | stock-monitor.py:191-217 | while the current symbol is an invalid ticker, each redraw of it downloads again, in any hour, and its row shows "Unknown Ticker" |

## Left out

- `StockSymbolTable` (stock-monitor.py:24-58): tkinter labels and grid layout. The row update is reduced to the name and price in `Monitor.Frame`.
- Plotting (`build_plot_canvas` and the canvas swap in `update_graph`): matplotlib and tkinter calls. A redraw is modelled as one cache fetch plus the values it would draw.
- The Yahoo queries (`Ticker`, `validation`, `history`, the parsing of the `'fmt'` price string): foreign calls, modelled as the `remote` oracle. Series are opaque and prices are reals.
- `datetime.datetime.now()`: the clock is the `Hour` parameter. Because only the hour of the day is compared, data downloaded at hour H counts as fresh at hour H of any later day if there is no call in between. The model keeps this: `Hour` carries no date.
- Rescheduling with `self.after`: a tick is one transition, and the event loop is the sequence given to `Monitor.Run`.
- Exceptions: the code has no `try`/`except`. A raising remote call would leave the new hour stored and the other fields stale. The model has no failing remote call, so no fetch-error path is modelled.
- Startup I/O (argument check and ticker-file reading, stock-monitor.py:260-276): the ticker list is a parameter, and `Monitor.Start` requires it to be non-empty.
- Class-level dictionaries shared between `DataModel` instances: modelled as one explicit cache value.
- `print` debugging output.
- `get_price` returns the stored Python value, which is an int 0 for the sentinel and a float otherwise. Both are the real number 0.0 or the price here.
- QuoteCache.ValidAtMostOncePerHour: the remote oracle is the same function for the whole sequence of calls, and all calls run in one hour. A service whose answers change between calls in the same hour is not covered.
- QuoteCache.InvalidOnEveryCall: same fixed-oracle, single-hour restriction as above.
