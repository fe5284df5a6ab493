/**
 Model of the display cursor of `App` in stock-monitor.py: the pair
 (`current_symbol_index`, `skip_next_update_timer_update`) over a fixed ticker list, and the
 three handlers that change it. Each transition reports whether it asks for a redraw.
 */
module Rotation {
  import opened Wrappers

  /** The number of timer ticks a user interaction suspends auto-advance for. */
  const Cooldown: int := 5

  datatype Cursor = Cursor(index: int, skip: int)

  /** A cursor after one handler, and whether the handler redraws the chart. */
  datatype Step = Step(cursor: Cursor, redraw: bool)

  /** The states the application can reach over `n` tickers. */
  predicate Valid(c: Cursor, n: int)
  {
    0 <= c.index < n && 0 <= c.skip <= Cooldown
  }

  /** The position after `i`, wrapping to the first one past the end of a list of `n`. */
  function Succ(i: int, n: int): int
  {
    if i + 1 >= n then 0 else i + 1
  }

  /** `timer_signal`: count a suspended tick down, or advance with wrap-around and redraw. */
  function Tick(c: Cursor, n: int): (r: Step)
    ensures c.skip > 0 ==> !r.redraw && r.cursor.index == c.index && r.cursor.skip == c.skip - 1
    ensures c.skip <= 0 ==> r.redraw && r.cursor.skip == c.skip
    ensures c.skip <= 0 && 0 <= c.index < n ==> r.cursor.index == (c.index + 1) % n
    ensures Valid(c, n) ==> Valid(r.cursor, n)
  {
    if c.skip > 0 then
      Step(c.(skip := c.skip - 1), false)
    else
      Step(c.(index := Succ(c.index, n)), true)
  }

  /** A position a click on `text` moves to: that ticker, at a position other than the current one. */
  predicate IsTarget(tickers: seq<string>, text: string, current: int, k: int)
  {
    0 <= k < |tickers| && tickers[k] == text && k != current
  }

  /** The loop of `on_table_click` from position `from` on: the first target, if any. */
  function ClickTarget(tickers: seq<string>, text: string, current: int, from: nat): (r: Option<nat>)
    requires from <= |tickers|
    ensures r.Some? ==> from <= r.value && IsTarget(tickers, text, current, r.value)
    ensures r.Some? ==> forall j :: from <= j < r.value ==> !IsTarget(tickers, text, current, j)
    ensures r.None? ==> forall j :: from <= j < |tickers| ==> !IsTarget(tickers, text, current, j)
    decreases |tickers| - from
  {
    if from == |tickers| then None
    else if tickers[from] == text && from != current then Some(from)
    else ClickTarget(tickers, text, current, from + 1)
  }

  /**
   `on_table_click`: move to the first position holding the clicked text other than the
   current one, redraw and suspend auto-advance; with no such position nothing changes.
   */
  function TableClick(c: Cursor, tickers: seq<string>, text: string): (r: Step)
    ensures r.redraw <==> exists k :: IsTarget(tickers, text, c.index, k)
    ensures !r.redraw ==> r.cursor == c
    ensures r.redraw ==>
      && r.cursor.skip == Cooldown
      && IsTarget(tickers, text, c.index, r.cursor.index)
      && forall j :: 0 <= j < r.cursor.index ==> !IsTarget(tickers, text, c.index, j)
  {
    match ClickTarget(tickers, text, c.index, 0)
    case None => Step(c, false)
    case Some(k) => Step(Cursor(k, Cooldown), true)
  }

  /** `on_graph_click`: suspend auto-advance, nothing else. */
  function GraphClick(c: Cursor): (r: Step)
    ensures r.cursor.index == c.index && r.cursor.skip == Cooldown && !r.redraw
  {
    Step(c.(skip := Cooldown), false)
  }

  /** Every handler keeps the cursor inside the reachable states. */
  lemma HandlersPreserveValid(c: Cursor, tickers: seq<string>, text: string)
    requires Valid(c, |tickers|)
    ensures Valid(Tick(c, |tickers|).cursor, |tickers|)
    ensures Valid(TableClick(c, tickers, text).cursor, |tickers|)
    ensures Valid(GraphClick(c).cursor, |tickers|)
  {
  }

  /** A cursor after `k` timer ticks, and how many of them redrew. */
  datatype Ticked = Ticked(cursor: Cursor, redraws: nat)

  function Ticks(c: Cursor, n: int, k: nat): (r: Ticked)
    ensures r.redraws <= k
    ensures Valid(c, n) ==> Valid(r.cursor, n)
    decreases k
  {
    if k == 0 then Ticked(c, 0)
    else
      var s := Tick(c, n);
      var rest := Ticks(s.cursor, n, k - 1);
      Ticked(rest.cursor, rest.redraws + if s.redraw then 1 else 0)
  }

  /** While suspended, ticks only count down. */
  lemma {:induction false} SuspendedTicks(c: Cursor, n: int, k: nat)
    requires k <= c.skip
    ensures Ticks(c, n, k) == Ticked(Cursor(c.index, c.skip - k), 0)
    decreases k
  {
    if k > 0 {
      SuspendedTicks(Tick(c, n).cursor, n, k - 1);
    }
  }

  lemma {:induction false} MulAtLeast(d: int, n: int)
    requires d >= 1 && n > 0
    ensures d * n >= n
    decreases d
  {
    if d > 1 {
      MulAtLeast(d - 1, n);
      assert d * n == (d - 1) * n + n;
    }
  }

  /** Euclidean division has one quotient and one remainder. */
  lemma ModUnique(a: int, n: int, q: int, r: int)
    requires 0 < n && 0 <= r < n && a == q * n + r
    ensures a % n == r
  {
    var q0 := a / n;
    var r0 := a % n;
    assert a == q0 * n + r0;
    assert (q - q0) * n == r0 - r;
    if q - q0 >= 1 {
      MulAtLeast(q - q0, n);
      assert false;
    } else if q0 - q >= 1 {
      MulAtLeast(q0 - q, n);
      assert false;
    }
  }

  lemma ModSucc(a: int, n: int)
    requires 0 <= a && 0 < n
    ensures (a % n + 1) % n == (a + 1) % n
  {
    var q := a / n;
    var r := a % n;
    assert a == q * n + r;
    if r + 1 < n {
      ModUnique(a + 1, n, q, r + 1);
      ModUnique(r + 1, n, 0, r + 1);
    } else {
      assert a + 1 == (q + 1) * n + 0;
      ModUnique(a + 1, n, q + 1, 0);
      ModUnique(r + 1, n, 1, 0);
    }
  }

  lemma ModAdd(a: int, b: int, n: int)
    requires 0 <= a && 0 <= b && 0 < n
    ensures (a % n + b) % n == (a + b) % n
  {
    var q := a / n;
    var r := a % n;
    var p := (r + b) / n;
    var t := (r + b) % n;
    assert a == q * n + r;
    assert r + b == p * n + t;
    assert a + b == (q + p) * n + t;
    ModUnique(a + b, n, q + p, t);
  }

  /** Unsuspended, every tick redraws and the cursor moves round the list. */
  lemma {:induction false} FreeRunningTicks(c: Cursor, n: int, k: nat)
    requires 0 <= c.index < n && c.skip == 0
    ensures Ticks(c, n, k) == Ticked(Cursor((c.index + k) % n, 0), k)
    decreases k
  {
    if k > 0 {
      FreeRunningTicks(c, n, k - 1);
      TicksSplit(c, n, k - 1, 1);
      ModSucc(c.index + (k - 1), n);
    }
  }

  /** Ticks compose: `a + b` ticks are `a` ticks followed by `b` ticks. */
  lemma {:induction false} TicksSplit(c: Cursor, n: int, a: nat, b: nat)
    ensures var first := Ticks(c, n, a);
      var second := Ticks(first.cursor, n, b);
      Ticks(c, n, a + b) == Ticked(second.cursor, first.redraws + second.redraws)
    decreases a
  {
    if a > 0 {
      TicksSplit(Tick(c, n).cursor, n, a - 1, b);
    }
  }

  /**
   The timer law: from a reachable cursor, `k` ticks first spend the suspension and then
   advance once per tick, redrawing each time they advance.
   */
  lemma TicksLaw(c: Cursor, n: int, k: nat)
    requires Valid(c, n)
    ensures var moves := if k <= c.skip then 0 else k - c.skip;
      Ticks(c, n, k) == Ticked(Cursor((c.index + moves) % n, if k <= c.skip then c.skip - k else 0), moves)
  {
    if k <= c.skip {
      SuspendedTicks(c, n, k);
      ModUnique(c.index, n, 0, c.index);
    } else {
      var moves := k - c.skip;
      SuspendedTicks(c, n, c.skip);
      assert Ticks(c, n, c.skip) == Ticked(Cursor(c.index, 0), 0);
      FreeRunningTicks(Cursor(c.index, 0), n, moves);
      TicksSplit(c, n, c.skip, moves);
      assert c.skip + moves == k;
    }
  }

  /**
   After a table click selects a symbol, the next five ticks keep it on screen without
   redrawing, and the sixth advances to the following symbol and redraws.
   */
  lemma ClickHoldsForCooldown(c: Cursor, tickers: seq<string>, text: string)
    requires Valid(c, |tickers|)
    requires TableClick(c, tickers, text).redraw
    ensures var picked := TableClick(c, tickers, text).cursor;
      && Ticks(picked, |tickers|, Cooldown) == Ticked(Cursor(picked.index, 0), 0)
      && Ticks(picked, |tickers|, Cooldown + 1)
         == Ticked(Cursor((picked.index + 1) % |tickers|, 0), 1)
  {
    var picked := TableClick(c, tickers, text).cursor;
    TicksLaw(picked, |tickers|, Cooldown);
    TicksLaw(picked, |tickers|, Cooldown + 1);
  }

  /** Position `p` is shown within fewer than `n` ticks from `c`. */
  ghost predicate Visited(c: Cursor, n: int, p: int)
  {
    exists k :: 0 <= k < n && Ticks(c, n, k).cursor.index == p
  }

  /** The number of unsuspended ticks that bring the cursor to position `p`. */
  lemma Reaches(c: Cursor, n: int, p: int) returns (k: nat)
    requires Valid(c, n) && c.skip == 0 && 0 <= p < n
    ensures k < n && Ticks(c, n, k).cursor.index == p
  {
    if p >= c.index {
      k := p - c.index;
      ModUnique(p, n, 0, p);
    } else {
      k := p + n - c.index;
      assert p + n == 1 * n + p;
      ModUnique(p + n, n, 1, p);
    }
    FreeRunningTicks(c, n, k);
  }

  /** Unsuspended, the first `n` ticks show every position of the list. */
  lemma RoundVisitsAll(c: Cursor, n: int)
    requires Valid(c, n) && c.skip == 0
    ensures forall p :: 0 <= p < n ==> Visited(c, n, p)
  {
    forall p | 0 <= p < n
      ensures Visited(c, n, p)
    {
      var k := Reaches(c, n, p);
    }
  }

  /**
   A full round of unsuspended ticks shows every symbol and returns to the starting one,
   with one redraw per tick.
   */
  lemma FullRound(c: Cursor, n: int)
    requires Valid(c, n) && c.skip == 0
    ensures Ticks(c, n, n) == Ticked(c, n)
    ensures forall p :: 0 <= p < n ==> Visited(c, n, p)
  {
    assert c.index + n == 1 * n + c.index;
    ModUnique(c.index + n, n, 1, c.index);
    assert Cursor((c.index + n) % n, 0) == c;
    FreeRunningTicks(c, n, n);
    RoundVisitsAll(c, n);
  }

  /** The `k` tickers an unsuspended cursor at `i` shows next, in order. */
  function RotationOrder(tickers: seq<string>, i: int, k: nat): seq<string>
    requires 0 <= i < |tickers|
    decreases k
  {
    if k == 0 then []
    else
      var next := Succ(i, |tickers|);
      [tickers[next]] + RotationOrder(tickers, next, k - 1)
  }

  /** Moving on by `Succ` and then `j` more positions is moving on `j + 1` positions. */
  lemma SuccShift(i: int, j: int, n: int)
    requires 0 <= i < n && 0 <= j
    ensures (Succ(i, n) + j) % n == (i + 1 + j) % n
  {
    if i + 1 >= n {
      ModUnique(n, n, 1, 0);
      ModAdd(n, j, n);
    }
  }

  /** The `j`-th ticker shown is the one `j + 1` positions after the start, modulo the length. */
  lemma {:induction false} RotationOrderAt(tickers: seq<string>, i: int, k: nat)
    requires 0 <= i < |tickers|
    ensures |RotationOrder(tickers, i, k)| == k
    ensures forall j :: 0 <= j < k ==> RotationOrder(tickers, i, k)[j] == tickers[(i + j + 1) % |tickers|]
    decreases k
  {
    if k > 0 {
      var n := |tickers|;
      var next := Succ(i, n);
      var order := RotationOrder(tickers, i, k);
      var later := RotationOrder(tickers, next, k - 1);
      RotationOrderAt(tickers, next, k - 1);
      assert order == [tickers[next]] + later;
      forall j | 0 <= j < k
        ensures order[j] == tickers[(i + j + 1) % n]
      {
        SuccShift(i, j, n);
        if j == 0 {
          ModUnique(next, n, 0, next);
        } else {
          assert order[j] == later[j - 1];
        }
      }
    }
  }

  /** Example: on [AAPL, MSFT, GOOG] at GOOG, a tick wraps to AAPL and redraws. */
  lemma ExampleWrap()
    ensures Tick(Cursor(2, 0), |["AAPL", "MSFT", "GOOG"]|) == Step(Cursor(0, 0), true)
  {
  }

  /** Example: clicking the symbol already shown changes nothing and does not redraw. */
  lemma ExampleSelectCurrent()
    ensures TableClick(Cursor(1, 0), ["AAPL", "MSFT", "GOOG"], "MSFT") == Step(Cursor(1, 0), false)
  {
    assert !IsTarget(["AAPL", "MSFT", "GOOG"], "MSFT", 1, 0);
    assert !IsTarget(["AAPL", "MSFT", "GOOG"], "MSFT", 1, 2);
  }
}
