/** The simulator does not look ahead: bars from some index on cannot change trades finished before it. */
module BacktestLookahead {
  import opened TradeRules
  import opened Backtest
  import opened BacktestRuns

  predicate AgreeBefore(f: Frame, g: Frame, k: int) {
    |f| == |g| && forall r | 0 <= r < k && r < |f| :: f[r] == g[r]
  }

  /** The bar that ends a trade is judged by its high and low alone; its close and later bars are not read. */
  lemma {:induction false} ExitIgnoresItsClose(f: Frame, g: Frame, t: Trade, stop: real, j: int, end: int)
    requires 0 <= j < end <= |f| == |g| && t.atr > 0.0
    requires var x := Hold(f, t, stop, j, end);
             && x.ending.Finished?
             && 0 <= x.index < |f| && AgreeBefore(f, g, x.index)
             && g[x.index].high == f[x.index].high && g[x.index].low == f[x.index].low
    ensures Hold(g, t, stop, j, end) == Hold(f, t, stop, j, end)
    decreases end - j
  {
    var (result, next) := EvaluateBar(t, stop, f[j]);
    if result.None? {
      ExitIsLater(f, t, next, j + 1, end);
      ExitIgnoresItsClose(f, g, t, next, j + 1, end);
    }
  }

  lemma {:induction false} ExitIsLater(f: Frame, t: Trade, stop: real, j: int, end: int)
    requires 0 <= j < end <= |f| && t.atr > 0.0
    ensures j <= Hold(f, t, stop, j, end).index < end
    decreases end - j
  {
    var (result, next) := EvaluateBar(t, stop, f[j]);
    if result.None? && j + 1 < end {
      ExitIsLater(f, t, next, j + 1, end);
    }
  }

  lemma {:induction false} HoldAgrees(f: Frame, g: Frame, t: Trade, stop: real, j: int, end: int, k: int)
    requires 0 <= j < end <= |f| && t.atr > 0.0 && AgreeBefore(f, g, k)
    ensures var x, y := Hold(f, t, stop, j, end), Hold(g, t, stop, j, end);
            j <= x.index < end && j <= y.index < end && ((x.index >= k && y.index >= k) || (x == y && x.index < k))
    decreases end - j
  {
    ExitIsLater(f, t, stop, j, end);
    ExitIsLater(g, t, stop, j, end);
    if j < k {
      var (result, next) := EvaluateBar(t, stop, f[j]);
      if result.None? && j + 1 < end {
        HoldAgrees(f, g, t, next, j + 1, end, k);
      }
    }
  }

  /** Two events are alike before `k`: equal, or both trades that end at `k` or later. */
  predicate AlikeBefore(d: Event, e: Event, k: int) {
    || (d == e && (d.Traded? ==> d.exit < k))
    || (d.Traded? && e.Traded? && d.exit >= k && e.exit >= k)
  }

  lemma {:induction false} TradesAgree(f: Frame, g: Frame, i: int, side: Side, atr: real, strategy: string, k: int)
    requires ValidFrame(f) && ValidFrame(g) && AgreeBefore(f, g, k)
    requires 0 <= i < k && i + 1 < |f| && atr > 0.0
    ensures AlikeBefore(TradeEvent(f, i, side, atr, strategy), TradeEvent(g, i, side, atr, strategy), k)
  {
    var t := OpenTrade(f, i, side, atr);
    assert t == OpenTrade(g, i, side, atr);
    HoldAgrees(f, g, t, t.InitialStop(), i + 1, HoldEnd(f, i), k);
  }

  lemma {:induction false} EventsAgree(f: Frame, g: Frame, m: Market, i: int, last: int, k: int)
    requires ValidFrame(f) && ValidFrame(g) && AgreeBefore(f, g, k) && InRange(f, i) && i < k
    ensures AlikeBefore(EventAt(f, m, i, last), EventAt(g, m, i, last), k)
  {
    assert f[..i] == g[..i];
    if i - last >= COOLDOWN {
      var c := Choose(f[..i], m);
      if c.Enter? { TradesAgree(f, g, i, c.side, c.atr, c.strategy, k); }
    }
  }

  /** The trades of a log that ended before `k`, in order. */
  function FinishedBefore(log: seq<Event>, k: int): seq<Event> {
    if |log| == 0 then []
    else (if log[0].Traded? && log[0].exit < k then [log[0]] else []) + FinishedBefore(log[1..], k)
  }

  lemma {:induction false} FinishedInLog(f: Frame, m: Market, i: int, last: int, k: int)
    requires ValidFrame(f) && FIRST_INDEX <= i && InRange(f, i)
    ensures var e := EventAt(f, m, i, last);
            FinishedBefore(Log(f, m, i, last), k)
            == (if e.Traded? && e.exit < k then [e] else []) + FinishedBefore(Log(f, m, i + 1, LastAfter(e, last)), k)
  {
    hide EventAt;
    assert Log(f, m, i, last)[1..] == Log(f, m, i + 1, LastAfter(EventAt(f, m, i, last), last));
  }

  lemma {:induction false} NothingFinishesEarlier(f: Frame, m: Market, i: int, last: int, k: int)
    requires ValidFrame(f) && FIRST_INDEX <= i && (i >= k || last >= k)
    ensures FinishedBefore(Log(f, m, i, last), k) == []
    decreases |f| - i
  {
    hide EventAt;
    if InRange(f, i) {
      EventIsSound(f, m, i, last);
      NothingFinishesEarlier(f, m, i + 1, LastAfter(EventAt(f, m, i, last), last), k);
      FinishedInLog(f, m, i, last, k);
    }
  }

  /** Frames of equal length that agree on the rows before `k` yield the same trades finished before `k`. */
  lemma {:induction false} NoLookahead(f: Frame, g: Frame, m: Market, i: int, last: int, k: int)
    requires ValidFrame(f) && ValidFrame(g) && AgreeBefore(f, g, k) && FIRST_INDEX <= i
    ensures FinishedBefore(Log(f, m, i, last), k) == FinishedBefore(Log(g, m, i, last), k)
    decreases |f| - i
  {
    hide EventAt;
    if i >= k || last >= k {
      NothingFinishesEarlier(f, m, i, last, k);
      NothingFinishesEarlier(g, m, i, last, k);
    } else if InRange(f, i) {
      hide Log, FinishedBefore;
      var d, e := EventAt(f, m, i, last), EventAt(g, m, i, last);
      EventsAgree(f, g, m, i, last, k);
      FinishedInLog(f, m, i, last, k);
      FinishedInLog(g, m, i, last, k);
      if d == e && (d.Traded? ==> d.exit < k) {
        NoLookahead(f, g, m, i + 1, LastAfter(d, last), k);
      } else {
        NothingFinishesEarlier(f, m, i + 1, d.exit, k);
        NothingFinishesEarlier(g, m, i + 1, e.exit, k);
      }
    }
  }
}
