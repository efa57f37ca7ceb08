/**
 What a run has to do with the market: for every bar of the log, which bars before and after it decide what happened
 there, stated on prices and gains.
 */
module BacktestLaw {
  import opened TradeRules
  import opened Backtest
  import opened BacktestRuns

  // ---------------------------------------------------------------------------------------
  // Holding a trade

  /** The gain of the stop in force at bar `k`: the best of the first one and of what the closes have locked in. */
  function StopGain(f: Frame, t: Trade, first: real, j: int, k: int): real
    requires 0 <= j <= k <= |f|
    decreases k
  {
    if k == j then first
    else
      var before, gain := StopGain(f, t, first, j, k - 1), t.Gain(f[k - 1].close);
      if gain >= t.model.trailStart * t.atr then Max(before, gain - t.model.trailStep * t.atr) else before
  }

  lemma {:induction false} StopGainShifts(f: Frame, t: Trade, stop: real, j: int, k: int)
    requires 0 <= j < k <= |f| && Opened(t)
    ensures StopGain(f, t, t.Gain(stop), j, k)
            == StopGain(f, t, t.Gain(UpdateTrailingStop(t, f[j].close, stop)), j + 1, k)
    decreases k
  {
    TrailInGains(t, f[j].close, stop);
    if k > j + 1 { StopGainShifts(f, t, stop, j, k - 1); }
  }

  /** Nothing happened to the trade before this bar. */
  ghost predicate Quiet(f: Frame, t: Trade, first: real, j: int, exit: int)
    requires 0 <= j <= exit <= |f|
  {
    forall k | j <= k < exit :: !StopReached(t, StopGain(f, t, first, j, k), f[k]) && !TargetReached(t, f[k])
  }

  /** The trade ends at the first bar from `j` on that reaches stop or target, or times out at `end`. */
  ghost predicate EndsAt(f: Frame, t: Trade, first: real, j: int, end: int, exit: int, ending: Ending)
    requires 0 <= j < end <= |f|
  {
    && j <= exit < end && Quiet(f, t, first, j, exit)
    && match ending
       case Timeout => exit == end - 1 && Quiet(f, t, first, j, end)
       case Finished(r) => Explains(t, StopGain(f, t, first, j, exit), f[exit], r)
  }

  lemma {:induction false} HoldFollowsBars(f: Frame, t: Trade, stop: real, j: int, end: int)
    requires Opened(t) && 0 <= j < end <= |f|
    ensures var x := Hold(f, t, stop, j, end); EndsAt(f, t, t.Gain(stop), j, end, x.index, x.ending)
    decreases end - j
  {
    hide Opened, StopReached, TargetReached, Explains, EvaluateBar, UpdateTrailingStop;
    StaysOpen(t);
    BarOutcome(t, stop, f[j]);
    var (result, next) := EvaluateBar(t, stop, f[j]);
    var x, first := Hold(f, t, stop, j, end), t.Gain(stop);
    if result.None? {
      SurvivorTrails(t, stop, f[j]);
      if j + 1 < end { HoldFollowsBars(f, t, next, j + 1, end); }
      forall k | j < k <= end
        ensures StopGain(f, t, first, j, k) == StopGain(f, t, t.Gain(next), j + 1, k)
      {
        StopGainShifts(f, t, stop, j, k);
      }
    }
  }

  lemma {:induction false} StaysOpen(t: Trade)
    requires Opened(t)
    ensures t.atr > 0.0
  {
  }

  lemma {:induction false} SurvivorTrails(t: Trade, stop: real, bar: Bar)
    requires t.atr > 0.0 && EvaluateBar(t, stop, bar).0.None?
    ensures EvaluateBar(t, stop, bar).1 == UpdateTrailingStop(t, bar.close, stop)
  {
  }

  // ---------------------------------------------------------------------------------------
  // Entering one

  /** Volatility in per cent that is neither low nor high for the asset. */
  predicate InBand(asset: AssetClass, volatility: real) {
    match asset
    case Forex => 0.006 < volatility <= 0.05
    case Crypto => 0.03 < volatility <= 0.5
    case OtherAsset => 0.05 < volatility <= 0.35
  }

  predicate BelowBand(asset: AssetClass, volatility: real) {
    volatility <= match asset case Forex => 0.006 case Crypto => 0.03 case OtherAsset => 0.05
  }

  /** A buy signal within the band opens a long trade, a sell signal a short one; everything else is skipped. */
  lemma {:induction false} ChoiceLaw(window: Frame, m: Market)
    requires ValidFrame(window) && |window| > 0
    ensures var c, signal := Choose(window, m), m.select(window).signal;
            var volatility := m.atr(window) / window[|window| - 1].close * 100.0;
            && (c.Enter? && c.side.Long? <==> signal == BuySignal && InBand(m.asset, volatility))
            && (c.Enter? && c.side.Short? <==> signal == SellSignal && InBand(m.asset, volatility))
            && (c.Enter? ==> c.atr == m.atr(window) && c.strategy == m.select(window).strategy)
            && (c == Skip(SidewaysSkip) <==> signal == Sideways)
            && (c == Skip(LowVolSkip) <==> signal != Sideways && BelowBand(m.asset, volatility))
  {
  }

  function AmountOf(f: Frame, t: Trade, exit: int, ending: Ending): real
    requires 0 <= exit < |f| && t.model.slDistance > 0.0
  {
    match ending
    case Finished(Win) => 0.5 * t.model.reward
    case Finished(TrailWin) => 0.5
    case Finished(Breakeven) => 0.0
    case Finished(Loss) => -0.5
    case Timeout => 0.5 * (t.Gain(f[exit].close) / t.model.slDistance)
  }

  /**
   One trade of a run: the window before its entry gave the signal of its side within the band; it was entered at that
   bar's close with the model of its volatility; it ended at the first of at most 49 bars that reached stop or target,
   or timed out; and it was booked for what that ending is worth.
   */
  ghost predicate TradeLaw(f: Frame, m: Market, e: Event)
    requires ValidFrame(f)
  {
    && e.Traded? && 250 <= e.entry < |f| - 20
    && var window := f[..e.entry];
    && var atr := m.atr(window);
    && m.select(window).signal == (if e.side.Long? then BuySignal else SellSignal)
    && m.select(window).strategy == e.strategy
    && InBand(m.asset, atr / f[e.entry - 1].close * 100.0)
    && var t := Trade(e.side, f[e.entry].close, atr, GetRiskModel(atr, atr / f[e.entry].close * 100.0));
    && Opened(t) && e.mode == t.model.mode && t.model.slDistance > 0.0
    && var end := if e.entry + 50 < |f| then e.entry + 50 else |f|;
    && EndsAt(f, t, -t.model.slDistance, e.entry + 1, end, e.exit, e.ending)
    && e.amount == AmountOf(f, t, e.exit, e.ending)
  }

  lemma {:induction false} AmountIsWorth(f: Frame, t: Trade, x: Exit)
    requires Opened(t) && 0 <= x.index < |f|
    ensures t.model.slDistance > 0.0 && Amount(f, t, x) == AmountOf(f, t, x.index, x.ending)
  {
    var g := f[x.index].close - t.entry;
    if x.ending.Timeout? && t.side.Short? {
      DivideTimes(g, t.model.slDistance);
      DivideTimes(-g, t.model.slDistance);
    }
  }

  lemma {:induction false} TradeFollowsMarket(f: Frame, m: Market, i: int, c: Choice)
    requires ValidFrame(f) && InRange(f, i) && c == Choose(f[..i], m) && c.Enter?
    ensures TradeLaw(f, m, TradeEvent(f, i, c.side, c.atr, c.strategy))
  {
    hide Choose, EndsAt, Hold, AmountOf, Amount, InBand, Opened, GetRiskModel;
    ChoiceLaw(f[..i], m);
    var t := OpenTrade(f, i, c.side, c.atr);
    EntryIsOpened(f, i, c.side, c.atr);
    InitialStopInPlace(t);
    HoldFollowsBars(f, t, t.InitialStop(), i + 1, HoldEnd(f, i));
    AmountIsBounded(f, t, i + 1, HoldEnd(f, i));
    AmountIsWorth(f, t, Hold(f, t, t.InitialStop(), i + 1, HoldEnd(f, i)));
  }

  lemma {:induction false} EntryIsOpened(f: Frame, i: int, side: Side, atr: real)
    requires 0 <= i < |f| && ValidFrame(f) && atr > 0.0
    ensures Opened(OpenTrade(f, i, side, atr))
  {
  }

  // ---------------------------------------------------------------------------------------
  // Whole runs

  /** The bar at index `i` was skipped for this reason. */
  ghost predicate SkipLaw(f: Frame, m: Market, i: int, reason: SkipReason)
    requires ValidFrame(f) && 0 < i <= |f|
  {
    var window := f[..i];
    var signal, volatility := m.select(window).signal, m.atr(window) / f[i - 1].close * 100.0;
    match reason
    case SidewaysSkip => signal == Sideways
    case LowVolSkip => signal != Sideways && BelowBand(m.asset, volatility)
    case WaitSkip => signal != Sideways && !BelowBand(m.asset, volatility)
                     && !(signal != OtherSignal && InBand(m.asset, volatility))
  }

  ghost predicate EventLaw(f: Frame, m: Market, i: int, e: Event)
    requires ValidFrame(f) && 0 < i <= |f|
  {
    match e
    case Cooling => true
    case Skipped(reason) => SkipLaw(f, m, i, reason)
    case Traded(entry, _, _, _, _, _, _) => entry == i && TradeLaw(f, m, e)
  }

  lemma {:induction false} EventFollowsMarket(f: Frame, m: Market, i: int, last: int)
    requires ValidFrame(f) && InRange(f, i)
    ensures EventLaw(f, m, i, EventAt(f, m, i, last))
    ensures EventAt(f, m, i, last).Cooling? <==> i - last < 10
  {
    hide TradeLaw, Choose, InBand, BelowBand, Hold, Amount;
    if i - last >= COOLDOWN {
      var c := Choose(f[..i], m);
      ChoiceLaw(f[..i], m);
      if c.Enter? {
        TradeFollowsMarket(f, m, i, c);
        TradeIsSound(f, i, c.side, c.atr, c.strategy);
      }
    }
  }

  /** A trade of the log so far ended less than ten bars before this index. */
  ghost predicate CoolingAfter(log: seq<Event>, i: int) {
    exists j | 0 <= j < |log| :: log[j].Traded? && i - log[j].exit < 10
  }

  /**
   Every bar of every run: it is passed over exactly when a trade ended less than ten bars before, and otherwise
   skipped or traded by the law of the market.
   */
  lemma {:induction false} EveryBarFollowsMarket(f: Frame, m: Market, i: int, last: int, k: int)
    requires ValidFrame(f) && FIRST_INDEX <= i && 0 <= k < |Log(f, m, i, last)|
    ensures i + k < |f| - 20 && EventLaw(f, m, i + k, Log(f, m, i, last)[k])
    ensures Log(f, m, i, last)[k].Cooling? <==> i + k - last < 10 || CoolingAfter(Log(f, m, i, last)[..k], i + k)
    decreases |f| - i
  {
    hide EventLaw, EventAt;
    var e := EventAt(f, m, i, last);
    EventFollowsMarket(f, m, i, last);
    EventIsSound(f, m, i, last);
    var rest := Log(f, m, i + 1, LastAfter(e, last));
    var log := Log(f, m, i, last);
    assert log == [e] + rest;
    if k > 0 {
      EveryBarFollowsMarket(f, m, i + 1, LastAfter(e, last), k - 1);
      assert log[..k] == [e] + rest[..k - 1];
      CoolingCons(e, rest[..k - 1], i + k);
    }
  }

  lemma {:induction false} CoolingCons(e: Event, rest: seq<Event>, i: int)
    ensures CoolingAfter([e] + rest, i) <==> (e.Traded? && i - e.exit < 10) || CoolingAfter(rest, i)
  {
    var log := [e] + rest;
    if CoolingAfter(rest, i) {
      var j :| 0 <= j < |rest| && rest[j].Traded? && i - rest[j].exit < 10;
      assert log[j + 1] == rest[j];
    }
    if e.Traded? && i - e.exit < 10 { assert log[0] == e; }
    if CoolingAfter(log, i) {
      var j :| 0 <= j < |log| && log[j].Traded? && i - log[j].exit < 10;
      if j > 0 { assert rest[j - 1] == log[j]; }
    }
  }

  // ---------------------------------------------------------------------------------------
  // The account counts the log

  function Count(log: seq<Event>, kind: Event -> bool): nat {
    if |log| == 0 then 0 else Count(log[..|log| - 1], kind) + (if kind(log[|log| - 1]) then 1 else 0)
  }

  function Sum(log: seq<Event>, amount: Event -> real): real {
    if |log| == 0 then 0.0 else Sum(log[..|log| - 1], amount) + amount(log[|log| - 1])
  }

  predicate PassedSideways(e: Event) { e == Skipped(SidewaysSkip) }
  predicate PassedLow(e: Event) { e == Skipped(LowVolSkip) }
  predicate PassedWaiting(e: Event) { e == Skipped(WaitSkip) }
  predicate AnyTrade(e: Event) { e.Traded? }
  predicate Bought(e: Event) { e.Traded? && e.side.Long? }
  predicate Sold(e: Event) { e.Traded? && e.side.Short? }
  predicate Wild(e: Event) { e.Traded? && e.mode.HighVol? }
  predicate Calm(e: Event) { e.Traded? && !e.mode.HighVol? }
  predicate TimedOut(e: Event) { e.Traded? && e.ending.Timeout? }
  predicate Trailed(e: Event) { e.Traded? && (e.ending == Finished(TrailWin) || e.ending == Finished(Breakeven)) }
  predicate Won(e: Event) { e.Traded? && (e.ending == Finished(Win) || e.ending == Finished(TrailWin)) }
  predicate LostIt(e: Event) { e.Traded? && e.ending == Finished(Loss) }
  predicate BoughtAndWon(e: Event) { Bought(e) && Won(e) }
  predicate SoldAndWon(e: Event) { Sold(e) && Won(e) }
  predicate BoughtAndLost(e: Event) { Bought(e) && LostIt(e) }
  predicate SoldAndLost(e: Event) { Sold(e) && LostIt(e) }
  function Winnings(e: Event): real { if e.Traded? && e.amount >= 0.0 then e.amount else 0.0 }
  function Losings(e: Event): real { if e.Traded? && e.amount < 0.0 then -e.amount else 0.0 }

  lemma {:induction false} SkipsAreCounted(log: seq<Event>)
    ensures var k := Booked(log).skips;
            && k.sideways == Count(log, PassedSideways)
            && k.lowVol == Count(log, PassedLow)
            && k.wait == Count(log, PassedWaiting)
    decreases |log|
  {
    if |log| > 0 { SkipsAreCounted(log[..|log| - 1]); }
  }

  lemma {:induction false} EntriesAreCounted(log: seq<Event>)
    ensures var n := Booked(log).entries;
            && n.buys == Count(log, Bought)
            && n.sells == Count(log, Sold)
            && n.highVol == Count(log, Wild)
            && n.lowVol == Count(log, Calm)
    decreases |log|
  {
    if |log| > 0 { EntriesAreCounted(log[..|log| - 1]); }
  }

  lemma {:induction false} EndingsAreCounted(log: seq<Event>)
    ensures var o := Booked(log).outcomes;
            && o.trades == Count(log, AnyTrade) && o.timeouts == Count(log, TimedOut)
            && o.trailingStopHits == Count(log, Trailed)
            && o.wins == Count(log, Won) && o.losses == Count(log, LostIt)
    decreases |log|
  {
    if |log| > 0 {
      EndingsAreCounted(log[..|log| - 1]);
      hide BookMoney, BookSkip, BookEntry, BookStrategy;
    }
  }

  lemma {:induction false} SidesAreCounted(log: seq<Event>)
    ensures var o := Booked(log).outcomes;
            && o.buyWins == Count(log, BoughtAndWon) && o.sellWins == Count(log, SoldAndWon)
            && o.buyLosses == Count(log, BoughtAndLost) && o.sellLosses == Count(log, SoldAndLost)
    decreases |log|
  {
    if |log| > 0 {
      SidesAreCounted(log[..|log| - 1]);
      hide BookMoney, BookSkip, BookEntry, BookStrategy;
    }
  }

  /** Gross profit and gross loss are the sums of what was won and of what was lost. */
  lemma {:induction false} MoneyIsSummed(log: seq<Event>, n: int)
    requires SoundLog(log, n)
    ensures var m := Booked(log).money;
            && m.grossProfit == Sum(log, Winnings)
            && m.grossLoss == Sum(log, Losings)
    decreases |log|
  {
    if |log| > 0 {
      var before, e := log[..|log| - 1], log[|log| - 1];
      MoneyIsSummed(before, n);
      if e.Traded? { BookedByAmount(Booked(before).money, e, n); }
    }
  }
}
