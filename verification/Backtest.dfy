/**
 The backtest run: a pass over the bars with a cooldown after each trade, an inner loop that holds a
 trade until its stop, its target or the holding limit, and the running account. The run is specified
 by the log of what happened at each bar; the account is what booking that log yields.
 */
module Backtest {
  import opened TradeRules

  const INITIAL_BALANCE := 50.0
  const RISK_PER_TRADE := 0.5
  const COOLDOWN: int := 10
  const MAX_HOLD: int := 50
  const FIRST_INDEX: int := 250
  const TAIL: int := 20
  const NEVER: int := -999

  datatype Pick = Pick(signal: Signal, strategy: string)

  /** What the run asks of the window of bars seen so far. */
  datatype Market = Market(select: seq<Bar> -> Pick, atr: seq<Bar> -> real, asset: AssetClass)

  type Frame = seq<Bar>

  predicate ValidFrame(f: Frame) {
    forall i | 0 <= i < |f| :: ValidBar(f[i])
  }

  // ---------------------------------------------------------------------------------------
  // Holding one trade

  datatype Ending = Finished(result: TradeResult) | Timeout
  datatype Exit = Exit(ending: Ending, index: int, stop: real)

  /** Bars from `j` up to `end`, with the stop carried along. */
  function Hold(f: Frame, t: Trade, stop: real, j: int, end: int): Exit
    requires 0 <= j < end <= |f| && t.atr > 0.0
    decreases end - j
  {
    var (result, next) := EvaluateBar(t, stop, f[j]);
    if result.Some? then Exit(Finished(result.value), j, next)
    else if j + 1 < end then Hold(f, t, next, j + 1, end)
    else Exit(Timeout, j, next)
  }

  /** The inner loop. */
  method HoldTrade(f: Frame, t: Trade, j0: int, end: int) returns (exit: Exit)
    requires 0 <= j0 < end <= |f| && t.atr > 0.0
    ensures exit == Hold(f, t, t.InitialStop(), j0, end)
  {
    var stop, j := t.InitialStop(), j0;
    while true
      invariant j0 <= j < end
      invariant Hold(f, t, stop, j, end) == Hold(f, t, t.InitialStop(), j0, end)
      decreases end - j
    {
      var (result, next) := EvaluateBar(t, stop, f[j]);
      stop := next;
      if result.Some? { return Exit(Finished(result.value), j, stop); }
      if j + 1 == end { return Exit(Timeout, j, stop); }
      j := j + 1;
    }
  }

  /** Profit or loss of a trade in account currency. */
  function Amount(f: Frame, t: Trade, x: Exit): real
    requires 0 <= x.index < |f|
  {
    match x.ending
    case Finished(Win) => RISK_PER_TRADE * t.model.reward
    case Finished(TrailWin) => RISK_PER_TRADE
    case Finished(Breakeven) => 0.0
    case Finished(Loss) => -RISK_PER_TRADE
    case Timeout =>
      if t.model.slDistance > 0.0 then
        RISK_PER_TRADE * ((if t.side.Long? then 1.0 else -1.0) * (f[x.index].close - t.entry) / t.model.slDistance)
      else 0.0
  }

  /** Everything the trailing-stop invariant says about a whole trade, for any bars. */
  lemma {:induction false} HoldKeepsStop(f: Frame, t: Trade, stop: real, j: int, end: int)
    requires ValidFrame(f) && Opened(t) && 0 <= j < end <= |f| && StopInPlace(t, stop)
    ensures var x := Hold(f, t, stop, j, end);
            && j <= x.index < end
            && StopInPlace(t, x.stop)
            && t.Gain(x.stop) >= t.Gain(stop)
            && x.ending != Finished(Breakeven)
            && (t.model.mode.LowVol? ==> x.ending != Finished(TrailWin) && x.stop == t.InitialStop())
            && (x.ending.Timeout? ==> t.Gain(x.stop) < t.Gain(f[x.index].close) < t.model.tpDistance)
    decreases end - j
  {
    BarKeepsStop(t, stop, f[j]);
    var (result, next) := EvaluateBar(t, stop, f[j]);
    if result.None? && j + 1 < end {
      HoldKeepsStop(f, t, next, j + 1, end);
    }
  }

  /** A trade wins at most twice its risk and loses at most its risk, timeouts included. */
  lemma {:induction false} AmountIsBounded(f: Frame, t: Trade, j: int, end: int)
    requires ValidFrame(f) && Opened(t) && 0 <= j < end <= |f|
    ensures var x := Hold(f, t, t.InitialStop(), j, end);
            j <= x.index < end && -RISK_PER_TRADE <= Amount(f, t, x) <= 2.0 * RISK_PER_TRADE
  {
    InitialStopInPlace(t);
    HoldKeepsStop(f, t, t.InitialStop(), j, end);
    var x := Hold(f, t, t.InitialStop(), j, end);
    if x.ending.Timeout? {
      var g, sl := t.Gain(f[x.index].close), t.model.slDistance;
      InitialStopInPlace(t);
      assert -sl < g < t.model.tpDistance;
      QuotientBounds(g, sl, t.model.tpDistance);
      assert Amount(f, t, x) == RISK_PER_TRADE * (g / sl);
    }
  }

  lemma {:induction false} QuotientBounds(g: real, sl: real, tp: real)
    requires sl > 0.0 && -sl <= g <= tp <= 2.0 * sl
    ensures -1.0 <= g / sl <= 2.0
  {
    DivideTimes(g, sl);
  }

  // ---------------------------------------------------------------------------------------
  // The log of a run

  datatype SkipReason = SidewaysSkip | LowVolSkip | WaitSkip

  datatype Event =
    | Cooling
    | Skipped(reason: SkipReason)
    | Traded(entry: int, exit: int, side: Side, mode: Mode, strategy: string, ending: Ending, amount: real)

  function HoldEnd(f: Frame, i: int): int {
    if i + MAX_HOLD < |f| then i + MAX_HOLD else |f|
  }

  function OpenTrade(f: Frame, i: int, side: Side, atr: real): Trade
    requires 0 <= i < |f| && ValidFrame(f)
  {
    var entry := f[i].close;
    Trade(side, entry, atr, GetRiskModel(atr, VolatilityPercent(atr, entry)))
  }

  function TradeEvent(f: Frame, i: int, side: Side, atr: real, strategy: string): Event
    requires 0 <= i && i + 1 < |f| && ValidFrame(f) && atr > 0.0
  {
    var t := OpenTrade(f, i, side, atr);
    assert Opened(t);
    AmountIsBounded(f, t, i + 1, HoldEnd(f, i));
    var x := Hold(f, t, t.InitialStop(), i + 1, HoldEnd(f, i));
    Traded(i, x.index, side, t.model.mode, strategy, x.ending, Amount(f, t, x))
  }

  /** What the run decides at one index from the bars before it, ahead of looking at any later bar. */
  datatype Choice = Skip(reason: SkipReason) | Enter(side: Side, atr: real, strategy: string)

  function Choose(window: Frame, m: Market): (c: Choice)
    requires ValidFrame(window) && |window| > 0
    ensures c.Enter? ==> c.atr > 0.0
  {
    var pick, atr, price := m.select(window), m.atr(window), window[|window| - 1].close;
    var status := ClassifyMarket(atr, price, m.asset);
    var decision := MakeDecision(pick.signal, status);
    if pick.signal == Sideways then Skip(SidewaysSkip)
    else if status == Low then Skip(LowVolSkip)
    else if decision == Wait then Skip(WaitSkip)
    else
      EntryHasPositiveRange(atr, price, m.asset);
      Enter(if decision == Buy then Long else Short, atr, pick.strategy)
  }

  predicate InRange(f: Frame, i: int) {
    FIRST_INDEX <= i < |f| - TAIL
  }

  function EventAt(f: Frame, m: Market, i: int, last: int): Event
    requires ValidFrame(f) && InRange(f, i)
  {
    if i - last < COOLDOWN then Cooling
    else
      match Choose(f[..i], m)
      case Skip(reason) => Skipped(reason)
      case Enter(side, atr, strategy) => TradeEvent(f, i, side, atr, strategy)
  }

  function LastAfter(e: Event, last: int): int {
    if e.Traded? then e.exit else last
  }

  /** One event per index from `i` on, given where the last trade ended. */
  function Log(f: Frame, m: Market, i: int, last: int): seq<Event>
    requires ValidFrame(f) && FIRST_INDEX <= i
    decreases |f| - i
  {
    if InRange(f, i) then
      var e := EventAt(f, m, i, last);
      [e] + Log(f, m, i + 1, LastAfter(e, last))
    else []
  }

  // ---------------------------------------------------------------------------------------
  // The account

  datatype Money = Money(balance: real, grossProfit: real, grossLoss: real, totalWin: real, totalLoss: real)
  datatype Skips = Skips(sideways: nat, lowVol: nat, wait: nat)
  datatype Entries = Entries(highVol: nat, lowVol: nat, buys: nat, sells: nat)
  datatype Outcomes = Outcomes(
    trades: nat, wins: nat, losses: nat, buyWins: nat, buyLosses: nat, sellWins: nat, sellLosses: nat,
    timeouts: nat, trailingStopHits: nat)

  /** The running statistics, grouped by what they are about. */
  datatype Stats = Stats(
    money: Money, skips: Skips, entries: Entries, outcomes: Outcomes, strategyCounts: map<string, nat>)

  const START := Stats(Money(INITIAL_BALANCE, 0.0, 0.0, 0.0, 0.0), Skips(0, 0, 0), Entries(0, 0, 0, 0),
                       Outcomes(0, 0, 0, 0, 0, 0, 0, 0, 0), map[])

  function CountOf(counts: map<string, nat>, name: string): nat {
    if name in counts then counts[name] else 0
  }

  function Gained(m: Money, amount: real): Money {
    Money(m.balance + amount, m.grossProfit + amount, m.grossLoss, m.totalWin + amount, m.totalLoss)
  }

  function Lost(m: Money, amount: real): Money {
    Money(m.balance - amount, m.grossProfit, m.grossLoss + amount, m.totalWin, m.totalLoss + amount)
  }

  function BookMoney(m: Money, e: Event): Money {
    if !e.Traded? then m
    else
      match e.ending
      case Finished(Win) => Gained(m, e.amount)
      case Finished(TrailWin) => Gained(m, e.amount)
      case Finished(Breakeven) => m
      case Finished(Loss) => Lost(m, RISK_PER_TRADE)
      case Timeout => if e.amount >= 0.0 then Gained(m, e.amount) else Lost(m, -e.amount)
  }

  function BookSkip(k: Skips, e: Event): Skips {
    match e
    case Skipped(SidewaysSkip) => k.(sideways := k.sideways + 1)
    case Skipped(LowVolSkip) => k.(lowVol := k.lowVol + 1)
    case Skipped(WaitSkip) => k.(wait := k.wait + 1)
    case _ => k
  }

  function BookEntry(n: Entries, e: Event): Entries {
    if !e.Traded? then n
    else
      var n1 := if e.mode.HighVol? then n.(highVol := n.highVol + 1) else n.(lowVol := n.lowVol + 1);
      if e.side.Long? then n1.(buys := n1.buys + 1) else n1.(sells := n1.sells + 1)
  }

  function CountWin(o: Outcomes, side: Side): Outcomes {
    if side.Long? then o.(wins := o.wins + 1, buyWins := o.buyWins + 1)
    else o.(wins := o.wins + 1, sellWins := o.sellWins + 1)
  }

  function CountLoss(o: Outcomes, side: Side): Outcomes {
    if side.Long? then o.(losses := o.losses + 1, buyLosses := o.buyLosses + 1)
    else o.(losses := o.losses + 1, sellLosses := o.sellLosses + 1)
  }

  function BookOutcome(o: Outcomes, e: Event): Outcomes {
    if !e.Traded? then o
    else
      var o1 := o.(trades := o.trades + 1);
      match e.ending
      case Finished(Win) => CountWin(o1, e.side)
      case Finished(TrailWin) => CountWin(o1.(trailingStopHits := o1.trailingStopHits + 1), e.side)
      case Finished(Breakeven) => o1.(trailingStopHits := o1.trailingStopHits + 1)
      case Finished(Loss) => CountLoss(o1, e.side)
      case Timeout => o1.(timeouts := o1.timeouts + 1)
  }

  function BookStrategy(counts: map<string, nat>, e: Event): map<string, nat> {
    if e.Traded? then counts[e.strategy := CountOf(counts, e.strategy) + 1] else counts
  }

  function Book(s: Stats, e: Event): Stats {
    Stats(BookMoney(s.money, e), BookSkip(s.skips, e), BookEntry(s.entries, e), BookOutcome(s.outcomes, e),
          BookStrategy(s.strategyCounts, e))
  }

  function Booked(log: seq<Event>): Stats {
    if |log| == 0 then START else Book(Booked(log[..|log| - 1]), log[|log| - 1])
  }

  lemma CoolingChangesNothing(s: Stats)
    ensures Book(s, Cooling) == s
  {
  }

  /** The whole run. */
  method RunBacktest(f: Frame, m: Market) returns (stats: Stats)
    requires ValidFrame(f)
    ensures stats == Booked(Log(f, m, FIRST_INDEX, NEVER))
  {
    hide Book, Hold, Amount, GetRiskModel, Choose, EvaluateBar;
    stats := START;
    ghost var log: seq<Event> := [];
    var last, i := NEVER, FIRST_INDEX;
    while i < |f| - TAIL
      invariant FIRST_INDEX <= i
      invariant stats == Booked(log)
      invariant log + Log(f, m, i, last) == Log(f, m, FIRST_INDEX, NEVER)
    {
      ghost var e := EventAt(f, m, i, last);
      assert log + Log(f, m, i, last) == (log + [e]) + Log(f, m, i + 1, LastAfter(e, last));
      assert (log + [e])[..|log + [e]| - 1] == log;
      log := log + [e];
      CoolingChangesNothing(stats);
      if i - last >= COOLDOWN {
        var choice := Choose(f[..i], m);
        match choice {
          case Skip(reason) =>
            stats := Book(stats, Skipped(reason));
          case Enter(side, atr, strategy) =>
            var t := OpenTrade(f, i, side, atr);
            AmountIsBounded(f, t, i + 1, HoldEnd(f, i));
            var exit := HoldTrade(f, t, i + 1, HoldEnd(f, i));
            var event := Traded(i, exit.index, side, t.model.mode, strategy, exit.ending, Amount(f, t, exit));
            stats := Book(stats, event);
            last := exit.index;
        }
      }
      i := i + 1;
    }
    assert log == Log(f, m, FIRST_INDEX, NEVER);
  }
}
