/** What holds of every backtest run, whatever the bars, the strategies and the indicators. */
module BacktestRuns {
  import opened TradeRules
  import opened Backtest

  // ---------------------------------------------------------------------------------------
  // Single events

  /** What the trailing-stop invariant leaves possible for one trade. */
  predicate SoundTrade(e: Event, n: int)
    requires e.Traded?
  {
    && e.entry < e.exit < n && e.exit < e.entry + MAX_HOLD
    && e.ending != Finished(Breakeven)
    && (e.mode.LowVol? ==> e.ending != Finished(TrailWin))
    && -RISK_PER_TRADE <= e.amount <= 2.0 * RISK_PER_TRADE
    && (e.ending == Finished(Loss) ==> e.amount == -RISK_PER_TRADE)
    && (e.ending == Finished(Win) || e.ending == Finished(TrailWin) ==> e.amount > 0.0)
  }

  predicate SoundLog(log: seq<Event>, n: int) {
    forall k | 0 <= k < |log| && log[k].Traded? :: SoundTrade(log[k], n)
  }

  lemma {:induction false} TradeIsSound(f: Frame, i: int, side: Side, atr: real, strategy: string)
    requires 0 <= i && i + 1 < |f| && ValidFrame(f) && atr > 0.0
    ensures var e := TradeEvent(f, i, side, atr, strategy); e.entry == i && SoundTrade(e, |f|)
  {
    var t := OpenTrade(f, i, side, atr);
    assert Opened(t);
    InitialStopInPlace(t);
    HoldKeepsStop(f, t, t.InitialStop(), i + 1, HoldEnd(f, i));
    AmountIsBounded(f, t, i + 1, HoldEnd(f, i));
  }

  lemma {:induction false} EventIsSound(f: Frame, m: Market, i: int, last: int)
    requires ValidFrame(f) && InRange(f, i)
    ensures var e := EventAt(f, m, i, last);
            e.Traded? ==> e.entry == i && last + COOLDOWN <= i && SoundTrade(e, |f|)
  {
    if i - last >= COOLDOWN {
      var c := Choose(f[..i], m);
      if c.Enter? { TradeIsSound(f, i, c.side, c.atr, c.strategy); }
    }
  }

  /**
   Whole runs: no trade ends at break-even, none trails to a win in the low-volatility mode, every trade
   changes the account by at least minus one and at most plus two risks, and trades lie at least a
   cooldown apart.
   */
  lemma {:induction false} EveryTradeIsSound(f: Frame, m: Market, i: int, last: int)
    requires ValidFrame(f) && FIRST_INDEX <= i
    ensures SoundLog(Log(f, m, i, last), |f|)
    ensures forall k | 0 <= k < |Log(f, m, i, last)| && Log(f, m, i, last)[k].Traded? ::
              Log(f, m, i, last)[k].entry == i + k && last + COOLDOWN <= i + k
    decreases |f| - i
  {
    if InRange(f, i) {
      var e := EventAt(f, m, i, last);
      EventIsSound(f, m, i, last);
      EveryTradeIsSound(f, m, i + 1, LastAfter(e, last));
      assert Log(f, m, i, last) == [e] + Log(f, m, i + 1, LastAfter(e, last));
    }
  }

  lemma {:induction false} TradesAreApart(f: Frame, m: Market, i: int, last: int, a: int, b: int)
    requires ValidFrame(f) && FIRST_INDEX <= i
    requires var log := Log(f, m, i, last); 0 <= a < b < |log| && log[a].Traded? && log[b].Traded?
    ensures var log := Log(f, m, i, last); log[a].exit + COOLDOWN <= log[b].entry
    decreases |f| - i
  {
    var e := EventAt(f, m, i, last);
    var rest := Log(f, m, i + 1, LastAfter(e, last));
    assert Log(f, m, i, last) == [e] + rest;
    if a == 0 {
      EveryTradeIsSound(f, m, i + 1, e.exit);
      assert rest[b - 1].Traded?;
    } else {
      TradesAreApart(f, m, i + 1, LastAfter(e, last), a - 1, b - 1);
    }
  }

  // ---------------------------------------------------------------------------------------
  // Counting

  function Trades(log: seq<Event>): nat {
    if |log| == 0 then 0 else Trades(log[..|log| - 1]) + (if log[|log| - 1].Traded? then 1 else 0)
  }

  function TradesBy(log: seq<Event>, name: string): nat {
    if |log| == 0 then 0
    else TradesBy(log[..|log| - 1], name)
         + (var e := log[|log| - 1]; if e.Traded? && e.strategy == name then 1 else 0)
  }

  function Considered(log: seq<Event>): nat {
    if |log| == 0 then 0 else Considered(log[..|log| - 1]) + (if log[|log| - 1].Cooling? then 0 else 1)
  }

  function NetAmount(log: seq<Event>): real {
    if |log| == 0 then 0.0
    else NetAmount(log[..|log| - 1]) + (if log[|log| - 1].Traded? then log[|log| - 1].amount else 0.0)
  }

  lemma {:induction false} TradesOfCons(e: Event, rest: seq<Event>)
    ensures Trades([e] + rest) == (if e.Traded? then 1 else 0) + Trades(rest)
  {
    var log := [e] + rest;
    if |rest| == 0 {
      assert log == [e] && log[..0] == [];
    } else {
      assert log[..|log| - 1] == [e] + rest[..|rest| - 1];
      TradesOfCons(e, rest[..|rest| - 1]);
    }
  }

  /** Trades are at least eleven bars apart from entry to entry. */
  lemma {:induction false} TradeDensity(f: Frame, m: Market, i: int, last: int)
    requires ValidFrame(f) && FIRST_INDEX <= i
    ensures var k := Trades(Log(f, m, i, last));
            k >= 1 ==>
              && i + (COOLDOWN + 1) * (k - 1) <= |f| - TAIL - 1
              && last + COOLDOWN + (COOLDOWN + 1) * (k - 1) <= |f| - TAIL - 1
    decreases |f| - i
  {
    if InRange(f, i) {
      var e := EventAt(f, m, i, last);
      EventIsSound(f, m, i, last);
      TradesOfCons(e, Log(f, m, i + 1, LastAfter(e, last)));
      TradeDensity(f, m, i + 1, LastAfter(e, last));
    }
  }

  // ---------------------------------------------------------------------------------------
  // The account

  /** Money: the balance, the log and the gross totals agree, within the risk taken. */
  ghost predicate MoneyAgrees(m: Money, log: seq<Event>) {
    && m.balance == INITIAL_BALANCE + NetAmount(log)
    && m.balance - INITIAL_BALANCE == m.grossProfit - m.grossLoss
    && m.totalWin == m.grossProfit >= 0.0 && m.totalLoss == m.grossLoss >= 0.0
    && INITIAL_BALANCE - RISK_PER_TRADE * Trades(log) as real <= m.balance
    && m.balance <= INITIAL_BALANCE + 2.0 * RISK_PER_TRADE * Trades(log) as real
  }

  /** Outcomes: every trade is a win, a loss or a timeout, and wins and losses split by side. */
  ghost predicate OutcomesAgree(o: Outcomes, log: seq<Event>) {
    && o.trades == Trades(log) == o.wins + o.losses + o.timeouts
    && o.wins == o.buyWins + o.sellWins && o.losses == o.buyLosses + o.sellLosses
    && o.trailingStopHits <= o.wins
  }

  /** Entries and skips: every bar outside a cooldown is a trade or skipped for one reason. */
  ghost predicate EntriesAgree(k: Skips, n: Entries, log: seq<Event>) {
    && Trades(log) == n.buys + n.sells == n.highVol + n.lowVol
    && k.sideways + k.lowVol + k.wait + Trades(log) == Considered(log)
  }

  ghost predicate StrategiesAgree(counts: map<string, nat>, log: seq<Event>) {
    forall name :: CountOf(counts, name) == TradesBy(log, name)
  }

  ghost predicate Reconciles(s: Stats, log: seq<Event>) {
    && MoneyAgrees(s.money, log) && OutcomesAgree(s.outcomes, log)
    && EntriesAgree(s.skips, s.entries, log) && StrategiesAgree(s.strategyCounts, log)
  }

  lemma {:induction false} LogStep(log: seq<Event>, e: Event)
    ensures Trades(log + [e]) == Trades(log) + (if e.Traded? then 1 else 0)
    ensures NetAmount(log + [e]) == NetAmount(log) + (if e.Traded? then e.amount else 0.0)
  {
    assert (log + [e])[..|log + [e]| - 1] == log;
  }

  /** A sound trade is booked by the sign of its amount. */
  lemma {:induction false} BookedByAmount(m: Money, e: Event, n: int)
    requires e.Traded? && SoundTrade(e, n)
    ensures BookMoney(m, e) == if e.amount >= 0.0 then Gained(m, e.amount) else Lost(m, -e.amount)
  {
  }

  lemma {:induction false} BoundsGrow(balance: real, amount: real, n: nat)
    requires INITIAL_BALANCE - RISK_PER_TRADE * n as real <= balance
    requires balance <= INITIAL_BALANCE + 2.0 * RISK_PER_TRADE * n as real
    requires -RISK_PER_TRADE <= amount <= 2.0 * RISK_PER_TRADE
    ensures INITIAL_BALANCE - RISK_PER_TRADE * (n + 1) as real <= balance + amount
    ensures balance + amount <= INITIAL_BALANCE + 2.0 * RISK_PER_TRADE * (n + 1) as real
  {
    assert (n + 1) as real == n as real + 1.0;
  }

  lemma {:induction false} BookKeepsMoney(m: Money, log: seq<Event>, e: Event, n: int)
    requires MoneyAgrees(m, log) && (e.Traded? ==> SoundTrade(e, n))
    ensures MoneyAgrees(BookMoney(m, e), log + [e])
  {
    hide Trades, NetAmount;
    LogStep(log, e);
    if e.Traded? {
      BookedByAmount(m, e, n);
      BoundsGrow(m.balance, e.amount, Trades(log));
      hide BookMoney;
    }
  }

  lemma {:induction false} BookKeepsOutcomes(o: Outcomes, log: seq<Event>, e: Event, n: int)
    requires OutcomesAgree(o, log) && (e.Traded? ==> SoundTrade(e, n))
    ensures OutcomesAgree(BookOutcome(o, e), log + [e])
  {
    assert (log + [e])[..|log + [e]| - 1] == log;
  }

  lemma {:induction false} BookKeepsEntries(k: Skips, n: Entries, log: seq<Event>, e: Event)
    requires EntriesAgree(k, n, log)
    ensures EntriesAgree(BookSkip(k, e), BookEntry(n, e), log + [e])
  {
    assert (log + [e])[..|log + [e]| - 1] == log;
  }

  lemma {:induction false} BookKeepsStrategies(counts: map<string, nat>, log: seq<Event>, e: Event)
    requires StrategiesAgree(counts, log)
    ensures StrategiesAgree(BookStrategy(counts, e), log + [e])
  {
    assert (log + [e])[..|log + [e]| - 1] == log;
  }

  lemma {:induction false} EveryAccountReconciles(log: seq<Event>, n: int)
    requires SoundLog(log, n)
    ensures Reconciles(Booked(log), log)
    decreases |log|
  {
    if |log| > 0 {
      var before, e := log[..|log| - 1], log[|log| - 1];
      EveryAccountReconciles(before, n);
      var s := Booked(before);
      BookKeepsMoney(s.money, before, e, n);
      BookKeepsOutcomes(s.outcomes, before, e, n);
      BookKeepsEntries(s.skips, s.entries, before, e);
      BookKeepsStrategies(s.strategyCounts, before, e);
      assert log == before + [e];
    }
  }

  /** Every run of the simulator reconciles, and its trades are at least eleven bars apart. */
  lemma {:induction false} EveryRunReconciles(f: Frame, m: Market)
    requires ValidFrame(f)
    ensures var log := Log(f, m, FIRST_INDEX, NEVER); var s := Booked(log);
            && Reconciles(s, log)
            && (s.outcomes.trades >= 1 ==> 11 * (s.outcomes.trades - 1) <= |f| - 271)
  {
    EveryTradeIsSound(f, m, FIRST_INDEX, NEVER);
    EveryAccountReconciles(Log(f, m, FIRST_INDEX, NEVER), |f|);
    TradeDensity(f, m, FIRST_INDEX, NEVER);
  }

  // ---------------------------------------------------------------------------------------
  // Strategy counts add up

  function CountsOver(counts: map<string, nat>, names: seq<string>): nat {
    if |names| == 0 then 0 else CountOf(counts, names[0]) + CountsOver(counts, names[1..])
  }

  function TradesByAll(log: seq<Event>, names: seq<string>): nat {
    if |names| == 0 then 0 else TradesBy(log, names[0]) + TradesByAll(log, names[1..])
  }

  lemma {:induction false} OneMoreTrade(log: seq<Event>, e: Event, names: seq<string>)
    requires forall i, j | 0 <= i < j < |names| :: names[i] != names[j]
    ensures TradesByAll(log + [e], names)
            == TradesByAll(log, names) + (if e.Traded? && e.strategy in names then 1 else 0)
  {
    if |names| > 0 {
      assert (log + [e])[..|log + [e]| - 1] == log;
      OneMoreTrade(log, e, names[1..]);
      assert e.Traded? && e.strategy == names[0] ==> e.strategy !in names[1..];
    }
  }

  lemma {:induction false} NoTradesNoCounts(names: seq<string>)
    ensures TradesByAll([], names) == 0
  {
    if |names| > 0 { NoTradesNoCounts(names[1..]); }
  }

  lemma {:induction false} TradesSplitByStrategy(log: seq<Event>, names: seq<string>)
    requires forall i, j | 0 <= i < j < |names| :: names[i] != names[j]
    requires forall k | 0 <= k < |log| && log[k].Traded? :: log[k].strategy in names
    ensures TradesByAll(log, names) == Trades(log)
    decreases |log|
  {
    if |log| == 0 {
      NoTradesNoCounts(names);
    } else {
      var before, e := log[..|log| - 1], log[|log| - 1];
      TradesSplitByStrategy(before, names);
      OneMoreTrade(before, e, names);
      assert log == before + [e];
    }
  }

  lemma {:induction false} CountsFollowLog(counts: map<string, nat>, log: seq<Event>, names: seq<string>)
    requires forall name :: CountOf(counts, name) == TradesBy(log, name)
    ensures CountsOver(counts, names) == TradesByAll(log, names)
  {
    if |names| > 0 { CountsFollowLog(counts, log, names[1..]); }
  }

  lemma {:induction false} TradedStrategyIsCounted(log: seq<Event>, k: int)
    requires 0 <= k < |log| && log[k].Traded?
    ensures TradesBy(log, log[k].strategy) > 0
    decreases |log|
  {
    if k < |log| - 1 { TradedStrategyIsCounted(log[..|log| - 1], k); }
  }

  /** However the strategies are listed, their counts add up to the number of trades. */
  lemma {:induction false} StrategyCountsAddUp(log: seq<Event>, n: int, names: seq<string>)
    requires SoundLog(log, n)
    requires forall i, j | 0 <= i < j < |names| :: names[i] != names[j]
    requires forall name | name in Booked(log).strategyCounts :: name in names
    ensures CountsOver(Booked(log).strategyCounts, names) == Booked(log).outcomes.trades
  {
    EveryAccountReconciles(log, n);
    forall k | 0 <= k < |log| && log[k].Traded? ensures log[k].strategy in names {
      TradedStrategyIsCounted(log, k);
      assert CountOf(Booked(log).strategyCounts, log[k].strategy) > 0;
    }
    CountsFollowLog(Booked(log).strategyCounts, log, names);
    TradesSplitByStrategy(log, names);
  }
}
