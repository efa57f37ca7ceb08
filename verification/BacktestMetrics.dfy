/** The summary figures of a run and the active-pair thresholds that are applied to them. */
module BacktestMetrics {
  import opened Common
  import opened TradeRules
  import opened Backtest
  import opened BacktestRuns

  function NetProfit(s: Stats): real {
    s.money.balance - INITIAL_BALANCE
  }

  function AverageWin(s: Stats): real {
    if s.outcomes.wins > 0 then s.money.totalWin / s.outcomes.wins as real else 0.0
  }

  function AverageLoss(s: Stats): real {
    if s.outcomes.losses > 0 then s.money.totalLoss / s.outcomes.losses as real else 0.0
  }

  function ProfitFactor(s: Stats): real {
    if s.money.grossLoss > 0.0 then s.money.grossProfit / s.money.grossLoss else 0.0
  }

  function Rate(part: nat, whole: nat): real {
    if whole > 0 then part as real / whole as real else 0.0
  }

  function WinPart(s: Stats): real { Rate(s.outcomes.wins, s.outcomes.trades) * AverageWin(s) }
  function LossPart(s: Stats): real { Rate(s.outcomes.losses, s.outcomes.trades) * AverageLoss(s) }

  function Expectancy(s: Stats): real {
    WinPart(s) - LossPart(s)
  }

  const MIN_TRADES: nat := 20
  const MIN_EXPECTANCY := 0.0
  const MIN_NET_PROFIT := 0.0

  function MinProfitFactor(symbol: string): real {
    if symbol == "XAUUSD" then 1.20 else if symbol == "BTCUSD" then 1.25 else 1.10
  }

  /** No rejection reason applies. */
  predicate Accepted(symbol: string, s: Stats, watchReady: bool) {
    && watchReady
    && s.outcomes.trades >= MIN_TRADES
    && ProfitFactor(s) >= MinProfitFactor(symbol)
    && Expectancy(s) > MIN_EXPECTANCY
    && NetProfit(s) > MIN_NET_PROFIT
  }

  lemma {:induction false} WeightedAverage(total: real, part: nat, whole: nat)
    requires whole > 0 && part > 0
    ensures whole as real * (Rate(part, whole) * (total / part as real)) == total
  {
    var p, w := part as real, whole as real;
    DivideTimes(total, p);
    DivideTimes(p, w);
    calc {
      w * (p / w * (total / p));
      (p / w * w) * (total / p);
      p * (total / p);
      total;
    }
  }

  /** Winnings that no win accounts for: profitable timeouts of a run without wins. Likewise for losses. */
  function UnattributedWin(s: Stats): real { if s.outcomes.wins == 0 then s.money.totalWin else 0.0 }
  function UnattributedLoss(s: Stats): real { if s.outcomes.losses == 0 then s.money.totalLoss else 0.0 }

  /**
   Expectancy per trade adds up to the net profit exactly when the timeout amounts that no win and no loss
   accounts for cancel out; in particular whenever there are both wins and losses.
   */
  lemma {:induction false} ExpectancyIsExact(s: Stats, log: seq<Event>)
    requires Reconciles(s, log) && s.outcomes.trades > 0
    ensures s.outcomes.trades as real * Expectancy(s) == NetProfit(s) <==> UnattributedWin(s) == UnattributedLoss(s)
    ensures s.outcomes.wins > 0 && s.outcomes.losses > 0 ==> s.outcomes.trades as real * Expectancy(s) == NetProfit(s)
  {
    hide Reconciles, WinPart, LossPart;
    var n := s.outcomes.trades as real;
    var winPart, lossPart := WinPart(s), LossPart(s);
    WinPartTimes(s);
    LossPartTimes(s);
    assert Expectancy(s) == winPart - lossPart;
    Distribute(n, winPart, lossPart);
    MoneyIsNet(s, log);
  }

  lemma {:induction false} WinPartTimes(s: Stats)
    requires s.outcomes.trades > 0
    ensures s.outcomes.trades as real * WinPart(s) == s.money.totalWin - UnattributedWin(s)
  {
    if s.outcomes.wins > 0 { WeightedAverage(s.money.totalWin, s.outcomes.wins, s.outcomes.trades); }
  }

  lemma {:induction false} LossPartTimes(s: Stats)
    requires s.outcomes.trades > 0
    ensures s.outcomes.trades as real * LossPart(s) == s.money.totalLoss - UnattributedLoss(s)
  {
    if s.outcomes.losses > 0 { WeightedAverage(s.money.totalLoss, s.outcomes.losses, s.outcomes.trades); }
  }

  lemma {:induction false} Distribute(n: real, x: real, y: real)
    ensures n * (x - y) == n * x - n * y
  {
  }

  lemma {:induction false} MoneyIsNet(s: Stats, log: seq<Event>)
    requires Reconciles(s, log)
    ensures NetProfit(s) == s.money.totalWin - s.money.totalLoss
  {
  }

  /** The profit-factor threshold already demands a loss and a net profit, so the net-profit test adds nothing. */
  lemma {:induction false} ProfitFactorDecides(symbol: string, s: Stats, log: seq<Event>)
    requires Reconciles(s, log) && ProfitFactor(s) >= MinProfitFactor(symbol)
    ensures s.money.grossLoss > 0.0 && NetProfit(s) > MIN_NET_PROFIT
  {
    DivideTimes(s.money.grossProfit, s.money.grossLoss);
    DivideCompare(s.money.grossProfit, s.money.grossLoss, 1.1);
  }

  /** What the thresholds come to: the net-profit one is implied, and a run without losses never passes. */
  lemma {:induction false} AcceptedIff(symbol: string, s: Stats, watchReady: bool, log: seq<Event>)
    requires Reconciles(s, log)
    ensures var factor := if symbol == "XAUUSD" then 1.2 else if symbol == "BTCUSD" then 1.25 else 1.1;
            Accepted(symbol, s, watchReady) <==>
              && watchReady && s.outcomes.trades >= 20 && Expectancy(s) > 0.0
              && s.money.grossLoss > 0.0 && s.money.grossProfit >= factor * s.money.grossLoss
  {
    hide Expectancy;
    if ProfitFactor(s) >= MinProfitFactor(symbol) { ProfitFactorDecides(symbol, s, log); }
    if s.money.grossLoss > 0.0 {
      DivideCompare(s.money.grossProfit, s.money.grossLoss, MinProfitFactor(symbol));
    }
  }

  // ---------------------------------------------------------------------------------------
  // A profitable run with no expectancy

  const ATR_WINDOW: nat := 14

  function TrueRange(bars: Frame, i: nat): real
    requires i < |bars|
  {
    var spread := bars[i].high - bars[i].low;
    if i == 0 then spread
    else
      var up, down := bars[i].high - bars[i - 1].close, bars[i].low - bars[i - 1].close;
      Max(spread, Max(if up >= 0.0 then up else -up, if down >= 0.0 then down else -down))
  }

  function TotalRange(bars: Frame, n: nat): real
    requires n <= |bars|
  {
    if n == 0 then 0.0 else TotalRange(bars, n - 1) + TrueRange(bars, n - 1)
  }

  /** The average true range at one bar: the mean of the first fourteen ranges, then smoothed bar by bar. */
  function AverageRangeAt(bars: Frame, i: nat): real
    requires i < |bars|
  {
    if i + 1 < ATR_WINDOW then 0.0
    else if i + 1 == ATR_WINDOW then TotalRange(bars, ATR_WINDOW) / ATR_WINDOW as real
    else (AverageRangeAt(bars, i - 1) * (ATR_WINDOW - 1) as real + TrueRange(bars, i)) / ATR_WINDOW as real
  }

  function AverageRange(bars: Frame): real {
    if |bars| == 0 then 0.0 else AverageRangeAt(bars, |bars| - 1)
  }

  const FLAT := Bar(100.0, 100.1, 99.9, 100.0)
  const DRIFT := Bar(100.0, 100.1, 99.9, 100.1)

  /** Prices that go nowhere and end a little higher on the very last bar. */
  function DriftFrame(): Frame {
    seq(271, i => if i < 270 then FLAT else DRIFT)
  }

  /** Always a buy signal; the range is the average true range of the window. */
  const BUYERS: Market := Market(_ => Pick(BuySignal, "trend"), AverageRange, OtherAsset)

  lemma {:induction false} FlatTotal(bars: Frame, n: nat)
    requires n <= |bars| && forall i | 0 <= i < |bars| :: bars[i] == FLAT
    ensures TotalRange(bars, n) == 0.2 * n as real
  {
    if n > 0 { FlatTotal(bars, n - 1); }
  }

  lemma {:induction false} FlatRange(bars: Frame, i: nat)
    requires ATR_WINDOW <= i + 1 <= |bars| && forall k | 0 <= k < |bars| :: bars[k] == FLAT
    ensures AverageRangeAt(bars, i) == 0.2
    decreases i
  {
    if i + 1 == ATR_WINDOW { FlatTotal(bars, ATR_WINDOW); } else { FlatRange(bars, i - 1); }
  }

  lemma {:induction false} FlatHold(t: Trade, j: int)
    requires t == Trade(Long, 100.0, 0.2, RiskModel(LowVol, 0.2 * 1.5, 0.2 * 2.5, 1.67, 3.0, 1.5))
    requires 251 <= j < 271
    ensures Hold(DriftFrame(), t, t.InitialStop(), j, 271) == Exit(Timeout, 270, t.InitialStop())
    decreases 271 - j
  {
    if j < 270 {
      assert DriftFrame()[j] == FLAT;
      assert EvaluateBar(t, t.InitialStop(), FLAT) == (None, t.InitialStop());
      FlatHold(t, j + 1);
    } else {
      assert DriftFrame()[j] == DRIFT;
    }
  }

  /** The one trade of that run times out with a profit. */
  lemma {:induction false} DriftTrade()
    ensures ValidFrame(DriftFrame())
    ensures var e := EventAt(DriftFrame(), BUYERS, 250, NEVER);
            e.Traded? && e.ending == Timeout && e.amount > 0.0
  {
    var f := DriftFrame();
    assert forall k | 0 <= k < 250 :: f[..250][k] == FLAT;
    FlatRange(f[..250], 249);
    assert Choose(f[..250], BUYERS) == Enter(Long, 0.2, "trend");
    var t := OpenTrade(f, 250, Long, 0.2);
    assert f[250] == FLAT && f[270] == DRIFT;
    FlatHold(t, 251);
    assert HoldEnd(f, 250) == 271;
    DivideCompare(100.1 - 100.0, 0.2 * 1.5, 0.1);
  }

  /**
   With timeouts only, expectancy says nothing about profit: this run earns money, yet its expectancy is
   zero, so the expectancy threshold turns it down.
   */
  lemma {:induction false} ProfitWithoutExpectancy()
    ensures ValidFrame(DriftFrame())
    ensures var s := Booked(Log(DriftFrame(), BUYERS, FIRST_INDEX, NEVER));
            NetProfit(s) > 0.0 && Expectancy(s) == 0.0 && forall watch :: !Accepted("EURUSD", s, watch)
  {
    DriftTrade();
    var f := DriftFrame();
    var e := EventAt(f, BUYERS, 250, NEVER);
    var log := Log(f, BUYERS, 250, NEVER);
    assert !InRange(f, 251);
    assert Log(f, BUYERS, 251, LastAfter(e, NEVER)) == [];
    assert log == [e];
    assert log[..0] == [];
    assert Booked(log) == Book(Booked([]), e) && Booked([]) == START;
  }
}
