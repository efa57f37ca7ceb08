/**
 The pure rules of the backtest: market classification, risk model, trailing stop and the outcome
 of one bar. Prices are real numbers, so floating-point rounding is not part of the model.
 */
module TradeRules {
  import opened Common

  datatype Bar = Bar(open: real, high: real, low: real, close: real)

  /** The price ordering that the data source guarantees. */
  predicate ValidBar(b: Bar) {
    0.0 < b.low && b.low <= b.open <= b.high && b.low <= b.close <= b.high
  }

  datatype AssetClass = Forex | Crypto | OtherAsset
  datatype MarketStatus = High | Normal | Low
  datatype Signal = BuySignal | SellSignal | Sideways | OtherSignal
  datatype Decision = Buy | Sell | Wait
  datatype Side = Long | Short
  datatype Mode = HighVol | NormalVol | LowVol
  datatype TradeResult = Win | TrailWin | Breakeven | Loss

  datatype RiskModel = RiskModel(
    mode: Mode, slDistance: real, tpDistance: real, reward: real, trailStart: real, trailStep: real)

  function VolatilityPercent(atr: real, price: real): real
    requires price > 0.0
  {
    atr / price * 100.0
  }

  function ClassifyMarket(atr: real, price: real, asset: AssetClass): MarketStatus
    requires price > 0.0
  {
    var v := VolatilityPercent(atr, price);
    var high := match asset case Forex => 0.05 case Crypto => 0.50 case OtherAsset => 0.35;
    var normal := match asset case Forex => 0.006 case Crypto => 0.03 case OtherAsset => 0.05;
    if v > high then High else if v > normal then Normal else Low
  }

  function MakeDecision(signal: Signal, status: MarketStatus): Decision {
    if signal == BuySignal && status != High then Buy
    else if signal == SellSignal && status != High then Sell
    else Wait
  }

  function GetRiskModel(atr: real, volatility: real): RiskModel {
    if volatility > 1.0 then RiskModel(HighVol, atr * 2.0, atr * 4.0, 2.0, 2.0, 1.0)
    else if volatility > 0.35 then RiskModel(NormalVol, atr * 1.5, atr * 3.0, 2.0, 2.5, 1.25)
    else RiskModel(LowVol, atr * 1.5, atr * 2.5, 1.67, 3.0, 1.5)
  }

  function Max(x: real, y: real): real { if x >= y then x else y }
  function Min(x: real, y: real): real { if x <= y then x else y }

  /** An open trade; nothing in it changes while the trade is held. */
  datatype Trade = Trade(side: Side, entry: real, atr: real, model: RiskModel)
  {
    function InitialStop(): real {
      if side.Long? then entry - model.slDistance else entry + model.slDistance
    }
    function TakeProfit(): real {
      if side.Long? then entry + model.tpDistance else entry - model.tpDistance
    }
    /** How far a price lies on the winning side of the entry. */
    function Gain(price: real): real {
      if side.Long? then price - entry else entry - price
    }
  }

  function UpdateTrailingStop(t: Trade, close: real, stop: real): real
    requires t.atr > 0.0
  {
    if t.side.Long? then
      var profitAtr := (close - t.entry) / t.atr;
      if profitAtr >= t.model.trailStart then
        Max(stop, t.entry + Max(0.0, profitAtr - t.model.trailStep) * t.atr)
      else stop
    else
      var profitAtr := (t.entry - close) / t.atr;
      if profitAtr >= t.model.trailStart then
        Min(stop, t.entry - Max(0.0, profitAtr - t.model.trailStep) * t.atr)
      else stop
  }

  function CalculateTradeResult(t: Trade, stop: real, high: real, low: real): Option<TradeResult> {
    if t.side.Long? then
      if low <= stop then
        if stop > t.entry then Some(TrailWin) else if stop == t.entry then Some(Breakeven) else Some(Loss)
      else if high >= t.TakeProfit() then Some(Win)
      else None
    else
      if high >= stop then
        if stop < t.entry then Some(TrailWin) else if stop == t.entry then Some(Breakeven) else Some(Loss)
      else if low <= t.TakeProfit() then Some(Win)
      else None
  }

  /** The existing stop is judged first; only a surviving bar's close moves it, for the next bar. */
  function EvaluateBar(t: Trade, stop: real, bar: Bar): (Option<TradeResult>, real)
    requires t.atr > 0.0
  {
    var result := CalculateTradeResult(t, stop, bar.high, bar.low);
    if result.Some? then (result, stop) else (None, UpdateTrailingStop(t, bar.close, stop))
  }

  // ---------------------------------------------------------------------------------------
  // One bar in terms of gains

  /** The price of a bar that hurts the trade most, and the one that helps it most. */
  function Worst(t: Trade, bar: Bar): real { if t.side.Long? then bar.low else bar.high }
  function Best(t: Trade, bar: Bar): real { if t.side.Long? then bar.high else bar.low }

  /** The bar falls back to a stop with this gain, or reaches the target. */
  predicate StopReached(t: Trade, stopGain: real, bar: Bar) { t.Gain(Worst(t, bar)) <= stopGain }
  predicate TargetReached(t: Trade, bar: Bar) { t.Gain(Best(t, bar)) >= t.model.tpDistance }

  /** What each result says about the bar; the stop counts before the target. */
  predicate Explains(t: Trade, stopGain: real, bar: Bar, result: TradeResult) {
    match result
    case Win => TargetReached(t, bar) && !StopReached(t, stopGain, bar)
    case TrailWin => StopReached(t, stopGain, bar) && stopGain > 0.0
    case Breakeven => StopReached(t, stopGain, bar) && stopGain == 0.0
    case Loss => StopReached(t, stopGain, bar) && stopGain < 0.0
  }

  /** A bar ends a trade exactly when it reaches the stop or the target, with exactly the result that explains it. */
  lemma {:induction false} BarOutcome(t: Trade, stop: real, bar: Bar)
    requires t.atr > 0.0
    ensures var (result, next) := EvaluateBar(t, stop, bar);
            && (result.None? <==> !StopReached(t, t.Gain(stop), bar) && !TargetReached(t, bar))
            && (forall r :: result == Some(r) <==> Explains(t, t.Gain(stop), bar, r))
            && (result.Some? ==> next == stop)
  {
  }

  /** The risk models: a target of about reward times the stop distance, and when which applies. */
  lemma {:induction false} ModelTable(atr: real, volatility: real)
    requires atr > 0.0
    ensures var m := GetRiskModel(atr, volatility);
            && (m.mode.HighVol? <==> volatility > 1.0) && (m.mode.LowVol? <==> volatility <= 0.35)
            && m.slDistance == (if m.mode.HighVol? then 2.0 else 1.5) * atr
            && m.tpDistance == (match m.mode case HighVol => 4.0 case NormalVol => 3.0 case LowVol => 2.5) * atr
            && m.trailStart == 2.0 * m.trailStep
            && m.trailStep == (match m.mode case HighVol => 1.0 case NormalVol => 1.25 case LowVol => 1.5)
            && 0.0 <= m.reward * m.slDistance - m.tpDistance <= 0.005 * atr
  {
  }

  // ---------------------------------------------------------------------------------------
  // The trailing-stop invariant

  /** The trade was opened with the risk model of some volatility. */
  ghost predicate Opened(t: Trade) {
    t.atr > 0.0 && exists v :: t.model == GetRiskModel(t.atr, v)
  }

  /** The stop is where it started, or it has been trailed beyond the entry; never beyond the target. */
  predicate StopInPlace(t: Trade, stop: real) {
    && (stop == t.InitialStop() || t.Gain(stop) >= t.atr)
    && t.Gain(stop) < t.model.tpDistance
    && (t.model.mode.LowVol? ==> stop == t.InitialStop())
  }

  lemma {:induction false} InitialStopInPlace(t: Trade)
    requires Opened(t)
    ensures StopInPlace(t, t.InitialStop())
    ensures t.Gain(t.InitialStop()) == -t.model.slDistance < 0.0
    ensures t.Gain(t.TakeProfit()) == t.model.tpDistance > 0.0
  {
  }

  lemma {:induction false} DivideTimes(x: real, a: real)
    requires a > 0.0
    ensures x / a * a == x
  {
  }

  lemma {:induction false} DivideCompare(x: real, a: real, k: real)
    requires a > 0.0
    ensures x / a >= k <==> x >= k * a
  {
    DivideTimes(x, a);
  }

  /** The trailing rule in terms of gains, for both sides at once. */
  lemma {:induction false} TrailInGains(t: Trade, close: real, stop: real)
    requires Opened(t)
    ensures var next := UpdateTrailingStop(t, close, stop);
            if t.Gain(close) >= t.model.trailStart * t.atr
            then t.Gain(next) == Max(t.Gain(stop), t.Gain(close) - t.model.trailStep * t.atr)
            else next == stop
  {
    ModelOrder(t);
    var g := t.Gain(close);
    DivideCompare(g, t.atr, t.model.trailStart);
    LockedGain(g, t.atr, t.model.trailStep);
    TrailedTo(t, g / t.atr, g, close, stop);
  }

  /** The same with the gain in units of the range given, so that no division is left. */
  lemma {:induction false} TrailedTo(t: Trade, units: real, g: real, close: real, stop: real)
    requires t.atr > 0.0 && t.model.trailStart > t.model.trailStep && g == t.Gain(close) && units == g / t.atr
    requires (units - t.model.trailStep) * t.atr == g - t.model.trailStep * t.atr
    ensures var next := UpdateTrailingStop(t, close, stop);
            if units >= t.model.trailStart
            then t.Gain(next) == Max(t.Gain(stop), g - t.model.trailStep * t.atr)
            else next == stop
  {
    var locked := Max(0.0, units - t.model.trailStep) * t.atr;
    if units >= t.model.trailStart {
      assert locked == g - t.model.trailStep * t.atr;
      assert UpdateTrailingStop(t, close, stop)
             == if t.side.Long? then Max(stop, t.entry + locked) else Min(stop, t.entry - locked);
    }
  }

  lemma {:induction false} ModelOrder(t: Trade)
    requires Opened(t)
    ensures t.atr > 0.0 && t.model.trailStart > t.model.trailStep
  {
  }

  lemma {:induction false} LockedGain(g: real, atr: real, step: real)
    requires atr > 0.0
    ensures (g / atr - step) * atr == g - step * atr
  {
    DivideTimes(g, atr);
  }

  /**
   One bar: a stop in place stays in place and never moves against the trade; after a surviving bar it
   lies strictly on the losing side of that bar's close and of the target; a stop that is hit is never at
   the entry, and in the low-volatility mode it is hit at a loss only.
   */
  lemma {:induction false} BarKeepsStop(t: Trade, stop: real, bar: Bar)
    requires Opened(t) && ValidBar(bar) && StopInPlace(t, stop)
    ensures var (result, next) := EvaluateBar(t, stop, bar);
            && StopInPlace(t, next)
            && t.Gain(next) >= t.Gain(stop)
            && result != Some(Breakeven)
            && (t.model.mode.LowVol? ==> result != Some(TrailWin) && next == stop)
            && (result.None? ==> t.Gain(next) < t.Gain(bar.close) < t.model.tpDistance)
            && (result == Some(Loss) ==> stop == t.InitialStop())
  {
    TrailInGains(t, bar.close, stop);
  }

  /** A trade that is entered has a positive average true range. */
  lemma {:induction false} EntryHasPositiveRange(atr: real, price: real, asset: AssetClass)
    requires price > 0.0 && ClassifyMarket(atr, price, asset) != Low
    ensures atr > 0.0
  {
    DivideTimes(atr, price);
  }
}
