/** Merging the strategies' quotes and pulling them into the reward band. */
module QuoteEngine {
  import opened Common
  import opened OrderTypes
  import opened OrderDiff
  import opened Exchange
  import opened BookTypes
  import opened BookState
  import opened Inventory
  import opened StrategyA
  import opened FeeCalculator
  import RepeatedRuns
  import SelfCrossSafety

  predicate RewardEligible(m: Market)
  {
    m.adjustedMidpoint.Some? && m.rewardsMaxSpread.Some?
  }

  function BandLow(m: Market): real
    requires RewardEligible(m)
  {
    m.adjustedMidpoint.value - m.rewardsMaxSpread.value / 2.0
  }

  function BandHigh(m: Market): real
    requires RewardEligible(m)
  {
    m.adjustedMidpoint.value + m.rewardsMaxSpread.value / 2.0
  }

  function Clamped(price: real, low: real, high: real): real
  {
    Max(low, Min(price, high))
  }

  function ApplyRewardConstraints(i: OrderIntent, m: Market): OrderIntent
  {
    if !RewardEligible(m) then i
    else
      i.(price := Clamped(i.price, BandLow(m), BandHigh(m)),
         size := if m.rewardsMinSize.Some? then Max(i.size, m.rewardsMinSize.value) else i.size)
  }

  // ----- The clamp -----

  /** In a band that is not empty, the clamp picks the price of the band nearest to the quote. */
  lemma {:induction false} ClampIsNearest(price: real, low: real, high: real, other: real)
    requires low <= other <= high
    ensures low <= Clamped(price, low, high) <= high
    ensures Abs(Clamped(price, low, high) - price) <= Abs(other - price)
  {
  }

  /** Applying the constraints twice changes nothing more, even for a negative reward spread. */
  lemma {:induction false} ConstraintsIdempotent(i: OrderIntent, m: Market)
    ensures ApplyRewardConstraints(ApplyRewardConstraints(i, m), m) == ApplyRewardConstraints(i, m)
  {
  }

  /**
   The clamp never inverts two quotes. It keeps them apart exactly when the band has a width, the
   lower quote is below its top and the higher one above its bottom.
   */
  lemma {:induction false} ClampKeepsOrder(bid: real, ask: real, low: real, high: real)
    requires bid <= ask
    ensures Clamped(bid, low, high) <= Clamped(ask, low, high)
    ensures Clamped(bid, low, high) < Clamped(ask, low, high) <==> bid < ask && low < high && bid < high && low < ask
  {
  }

  /**
   What becomes of a quote: inside the band it keeps its price, outside it gets the nearer end of the
   band, half the maximum spread from the midpoint; it is no smaller than the reward minimum.
   */
  lemma {:induction false} ConstrainedQuote(i: OrderIntent, m: Market)
    ensures var r := ApplyRewardConstraints(i, m);
      if m.adjustedMidpoint.None? || m.rewardsMaxSpread.None? then r == i
      else
        var mid, half := m.adjustedMidpoint.value, m.rewardsMaxSpread.value / 2.0;
        && r == i.(price := r.price, size := r.size)
        && (r.price == if half < 0.0 || i.price < mid - half then mid - half
                       else if i.price > mid + half then mid + half else i.price)
        && (r.size == if m.rewardsMinSize.Some? && m.rewardsMinSize.value > i.size then m.rewardsMinSize.value
                      else i.size)
  {
  }

  // ----- All strategies -----

  function Constrained(intents: seq<OrderIntent>, m: Market): (r: seq<OrderIntent>)
    ensures |r| == |intents|
    ensures forall k :: 0 <= k < |r| ==> r[k] == ApplyRewardConstraints(intents[k], m)
  {
    seq(|intents|, k requires 0 <= k < |intents| => ApplyRewardConstraints(intents[k], m))
  }

  /** A strategy as the engine sees it: two flags, and what it makes of the market. */
  datatype Strategy = Strategy(enabled: bool, killSwitchActive: bool, evaluate: Inputs -> seq<OrderIntent>)

  function IsActive(s: Strategy): bool
  {
    s.enabled && !s.killSwitchActive
  }

  /** Strategy A under its own settings, whatever those of the inputs. */
  function WithSettings(s: Settings): Strategy
  {
    Strategy(s.enabled, s.killSwitchActive, (x: Inputs) => Evaluate(x.(settings := s)))
  }

  /** The quotes of all active strategies on one market, in strategy order. */
  function Desired(strategies: seq<Strategy>, x: Inputs): seq<OrderIntent>
  {
    if strategies == [] then []
    else
      var last := |strategies| - 1;
      Desired(strategies[..last], x)
      + if IsActive(strategies[last]) then Constrained(strategies[last].evaluate(x), x.market) else []
  }

  class QuoteEngine {
    var strategies: seq<Strategy>

    constructor (strategies: seq<Strategy>)
      ensures this.strategies == strategies
    {
      this.strategies := strategies;
    }

    method Compute(x: Inputs) returns (intents: seq<OrderIntent>)
      ensures intents == Desired(strategies, x)
    {
      intents := [];
      for n := 0 to |strategies|
        invariant intents == Desired(strategies[..n], x)
      {
        assert strategies[..n + 1][..n] == strategies[..n];
        var strategy := strategies[n];
        if !strategy.enabled || strategy.killSwitchActive {
          continue;
        }
        var signals := strategy.evaluate(x);
        intents := AppendConstrained(intents, signals, x.market);
      }
      assert strategies[..|strategies|] == strategies;
    }

    method AppendConstrained(intents: seq<OrderIntent>, signals: seq<OrderIntent>, m: Market)
      returns (all: seq<OrderIntent>)
      ensures all == intents + Constrained(signals, m)
    {
      all := intents;
      for k := 0 to |signals|
        invariant all == intents + Constrained(signals[..k], m)
      {
        all := all + [ApplyRewardConstraints(signals[k], m)];
        assert Constrained(signals[..k + 1], m)
            == Constrained(signals[..k], m) + [ApplyRewardConstraints(signals[k], m)];
      }
      assert signals[..|signals|] == signals;
    }
  }

  lemma {:induction false} DesiredComesFromAStrategy(strategies: seq<Strategy>, x: Inputs, i: OrderIntent)
    returns (n: nat, signal: OrderIntent)
    requires i in Desired(strategies, x)
    ensures n < |strategies| && strategies[n].enabled && !strategies[n].killSwitchActive
    ensures signal in strategies[n].evaluate(x)
    ensures i == ApplyRewardConstraints(signal, x.market)
  {
    var last := |strategies| - 1;
    if i in Desired(strategies[..last], x) {
      n, signal := DesiredComesFromAStrategy(strategies[..last], x, i);
    } else {
      var signals := strategies[last].evaluate(x);
      var k :| 0 <= k < |signals| && i == ApplyRewardConstraints(signals[k], x.market);
      n, signal := last, signals[k];
    }
  }

  lemma {:induction false} EveryQuoteIsDesired(strategies: seq<Strategy>, x: Inputs, n: nat, signal: OrderIntent)
    requires n < |strategies| && strategies[n].enabled && !strategies[n].killSwitchActive
    requires signal in strategies[n].evaluate(x)
    ensures ApplyRewardConstraints(signal, x.market) in Desired(strategies, x)
  {
    var last := |strategies| - 1;
    if n < last {
      EveryQuoteIsDesired(strategies[..last], x, n, signal);
    } else {
      var signals := strategies[last].evaluate(x);
      var k :| 0 <= k < |signals| && signals[k] == signal;
      assert Constrained(signals, x.market)[k] == ApplyRewardConstraints(signal, x.market);
    }
  }

  /** The quotes of the strategies follow each other; those of one are its own, constrained, if it is active. */
  lemma {:induction false} DesiredInOrder(strategies: seq<Strategy>, s: Strategy, x: Inputs)
    ensures Desired(strategies + [s], x)
         == Desired(strategies, x)
            + if s.enabled && !s.killSwitchActive then Constrained(s.evaluate(x), x.market) else []
  {
    assert (strategies + [s])[..|strategies|] == strategies;
  }

  // ----- From book to desired orders -----

  /** A quote strictly inside the opposite best price, as a post-only order must be. */
  predicate OffTheBook(i: OrderIntent, bids: seq<PriceLevel>, asks: seq<PriceLevel>)
    requires bids != [] && asks != []
  {
    if i.side.Buy? then i.price < asks[0].price else bids[0].price < i.price
  }

  /**
   Whatever strategy quoted it: a clamped quote is off the book exactly when the near end of the
   band is, and the quote itself or the far end is as well.
   */
  lemma {:induction false} ClampedOffTheBookIff(i: OrderIntent, m: Market, bids: seq<PriceLevel>, asks: seq<PriceLevel>)
    requires RewardEligible(m) && bids != [] && asks != []
    ensures OffTheBook(ApplyRewardConstraints(i, m), bids, asks) <==>
              if i.side.Buy? then BandLow(m) < asks[0].price
                  && (OffTheBook(i, bids, asks) || BandHigh(m) < asks[0].price)
              else bids[0].price < BandLow(m) || (OffTheBook(i, bids, asks) && bids[0].price < BandHigh(m))
  {
  }

  /** A reward band that reaches past the opposite best price on the quote's own side. */
  predicate BandLeavesRoom(side: Side, m: Market, bids: seq<PriceLevel>, asks: seq<PriceLevel>)
    requires bids != [] && asks != []
  {
    RewardEligible(m) ==>
      if side.Buy? then BandLow(m) < asks[0].price else bids[0].price < Max(BandLow(m), BandHigh(m))
  }

  /**
   A quote of strategy A becomes a desired order off the book exactly when the reward band leaves
   room on its side.
   */
  lemma {:induction false} DesiredQuotesPostOnly(x: Inputs, i: OrderIntent)
    requires x.market.tickSize > 0.0001 && x.settings.baseSpread > 0.0
    requires i in Evaluate(x)
    ensures x.bids != [] && x.asks != []
    ensures OffTheBook(ApplyRewardConstraints(i, x.market), x.bids, x.asks)
       <==> BandLeavesRoom(i.side, x.market, x.bids, x.asks)
  {
    hide Evaluate;
    QuotedBookHasBothSides(x, i);
    NeverCrossesTheBook(x, i);
  }

  lemma {:induction false} QuotedBookHasBothSides(x: Inputs, i: OrderIntent)
    requires i in Evaluate(x)
    ensures x.bids != [] && x.asks != []
  {
    hide RawQuotes, ClampPrice, PassesStrategyAGate, ValueWeightedSkew;
  }

  /** Off neg-risk markets a desired ask of strategy A is covered by the position exactly when the reward minimum is. */
  lemma {:induction false} DesiredAsksCoveredIff(x: Inputs, i: OrderIntent)
    requires i in Evaluate(x) && i.side.Sell? && !x.market.negRisk
    ensures ApplyRewardConstraints(i, x.market).size <= x.settings.currentPosition <==>
              (RewardEligible(x.market) && x.market.rewardsMinSize.Some? ==>
                 x.market.rewardsMinSize.value <= x.settings.currentPosition)
  {
    hide Evaluate;
    AsksAreCovered(x, i);
  }

  // ----- Concrete quotes -----

  /** A one-cent market, one cent wide. */
  const ONE_CENT_INPUTS := Inputs(
    BOT_SETTINGS, Market("token", 0.01, true, 0, true, None, None, None, None, None),
    [PriceLevel(0.49, 1.0)], [PriceLevel(0.50, 1.0)], InventoryState(0.0, 0.0, 0.5), Some(0), 0.0)

  /** The same market with a reward band around 0.60, wholly above the best ask. */
  const HIGH_BAND_INPUTS := ONE_CENT_INPUTS.(
    market := ONE_CENT_INPUTS.market.(adjustedMidpoint := Some(0.60), rewardsMaxSpread := Some(0.04)))

  lemma {:induction false} QuotesTheBestPrices(x: Inputs)
    requires x == ONE_CENT_INPUTS || x == HIGH_BAND_INPUTS
    ensures var i := Evaluate(x);
      && |i| == 2 && i[0].side == Buy && i[0].price == 0.49 && i[1].side == Sell && i[1].price == 0.50
      && i[0].tokenId == i[1].tokenId == "token" && i[0].tickSize == i[1].tickSize == 0.01
  {
    hide ValueWeightedSkew, ClampPrice, PassesStrategyAGate, QuoteOffsetTicks;
    NoSkew(x.inventory);
    CentsStay();
    OneCentPasses();
    assert MarketOpen(x) && BookQuotable(x);
    assert RawQuotes(x.settings, 0.0, 0.49, 0.50, 0.01) == (0.49, 0.50);
  }

  lemma {:induction false} CentsStay()
    ensures ClampPrice(0.49) == 0.49 && ClampPrice(0.50) == 0.50
  {
    assert RoundHalfEven(4900.0) == 4900 && RoundHalfEven(5000.0) == 5000;
  }

  /** There the clamp raises the bid from 0.49 to 0.58, through the best ask of 0.50. */
  lemma {:induction false} ClampedBidCrosses() returns (i: OrderIntent)
    ensures i in Desired([WithSettings(BOT_SETTINGS)], HIGH_BAND_INPUTS)
    ensures i.side == Buy && i.price == 0.58 && !OffTheBook(i, HIGH_BAND_INPUTS.bids, HIGH_BAND_INPUTS.asks)
  {
    hide Evaluate;
    var x, strategy := HIGH_BAND_INPUTS, WithSettings(BOT_SETTINGS);
    QuotesTheBestPrices(x);
    assert strategy.evaluate(x) == Evaluate(x);
    EveryQuoteIsDesired([strategy], x, 0, Evaluate(x)[0]);
    i := ApplyRewardConstraints(Evaluate(x)[0], x.market);
  }

  /**
   The bot's settings quote a one-cent market that is one cent wide at its best prices. When only one
   of the two rests, reconciliation replaces it by the other, and that by the first, without end.
   */
  lemma {:induction false} BotSettingsCanFlip(ids: nat -> seq<string>, states: seq<seq<ConfirmedOrder>>,
                                              firstId: string, resting: nat, n: nat)
    requires resting < |Evaluate(ONE_CENT_INPUTS)|
    requires RepeatedRuns.RepeatedRun(Evaluate(ONE_CENT_INPUTS), ids, states) && n < |states|
    requires states[0] == [AsOrder(Evaluate(ONE_CENT_INPUTS)[resting], firstId)]
    ensures |Mutations(Plan(Evaluate(ONE_CENT_INPUTS), states[n]))| == 2
  {
    hide Evaluate, Mutations, Plan;
    QuotesTheBestPrices(ONE_CENT_INPUTS);
    var desired := Evaluate(ONE_CENT_INPUTS);
    assert desired == [desired[0], desired[1]];
    RepeatedRuns.TightPairFlips(desired, desired[resting], desired[1 - resting], ids, states, firstId, n);
  }

  /**
   Nor are these quotes apart: on an empty book, with both accepted, the bot's first cycle leaves a buy
   and a sell a tick from each other.
   */
  lemma {:induction false} FirstCycleRestsTightPair(ticks: string -> real) returns (c: SelfCrossSafety.Cycle)
    requires ticks("token") == 0.01
    ensures c.tokenId == "token" && c.desired == Evaluate(ONE_CENT_INPUTS) && c.gone == {}
    ensures NoRepeats(c.acks) && forall ack :: ack in c.acks ==> ack.Some?
    ensures !SelfCrossSafety.Apart(c.desired)
    ensures SelfCrossSafety.FitsCycle([], c, ticks)
    ensures !SelfCrossSafety.Safe(SelfCrossSafety.AfterCycle([], c), ticks)
  {
    hide Evaluate, Mutations, Plan;
    QuotesTheBestPrices(ONE_CENT_INPUTS);
    var desired := Evaluate(ONE_CENT_INPUTS);
    assert desired == [desired[0], desired[1]];
    NotApart(desired[0], desired[1]);
    c := SelfCrossSafety.CloseQuotesUnsafe("token", desired, ticks);
  }

  lemma {:induction false} NotApart(bid: OrderIntent, ask: OrderIntent)
    requires bid.tokenId == ask.tokenId && bid.side == Buy && bid.price == 0.49 && bid.tickSize == 0.01
    requires ask.side == Sell && ask.price == 0.50
    ensures !SelfCrossSafety.Apart([bid, ask])
  {
    var desired := [bid, ask];
    assert desired[0] in desired && desired[1] in desired;
  }
}
