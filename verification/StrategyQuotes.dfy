/** When strategy A quotes and what, told from the book, the inventory and the clock. */
module StrategyQuotes {
  import opened Common
  import opened OrderTypes
  import opened BookState
  import opened FeeCalculator
  import opened Inventory
  import opened StrategyA

  // ----- When there is a quote -----

  /** The market is open, no deadline is near, and the position has room. */
  ghost predicate MayQuote(x: Inputs)
  {
    && x.settings.enabled && !x.settings.killSwitchActive
    && x.market.acceptingOrders && x.market.secondsDelay == 0
    && (x.market.resolutionTime.Some? ==>
          x.nowMs + x.settings.resolutionWarnMs as real < x.market.resolutionTime.value * 1000.0)
    && (x.market.gameStartTime.Some? ==> x.nowMs < x.market.gameStartTime.value * 1000.0)
    && x.settings.currentPosition < x.settings.maxExposure
  }

  /** The mid is within [0.05, 0.95] and the spread covers the fee: twice with the floor, three times a high one. */
  ghost predicate WorthQuoting(x: Inputs)
  {
    && x.bids != [] && x.asks != [] && x.feeRateBps.Some?
    && var spread, fee := x.asks[0].price - x.bids[0].price, x.feeRateBps.value as real / 10000.0;
      && 0.1 <= x.bids[0].price + x.asks[0].price <= 1.9
      && spread >= x.settings.baseSpread && spread >= 2.0 * fee + x.settings.costFloor
      && (fee > 0.01 ==> spread >= 3.0 * fee)
  }

  /** Ticks between the best prices and the quotes, inwards for a wide spread and outwards for the skew. */
  ghost function Inwards(x: Inputs): real
    requires x.bids != [] && x.asks != []
  {
    if x.asks[0].price - x.bids[0].price > 2.0 * x.market.tickSize then x.market.tickSize else 0.0
  }

  ghost function Skew(x: Inputs): real
  {
    ValueWeightedSkew(x.inventory)
  }

  lemma {:induction false} MarketOpenIff(x: Inputs)
    ensures MarketOpen(x) <==> MayQuote(x)
  {
  }

  lemma {:induction false} BookQuotableIff(x: Inputs)
    ensures BookQuotable(x) <==> WorthQuoting(x) && Abs(Skew(x)) < x.settings.haltThreshold
  {
    hide ValueWeightedSkew;
  }

  /** The nearest whole number, an even one if there are two. */
  ghost predicate IsNearest(n: int, x: real)
  {
    -0.5 <= n as real - x <= 0.5 && (n as real - x == 0.5 || n as real - x == -0.5 ==> n % 2 == 0)
  }

  /** `n` ticks of skew: the nearest whole number to skew times multiplier, or none below the threshold. */
  ghost predicate IsSkewTicks(x: Inputs, n: int)
  {
    if Abs(Skew(x)) < x.settings.skewThreshold then n == 0
    else IsNearest(n, Times(Skew(x), x.settings.skewMultiplier as real))
  }

  lemma {:induction false} RoundsToNearest(x: real)
    ensures IsNearest(RoundHalfEven(x), x)
  {
  }

  lemma {:induction false} SkewTicks(x: Inputs) returns (n: int)
    ensures IsSkewTicks(x, n)
    ensures SkewShift(x.settings, Skew(x), x.market.tickSize) == Times(n as real, x.market.tickSize)
  {
    hide ValueWeightedSkew, RoundHalfEven, IsNearest;
    RoundsToNearest(Times(Skew(x), x.settings.skewMultiplier as real));
    n := if Abs(Skew(x)) >= x.settings.skewThreshold then QuoteOffsetTicks(Skew(x), x.settings.skewMultiplier) else 0;
  }

  /** The quote price is the given one to four decimals, within [0.01, 0.99]. */
  ghost predicate IsPriced(price: real, raw: real)
  {
    && 0.01 <= price <= 0.99
    && (raw < 0.00995 ==> price == 0.01) && (raw > 0.99005 ==> price == 0.99)
    && (0.01 <= raw <= 0.99 ==> Abs(price - raw) <= 0.00005)
  }

  lemma {:induction false} ClampIsPriced(raw: real)
    ensures IsPriced(ClampPrice(raw), raw)
  {
    RoundToClose(raw, 10000.0);
  }

  /**
   Strategy A quotes exactly when it may, the spread is worth it, the skew is below the halt threshold
   and the quotes would be a tick apart. It then bids, and asks when it has what it sells.
   */
  lemma {:induction false} QuotesIff(x: Inputs) returns (n: int)
    ensures IsSkewTicks(x, n)
    ensures Evaluate(x) != [] <==>
              && MayQuote(x) && WorthQuoting(x) && Abs(Skew(x)) < x.settings.haltThreshold
              && x.asks[0].price - x.bids[0].price - 2.0 * Inwards(x) + 2.0 * Times(n as real, x.market.tickSize)
                 >= x.market.tickSize
    ensures Evaluate(x) != [] ==>
              var asks := x.market.negRisk || x.settings.currentPosition >= x.settings.orderSize as real;
              && |Evaluate(x)| == (if asks then 2 else 1)
              && Evaluate(x)[0].side == Buy && (asks ==> Evaluate(x)[1].side == Sell)
    ensures Evaluate(x) != [] ==>
              var outwards := Times(n as real, x.market.tickSize);
              && IsPriced(Evaluate(x)[0].price, x.bids[0].price + Inwards(x) - outwards)
              && (|Evaluate(x)| == 2 ==> IsPriced(Evaluate(x)[1].price, x.asks[0].price - Inwards(x) + outwards))
  {
    hide ValueWeightedSkew, ClampPrice, SkewShift, Times, MarketOpen, BookQuotable, MayQuote, WorthQuoting, IsSkewTicks,
        IsPriced;
    n := SkewTicks(x);
    MarketOpenIff(x);
    BookQuotableIff(x);
    if WorthQuoting(x) {
      SidesQuoted(x);
      var (bid, ask) := RawQuotes(x.settings, Skew(x), x.bids[0].price, x.asks[0].price, x.market.tickSize);
      ClampIsPriced(bid);
      ClampIsPriced(ask);
    }
  }

  lemma {:induction false} SidesQuoted(x: Inputs)
    requires WorthQuoting(x)
    ensures x.bids != [] && x.asks != [] && x.feeRateBps.Some?
  {
  }

  /** What every quote says besides its price. */
  lemma {:induction false} QuoteSays(x: Inputs, i: OrderIntent)
    requires i in Evaluate(x)
    ensures i.tokenId == x.market.tokenId && i.tickSize == x.market.tickSize && i.negRisk == x.market.negRisk
    ensures i.size == x.settings.orderSize as real && i.postOnly && i.strategy == "A"
    ensures x.feeRateBps == Some(i.feeRateBps)
    ensures i.timeInForce == (if i.expiration.Some? then "GTD" else "GTC")
  {
    hide ValueWeightedSkew, RawQuotes, ClampPrice, PassesStrategyAGate, Expiry;
  }

  /** The event lies ahead, by no more than the window in which quotes expire. */
  ghost predicate InWindow(x: Inputs, event: Option<real>)
  {
    event.Some? && x.nowMs < event.value * 1000.0 <= x.nowMs + x.settings.gtdWithinMs as real
  }

  /** The whole second at or next before the event, less the buffer and plus a minute. */
  ghost predicate ExpiresBefore(x: Inputs, expiration: Option<int>, event: real)
  {
    var at := event - (x.settings.gtdResolutionBufferMs / 1000) as real + 60.0;
    expiration.Some? && (at >= 0.0 ==> expiration.value as real <= at < expiration.value as real + 1.0)
  }

  /** A quote expires before the resolution if that is in the window, else before the game, else never. */
  lemma {:induction false} ExpirationSays(x: Inputs, i: OrderIntent)
    requires i in Evaluate(x)
    ensures
      if InWindow(x, x.market.resolutionTime) then ExpiresBefore(x, i.expiration, x.market.resolutionTime.value)
      else if InWindow(x, x.market.gameStartTime) then ExpiresBefore(x, i.expiration, x.market.gameStartTime.value)
      else i.expiration == None
  {
    hide ValueWeightedSkew, RawQuotes, ClampPrice, PassesStrategyAGate;
    assert i.expiration == Lifetime(x).1;
    hide Evaluate;
  }

  // ----- The quotes and the inventory -----

  lemma {:induction false} ClampMonotone(price: real, price': real)
    requires price <= price'
    ensures ClampPrice(price) <= ClampPrice(price')
  {
    RoundToMonotone(price, price', 10000.0);
  }

  /** The more the inventory leans to YES, the lower the quoted bid and the higher the quoted ask. */
  lemma {:induction false} EvaluationsFollowSkew(x: Inputs, inventory: InventoryState, i: OrderIntent, j: OrderIntent)
    requires x.settings.skewMultiplier >= 0 && x.market.tickSize >= 0.0
    requires Skew(x) <= ValueWeightedSkew(inventory)
    requires i in Evaluate(x) && j in Evaluate(x.(inventory := inventory)) && i.side == j.side
    ensures if i.side.Buy? then j.price <= i.price else i.price <= j.price
  {
    hide ValueWeightedSkew, ClampPrice, RawQuotes, PassesStrategyAGate, MarketOpen;
    var bestBid, bestAsk, tick := x.bids[0].price, x.asks[0].price, x.market.tickSize;
    QuotesFollowSkew(x.settings, Skew(x), ValueWeightedSkew(inventory), bestBid, bestAsk, tick);
    var (bid, ask) := RawQuotes(x.settings, Skew(x), bestBid, bestAsk, tick);
    var (bid', ask') := RawQuotes(x.settings, ValueWeightedSkew(inventory), bestBid, bestAsk, tick);
    ClampMonotone(bid', bid);
    ClampMonotone(ask, ask');
  }

  /** The skew itself: YES less NO value over both, by the shares held and the price. */
  lemma {:induction false} SkewOfShares(s: InventoryState)
    ensures var yes, no := Times(s.yesShares, s.yesPrice), Times(s.noShares, 1.0 - s.yesPrice);
      if yes + no == 0.0 then ValueWeightedSkew(s) == 0.0 else Times(ValueWeightedSkew(s), yes + no) == yes - no
  {
    var yes, no := Times(s.yesShares, s.yesPrice), Times(s.noShares, 1.0 - s.yesPrice);
    assert yes == YesValue(s) && no == NoValue(s);
    hide Times, YesValue, NoValue;
    SkewOfValues(yes, no);
  }

  lemma {:induction false} SkewOfValues(yes: real, no: real)
    ensures if yes + no == 0.0 then SkewOf(yes, no) == 0.0 else Times(SkewOf(yes, no), yes + no) == yes - no
  {
    if yes + no != 0.0 {
      DivideBack(yes - no, yes + no);
    }
  }
}
