/** Strategy A: when to quote a market, at which prices and for how long. */
module StrategyA {
  import opened Common
  import opened OrderTypes
  import opened BookTypes
  import opened BookState
  import opened FeeCalculator
  import opened Inventory

  datatype Settings = Settings(
    enabled: bool, killSwitchActive: bool, maxExposure: real, baseSpread: real, costFloor: real, orderSize: int,
    resolutionWarnMs: int, gtdWithinMs: int, gtdResolutionBufferMs: int,
    skewThreshold: real, haltThreshold: real, skewMultiplier: int, currentPosition: real)

  /** Times are seconds since the epoch. */
  datatype Market = Market(
    tokenId: string, tickSize: real, negRisk: bool, secondsDelay: int, acceptingOrders: bool,
    gameStartTime: Option<real>, resolutionTime: Option<real>,
    rewardsMinSize: Option<real>, rewardsMaxSpread: Option<real>, adjustedMidpoint: Option<real>)

  /** Everything one evaluation reads: the fee is what the cache answered, the time is the clock in milliseconds. */
  datatype Inputs = Inputs(
    settings: Settings, market: Market, bids: seq<PriceLevel>, asks: seq<PriceLevel>,
    inventory: InventoryState, feeRateBps: Option<int>, nowMs: real)

  /** The milliseconds left until an event; none when no event is scheduled. */
  function TimeTo(event: Option<real>, nowMs: real): Option<real>
  {
    if event.None? then None else Some(event.value * 1000.0 - nowMs)
  }

  predicate MarketOpen(x: Inputs)
  {
    var s, m := x.settings, x.market;
    var toResolution, toGame := TimeTo(m.resolutionTime, x.nowMs), TimeTo(m.gameStartTime, x.nowMs);
    && s.enabled && !s.killSwitchActive
    && m.acceptingOrders
    && m.secondsDelay == 0
    && (toResolution.Some? ==> toResolution.value > s.resolutionWarnMs as real)
    && (toGame.Some? ==> toGame.value > 0.0)
    && s.currentPosition < s.maxExposure
  }

  predicate BookQuotable(x: Inputs)
  {
    var s, mid := x.settings, MidOf(x.bids, x.asks);
    && x.feeRateBps.Some?
    && mid.Some? && 0.05 <= mid.value <= 0.95
    && PassesStrategyAGate(x.feeRateBps.value, x.asks[0].price - x.bids[0].price, s.baseSpread, s.costFloor)
    && Abs(ValueWeightedSkew(x.inventory)) < s.haltThreshold
  }

  /** One tick inside the best prices when the spread has room, at the best prices otherwise. */
  function Improvement(bestBid: real, bestAsk: real, tick: real): real
  {
    if bestAsk - bestBid > 2.0 * tick then tick else 0.0
  }

  /** How far both quotes are moved outwards for the inventory held. */
  function SkewShift(s: Settings, skew: real, tick: real): real
  {
    if Abs(skew) >= s.skewThreshold then QuoteOffsetTicks(skew, s.skewMultiplier) as real * tick else 0.0
  }

  /** The bid and ask before rounding. */
  function RawQuotes(s: Settings, skew: real, bestBid: real, bestAsk: real, tick: real): (real, real)
  {
    var inwards, outwards := Improvement(bestBid, bestAsk, tick), SkewShift(s, skew, tick);
    (bestBid + inwards - outwards, bestAsk - inwards + outwards)
  }

  function ClampPrice(price: real): real
  {
    Max(0.01, Min(0.99, RoundTo(price, 10000.0)))
  }

  /** Python's `int(x)` truncates toward zero. */
  function Truncate(x: real): int
  {
    if x >= 0.0 then x.Floor else -((-x).Floor)
  }

  function Expiry(event: real, bufferMs: int): int
  {
    Truncate(event - (bufferMs / 1000) as real + 60.0)
  }

  predicate Within(left: Option<real>, limitMs: int)
  {
    left.Some? && 0.0 < left.value <= limitMs as real
  }

  /** Time in force and expiration. */
  function Lifetime(x: Inputs): (string, Option<int>)
  {
    var s, m := x.settings, x.market;
    if Within(TimeTo(m.resolutionTime, x.nowMs), s.gtdWithinMs)
    then ("GTD", Some(Expiry(m.resolutionTime.value, s.gtdResolutionBufferMs)))
    else if Within(TimeTo(m.gameStartTime, x.nowMs), s.gtdWithinMs)
    then ("GTD", Some(Expiry(m.gameStartTime.value, s.gtdResolutionBufferMs)))
    else ("GTC", None)
  }

  function Quote(x: Inputs, side: Side, price: real): OrderIntent
    requires x.feeRateBps.Some?
  {
    var (timeInForce, expiration) := Lifetime(x);
    OrderIntent(x.market.tokenId, side, price, x.settings.orderSize as real, timeInForce, true, expiration, "A",
                x.feeRateBps.value, x.market.negRisk, x.market.tickSize)
  }

  /** The quotes wanted: none, a bid, or a bid and an ask. */
  function Evaluate(x: Inputs): seq<OrderIntent>
  {
    if !MarketOpen(x) || !BookQuotable(x) then []
    else
      var s, m := x.settings, x.market;
      var (bid, ask) := RawQuotes(s, ValueWeightedSkew(x.inventory), x.bids[0].price, x.asks[0].price, m.tickSize);
      if ask - bid < m.tickSize then []
      else
        var bids := [Quote(x, Buy, ClampPrice(bid))];
        if m.negRisk || s.currentPosition >= s.orderSize as real
        then bids + [Quote(x, Sell, ClampPrice(ask))]
        else bids
  }

  // ----- Post-only quoting -----

  /** The bid is strictly below the mid and the ask strictly above it. */
  ghost predicate Straddles(i: OrderIntent, mid: real)
  {
    0.01 <= i.price <= 0.99 && if i.side.Buy? then i.price < mid else mid < i.price
  }

  /**
   Without inventory pressure the quotes improve the best prices by at most a tick and stay on their
   sides of the mid.
   */
  lemma {:induction false} NeutralQuotes(s: Settings, skew: real, bestBid: real, bestAsk: real, tick: real)
    requires Abs(skew) < s.skewThreshold && tick > 0.0 && bestBid < bestAsk
    ensures var (bid, ask) := RawQuotes(s, skew, bestBid, bestAsk, tick);
      && bestBid <= bid <= bestBid + tick && bid < (bestBid + bestAsk) / 2.0
      && bestAsk - tick <= ask <= bestAsk && (bestBid + bestAsk) / 2.0 < ask
      && (bid > bestBid <==> bestAsk - bestBid > 2.0 * tick)
  {
  }

  lemma {:induction false} ProductsFollow(x: real, x': real, y: real)
    requires x <= x' && y >= 0.0
    ensures RoundedProduct(x, y) <= RoundedProduct(x', y)
  {
    hide RoundHalfEven;
    ScaleMonotone(x, x', y);
    RoundMonotone(x * y, x' * y);
  }

  lemma {:induction false} OffsetsFollowSkew(skew: real, skew': real, multiplier: int)
    requires skew <= skew' && multiplier >= 0
    ensures QuoteOffsetTicks(skew, multiplier) <= QuoteOffsetTicks(skew', multiplier)
  {
    hide RoundedProduct;
    ProductsFollow(skew, skew', multiplier as real);
  }

  lemma {:induction false} OffsetSign(skew: real, multiplier: int)
    requires multiplier >= 0
    ensures skew >= 0.0 ==> QuoteOffsetTicks(skew, multiplier) >= 0
    ensures skew <= 0.0 ==> QuoteOffsetTicks(skew, multiplier) <= 0
  {
    assert QuoteOffsetTicks(0.0, multiplier) == 0;
    if skew >= 0.0 {
      OffsetsFollowSkew(0.0, skew, multiplier);
    }
    if skew <= 0.0 {
      OffsetsFollowSkew(skew, 0.0, multiplier);
    }
  }

  lemma {:induction false} ShiftFollowsSkew(s: Settings, skew: real, skew': real, tick: real)
    requires skew <= skew' && s.skewMultiplier >= 0 && tick >= 0.0
    ensures SkewShift(s, skew, tick) <= SkewShift(s, skew', tick)
  {
    hide QuoteOffsetTicks;
    var offset, offset' := QuoteOffsetTicks(skew, s.skewMultiplier) as real,
        QuoteOffsetTicks(skew', s.skewMultiplier) as real;
    OffsetsFollowSkew(skew, skew', s.skewMultiplier);
    OffsetSign(skew, s.skewMultiplier);
    OffsetSign(skew', s.skewMultiplier);
    var active, active' := Abs(skew) >= s.skewThreshold, Abs(skew') >= s.skewThreshold;
    ScaleMonotone(if active then offset else 0.0, if active' then offset' else 0.0, tick);
  }

  /** The more the inventory leans to YES, the lower the bid and the higher the ask. */
  lemma {:induction false} QuotesFollowSkew(s: Settings, skew: real, skew': real, bestBid: real, bestAsk: real,
                                            tick: real)
    requires skew <= skew' && s.skewMultiplier >= 0 && tick >= 0.0
    ensures var (bid, ask) := RawQuotes(s, skew, bestBid, bestAsk, tick);
      var (bid', ask') := RawQuotes(s, skew', bestBid, bestAsk, tick);
      bid' <= bid && ask <= ask'
  {
    hide SkewShift;
    ShiftFollowsSkew(s, skew, skew', tick);
  }

  lemma {:induction false} ClampBelow(price: real, mid: real)
    requires price < mid - 0.00005 && 0.05 <= mid <= 0.95
    ensures 0.01 <= ClampPrice(price) <= 0.99 && ClampPrice(price) < mid
  {
    RoundToClose(price, 10000.0);
  }

  lemma {:induction false} ClampAbove(price: real, mid: real)
    requires mid + 0.00005 < price && 0.05 <= mid <= 0.95
    ensures 0.01 <= ClampPrice(price) <= 0.99 && mid < ClampPrice(price)
  {
    RoundToClose(price, 10000.0);
  }

  /** With a tick above 0.0001, skew, rounding and clamping leave every quote on its own side of the mid. */
  lemma {:induction false} QuotesStraddleMid(x: Inputs, i: OrderIntent)
    requires x.market.tickSize > 0.0001
    requires i in Evaluate(x)
    ensures Straddles(i, MidOf(x.bids, x.asks).value)
  {
    hide RoundTo, ValueWeightedSkew, SkewShift, ClampPrice, PassesStrategyAGate;
    var skew, tick := ValueWeightedSkew(x.inventory), x.market.tickSize;
    var (bid, ask) := RawQuotes(x.settings, skew, x.bids[0].price, x.asks[0].price, tick);
    var mid := MidOf(x.bids, x.asks).value;
    assert bid + ask == mid + mid;
    ClampBelow(bid, mid);
    ClampAbove(ask, mid);
  }

  /** A quote that passes the profit gate never reaches the opposite best price. */
  lemma {:induction false} NeverCrossesTheBook(x: Inputs, i: OrderIntent)
    requires x.market.tickSize > 0.0001 && x.settings.baseSpread > 0.0
    requires i in Evaluate(x)
    ensures if i.side.Buy? then i.price < x.asks[0].price else x.bids[0].price < i.price
  {
    QuotesStraddleMid(x, i);
    assert x.asks[0].price - x.bids[0].price >= x.settings.baseSpread;
  }

  ghost predicate AllStraddle(x: Inputs)
  {
    forall i :: i in Evaluate(x) ==> Straddles(i, MidOf(x.bids, x.asks).value)
  }

  /** The settings the bot gives the strategy by default, with no position. */
  const BOT_SETTINGS := Settings(true, false, 100.0, 0.001, 0.001, 10, 7_200_000, 21_600_000, 7_200_000,
                                 0.65, 0.80, 3, 0.0)

  /** A one-tick book around one half, with a base spread of one tick. */
  function OneTickBook(tick: real): Inputs
  {
    Inputs(BOT_SETTINGS.(baseSpread := tick, costFloor := 0.0),
           Market("token", tick, false, 0, true, None, None, None, None, None),
           [PriceLevel(0.5 - tick / 2.0, 1.0)], [PriceLevel(0.5 + tick / 2.0, 1.0)],
           InventoryState(0.0, 0.0, 0.5), Some(0), 0.0)
  }

  lemma {:induction false} FineTicksRoundToTheMid(tick: real)
    requires 0.0 < tick <= 0.0001
    ensures !AllStraddle(OneTickBook(tick))
  {
    var x := OneTickBook(tick);
    var bid := 0.5 - tick / 2.0;
    assert ValueWeightedSkew(x.inventory) == 0.0;
    assert MidOf(x.bids, x.asks) == Some(0.5);
    RoundsToHalf(bid);
    var (b, a) := RawQuotes(x.settings, 0.0, x.bids[0].price, x.asks[0].price, tick);
    assert b == bid && a - b == tick;
    assert MarketOpen(x);
    assert BookQuotable(x);
    var i := Quote(x, Buy, ClampPrice(b));
    assert Evaluate(x)[0] == i;
    assert i in Evaluate(x) && !Straddles(i, 0.5);
  }

  lemma {:induction false} RoundsToHalf(price: real)
    requires 0.49995 <= price < 0.5
    ensures ClampPrice(price) == 0.5
  {
    assert (price * 10000.0).Floor == 4999;
    assert RoundHalfEven(price * 10000.0) == 5000;
  }

  /** 0.0001 is the exact limit: every evaluation straddles its mid just when the tick is above it. */
  lemma {:induction false} StraddlingTicks(tick: real)
    requires tick > 0.0
    ensures (forall x: Inputs :: x.market.tickSize == tick ==> AllStraddle(x)) <==> tick > 0.0001
  {
    if tick > 0.0001 {
      forall x: Inputs | x.market.tickSize == tick ensures AllStraddle(x) {
        forall i | i in Evaluate(x) ensures Straddles(i, MidOf(x.bids, x.asks).value) {
          QuotesStraddleMid(x, i);
        }
      }
    } else {
      FineTicksRoundToTheMid(tick);
      assert OneTickBook(tick).market.tickSize == tick;
    }
  }

  /** On a market without collateralised sells, an ask is quoted only when the position covers it. */
  lemma {:induction false} AsksAreCovered(x: Inputs, i: OrderIntent)
    requires i in Evaluate(x) && i.side.Sell? && !x.market.negRisk
    ensures i.size <= x.settings.currentPosition
  {
    hide ValueWeightedSkew, RawQuotes, ClampPrice, PassesStrategyAGate;
  }

  // ----- Expirations -----

  lemma {:induction false} FloorAtLeast(x: real, k: int)
    ensures x.Floor >= k <==> x >= k as real
  {
  }

  lemma {:induction false} TruncateAhead(x: real, now: real)
    requires now >= 0.0
    ensures Truncate(x) as real > now <==> x >= now.Floor as real + 1.0
  {
    var next := now.Floor + 1;
    FloorAtLeast(now, Truncate(x));
    assert Truncate(x) as real > now <==> Truncate(x) >= next;
    if x >= 0.0 {
      FloorAtLeast(x, next);
    }
  }

  /**
   The expiration lies ahead exactly when the event is at least the buffer less 59 seconds after the
   current second.
   */
  lemma {:induction false} ExpiryAhead(event: real, bufferMs: int, now: real)
    requires now >= 0.0
    ensures Expiry(event, bufferMs) as real > now
       <==> event - now.Floor as real >= (bufferMs / 1000) as real - 59.0
  {
    hide Truncate;
    var buffer := (bufferMs / 1000) as real;
    TruncateAhead(event - buffer + 60.0, now);
  }

  /** A quote limited by the resolution is alive when placed, if the buffer is no longer than the no-entry window. */
  lemma {:induction false} ResolutionQuotesAreAlive(x: Inputs, i: OrderIntent)
    requires x.nowMs >= 0.0 && x.settings.gtdResolutionBufferMs <= x.settings.resolutionWarnMs
    requires i in Evaluate(x)
    requires Within(TimeTo(x.market.resolutionTime, x.nowMs), x.settings.gtdWithinMs)
    ensures i.expiration.Some? && i.expiration.value as real > x.nowMs / 1000.0
  {
    hide ValueWeightedSkew, RawQuotes, ClampPrice, PassesStrategyAGate, Expiry;
    ExpiryAhead(x.market.resolutionTime.value, x.settings.gtdResolutionBufferMs, x.nowMs / 1000.0);
    assert i.expiration == Some(Expiry(x.market.resolutionTime.value, x.settings.gtdResolutionBufferMs));
  }

  /**
   A quote before a game, whose resolution if any is beyond the GTD window, is alive exactly when
   the game is the buffer less 59 seconds away.
   */
  lemma {:induction false} GameQuotesAlive(x: Inputs, i: OrderIntent)
    requires x.nowMs >= 0.0 && i in Evaluate(x)
    requires !Within(TimeTo(x.market.resolutionTime, x.nowMs), x.settings.gtdWithinMs)
    requires Within(TimeTo(x.market.gameStartTime, x.nowMs), x.settings.gtdWithinMs)
    ensures i.expiration.Some?
    ensures i.expiration.value as real > x.nowMs / 1000.0
       <==> x.market.gameStartTime.value - (x.nowMs / 1000.0).Floor as real
              >= (x.settings.gtdResolutionBufferMs / 1000) as real - 59.0
  {
    hide ValueWeightedSkew, RawQuotes, ClampPrice, PassesStrategyAGate, Expiry;
    ExpiryAhead(x.market.gameStartTime.value, x.settings.gtdResolutionBufferMs, x.nowMs / 1000.0);
    assert i.expiration == Some(Expiry(x.market.gameStartTime.value, x.settings.gtdResolutionBufferMs));
  }

  /** A one-cent market whose game starts in an hour and which resolves a day later. */
  const GAME_INPUTS := Inputs(
    BOT_SETTINGS, Market("token", 0.01, true, 0, true, Some(1_003_600.0), Some(1_090_000.0), None, None, None),
    [PriceLevel(0.49, 1.0)], [PriceLevel(0.50, 1.0)], InventoryState(0.0, 0.0, 0.5), Some(0), 1_000_000_000.0)

  lemma {:induction false} NoSkew(s: InventoryState)
    requires s == InventoryState(0.0, 0.0, 0.5)
    ensures ValueWeightedSkew(s) == 0.0
  {
  }

  lemma {:induction false} OneCentPasses()
    ensures PassesStrategyAGate(0, 0.01, 0.001, 0.001)
  {
  }

  lemma {:induction false} AnHourAhead()
    ensures Expiry(1_003_600.0, 7_200_000) == 996_460
  {
  }

  /** With the bot's settings it is quoted, and the quote expired 3540 seconds before it was made. */
  lemma {:induction false} QuoteAlreadyExpired() returns (i: OrderIntent)
    ensures i in Evaluate(GAME_INPUTS) && i.expiration == Some(996_460)
    ensures 996_460.0 < GAME_INPUTS.nowMs / 1000.0
  {
    hide ValueWeightedSkew, ClampPrice, PassesStrategyAGate, QuoteOffsetTicks, Expiry;
    var x := GAME_INPUTS;
    NoSkew(x.inventory);
    OneCentPasses();
    AnHourAhead();
    assert MarketOpen(x) && BookQuotable(x);
    assert RawQuotes(x.settings, 0.0, 0.49, 0.50, 0.01) == (0.49, 0.50);
    assert Lifetime(x) == ("GTD", Some(996_460));
    i := Evaluate(x)[0];
  }
}
