/** Average-cost accounting of fills: what a position holds, what it cost and what it has earned. */
module Positions {
  import opened Common

  datatype FillSide = BuyFill | SellFill | OtherFill

  datatype Fill = Fill(tokenId: string, side: FillSide, price: real, size: real)

  datatype Position = Position(shares: real, avgEntryPrice: real, realizedPnl: real)

  /** A position's first fill sets its average price, whatever its side. */
  function Opened(price: real): Position
  {
    Position(0.0, price, 0.0)
  }

  function Worth(shares: real, price: real): real
  {
    shares * price
  }

  /** The average entry price once a buy has been added to a position. */
  function Averaged(pos: Position, price: real, size: real): real
    requires pos.shares + size > 0.0
  {
    (Worth(pos.shares, pos.avgEntryPrice) + Worth(size, price)) / (pos.shares + size)
  }

  /** One fill: a buy moves the average, a sell realizes profit against it; shares never fall below zero. */
  function Updated(pos: Position, side: FillSide, price: real, size: real): Position
  {
    match side
    case BuyFill =>
      var shares := pos.shares + size;
      Position(shares, if shares > 0.0 then Averaged(pos, price, size) else price, pos.realizedPnl)
    case SellFill =>
      var shares := pos.shares - size;
      var realized := (price - pos.avgEntryPrice) * size;
      Position(if shares < 0.0 then 0.0 else shares, pos.avgEntryPrice, pos.realizedPnl + realized)
    case OtherFill => pos
  }

  /** The position of a token after a trace of fills, if it has been touched. */
  function PositionAfter(trace: seq<Fill>, tokenId: string): Option<Position>
  {
    if trace == [] then None else
      var before, f := PositionAfter(trace[..|trace| - 1], tokenId), trace[|trace| - 1];
      if f.tokenId != tokenId then before
      else Some(Updated(if before.Some? then before.value else Opened(f.price), f.side, f.price, f.size))
  }

  ghost function SharesAfter(trace: seq<Fill>, tokenId: string): real
  {
    var pos := PositionAfter(trace, tokenId);
    if pos.Some? then pos.value.shares else 0.0
  }

  // ----- Cash flows of a trace -----

  ghost function SaleProceeds(trace: seq<Fill>, tokenId: string): real
  {
    if trace == [] then 0.0 else
      var f := trace[|trace| - 1];
      SaleProceeds(trace[..|trace| - 1], tokenId) + if f.tokenId == tokenId then Proceeds(f) else 0.0
  }

  ghost function PurchaseCosts(trace: seq<Fill>, tokenId: string): real
  {
    if trace == [] then 0.0 else
      var f := trace[|trace| - 1];
      PurchaseCosts(trace[..|trace| - 1], tokenId) + if f.tokenId == tokenId then Cost(f) else 0.0
  }

  ghost function PosBefore(trace: seq<Fill>, tokenId: string, price: real): Position
  {
    var before := PositionAfter(trace, tokenId);
    if before.Some? then before.value else Opened(price)
  }

  /** What was sold beyond the shares held, valued at the average price of the moment. */
  ghost function Oversold(trace: seq<Fill>, tokenId: string): real
  {
    if trace == [] then 0.0 else
      var init, f := trace[..|trace| - 1], trace[|trace| - 1];
      Oversold(init, tokenId) + if f.tokenId == tokenId then Excess(PosBefore(init, tokenId, f.price), f) else 0.0
  }

  ghost predicate SizesNonNegative(trace: seq<Fill>)
  {
    forall i :: 0 <= i < |trace| ==> trace[i].size >= 0.0
  }

  /**
   Realized profit is sale proceeds less purchase costs plus the inventory at average cost, less the
   oversold part.
   */
  ghost predicate Balanced(pos: Position, proceeds: real, costs: real, oversold: real)
  {
    pos.shares >= 0.0 && pos.realizedPnl == proceeds - costs + pos.shares * pos.avgEntryPrice - oversold
  }

  lemma {:induction false} BuyBalances(pos: Position, price: real, size: real, proceeds: real, costs: real,
                                       oversold: real)
    requires Balanced(pos, proceeds, costs, oversold) && size >= 0.0
    ensures Balanced(Updated(pos, BuyFill, price, size), proceeds, costs + price * size, oversold)
  {
    hide Averaged;
    if pos.shares + size > 0.0 {
      AveragedWorth(pos, price, size);
    } else {
      assert pos.shares == 0.0 && size == 0.0;
    }
  }

  /** The shares of a position with a buy added are worth, at the new average, what they cost. */
  lemma {:induction false} AveragedWorth(pos: Position, price: real, size: real)
    requires pos.shares + size > 0.0
    ensures (pos.shares + size) * Averaged(pos, price, size) == pos.shares * pos.avgEntryPrice + price * size
  {
    var shares, cost := pos.shares + size, Worth(pos.shares, pos.avgEntryPrice) + Worth(size, price);
    var average := Quotient(cost, shares);
    Commute(average, shares);
    Commute(size, price);
  }

  lemma {:induction false} Commute(x: real, y: real)
    ensures x * y == y * x
  {
  }

  lemma {:induction false} SellBalances(pos: Position, price: real, size: real, proceeds: real, costs: real,
                                        oversold: real)
    requires Balanced(pos, proceeds, costs, oversold) && size >= 0.0
    ensures Balanced(Updated(pos, SellFill, price, size), proceeds + price * size, costs,
                     oversold + if size > pos.shares then (size - pos.shares) * pos.avgEntryPrice else 0.0)
  {
    var a := pos.avgEntryPrice;
    assert (pos.shares - size) * a == pos.shares * a - size * a;
    assert (price - a) * size == price * size - a * size;
  }

  /** A relation between a position and its cash flows: position, sale proceeds, purchase costs, oversold value. */
  type AccountRelation = (Position, real, real, real) -> bool

  function Proceeds(f: Fill): real
  {
    if f.side.SellFill? then f.price * f.size else 0.0
  }

  function Cost(f: Fill): real
  {
    if f.side.BuyFill? then f.price * f.size else 0.0
  }

  function Excess(pos: Position, f: Fill): real
  {
    if f.side.SellFill? && f.size > pos.shares then (f.size - pos.shares) * pos.avgEntryPrice else 0.0
  }

  /** Every fill keeps the relation. */
  ghost predicate KeptByFills(relation: AccountRelation)
  {
    forall pos: Position, f: Fill, p: real, c: real, o: real :: f.size >= 0.0 && relation(pos, p, c, o) ==>
      relation(Updated(pos, f.side, f.price, f.size), p + Proceeds(f), c + Cost(f), o + Excess(pos, f))
  }

  lemma {:induction false} FillBalances(pos: Position, f: Fill, proceeds: real, costs: real, oversold: real)
    requires Balanced(pos, proceeds, costs, oversold) && f.size >= 0.0
    ensures Balanced(Updated(pos, f.side, f.price, f.size), proceeds + Proceeds(f), costs + Cost(f), oversold
        + Excess(pos, f))
  {
    match f.side
    case BuyFill => BuyBalances(pos, f.price, f.size, proceeds, costs, oversold);
    case SellFill => SellBalances(pos, f.price, f.size, proceeds, costs, oversold);
    case OtherFill =>
  }

  /** A relation that holds of fresh positions and is kept by every fill holds after every trace. */
  lemma {:induction false} RelationOverTraces(relation: AccountRelation, trace: seq<Fill>, tokenId: string, price: real)
    requires KeptByFills(relation) && forall x :: relation(Opened(x), 0.0, 0.0, 0.0)
    requires SizesNonNegative(trace)
    ensures relation(PosBefore(trace, tokenId, price), SaleProceeds(trace, tokenId), PurchaseCosts(trace, tokenId),
                     Oversold(trace, tokenId))
  {
    if trace != [] {
      var init, f := trace[..|trace| - 1], trace[|trace| - 1];
      if f.tokenId == tokenId {
        RelationOverTraces(relation, init, tokenId, f.price);
      } else {
        RelationOverTraces(relation, init, tokenId, price);
      }
    }
  }

  /** Conservation: the accounts of a token balance after every trace of fills. */
  lemma {:induction false} PnlConservation(trace: seq<Fill>, tokenId: string, price: real)
    requires SizesNonNegative(trace)
    ensures Balanced(PosBefore(trace, tokenId, price), SaleProceeds(trace, tokenId), PurchaseCosts(trace, tokenId),
                     Oversold(trace, tokenId))
  {
    var relation: AccountRelation := (pos, p, c, o) => Balanced(pos, p, c, o);
    forall pos: Position, f: Fill, p: real, c: real, o: real | f.size >= 0.0 && relation(pos, p, c, o)
      ensures relation(Updated(pos, f.side, f.price, f.size), p + Proceeds(f), c + Cost(f), o + Excess(pos, f))
    {
      FillBalances(pos, f, p, c, o);
    }
    RelationOverTraces(relation, trace, tokenId, price);
  }

  // ----- How many shares -----

  /** What a fill adds to the quantity bought less the quantity sold. */
  ghost function NetSize(f: Fill, tokenId: string): real
  {
    if f.tokenId != tokenId then 0.0
    else match f.side
      case BuyFill => f.size
      case SellFill => -f.size
      case OtherFill => 0.0
  }

  /** The quantity bought less the quantity sold. */
  ghost function NetBought(trace: seq<Fill>, tokenId: string): real
  {
    if trace == [] then 0.0
    else NetBought(trace[..|trace| - 1], tokenId) + NetSize(trace[|trace| - 1], tokenId)
  }

  /**
   The quantity sold beyond what was held, as `short`: the most by which sales had at any time
   exceeded purchases.
   */
  ghost predicate IsShort(trace: seq<Fill>, tokenId: string, short: real)
  {
    && (exists n: nat :: n <= |trace| && NetBought(trace[..n], tokenId) == -short)
    && (forall n: nat :: n <= |trace| ==> NetBought(trace[..n], tokenId) >= -short)
  }

  lemma {:induction false} ShortStep(trace: seq<Fill>, tokenId: string, short: real)
    requires trace != [] && IsShort(trace[..|trace| - 1], tokenId, short)
    ensures IsShort(trace, tokenId, Max(short, -NetBought(trace, tokenId)))
  {
    var last := |trace| - 1;
    assert trace[..|trace|] == trace;
    forall n: nat | n <= last ensures trace[..last][..n] == trace[..n] {
    }
    var k: nat :| k <= last && NetBought(trace[..last][..k], tokenId) == -short;
    assert NetBought(trace[..k], tokenId) == -short;
    forall n: nat | n <= |trace| ensures NetBought(trace[..n], tokenId) >= -Max(short, -NetBought(trace, tokenId)) {
      assert n <= last ==> NetBought(trace[..last][..n], tokenId) >= -short;
    }
  }

  /**
   Conservation of shares, from the sizes of the fills alone: a token's shares are what was bought less
   what was sold, plus what was sold beyond what was held.
   */
  lemma {:induction false} SharesConserved(trace: seq<Fill>, tokenId: string) returns (short: real)
    requires SizesNonNegative(trace)
    ensures IsShort(trace, tokenId, short) && short >= 0.0
    ensures SharesAfter(trace, tokenId) == NetBought(trace, tokenId) + short
  {
    if trace == [] {
      short := 0.0;
      assert NetBought(trace[..0], tokenId) == 0.0;
    } else {
      var init := trace[..|trace| - 1];
      var before := SharesConserved(init, tokenId);
      short := Max(before, -NetBought(trace, tokenId));
      ShortStep(trace, tokenId, before);
      assert NetBought(init[..|init|], tokenId) >= -before by { assert init[..|init|] == init; }
    }
  }

  /** That quantity is determined by the fills. */
  lemma {:induction false} ShortIsUnique(trace: seq<Fill>, tokenId: string, a: real, b: real)
    requires IsShort(trace, tokenId, a) && IsShort(trace, tokenId, b)
    ensures a == b
  {
    var n: nat :| n <= |trace| && NetBought(trace[..n], tokenId) == -a;
    var m: nat :| m <= |trace| && NetBought(trace[..m], tokenId) == -b;
  }

  /** Only sales realize profit, and only purchases move the average price. */
  lemma {:induction false} SidesKeep(trace: seq<Fill>, f: Fill)
    ensures var before, after := PositionAfter(trace, f.tokenId), PositionAfter(trace + [f], f.tokenId);
      && after.Some?
      && (!f.side.SellFill? ==>
            after.value.realizedPnl == if before.Some? then before.value.realizedPnl else 0.0)
      && (!f.side.BuyFill? ==>
            after.value.avgEntryPrice == if before.Some? then before.value.avgEntryPrice else f.price)
  {
    assert (trace + [f])[..|trace|] == trace;
  }

  /** With purchases alone, shares and average price are quantity and cost per share. */
  lemma {:induction false} BoughtOnly(trace: seq<Fill>, tokenId: string)
    requires SizesNonNegative(trace)
    requires forall f :: f in trace && f.tokenId == tokenId ==> f.side.BuyFill?
    ensures SharesAfter(trace, tokenId) == NetBought(trace, tokenId)
    ensures PositionAfter(trace, tokenId).Some? ==>
              var pos := PositionAfter(trace, tokenId).value;
              pos.realizedPnl == 0.0 && pos.shares * pos.avgEntryPrice == PurchaseCosts(trace, tokenId)
  {
    hide Balanced, Updated;
    BoughtHeld(trace, tokenId);
    NothingSold(trace, tokenId);
    PnlConservation(trace, tokenId, 0.0);
    BalancedPosition(trace, tokenId);
  }

  lemma {:induction false} BalancedPosition(trace: seq<Fill>, tokenId: string)
    requires Balanced(PosBefore(trace, tokenId, 0.0), SaleProceeds(trace, tokenId), PurchaseCosts(trace, tokenId),
                      Oversold(trace, tokenId))
    ensures PositionAfter(trace, tokenId).Some? ==>
              var pos := PositionAfter(trace, tokenId).value;
              pos.realizedPnl == SaleProceeds(trace, tokenId) - PurchaseCosts(trace, tokenId)
                  + pos.shares * pos.avgEntryPrice - Oversold(trace, tokenId)
  {
  }

  lemma {:induction false} BoughtHeld(trace: seq<Fill>, tokenId: string)
    requires SizesNonNegative(trace)
    requires forall f :: f in trace && f.tokenId == tokenId ==> f.side.BuyFill?
    ensures SharesAfter(trace, tokenId) == NetBought(trace, tokenId)
    ensures PositionAfter(trace, tokenId).Some? ==> PositionAfter(trace, tokenId).value.realizedPnl == 0.0
  {
    hide Averaged, Worth;
    if trace != [] {
      var init, f := trace[..|trace| - 1], trace[|trace| - 1];
      assert f in trace && forall g :: g in init ==> g in trace;
      BoughtHeld(init, tokenId);
      assert trace == init + [f];
      SidesKeep(init, f);
    }
  }

  lemma {:induction false} NothingSold(trace: seq<Fill>, tokenId: string)
    requires forall f :: f in trace && f.tokenId == tokenId ==> f.side.BuyFill?
    ensures SaleProceeds(trace, tokenId) == Oversold(trace, tokenId) == 0.0
  {
    if trace != [] {
      var init, f := trace[..|trace| - 1], trace[|trace| - 1];
      assert f in trace && forall g :: g in init ==> g in trace;
      NothingSold(init, tokenId);
    }
  }

  // ----- The average price -----

  /** Every buy since the position was last flat was priced within [lo, hi]. */
  ghost predicate BuysWithin(trace: seq<Fill>, tokenId: string, lo: real, hi: real)
  {
    trace == [] ||
    var init, f := trace[..|trace| - 1], trace[|trace| - 1];
    if f.tokenId != tokenId then BuysWithin(init, tokenId, lo, hi)
    else
      && (SharesAfter(init, tokenId) > 0.0 ==> BuysWithin(init, tokenId, lo, hi))
      && (f.side.BuyFill? ==> lo <= f.price <= hi)
  }

  lemma {:induction false} WorthBetween(shares: real, price: real, lo: real, hi: real)
    requires shares >= 0.0 && (shares > 0.0 ==> lo <= price <= hi)
    ensures Worth(shares, lo) <= Worth(shares, price) <= Worth(shares, hi)
  {
    if shares > 0.0 {
      ScaleMonotone(lo, price, shares);
      ScaleMonotone(price, hi, shares);
    }
  }

  lemma {:induction false} WorthTogether(x: real, y: real, price: real)
    ensures Worth(x + y, price) == Worth(x, price) + Worth(y, price)
  {
  }

  lemma {:induction false} WorthPerShare(worth: real, shares: real, lo: real, hi: real)
    requires shares > 0.0 && Worth(shares, lo) <= worth <= Worth(shares, hi)
    ensures lo <= worth / shares <= hi
  {
    QuotientAtLeast(worth, shares, lo);
    QuotientAtMost(worth, shares, hi);
  }

  /** Buying within a price range keeps the average within it. */
  lemma {:induction false} AveragedWithin(pos: Position, price: real, size: real, lo: real, hi: real)
    requires pos.shares >= 0.0 && size >= 0.0 && pos.shares + size > 0.0
    requires pos.shares > 0.0 ==> lo <= pos.avgEntryPrice <= hi
    requires lo <= price <= hi
    ensures lo <= Averaged(pos, price, size) <= hi
  {
    hide Worth;
    WorthBetween(pos.shares, pos.avgEntryPrice, lo, hi);
    WorthBetween(size, price, lo, hi);
    WorthTogether(pos.shares, size, lo);
    WorthTogether(pos.shares, size, hi);
    WorthPerShare(Worth(pos.shares, pos.avgEntryPrice) + Worth(size, price), pos.shares + size, lo, hi);
  }

  /**
   While shares are held, their average price lies between the extremes of the buys since the
   position was last flat.
   */
  lemma {:induction false} AverageWithinBuys(trace: seq<Fill>, tokenId: string, lo: real, hi: real)
    requires SizesNonNegative(trace)
    requires BuysWithin(trace, tokenId, lo, hi)
    ensures SharesAfter(trace, tokenId) > 0.0 ==> lo <= PositionAfter(trace, tokenId).value.avgEntryPrice <= hi
  {
    if trace != [] {
      var init, f := trace[..|trace| - 1], trace[|trace| - 1];
      if f.tokenId != tokenId {
        AverageWithinBuys(init, tokenId, lo, hi);
      } else {
        PnlConservation(init, tokenId, f.price);
        if SharesAfter(init, tokenId) > 0.0 {
          AverageWithinBuys(init, tokenId, lo, hi);
        }
        UpdateWithin(PosBefore(init, tokenId, f.price), f, lo, hi);
      }
    }
  }

  lemma {:induction false} UpdateWithin(pos: Position, f: Fill, lo: real, hi: real)
    requires pos.shares >= 0.0 && f.size >= 0.0
    requires pos.shares > 0.0 ==> lo <= pos.avgEntryPrice <= hi
    requires f.side.BuyFill? ==> lo <= f.price <= hi
    ensures var pos' := Updated(pos, f.side, f.price, f.size);
      pos'.shares > 0.0 ==> lo <= pos'.avgEntryPrice <= hi
  {
    hide Averaged;
    if f.side.BuyFill? && pos.shares + f.size > 0.0 {
      AveragedWithin(pos, f.price, f.size, lo, hi);
    }
  }
}
