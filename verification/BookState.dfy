/** The per-token book a strategy reads: the last book event, its mid and the resync escalation rules. */
module BookState {
  import opened Common
  import opened Sorting
  import opened BookTypes

  datatype ResyncSettings = ResyncSettings(cancelGapMs: int, cancelMidPct: real, cancelSpreadTicks: int)

  const RESYNC_TICK := 0.01

  function MidOf(bids: seq<PriceLevel>, asks: seq<PriceLevel>): Option<real>
  {
    if bids == [] || asks == [] then None else Some((bids[0].price + asks[0].price) / 2.0)
  }

  function SpreadTicksOf(bids: seq<PriceLevel>, asks: seq<PriceLevel>, tickSize: real): int
  {
    if bids == [] || asks == [] || tickSize <= 0.0 then 0
    else RoundHalfEven((asks[0].price - bids[0].price) / tickSize)
  }

  /** The mid has moved, since the update before the last, by more than the allowed percentage. */
  predicate MidMoved(prevMid: Option<real>, mid: Option<real>, maxPct: real)
  {
    && prevMid.Some? && mid.Some? && prevMid.value != 0.0
    && Abs(mid.value - prevMid.value) / prevMid.value * 100.0 > maxPct
  }

  lemma {:induction false} BothSorted(bids: seq<PriceLevel>, asks: seq<PriceLevel>)
    ensures Sorted(SortBy(bids, BidKey), BidKey) && Sorted(SortBy(asks, AskKey), AskKey)
  {
    SortSorts(bids, BidKey);
    SortSorts(asks, AskKey);
  }

  class BookStateStore {
    const tokenId: string
    var bids: seq<PriceLevel>
    var asks: seq<PriceLevel>
    var lastMid: Option<real>
    var prevMid: Option<real>
    var resyncing: bool
    var missedDeltaCount: int

    /** The remembered mid is that of the book held, once a book has been held. */
    ghost predicate Valid()
      reads this
    {
      Sorted(bids, BidKey) && Sorted(asks, AskKey) && lastMid == MidOf(bids, asks)
    }

    constructor (tokenId: string)
      ensures Valid() && this.tokenId == tokenId && bids == [] && asks == [] && prevMid == None && !resyncing
    {
      this.tokenId := tokenId;
      bids, asks, lastMid, prevMid, resyncing, missedDeltaCount := [], [], None, None, false, 0;
    }

    method Update(event: BookEvent)
      modifies this
      ensures Valid()
      ensures bids == SortBy(event.bids, BidKey) && asks == SortBy(event.asks, AskKey)
      ensures prevMid == old(lastMid)
      ensures resyncing == old(resyncing) && missedDeltaCount == old(missedDeltaCount)
    {
      prevMid := lastMid;
      bids := SortBy(event.bids, BidKey);
      asks := SortBy(event.asks, AskKey);
      lastMid := MidOf(bids, asks);
      BothSorted(event.bids, event.asks);
    }

    /** Blocks placements and says whether quotes must be cancelled first: a long gap, a moved mid or a wide spread. */
    method StartResync(wsGapMs: int, settings: ResyncSettings) returns (escalate: bool)
      modifies this`resyncing
      ensures resyncing
      ensures escalate <==>
              || wsGapMs > settings.cancelGapMs
              || MidMoved(prevMid, MidOf(bids, asks), settings.cancelMidPct)
              || SpreadTicksOf(bids, asks, RESYNC_TICK) > settings.cancelSpreadTicks
    {
      resyncing := true;
      escalate := false;
      if wsGapMs > settings.cancelGapMs {
        escalate := true;
      }
      var currentMid := MidOf(bids, asks);
      if prevMid.Some? && currentMid.Some? && prevMid.value != 0.0 {
        var movePct := Abs(currentMid.value - prevMid.value) / prevMid.value * 100.0;
        if movePct > settings.cancelMidPct {
          escalate := true;
        }
      }
      if SpreadTicksOf(bids, asks, RESYNC_TICK) > settings.cancelSpreadTicks {
        escalate := true;
      }
    }

    /** Replaces the book and lifts the block; the previous mid stays that of the last update. */
    method CompleteResync(restBids: seq<PriceLevel>, restAsks: seq<PriceLevel>)
      modifies this
      ensures Valid()
      ensures bids == SortBy(restBids, BidKey) && asks == SortBy(restAsks, AskKey)
      ensures !resyncing && missedDeltaCount == 0 && prevMid == old(prevMid)
    {
      bids := SortBy(restBids, BidKey);
      asks := SortBy(restAsks, AskKey);
      lastMid := MidOf(bids, asks);
      missedDeltaCount := 0;
      resyncing := false;
      BothSorted(restBids, restAsks);
    }
  }

  /** Storing an uncrossed, sorted event keeps its levels as they are and puts the mid strictly inside the spread. */
  lemma {:induction false} StoredEventIsUncrossed(e: BookEvent)
    requires Sorted(e.bids, BidKey) && Sorted(e.asks, AskKey)
    requires e.bids != [] && e.asks != [] && e.bids[0].price < e.asks[0].price
    ensures SortBy(e.bids, BidKey) == e.bids && SortBy(e.asks, AskKey) == e.asks
    ensures e.bids[0].price < MidOf(e.bids, e.asks).value < e.asks[0].price
    ensures MidOf(e.bids, e.asks).value - e.bids[0].price == e.asks[0].price - MidOf(e.bids, e.asks).value
    ensures forall b, a :: b in e.bids && a in e.asks ==>
              b.price <= e.bids[0].price < e.asks[0].price <= a.price
  {
    SortOfSorted(e.bids, BidKey);
    SortOfSorted(e.asks, AskKey);
    forall b, a | b in e.bids && a in e.asks ensures b.price <= e.bids[0].price && e.asks[0].price <= a.price {
      var i :| 0 <= i < |e.bids| && e.bids[i] == b;
      var j :| 0 <= j < |e.asks| && e.asks[j] == a;
      assert BidKey(e.bids[0]) <= BidKey(e.bids[i]) && AskKey(e.asks[0]) <= AskKey(e.asks[j]);
    }
  }

  /** The mid has moved when it is off by more than the allowed percentage of the previous one, were that not zero. */
  lemma {:induction false} MidMovedIff(prev: Option<real>, mid: Option<real>, maxPct: real)
    ensures MidMoved(prev, mid, maxPct) <==>
              && prev.Some? && mid.Some? && prev.value != 0.0
              && var off, allowed := if mid.value >= prev.value then mid.value - prev.value else prev.value - mid.value,
                     Times(maxPct, prev.value);
              if prev.value > 0.0 then off * 100.0 > allowed else off * 100.0 < allowed
  {
    if prev.Some? && mid.Some? && prev.value != 0.0 {
      var off, base := Abs(mid.value - prev.value), prev.value;
      var share := Quotient(off, base);
      ScaleIff(share * 100.0, maxPct, if base > 0.0 then base else -base);
    }
  }

  /** The spread in ticks is the whole number nearest to it; a book without both sides has none. */
  lemma {:induction false} SpreadInTicks(bids: seq<PriceLevel>, asks: seq<PriceLevel>, tickSize: real)
    requires tickSize > 0.0
    ensures var n := SpreadTicksOf(bids, asks, tickSize);
      if bids == [] || asks == [] then n == 0
      else Abs(Times(n as real, tickSize) - (asks[0].price - bids[0].price)) <= tickSize / 2.0
  {
    if bids != [] && asks != [] {
      var spread, n := asks[0].price - bids[0].price, SpreadTicksOf(bids, asks, tickSize);
      var exact := Quotient(spread, tickSize);
      assert -0.5 <= n as real - exact <= 0.5;
      hide SpreadTicksOf;
      NearestTick(exact, n as real - exact, tickSize);
    }
  }

  lemma {:induction false} NearestTick(exact: real, off: real, tickSize: real)
    requires tickSize > 0.0 && -0.5 <= off <= 0.5
    ensures Abs(Times(exact + off, tickSize) - Times(exact, tickSize)) <= tickSize / 2.0
  {
    hide Times;
    TimesSum(exact, off, tickSize);
    HalfATick(off, tickSize);
  }

  lemma {:induction false} TimesSum(x: real, y: real, w: real)
    ensures Times(x + y, w) == Times(x, w) + Times(y, w)
  {
  }

  lemma {:induction false} HalfATick(off: real, tickSize: real)
    requires tickSize > 0.0 && -0.5 <= off <= 0.5
    ensures -tickSize / 2.0 <= Times(off, tickSize) <= tickSize / 2.0
  {
    ScaleMonotone(-0.5, off, tickSize);
    ScaleMonotone(off, 0.5, tickSize);
  }
}
