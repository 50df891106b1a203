/**
 What a reconciliation does for the desired quotes, told in the fields of orders and intents: who is
 served, what is kept, and what is cancelled for which reason.
 */
module QuoteService {
  import opened Common
  import opened OrderTypes
  import opened OrderDiff
  import opened Exchange
  import opened MatchingQuality
  import opened MutationAccounting
  import opened Convergence

  /** The order does what the intent wants: all the same but for less than a tick of price and a millionth of size. */
  ghost predicate Serves(o: ConfirmedOrder, i: OrderIntent)
  {
    && o.tokenId == i.tokenId && o.side == i.side && o.timeInForce == i.timeInForce && o.postOnly == i.postOnly
    && -(i.tickSize + 0.000000001) < o.price - i.price < i.tickSize + 0.000000001
    && -0.000001 < o.size - i.size < 0.000001
  }

  /** The order could trade with the intent: one token, opposite sides, prices within the tick of the first intent. */
  ghost predicate CouldTrade(o: ConfirmedOrder, i: OrderIntent, tickSize: real)
  {
    && o.tokenId == i.tokenId && o.side != i.side
    && -(tickSize + 0.000000001) < o.price - i.price < tickSize + 0.000000001
  }

  lemma {:induction false} ServesIffFits(o: ConfirmedOrder, i: OrderIntent)
    ensures Serves(o, i) <==> Fits(o, i)
  {
  }

  lemma {:induction false} CouldTradeIffCrosses(o: ConfirmedOrder, i: OrderIntent, tickSize: real)
    ensures CouldTrade(o, i, tickSize) <==> Crosses(o, i, tickSize)
  {
  }

  // ----- The mutations, one by one -----

  lemma {:induction false} WhatIsCancelled(plan: Reconciliation, id: string, tokenId: string, reason: CancelReason)
    ensures Cancel(id, tokenId, reason) in Mutations(plan) <==>
              exists o :: o in (if reason.NoLongerDesired? then plan.unmatched else plan.crossed)
                          && o.orderId == id && o.tokenId == tokenId
  {
    var u, c, p := Cancels(plan.unmatched, NoLongerDesired), Cancels(plan.crossed, SelfCross), Places(plan.places);
    var x := Cancel(id, tokenId, reason);
    assert x in Mutations(plan) <==> x in u || x in c || x in p;
    assert x !in p;
    CancelsHave(plan.unmatched, NoLongerDesired, id, tokenId, reason);
    CancelsHave(plan.crossed, SelfCross, id, tokenId, reason);
  }

  lemma {:induction false} CancelsHave(orders: seq<ConfirmedOrder>, given: CancelReason, id: string, tokenId: string,
                                       reason: CancelReason)
    ensures Cancel(id, tokenId, reason) in Cancels(orders, given) <==>
              given == reason && exists o :: o in orders && o.orderId == id && o.tokenId == tokenId
  {
    var cancels := Cancels(orders, given);
    if o :| o in orders && o.orderId == id && o.tokenId == tokenId {
      var k :| 0 <= k < |orders| && orders[k] == o;
      assert cancels[k] == Cancel(id, tokenId, given);
    }
    if Cancel(id, tokenId, reason) in cancels {
      var k :| 0 <= k < |cancels| && cancels[k] == Cancel(id, tokenId, reason);
      assert orders[k] in orders;
    }
  }

  lemma {:induction false} WhatIsPlaced(plan: Reconciliation, i: OrderIntent)
    ensures Place(i) in Mutations(plan) <==> i in plan.places
  {
    var u, c, p := Cancels(plan.unmatched, NoLongerDesired), Cancels(plan.crossed, SelfCross), Places(plan.places);
    assert Place(i) in Mutations(plan) <==> Place(i) in u || Place(i) in c || Place(i) in p;
    if i in plan.places {
      var k :| 0 <= k < |plan.places| && plan.places[k] == i;
      assert p[k] == Place(i);
    }
  }

  // ----- Every quote is served -----

  /**
   When a reconciliation cancels nothing for self-crossing and all its places are acknowledged, every
   desired intent has a resting order of its own that does what it wants.
   */
  lemma {:induction false} EveryQuoteIsServed(desired: seq<OrderIntent>, confirmed: seq<ConfirmedOrder>,
                                              newIds: seq<string>) returns (serving: seq<ConfirmedOrder>)
    requires PositiveTicks(desired) && FreshIds(newIds, confirmed)
    requires |newIds| == |PlaceIntents(Mutations(Plan(desired, confirmed)))|
    requires forall m :: m in Mutations(Plan(desired, confirmed)) ==> !(m.Cancel? && m.reason.SelfCross?)
    ensures |serving| == |desired|
    ensures forall k :: 0 <= k < |desired| ==>
              serving[k] in Settled(desired, confirmed, newIds) && Serves(serving[k], desired[k])
    ensures forall k, l :: 0 <= k < l < |desired| ==> serving[k].orderId != serving[l].orderId
  {
    hide Assignment, Fits, Mutations, Settled, Serves;
    NoSelfCrossPlanned(Plan(desired, confirmed));
    SettlesWithoutSelfCross(desired, confirmed, newIds);
    var settled := Settled(desired, confirmed, newIds);
    var b := Assignment(desired, settled);
    GreedyIsValid(desired, settled);
    serving := seq(|b|, k requires 0 <= k < |b| => b[k].value);
    forall k | 0 <= k < |desired| ensures Serves(serving[k], desired[k]) {
      ServesIffFits(serving[k], desired[k]);
    }
  }

  lemma {:induction false} NoSelfCrossPlanned(plan: Reconciliation)
    requires forall m :: m in Mutations(plan) ==> !(m.Cancel? && m.reason.SelfCross?)
    ensures plan.crossed == []
  {
    if plan.crossed != [] {
      var o := plan.crossed[0];
      assert o in plan.crossed;
      WhatIsCancelled(plan, o.orderId, o.tokenId, SelfCross);
    }
  }

  // ----- Nothing is cancelled without need -----

  /** An order that does what some intent wants is never cancelled as no longer desired while that intent is placed. */
  lemma {:induction false} ServingOrderIsKept(desired: seq<OrderIntent>, confirmed: seq<ConfirmedOrder>,
                                              o: ConfirmedOrder, i: OrderIntent, tokenId: string)
    requires o in confirmed && Serves(o, i)
    requires Place(i) in Mutations(Plan(desired, confirmed))
    ensures Cancel(o.orderId, tokenId, NoLongerDesired) !in Mutations(Plan(desired, confirmed))
  {
    hide Assignment, Fits, Mutations, Serves;
    var a, plan := Assignment(desired, confirmed), Plan(desired, confirmed);
    WhatIsPlaced(plan, i);
    WhatIsCancelled(plan, o.orderId, tokenId, NoLongerDesired);
    ServesIffFits(o, i);
    var k := OpenPosition(desired, a, i);
    if o.orderId !in MatchedIds(a) {
      GreedyIsMaximal(desired, confirmed, k, o);
    }
  }

  lemma {:induction false} OpenPosition(desired: seq<OrderIntent>, a: seq<Option<ConfirmedOrder>>, i: OrderIntent)
    returns (k: nat)
    requires |a| == |desired| && i in ToPlace(desired, a)
    ensures k < |desired| && desired[k] == i && a[k].None?
  {
    OpenPositionsFacts(desired, a);
    var places, p := ToPlace(desired, a), OpenPositions(a);
    var n :| 0 <= n < |places| && places[n] == i;
    k := p[n];
    assert k in p;
  }

  /**
   The reasons, exactly: an order is cancelled for self-crossing when it could trade with a new order and
   is not cancelled anyway; it is cancelled as no longer desired when no intent took it, and an intent
   takes only an order that serves it, of which it is the only one.
   */
  lemma {:induction false} CancelledForReason(desired: seq<OrderIntent>, confirmed: seq<ConfirmedOrder>,
                                              o: ConfirmedOrder)
    returns (takers: set<int>)
    requires DistinctIds(confirmed) && o in confirmed && desired != []
    ensures var m := Mutations(Plan(desired, confirmed));
      && (Cancel(o.orderId, o.tokenId, NoLongerDesired) in m <==> takers == {})
      && (Cancel(o.orderId, o.tokenId, SelfCross) in m <==>
            takers != {} && exists p :: Place(p) in m && CouldTrade(o, p, desired[0].tickSize))
    ensures forall k :: k in takers ==> 0 <= k < |desired| && Serves(o, desired[k])
    ensures forall k, l :: k in takers && l in takers ==> k == l
  {
    hide Assignment, AllCrossed, Mutations, Fits, Crosses, Serves, CouldTrade;
    var a, plan := Assignment(desired, confirmed), Plan(desired, confirmed);
    takers := set k | 0 <= k < |a| && a[k] == Some(o);
    GreedyIsValid(desired, confirmed);
    TakenOrders(desired, confirmed, o);
    assert o.orderId in MatchedIds(a) <==> takers != {} by {
      if i :| 0 <= i < |a| && a[i] == Some(o) { assert i in takers; }
      if takers != {} { var i := Pick(takers); }
    }
    forall k | k in takers ensures Serves(o, desired[k]) {
      ServesIffFits(o, desired[k]);
    }
    WhatIsCancelled(plan, o.orderId, o.tokenId, NoLongerDesired);
    WhatIsCancelled(plan, o.orderId, o.tokenId, SelfCross);
    CrossedInFields(desired, confirmed, o);
  }

  lemma {:induction false} CrossedInFields(desired: seq<OrderIntent>, confirmed: seq<ConfirmedOrder>,
                                           o: ConfirmedOrder)
    requires DistinctIds(confirmed) && o in confirmed && desired != []
    ensures var plan := Plan(desired, confirmed);
      o in plan.crossed <==>
        && o !in plan.unmatched
        && exists p :: Place(p) in Mutations(plan) && CouldTrade(o, p, desired[0].tickSize)
    ensures var plan := Plan(desired, confirmed);
      forall x :: (x in plan.crossed || x in plan.unmatched) && x.orderId == o.orderId ==> x == o
  {
    hide Assignment, Mutations, Crosses, CouldTrade;
    var plan := Plan(desired, confirmed);
    AllCrossedFacts(plan.places, confirmed, Ids(plan.unmatched), desired[0].tickSize);
    forall p ensures Place(p) in Mutations(plan) && CouldTrade(o, p, desired[0].tickSize)
                <==> p in plan.places && Crosses(o, p, desired[0].tickSize) {
      WhatIsPlaced(plan, p);
      CouldTradeIffCrosses(o, p, desired[0].tickSize);
    }
    forall x | (x in plan.crossed || x in plan.unmatched) && x.orderId == o.orderId ensures x == o {
      SameIdSameOrder(confirmed, x, o);
    }
  }
}
