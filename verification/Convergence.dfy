/**
 Does reconciling twice do nothing the second time?

 It does exactly when the first reconciliation issued no self-cross cancel, which wide enough
 quotes guarantee. What more than two do is in `RepeatedRuns`.
 */
module Convergence {
  import opened Common
  import opened OrderTypes
  import opened OrderDiff
  import opened Exchange
  import opened MatchingQuality
  import opened MutationAccounting

  // ----- Every place acknowledged under a fresh id -----

  function AllAcked(ids: seq<string>): seq<Option<string>>
  {
    seq(|ids|, i requires 0 <= i < |ids| => Some(ids[i]))
  }

  ghost predicate FreshIds(ids: seq<string>, resting: seq<ConfirmedOrder>)
  {
    NoRepeats(ids) && forall id :: id in ids ==> id !in Ids(resting)
  }

  function Rested(intents: seq<OrderIntent>, ids: seq<string>): (orders: seq<ConfirmedOrder>)
    requires |ids| == |intents|
    ensures |orders| == |intents| && forall k :: 0 <= k < |ids| ==> orders[k] == AsOrder(intents[k], ids[k])
  {
    seq(|ids|, k requires 0 <= k < |ids| => AsOrder(intents[k], ids[k]))
  }

  lemma {:induction false} AcknowledgedAll(intents: seq<OrderIntent>, ids: seq<string>)
    requires |ids| == |intents|
    ensures Acknowledged(intents, AllAcked(ids)) == Rested(intents, ids)
  {
    if ids != [] {
      assert AllAcked(ids)[1..] == AllAcked(ids[1..]);
      AcknowledgedAll(intents[1..], ids[1..]);
    }
  }

  /** What rests after a reconciliation whose places are all acknowledged, under `newIds`. */
  function Settled(desired: seq<OrderIntent>, confirmed: seq<ConfirmedOrder>, newIds: seq<string>): seq<ConfirmedOrder>
    requires |newIds| == |PlaceIntents(Mutations(Plan(desired, confirmed)))|
  {
    After(confirmed, Mutations(Plan(desired, confirmed)), AllAcked(newIds))
  }

  // ----- Re-running first fit -----

  /** Dropping orders that no intent takes does not change what an intent takes. */
  lemma {:induction false} FirstFitOnly(orders: seq<ConfirmedOrder>, kept: set<string>, intent: OrderIntent)
    ensures var m := FirstFit(orders, intent);
      m.None? || m.value.orderId in kept ==> FirstFit(Only(orders, kept), intent) == m
  {
    if orders != [] {
      FirstFitOnly(orders[1..], kept, intent);
      var rest := Only(orders[1..], kept);
      assert ([orders[0]] + rest)[1..] == rest;
    }
  }

  lemma {:induction false} FirstFitAppend(a: seq<ConfirmedOrder>, b: seq<ConfirmedOrder>, intent: OrderIntent)
    ensures FirstFit(a + b, intent) == if FirstFit(a, intent).Some? then FirstFit(a, intent) else FirstFit(b, intent)
  {
    if a == [] {
      assert a + b == b;
    } else {
      assert (a + b)[1..] == a[1..] + b;
      FirstFitAppend(a[1..], b, intent);
    }
  }

  lemma {:induction false} ExcludingThenOnly(orders: seq<ConfirmedOrder>, id: set<string>, kept: set<string>)
    requires id !! kept
    ensures Excluding(Only(orders, id + kept), id) == Only(Excluding(orders, id), kept)
  {
    if orders != [] {
      ExcludingThenOnly(orders[1..], id, kept);
      var rest := Only(orders[1..], id + kept);
      assert ([orders[0]] + rest)[1..] == rest;
      var rest' := Excluding(orders[1..], id);
      assert ([orders[0]] + rest')[1..] == rest';
    }
  }

  /** The matching found on the orders kept, followed by those newly placed. */
  function Rematched(a: seq<Option<ConfirmedOrder>>, desired: seq<OrderIntent>,
                     ids: seq<string>): (b: seq<Option<ConfirmedOrder>>)
    requires |a| == |desired| && |ids| == |ToPlace(desired, a)|
    ensures |b| == |a| && forall i :: 0 <= i < |b| ==> b[i].Some?
  {
    if a == [] then []
    else if a[0].Some? then [a[0]] + Rematched(a[1..], desired[1..], ids)
    else [Some(AsOrder(desired[0], ids[0]))] + Rematched(a[1..], desired[1..], ids[1..])
  }

  ghost predicate PositiveTicks(desired: seq<OrderIntent>)
  {
    forall i :: i in desired ==> i.tickSize > 0.0
  }

  ghost predicate StableMatching(desired: seq<OrderIntent>, orders: seq<ConfirmedOrder>, ids: seq<string>)
  {
    var a := Assignment(desired, orders);
    && |ids| == |ToPlace(desired, a)|
    && Assignment(desired, Only(orders, MatchedIds(a)) + Rested(ToPlace(desired, a), ids)) == Rematched(a, desired, ids)
  }

  /** First fit finds the old partner of every matched intent, and the new order of every placed one. */
  lemma {:induction false} FirstFitIsStable(desired: seq<OrderIntent>, orders: seq<ConfirmedOrder>, ids: seq<string>)
    requires PositiveTicks(desired)
    requires |ids| == |ToPlace(desired, Assignment(desired, orders))|
    requires FreshIds(ids, orders)
    ensures StableMatching(desired, orders, ids)
    decreases |desired|
  {
    if desired != [] {
      var m := FirstFit(orders, desired[0]);
      var rest := Excluding(orders, IdOf(m));
      assert Assignment(desired, orders)[1..] == Assignment(desired[1..], rest);
      assert Ids(rest) <= Ids(orders);
      if m.Some? {
        FirstFitIsStable(desired[1..], rest, ids);
        StableWhenMatched(desired, orders, ids);
      } else {
        ExcludingNothing(orders, {});
        FirstFitIsStable(desired[1..], orders, ids[1..]);
        StableWhenPlaced(desired, orders, ids);
      }
    }
  }

  lemma {:induction false} HeadMatched(orders: seq<ConfirmedOrder>, intent: OrderIntent, o: ConfirmedOrder,
                                      others: set<string>, placed: seq<ConfirmedOrder>)
    requires FirstFit(orders, intent) == Some(o) && o.orderId !in others && o.orderId !in Ids(placed)
    ensures var x := Only(orders, {o.orderId} + others) + placed;
      && FirstFit(x, intent) == Some(o)
      && Excluding(x, {o.orderId}) == Only(Excluding(orders, {o.orderId}), others) + placed
  {
    var kept := Only(orders, {o.orderId} + others);
    FirstFitOnly(orders, {o.orderId} + others, intent);
    FirstFitAppend(kept, placed, intent);
    ExcludingAppend(kept, placed, {o.orderId});
    ExcludingThenOnly(orders, {o.orderId}, others);
    ExcludingNothing(placed, {o.orderId});
  }

  lemma {:induction false} HeadPlaced(kept: seq<ConfirmedOrder>, intent: OrderIntent, new0: ConfirmedOrder,
                                      later: seq<ConfirmedOrder>)
    requires FirstFit(kept, intent).None? && Fits(new0, intent)
    requires new0.orderId !in Ids(kept) && new0.orderId !in Ids(later)
    ensures var x := kept + ([new0] + later);
      && FirstFit(x, intent) == Some(new0)
      && Excluding(x, {new0.orderId}) == kept + later
  {
    FirstFitAppend(kept, [new0] + later, intent);
    ExcludingAppend(kept, [new0] + later, {new0.orderId});
    ExcludingNothing(kept, {new0.orderId});
    assert ([new0] + later)[1..] == later;
    ExcludingNothing(later, {new0.orderId});
  }

  lemma {:induction false} AssignmentHead(desired: seq<OrderIntent>, orders: seq<ConfirmedOrder>, o: ConfirmedOrder)
    requires desired != [] && FirstFit(orders, desired[0]) == Some(o)
    ensures Assignment(desired, orders) == [Some(o)] + Assignment(desired[1..], Excluding(orders, {o.orderId}))
  {
  }

  lemma {:induction false} RestedIds(intents: seq<OrderIntent>, ids: seq<string>)
    requires |ids| == |intents|
    ensures Ids(Rested(intents, ids)) == set id | id in ids
  {
    var r := Rested(intents, ids);
    forall id | id in ids ensures id in Ids(r) {
      var k :| 0 <= k < |ids| && ids[k] == id;
      assert r[k] in r && r[k].orderId == id;
    }
    forall o | o in r ensures o.orderId in ids {
      var k :| 0 <= k < |r| && r[k] == o;
      assert o.orderId == ids[k];
    }
  }

  lemma {:induction false} StableWhenMatched(desired: seq<OrderIntent>, orders: seq<ConfirmedOrder>, ids: seq<string>)
    requires desired != [] && FirstFit(orders, desired[0]).Some?
    requires |ids| == |ToPlace(desired, Assignment(desired, orders))|
    requires FreshIds(ids, orders)
    requires StableMatching(desired[1..], Excluding(orders, IdOf(FirstFit(orders, desired[0]))), ids)
    ensures StableMatching(desired, orders, ids)
  {
    var o := FirstFit(orders, desired[0]).value;
    AssignmentHead(desired, orders, o);
    var a, tail := Assignment(desired, orders), Assignment(desired[1..], Excluding(orders, {o.orderId}));
    assert a[1..] == tail;
    MatchedIdsHeadTail(a);
    TailAvoidsHead(desired, orders);
    var placed := Rested(ToPlace(desired, a), ids);
    assert o.orderId !in Ids(placed) by {
      RestedIds(ToPlace(desired, a), ids);
      assert o.orderId in Ids(orders);
    }
    HeadMatched(orders, desired[0], o, MatchedIds(tail), placed);
    assert MatchedIds(a) == {o.orderId} + MatchedIds(tail);
    assert ToPlace(desired, a) == ToPlace(desired[1..], tail);
    AssignmentHead(desired, Only(orders, MatchedIds(a)) + placed, o);
  }

  lemma {:induction false} NewIdIsNew(intents: seq<OrderIntent>, ids: seq<string>, orders: seq<ConfirmedOrder>,
                                      kept: seq<ConfirmedOrder>)
    requires |ids| == |intents| + 1 && FreshIds(ids, orders) && Ids(kept) <= Ids(orders)
    ensures ids[0] !in Ids(kept) && ids[0] !in Ids(Rested(intents, ids[1..]))
  {
    RestedIds(intents, ids[1..]);
    assert ids[0] in ids;
  }

  lemma {:induction false} StableWhenPlaced(desired: seq<OrderIntent>, orders: seq<ConfirmedOrder>, ids: seq<string>)
    requires desired != [] && FirstFit(orders, desired[0]).None? && desired[0].tickSize > 0.0
    requires |ids| == |ToPlace(desired, Assignment(desired, orders))|
    requires FreshIds(ids, orders)
    requires ids != [] && StableMatching(desired[1..], orders, ids[1..])
    ensures StableMatching(desired, orders, ids)
  {
    ExcludingNothing(orders, {});
    var a, tail := Assignment(desired, orders), Assignment(desired[1..], orders);
    assert a == [None] + tail && a[1..] == tail;
    hide FirstFit, MatchedIds, Excluding, Fits;
    MatchedIdsHeadTail(a);
    var kept, later := Only(orders, MatchedIds(a)), Rested(ToPlace(desired[1..], tail), ids[1..]);
    var new0 := AsOrder(desired[0], ids[0]);
    assert Rested(ToPlace(desired, a), ids) == [new0] + later;
    NewIdIsNew(ToPlace(desired[1..], tail), ids, orders, kept);
    HeadPlaced(kept, desired[0], new0, later) by { FirstFitOnly(orders, MatchedIds(a), desired[0]); }
    AssignmentHead(desired, kept + ([new0] + later), new0);
    assert MatchedIds(a) == MatchedIds(tail);
    assert Rematched(a, desired, ids) == [Some(new0)] + Rematched(tail, desired[1..], ids[1..]);
  }

  lemma {:induction false} TailAvoidsHead(desired: seq<OrderIntent>, orders: seq<ConfirmedOrder>)
    requires desired != []
    ensures var m := FirstFit(orders, desired[0]);
      IdOf(m) !! MatchedIds(Assignment(desired[1..], Excluding(orders, IdOf(m))))
  {
    GreedyIsValid(desired[1..], Excluding(orders, IdOf(FirstFit(orders, desired[0]))));
  }

  // ----- The second reconciliation -----

  lemma {:induction false} RematchedServesAll(a: seq<Option<ConfirmedOrder>>, desired: seq<OrderIntent>,
                                              ids: seq<string>)
    requires |a| == |desired| && |ids| == |ToPlace(desired, a)|
    ensures ToPlace(desired, Rematched(a, desired, ids)) == []
  {
    if a != [] {
      var later := if a[0].Some? then ids else ids[1..];
      RematchedServesAll(a[1..], desired[1..], later);
      assert Rematched(a, desired, ids)[1..] == Rematched(a[1..], desired[1..], later);
    }
  }

  lemma {:induction false} FirstIdJoins(ids: seq<string>)
    requires ids != []
    ensures (set id | id in ids) == {ids[0]} + set id | id in ids[1..]
  {
    assert ids == [ids[0]] + ids[1..];
  }

  lemma {:induction false} NothingMatched()
    ensures MatchedIds([]) == {}
  {
  }

  /** The second run serves every intent: with its old order, or with the one just placed for it. */
  lemma {:induction false} RematchedIds(a: seq<Option<ConfirmedOrder>>, desired: seq<OrderIntent>, ids: seq<string>)
    requires |a| == |desired| && |ids| == |ToPlace(desired, a)|
    ensures MatchedIds(Rematched(a, desired, ids)) == MatchedIds(a) + set id | id in ids
  {
    hide MatchedIds;
    if a == [] {
      NothingMatched();
      assert ids == [];
    } else {
      var b := Rematched(a, desired, ids);
      MatchedIdsHeadTail(a);
      MatchedIdsHeadTail(b);
      if a[0].Some? {
        RematchedIds(a[1..], desired[1..], ids);
        assert b[1..] == Rematched(a[1..], desired[1..], ids);
      } else {
        RematchedIds(a[1..], desired[1..], ids[1..]);
        assert b[1..] == Rematched(a[1..], desired[1..], ids[1..]);
        FirstIdJoins(ids);
      }
    }
  }

  lemma {:induction false} SettledShape(desired: seq<OrderIntent>, confirmed: seq<ConfirmedOrder>, newIds: seq<string>)
    requires |newIds| == |PlaceIntents(Mutations(Plan(desired, confirmed)))|
    ensures var plan := Plan(desired, confirmed);
      && |newIds| == |plan.places|
      && Settled(desired, confirmed, newIds) == Excluding(confirmed, CancelledBy(plan)) + Rested(plan.places, newIds)
  {
    var plan := Plan(desired, confirmed);
    PlanOnExchange(plan);
    AcknowledgedAll(plan.places, newIds);
  }

  lemma {:induction false} NothingUnmatched(desired: seq<OrderIntent>, orders: seq<ConfirmedOrder>)
    requires ToPlace(desired, Assignment(desired, orders)) == []
    requires Ids(orders) <= MatchedIds(Assignment(desired, orders))
    ensures Mutations(Plan(desired, orders)) == []
  {
    ExcludingAll(orders, MatchedIds(Assignment(desired, orders)));
  }

  /** Without a self-cross cancel the second run finds the same matching and has nothing to do. */
  lemma {:induction false} SettlesWithoutSelfCross(desired: seq<OrderIntent>, confirmed: seq<ConfirmedOrder>,
                                                   newIds: seq<string>)
    requires PositiveTicks(desired)
    requires |newIds| == |PlaceIntents(Mutations(Plan(desired, confirmed)))|
    requires FreshIds(newIds, confirmed)
    requires Plan(desired, confirmed).crossed == []
    ensures var a, settled := Assignment(desired, confirmed), Settled(desired, confirmed, newIds);
      && |newIds| == |ToPlace(desired, a)|
      && Assignment(desired, settled) == Rematched(a, desired, newIds)
      && Mutations(Plan(desired, settled)) == []
  {
    var a, plan := Assignment(desired, confirmed), Plan(desired, confirmed);
    SettledShape(desired, confirmed, newIds);
    var kept, placed := Only(confirmed, MatchedIds(a)), Rested(plan.places, newIds);
    assert CancelledBy(plan) == Ids(plan.unmatched);
    ExcludingOnly(confirmed, CancelledBy(plan), MatchedIds(a));
    FirstFitIsStable(desired, confirmed, newIds);
    RematchedIds(a, desired, newIds);
    RematchedServesAll(a, desired, newIds);
    RestedIds(plan.places, newIds);
    NothingUnmatched(desired, kept + placed);
  }

  /** An order cancelled for self-crossing leaves its intent without one, so a later run must place again. */
  lemma {:induction false} SelfCrossLeavesWork(desired: seq<OrderIntent>, confirmed: seq<ConfirmedOrder>,
                                               newIds: seq<string>)
    requires DistinctIds(confirmed)
    requires |newIds| == |PlaceIntents(Mutations(Plan(desired, confirmed)))|
    requires Plan(desired, confirmed).crossed != []
    ensures Mutations(Plan(desired, Settled(desired, confirmed, newIds))) != []
  {
    var a, plan := Assignment(desired, confirmed), Plan(desired, confirmed);
    var settled := Settled(desired, confirmed, newIds);
    SettledShape(desired, confirmed, newIds);
    AllCrossedFacts(plan.places, confirmed, Ids(plan.unmatched), SelfCrossTick(desired));
    FewerKeptThanMatched(desired, confirmed);
    GreedyIsValid(desired, confirmed);
    ServedIsMatchedIds(a, desired, confirmed);
    ToPlaceLength(desired, a);
    assert |settled| < |desired|;
    var b := Assignment(desired, settled);
    GreedyIsValid(desired, settled);
    ServedIsMatchedIds(b, desired, settled);
    IdsAtMostLength(settled);
    SubsetSize(MatchedIds(b), Ids(settled));
    ToPlaceLength(desired, b);
  }

  lemma {:induction false} FewerKeptThanMatched(desired: seq<OrderIntent>, confirmed: seq<ConfirmedOrder>)
    requires DistinctIds(confirmed)
    requires Plan(desired, confirmed).crossed != []
    ensures var plan := Plan(desired, confirmed);
      |Excluding(confirmed, CancelledBy(plan))| < |MatchedIds(Assignment(desired, confirmed))|
  {
    var a, plan := Assignment(desired, confirmed), Plan(desired, confirmed);
    AllCrossedFacts(plan.places, confirmed, Ids(plan.unmatched), SelfCrossTick(desired));
    var kept := Excluding(confirmed, CancelledBy(plan));
    var lost := plan.crossed[0];
    assert lost in plan.crossed && lost.orderId in MatchedIds(a);
    ExcludingDistinct(confirmed, CancelledBy(plan));
    DistinctLength(kept);
    assert Ids(kept) <= MatchedIds(a) - {lost.orderId};
    SubsetSize(Ids(kept), MatchedIds(a) - {lost.orderId});
  }

  lemma {:induction false} IdsAtMostLength(orders: seq<ConfirmedOrder>)
    ensures |Ids(orders)| <= |orders|
  {
    if orders == [] {
      assert Ids(orders) == {};
    } else {
      IdsAtMostLength(orders[1..]);
      assert Ids(orders) == {orders[0].orderId} + Ids(orders[1..]);
    }
  }

  /** One-step convergence, exactly: the second run is empty if and only if the first had no self-cross cancel. */
  lemma {:induction false} SettlesIffNoSelfCross(desired: seq<OrderIntent>, confirmed: seq<ConfirmedOrder>,
                                                 newIds: seq<string>)
    requires DistinctIds(confirmed) && PositiveTicks(desired)
    requires |newIds| == |PlaceIntents(Mutations(Plan(desired, confirmed)))|
    requires FreshIds(newIds, confirmed)
    ensures Mutations(Plan(desired, Settled(desired, confirmed, newIds))) == []
        <==> Plan(desired, confirmed).crossed == []
  {
    if Plan(desired, confirmed).crossed == [] {
      SettlesWithoutSelfCross(desired, confirmed, newIds);
    } else {
      SelfCrossLeavesWork(desired, confirmed, newIds);
    }
  }

  /** Opposing quotes of a token leave room for both tolerances between them. */
  ghost predicate WideQuotes(desired: seq<OrderIntent>)
  {
    forall i, j :: i in desired && j in desired && i.tokenId == j.tokenId && i.side != j.side ==>
      Abs(i.price - j.price) >= SelfCrossTick(desired) + i.tickSize + 2.0 * PRICE_EPSILON
  }

  /** A self-cross cancel comes from two opposing quotes of a token with less room than that. */
  lemma {:induction false} SelfCrossNeedsTightQuotes(desired: seq<OrderIntent>, confirmed: seq<ConfirmedOrder>)
    returns (i: OrderIntent, p: OrderIntent)
    requires DistinctIds(confirmed)
    requires Plan(desired, confirmed).crossed != []
    ensures i in desired && p in desired && i.tokenId == p.tokenId && i.side != p.side
    ensures Abs(i.price - p.price) < SelfCrossTick(desired) + i.tickSize + 2.0 * PRICE_EPSILON
  {
    hide Assignment, AllCrossed, Crosses, Fits, ToPlace;
    var a, plan := Assignment(desired, confirmed), Plan(desired, confirmed);
    AllCrossedFacts(plan.places, confirmed, Ids(plan.unmatched), SelfCrossTick(desired));
    var o := plan.crossed[0];
    assert o in plan.crossed && o.orderId in MatchedIds(a);
    TakenOrders(desired, confirmed, o);
    GreedyIsValid(desired, confirmed);
    var k :| 0 <= k < |a| && a[k] == Some(o);
    p :| p in plan.places && Crosses(o, p, SelfCrossTick(desired));
    i := desired[k];
    CloseThrough(o, i, p, SelfCrossTick(desired));
  }

  lemma {:induction false} CloseThrough(o: ConfirmedOrder, i: OrderIntent, p: OrderIntent, tickSize: real)
    requires Fits(o, i) && Crosses(o, p, tickSize)
    ensures i.tokenId == p.tokenId && i.side != p.side
    ensures Abs(i.price - p.price) < tickSize + i.tickSize + 2.0 * PRICE_EPSILON
  {
  }

  /** Wide quotes settle in one step. */
  lemma {:induction false} WideQuotesSettle(desired: seq<OrderIntent>, confirmed: seq<ConfirmedOrder>,
                                            newIds: seq<string>)
    requires DistinctIds(confirmed) && PositiveTicks(desired)
    requires |newIds| == |PlaceIntents(Mutations(Plan(desired, confirmed)))|
    requires FreshIds(newIds, confirmed)
    requires WideQuotes(desired)
    ensures Mutations(Plan(desired, Settled(desired, confirmed, newIds))) == []
  {
    if Plan(desired, confirmed).crossed == [] {
      SettlesIffNoSelfCross(desired, confirmed, newIds);
    } else {
      var i, p := SelfCrossNeedsTightQuotes(desired, confirmed);
    }
  }

  /** The promised minimum, self-cross cancels included, for wide quotes and orders without a zigzag. */
  lemma {:induction false} WidePlanIsMinimum(desired: seq<OrderIntent>, confirmed: seq<ConfirmedOrder>,
                                             m: seq<Option<ConfirmedOrder>>)
    requires DistinctIds(confirmed) && NoZigzag(desired, confirmed) && WideQuotes(desired)
    requires ValidMatching(m, desired, confirmed)
    ensures |Mutations(Plan(desired, confirmed))| <= Cost(m, desired, confirmed) <= FullCost(m, desired, confirmed)
  {
    PlanIsMinimum(desired, confirmed, m);
    if Plan(desired, confirmed).crossed != [] {
      var i, p := SelfCrossNeedsTightQuotes(desired, confirmed);
    }
  }

  /** A second reconciliation, after every place of the first has been acknowledged, has nothing to do. */
  ghost predicate SettlesFrom(desired: seq<OrderIntent>, confirmed: seq<ConfirmedOrder>, newIds: seq<string>)
  {
    |newIds| == |PlaceIntents(Mutations(Plan(desired, confirmed)))| && FreshIds(newIds, confirmed) ==>
      Mutations(Plan(desired, Settled(desired, confirmed, newIds))) == []
  }

  /** A price within `a` of `x` and within `b` of `y`. */
  lemma {:induction false} PriceBetween(x: real, y: real, a: real, b: real) returns (z: real)
    requires a > 0.0 && b > 0.0 && Abs(x - y) < a + b
    ensures Abs(z - x) < a && Abs(z - y) < b
  {
    z := (Max(x - a, y - b) + Min(x + a, y + b)) / 2.0;
  }

  lemma {:induction false} UnmatchedIsPlaced(desired: seq<OrderIntent>, confirmed: seq<ConfirmedOrder>, k: nat)
    requires k < |desired| && Assignment(desired, confirmed)[k].None?
    ensures desired[k] in Plan(desired, confirmed).places
  {
    hide Plan, Assignment, OpenPositions, Mutations;
    PlacedOnceInOrder(desired, confirmed);
    PlanOnExchange(Plan(desired, confirmed));
    var places := OpenPositions(Assignment(desired, confirmed));
    assert k in places;
    var n :| 0 <= n < |places| && places[n] == k;
    assert Plan(desired, confirmed).places[n] == desired[k];
  }

  lemma {:induction false} LoneOrderIsTaken(desired: seq<OrderIntent>, o: ConfirmedOrder, i: OrderIntent)
    requires i in desired && Fits(o, i)
    ensures o.orderId in MatchedIds(Assignment(desired, [o]))
  {
    hide Assignment;
    GreedyIsValid(desired, [o]);
    var a := Assignment(desired, [o]);
    var l :| 0 <= l < |desired| && desired[l] == i;
    if a[l].Some? {
      assert a[l].value == o;
    } else if o.orderId !in MatchedIds(a) {
      GreedyIsMaximal(desired, [o], l, o);
    }
  }

  /** The only confirmed order fits one intent and crosses another: the latter is placed, and the order cancelled. */
  lemma {:induction false} LoneOrderIsCrossed(desired: seq<OrderIntent>, o: ConfirmedOrder, i: OrderIntent,
                                              p: OrderIntent)
    requires i in desired && p in desired && Fits(o, i) && Crosses(o, p, SelfCrossTick(desired))
    ensures Plan(desired, [o]).crossed != []
  {
    hide Assignment;
    var plan := Plan(desired, [o]);
    GreedyIsValid(desired, [o]);
    var k :| 0 <= k < |desired| && desired[k] == p;
    UnmatchedIsPlaced(desired, [o], k);
    LoneOrderIsTaken(desired, o, i);
    AllCrossedFacts(plan.places, [o], Ids(plan.unmatched), SelfCrossTick(desired));
  }

  /** Distinct ids, none of them empty. */
  function Names(n: nat): (ids: seq<string>)
    ensures |ids| == n && forall k :: 0 <= k < n ==> |ids[k]| == k + 1
  {
    seq(n, k requires 0 <= k => seq(k + 1, _ => 'o'))
  }

  lemma {:induction false} NamesDiffer(n: nat)
    ensures NoRepeats(Names(n))
  {
    var ids := Names(n);
    forall k, l | 0 <= k < l < n ensures ids[k] != ids[l] {
      assert |ids[k]| != |ids[l]|;
    }
  }

  lemma {:induction false} NamesAreFresh(n: nat, o: ConfirmedOrder)
    requires o.orderId == ""
    ensures FreshIds(Names(n), [o])
  {
    NamesDiffer(n);
  }

  /** Two opposing quotes with too little room have a resting order between them from which `diff` does not settle. */
  lemma {:induction false} TightQuotesUnsettled(desired: seq<OrderIntent>, i: OrderIntent, p: OrderIntent)
    returns (confirmed: seq<ConfirmedOrder>, newIds: seq<string>)
    requires PositiveTicks(desired) && i in desired && p in desired && i.tokenId == p.tokenId && i.side != p.side
    requires Abs(i.price - p.price) < SelfCrossTick(desired) + i.tickSize + 2.0 * PRICE_EPSILON
    ensures DistinctIds(confirmed) && !SettlesFrom(desired, confirmed, newIds)
  {
    assert SelfCrossTick(desired) > 0.0 by { assert desired[0] in desired; }
    var price := PriceBetween(i.price, p.price, i.tickSize + PRICE_EPSILON, SelfCrossTick(desired) + PRICE_EPSILON);
    var o := AsOrder(i, "").(price := price);
    confirmed := [o];
    LoneOrderIsCrossed(desired, o, i, p);
    newIds := Names(|PlaceIntents(Mutations(Plan(desired, confirmed)))|);
    NamesAreFresh(|newIds|, o);
    SelfCrossLeavesWork(desired, confirmed, newIds);
  }

  /**
   One-step convergence, as a condition on the desired quotes alone: whatever rests, reconciling a
   second time does nothing, if and only if opposing quotes leave room for both tolerances.
   */
  lemma {:induction false} AlwaysSettlesIffWide(desired: seq<OrderIntent>)
    requires PositiveTicks(desired)
    ensures (forall confirmed, newIds :: DistinctIds(confirmed) ==> SettlesFrom(desired, confirmed, newIds))
        <==> WideQuotes(desired)
  {
    if WideQuotes(desired) {
      forall confirmed, newIds | DistinctIds(confirmed) ensures SettlesFrom(desired, confirmed, newIds) {
        if |newIds| == |PlaceIntents(Mutations(Plan(desired, confirmed)))| && FreshIds(newIds, confirmed) {
          WideQuotesSettle(desired, confirmed, newIds);
        }
      }
    } else {
      var i, p :| i in desired && p in desired && i.tokenId == p.tokenId && i.side != p.side
                  && Abs(i.price - p.price) < SelfCrossTick(desired) + i.tickSize + 2.0 * PRICE_EPSILON;
      var confirmed, newIds := TightQuotesUnsettled(desired, i, p);
    }
  }
}
