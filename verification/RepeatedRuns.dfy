/**
 Reconciling again and again with the same desired quotes, every place being acknowledged.

 Quotes that are apart come to rest, after at most as many runs as there are quotes. Two opposing
 quotes that are not swap with each other forever once only one of them rests.
 */
module RepeatedRuns {
  import opened Common
  import opened OrderTypes
  import opened OrderDiff
  import opened Exchange
  import opened MatchingQuality
  import opened MutationAccounting
  import opened Convergence
  import opened SelfCrossSafety

  /** One reconciliation whose places are all acknowledged, under `newIds`. */
  ghost predicate Reconciled(desired: seq<OrderIntent>, before: seq<ConfirmedOrder>, newIds: seq<string>,
                             after: seq<ConfirmedOrder>)
  {
    && |newIds| == |PlaceIntents(Mutations(Plan(desired, before)))|
    && after == Settled(desired, before, newIds)
  }

  /** What rests before, between and after any number of reconciliations with the same desired quotes. */
  ghost predicate RepeatedRun(desired: seq<OrderIntent>, ids: nat -> seq<string>, states: seq<seq<ConfirmedOrder>>)
  {
    forall k :: 0 <= k < |states| - 1 ==> Reconciled(desired, states[k], ids(k), states[k + 1])
  }

  /** No new order gets an id that rests. */
  ghost predicate FreshRun(ids: nat -> seq<string>, states: seq<seq<ConfirmedOrder>>)
  {
    (states != [] ==> DistinctIds(states[0])) &&
    forall k :: 0 <= k < |states| - 1 ==> FreshIds(ids(k), states[k])
  }

  /** Whatever rests at first, after `n` reconciliations there is nothing left to do. */
  ghost predicate SettlesBy(desired: seq<OrderIntent>, n: nat)
  {
    forall ids, states :: RepeatedRun(desired, ids, states) && FreshRun(ids, states) && n < |states| ==>
      Mutations(Plan(desired, states[n])) == []
  }

  // ----- Quotes that settle -----

  ghost predicate OneTick(desired: seq<OrderIntent>)
  {
    forall i :: i in desired ==> i.tickSize == SelfCrossTick(desired)
  }

  /** An order at none of the desired prices. */
  ghost predicate Stranger(o: ConfirmedOrder, desired: seq<OrderIntent>)
  {
    forall i :: i in desired ==> !(o.tokenId == i.tokenId && o.side == i.side && o.price == i.price)
  }

  ghost function Strangers(orders: seq<ConfirmedOrder>, desired: seq<OrderIntent>): set<string>
  {
    set o | o in orders && Stranger(o, desired) :: o.orderId
  }

  /** When quotes are apart, only strangers are cancelled for self-crossing. */
  lemma {:induction false} CrossedAreStrangers(desired: seq<OrderIntent>, confirmed: seq<ConfirmedOrder>,
                                               o: ConfirmedOrder)
    requires OneTick(desired) && Apart(desired) && o in Plan(desired, confirmed).crossed
    ensures o in confirmed && Stranger(o, desired)
  {
    hide Assignment;
    var plan := Plan(desired, confirmed);
    AllCrossedFacts(plan.places, confirmed, Ids(plan.unmatched), SelfCrossTick(desired));
    var p :| p in plan.places && Crosses(o, p, SelfCrossTick(desired));
    assert p in desired;
  }

  /** A run adds no stranger, and takes away those it crosses. */
  lemma {:induction false} StrangersLeft(desired: seq<OrderIntent>, confirmed: seq<ConfirmedOrder>, newIds: seq<string>)
    requires |newIds| == |PlaceIntents(Mutations(Plan(desired, confirmed)))|
    ensures var plan := Plan(desired, confirmed);
      && Strangers(Settled(desired, confirmed, newIds), desired)
         <= Strangers(Excluding(confirmed, CancelledBy(plan)), desired)
         <= Strangers(confirmed, desired) - Ids(plan.crossed)
  {
    hide Assignment, AllCrossed;
    var plan := Plan(desired, confirmed);
    SettledShape(desired, confirmed, newIds);
    var placed := Rested(plan.places, newIds);
    forall o | o in placed ensures !Stranger(o, desired) {
      var k :| 0 <= k < |placed| && placed[k] == o;
      assert plan.places[k] in desired;
    }
  }

  lemma {:induction false} FewerStrangers(desired: seq<OrderIntent>, confirmed: seq<ConfirmedOrder>,
                                          newIds: seq<string>)
    requires OneTick(desired) && Apart(desired) && Plan(desired, confirmed).crossed != []
    requires |newIds| == |PlaceIntents(Mutations(Plan(desired, confirmed)))|
    ensures |Strangers(Settled(desired, confirmed, newIds), desired)| < |Strangers(confirmed, desired)|
  {
    hide Plan, Settled, Stranger;
    var o := Plan(desired, confirmed).crossed[0];
    CrossedAreStrangers(desired, confirmed, o);
    StrangersLeft(desired, confirmed, newIds);
    assert o.orderId in Strangers(confirmed, desired) && o.orderId in Ids(Plan(desired, confirmed).crossed);
    SubsetSize(Strangers(Settled(desired, confirmed, newIds), desired), Strangers(confirmed, desired) - {o.orderId});
  }

  /** When the first run crosses an order, it leaves at least two strangers fewer than there are quotes. */
  lemma {:induction false} StrangersAtFirst(desired: seq<OrderIntent>, confirmed: seq<ConfirmedOrder>,
                                            newIds: seq<string>)
    requires DistinctIds(confirmed) && Plan(desired, confirmed).crossed != []
    requires |newIds| == |PlaceIntents(Mutations(Plan(desired, confirmed)))|
    ensures |Strangers(Settled(desired, confirmed, newIds), desired)| + 2 <= |desired|
  {
    hide Settled, Stranger, AllCrossed;
    var a, plan := Assignment(desired, confirmed), Plan(desired, confirmed);
    var kept := Excluding(confirmed, CancelledBy(plan));
    StrangersLeft(desired, confirmed, newIds);
    FewerKeptThanMatched(desired, confirmed);
    GreedyIsValid(desired, confirmed);
    ServedIsMatchedIds(a, desired, confirmed);
    ToPlaceLength(desired, a);
    AllCrossedFacts(plan.places, confirmed, Ids(plan.unmatched), SelfCrossTick(desired));
    assert plan.crossed[0] in plan.crossed && |plan.places| >= 1;
    IdsAtMostLength(kept);
    SubsetSize(Strangers(kept, desired), Ids(kept));
    SubsetSize(Strangers(Settled(desired, confirmed, newIds), desired), Strangers(kept, desired));
  }

  lemma {:induction false} QuietNext(desired: seq<OrderIntent>, before: seq<ConfirmedOrder>, newIds: seq<string>,
                                     after: seq<ConfirmedOrder>)
    requires PositiveTicks(desired) && Reconciled(desired, before, newIds, after) && FreshIds(newIds, before)
    requires Plan(desired, before).crossed == []
    ensures Mutations(Plan(desired, after)) == []
  {
    SettlesWithoutSelfCross(desired, before, newIds);
  }

  lemma {:induction false} NothingToCross(plan: Reconciliation)
    requires Mutations(plan) == []
    ensures plan.crossed == []
  {
    assert |Mutations(plan)| == |plan.unmatched| + |plan.crossed| + |plan.places|;
  }

  /** Until there is nothing left to do, every run but the first rids the book of a stranger. */
  lemma {:induction false} SettledOrFewer(desired: seq<OrderIntent>, ids: nat -> seq<string>,
                                          states: seq<seq<ConfirmedOrder>>, n: nat)
    requires PositiveTicks(desired) && OneTick(desired) && Apart(desired)
    requires RepeatedRun(desired, ids, states) && FreshRun(ids, states) && 1 <= n < |states|
    ensures Mutations(Plan(desired, states[n])) == [] || |Strangers(states[n], desired)| + n + 1 <= |desired|
  {
    hide Plan, Mutations, Settled, Strangers, OneTick, Apart, FreshIds, DistinctIds;
    var before := states[n - 1];
    assert Reconciled(desired, before, ids(n - 1), states[n]) && FreshIds(ids(n - 1), before);
    if n > 1 {
      SettledOrFewer(desired, ids, states, n - 1);
    }
    if Plan(desired, before).crossed == [] {
      QuietNext(desired, before, ids(n - 1), states[n]);
    } else if n == 1 {
      StrangersAtFirst(desired, before, ids(0));
    } else {
      FewerStrangers(desired, before, ids(n - 1));
      if Mutations(Plan(desired, before)) == [] {
        NothingToCross(Plan(desired, before));
      }
    }
  }

  /**
   Convergence over repeated runs: when opposing quotes are apart, half the room that settles in one
   step, reconciling as often as there are quotes leaves nothing to do, whatever rested at first.
   */
  lemma {:induction false} ApartQuotesSettle(desired: seq<OrderIntent>, n: nat)
    requires PositiveTicks(desired) && OneTick(desired) && Apart(desired)
    requires n >= 1 && n >= |desired|
    ensures SettlesBy(desired, n)
  {
    hide Plan, Mutations, Strangers, OneTick, Apart, FreshRun, RepeatedRun;
    forall ids, states | RepeatedRun(desired, ids, states) && FreshRun(ids, states) && n < |states|
      ensures Mutations(Plan(desired, states[n])) == []
    {
      SettledOrFewer(desired, ids, states, n);
    }
  }

  // ----- Quotes that never settle -----

  ghost predicate RestsAlone(state: seq<ConfirmedOrder>, intent: OrderIntent)
  {
    |state| == 1 && state == [AsOrder(intent, state[0].orderId)]
  }

  /**
   Two opposing quotes of a token within a tick of each other, only one of them resting: every run
   cancels the resting one and places the other, forever.
   */
  lemma {:induction false} TightPairFlips(desired: seq<OrderIntent>, one: OrderIntent, other: OrderIntent,
                                          ids: nat -> seq<string>, states: seq<seq<ConfirmedOrder>>, firstId: string,
                                          n: nat)
    requires desired == [one, other] || desired == [other, one]
    requires one.side != other.side && one.tokenId == other.tokenId
    requires one.tickSize == other.tickSize > 0.0
    requires PriceMatches(one.price, other.price, one.tickSize)
    requires RepeatedRun(desired, ids, states) && n < |states|
    requires states[0] == [AsOrder(one, firstId)]
    ensures RestsAlone(states[n], if n % 2 == 0 then one else other)
    ensures |Mutations(Plan(desired, states[n]))| == 2
  {
    hide Mutations, Plan, Reconciled, PriceMatches, AsOrder;
    if n == 0 {
      AloneAtFirst(one, firstId);
      FlipStep(desired, one, other, states[0], [""]);
    } else {
      TightPairFlips(desired, one, other, ids, states, firstId, n - 1);
      assert Reconciled(desired, states[n - 1], ids(n - 1), states[n]);
      var now, next := if n % 2 == 1 then one else other, if n % 2 == 1 then other else one;
      PriceMatchesBack(one.price, other.price, one.tickSize);
      FlipStep(desired, now, next, states[n - 1], ids(n - 1));
      FlipStep(desired, next, now, states[n], [""]);
    }
  }

  lemma {:induction false} AloneAtFirst(one: OrderIntent, firstId: string)
    ensures RestsAlone([AsOrder(one, firstId)], one)
  {
  }

  lemma {:induction false} PriceMatchesBack(x: real, y: real, tickSize: real)
    ensures PriceMatches(x, y, tickSize) == PriceMatches(y, x, tickSize)
  {
  }

  lemma {:induction false} FlipStep(desired: seq<OrderIntent>, one: OrderIntent, other: OrderIntent,
                                    before: seq<ConfirmedOrder>, newIds: seq<string>)
    requires desired == [one, other] || desired == [other, one]
    requires one.side != other.side && one.tokenId == other.tokenId
    requires one.tickSize == other.tickSize > 0.0
    requires PriceMatches(one.price, other.price, one.tickSize)
    requires RestsAlone(before, one)
    ensures |Mutations(Plan(desired, before))| == 2
    ensures forall after :: Reconciled(desired, before, newIds, after) ==> RestsAlone(after, other)
  {
    FlipOnce(desired, one, other, before[0].orderId, newIds);
  }

  lemma {:induction false} FlipMatching(desired: seq<OrderIntent>, one: OrderIntent, other: OrderIntent,
                                        o: ConfirmedOrder)
    requires desired == [one, other] || desired == [other, one]
    requires one.side != other.side && one.tickSize > 0.0 && o == AsOrder(one, o.orderId)
    ensures Assignment(desired, [o]) == if desired[0] == one then [Some(o), None] else [None, Some(o)]
  {
    assert [o][1..] == [] && desired[1..] == [desired[1]] && [desired[1]][1..] == [];
    assert FirstFit([o], one) == Some(o) && FirstFit([o], other) == None;
    assert Excluding([o], {o.orderId}) == [];
    ExcludingNothing([o], {});
    assert Assignment([desired[1]], [o]) == [if desired[0] == one then None else Some(o)];
    assert Assignment([desired[1]], []) == [None];
  }

  lemma {:induction false} FlipExchange(o: ConfirmedOrder, other: OrderIntent, plan: Reconciliation,
                                        newIds: seq<string>)
    requires plan == Reconciliation([], [o], [other])
    ensures var m := Mutations(plan);
      && |m| == 2 && |PlaceIntents(m)| == 1
      && (|newIds| == 1 ==> After([o], m, AllAcked(newIds)) == [AsOrder(other, newIds[0])])
  {
    PlanOnExchange(plan);
    var m := Mutations(plan);
    assert CancelIds(m) == [o.orderId] && PlaceIntents(m) == [other];
    ExcludingAll([o], set id | id in CancelIds(m));
    if |newIds| == 1 {
      assert AllAcked(newIds) == [Some(newIds[0])];
      assert Acknowledged([other], [Some(newIds[0])]) == [AsOrder(other, newIds[0])] by { assert [other][1..] == []; }
    }
  }

  /** Only `one` of the two opposing quotes rests: it is cancelled and `other` placed. */
  lemma {:induction false} FlipOnce(desired: seq<OrderIntent>, one: OrderIntent, other: OrderIntent, restingId: string,
                                    newIds: seq<string>)
    requires desired == [one, other] || desired == [other, one]
    requires one.side != other.side && one.tokenId == other.tokenId
    requires one.tickSize == other.tickSize > 0.0
    requires PriceMatches(one.price, other.price, one.tickSize)
    ensures var resting := [AsOrder(one, restingId)];
      var m := Mutations(Plan(desired, resting));
      && |m| == 2
      && (forall after :: Reconciled(desired, resting, newIds, after) <==>
            |newIds| == 1 && after == [AsOrder(other, newIds[0])])
  {
    hide Assignment, Plan, Mutations, After, AllAcked;
    var o, first := AsOrder(one, restingId), desired[0] == one;
    FlipMatching(desired, one, other, o);
    FlipPlan(desired, Assignment(desired, [o]), o, one, other, first);
    FlipExchange(o, other, Plan(desired, [o]), newIds);
  }

  lemma {:induction false} FlipPlan(desired: seq<OrderIntent>, a: seq<Option<ConfirmedOrder>>, o: ConfirmedOrder,
                                     one: OrderIntent, other: OrderIntent, first: bool)
    requires a == Assignment(desired, [o])
    requires desired == (if first then [one, other] else [other, one])
    requires a == (if first then [Some(o), None] else [None, Some(o)])
    requires Crosses(o, other, desired[0].tickSize)
    ensures Plan(desired, [o]) == Reconciliation([], [o], [other])
  {
    assert MatchedIds(a) == {o.orderId} by {
      assert a[if first then 0 else 1].value.orderId == o.orderId;
    }
    ExcludingAll([o], MatchedIds(a));
    assert Ids(Excluding([o], MatchedIds(a))) == {};
    assert ToPlace(desired, a) == [other] by {
      assert a[1..] == [a[1]] && desired[1..] == [desired[1]];
      assert ToPlace([desired[1]], [a[1]]) == if first then [other] else [];
    }
    assert CrossedBy(other, [o], {}, desired[0].tickSize) == [o] by { assert [o][1..] == []; }
    assert AllCrossed([other], [o], {}, desired[0].tickSize) == [o] by { assert [other][1..] == []; }
  }

  // ----- A pair of quotes -----

  function Name(n: nat): (name: string)
    ensures |name| == n
  {
    seq(n, _ => 'o')
  }

  /** One of the two rests, alternately, each time under a longer name. */
  function Flipping(one: OrderIntent, other: OrderIntent, n: nat): (states: seq<seq<ConfirmedOrder>>)
    ensures |states| == n + 1
    ensures forall k :: 0 <= k <= n ==> states[k] == [AsOrder(if k % 2 == 0 then one else other, Name(k))]
  {
    seq(n + 1, k requires 0 <= k => [AsOrder(if k % 2 == 0 then one else other, Name(k))])
  }

  function NextName(k: nat): seq<string>
  {
    [Name(k + 1)]
  }

  lemma {:induction false} FlipsAt(one: OrderIntent, other: OrderIntent, k: nat)
    requires one.side != other.side && one.tokenId == other.tokenId
    requires one.tickSize == other.tickSize > 0.0
    requires PriceMatches(one.price, other.price, one.tickSize)
    ensures var now, next := if k % 2 == 0 then one else other, if k % 2 == 0 then other else one;
      Reconciled([one, other], [AsOrder(now, Name(k))], NextName(k), [AsOrder(next, Name(k + 1))])
  {
    hide Reconciled, PriceMatches, AsOrder;
    PriceMatchesBack(one.price, other.price, one.tickSize);
    var now, next := if k % 2 == 0 then one else other, if k % 2 == 0 then other else one;
    FlipOnce([one, other], now, next, Name(k), NextName(k));
  }

  lemma {:induction false} FlippingRuns(one: OrderIntent, other: OrderIntent, n: nat)
    requires one.side != other.side && one.tokenId == other.tokenId
    requires one.tickSize == other.tickSize > 0.0
    requires PriceMatches(one.price, other.price, one.tickSize)
    ensures RepeatedRun([one, other], NextName, Flipping(one, other, n))
    ensures FreshRun(NextName, Flipping(one, other, n))
  {
    hide Reconciled, PriceMatches, Flipping, AsOrder, FreshIds, NextName;
    var states := Flipping(one, other, n);
    forall k | 0 <= k < n ensures Reconciled([one, other], states[k], NextName(k), states[k + 1]) {
      FlipsAt(one, other, k);
    }
    forall k | 0 <= k < n ensures FreshIds(NextName(k), states[k]) {
      LongerIsFresh(if k % 2 == 0 then one else other, k);
    }
  }

  lemma {:induction false} LongerIsFresh(i: OrderIntent, k: nat)
    ensures FreshIds(NextName(k), [AsOrder(i, Name(k))])
  {
    assert |Name(k + 1)| != |Name(k)|;
  }

  lemma {:induction false} PairApart(one: OrderIntent, other: OrderIntent)
    requires one.side != other.side && one.tokenId == other.tokenId && one.tickSize == other.tickSize
    ensures Apart([one, other]) <==> !PriceMatches(one.price, other.price, one.tickSize)
  {
    var desired := [one, other];
    assert desired[0] in desired && desired[1] in desired;
    PriceMatchesBack(one.price, other.price, one.tickSize);
  }

  /**
   Exactly when the two sides of a market settle: after any number of runs but one, whatever rested at
   first, if and only if they are apart.
   */
  lemma {:induction false} PairSettlesIffApart(one: OrderIntent, other: OrderIntent, n: nat)
    requires one.side != other.side && one.tokenId == other.tokenId
    requires one.tickSize == other.tickSize > 0.0 && n >= 2
    ensures SettlesBy([one, other], n) <==> Apart([one, other])
  {
    hide Apart, FreshRun, RepeatedRun, Plan, Mutations, PriceMatches, Flipping;
    var desired := [one, other];
    PairApart(one, other);
    if Apart(desired) {
      ApartQuotesSettle(desired, n);
    } else {
      FlippingRuns(one, other, n);
      TightPairFlips(desired, one, other, NextName, Flipping(one, other, n), Name(0), n);
    }
  }
}
