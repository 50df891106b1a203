/** Every confirmed order and every desired intent is accounted for, exactly once, by the mutations of `OrderDiff`. */
module MutationAccounting {
  import opened Common
  import opened OrderTypes
  import opened OrderDiff
  import opened Exchange
  import opened MatchingQuality

  lemma {:induction false} CrossedByFacts(intent: OrderIntent, orders: seq<ConfirmedOrder>, cancelling: set<string>,
                                          tickSize: real)
    ensures var found := CrossedBy(intent, orders, cancelling, tickSize);
      && DistinctIds(found)
      && (forall o :: o in found ==> o in orders && o.orderId !in cancelling && Crosses(o, intent, tickSize))
      && (forall o :: o in orders && Crosses(o, intent, tickSize) ==> o.orderId in cancelling + Ids(found))
  {
    if orders != [] {
      hide Crosses;
      var head := orders[0];
      var found := CrossedBy(intent, orders, cancelling, tickSize);
      if head.orderId !in cancelling && Crosses(head, intent, tickSize) {
        CrossedByFacts(intent, orders[1..], cancelling + {head.orderId}, tickSize);
        var rest := CrossedBy(intent, orders[1..], cancelling + {head.orderId}, tickSize);
        forall i | 0 <= i < |rest| ensures rest[i].orderId != head.orderId {
          assert rest[i] in rest;
        }
        assert head in found && Ids(found) == {head.orderId} + Ids(rest);
      } else {
        CrossedByFacts(intent, orders[1..], cancelling, tickSize);
      }
    }
  }

  lemma {:induction false} DistinctJoin(a: seq<ConfirmedOrder>, b: seq<ConfirmedOrder>)
    requires DistinctIds(a) && DistinctIds(b) && Ids(a) !! Ids(b)
    ensures DistinctIds(a + b)
  {
    var c := a + b;
    forall i, j | 0 <= i < j < |c| ensures c[i].orderId != c[j].orderId {
      if i < |a| <= j {
        assert a[i].orderId in Ids(a) && b[j - |a|].orderId in Ids(b);
      }
    }
  }

  /** The self-cross pass cancels, once each, exactly the crossed orders that were not being cancelled yet. */
  lemma {:induction false} AllCrossedFacts(intents: seq<OrderIntent>, orders: seq<ConfirmedOrder>,
                                           cancelling: set<string>, tickSize: real)
    ensures var found := AllCrossed(intents, orders, cancelling, tickSize);
      && DistinctIds(found)
      && (forall o :: o in found ==>
            o in orders && o.orderId !in cancelling && exists i :: i in intents && Crosses(o, i, tickSize))
      && (forall o, i :: o in orders && i in intents && Crosses(o, i, tickSize) ==>
            o.orderId in cancelling + Ids(found))
    decreases |intents|
  {
    if intents != [] {
      var now := CrossedBy(intents[0], orders, cancelling, tickSize);
      CrossedByFacts(intents[0], orders, cancelling, tickSize);
      AllCrossedFacts(intents[1..], orders, cancelling + Ids(now), tickSize);
      var rest := AllCrossed(intents[1..], orders, cancelling + Ids(now), tickSize);
      assert AllCrossed(intents, orders, cancelling, tickSize) == now + rest;
      IdsJoin(now, rest);
      assert Ids(now) !! Ids(rest);
      DistinctJoin(now, rest);
      forall o | o in now + rest
        ensures o in orders && o.orderId !in cancelling && exists i :: i in intents && Crosses(o, i, tickSize)
      {
        if o in now {
          assert intents[0] in intents;
        } else {
          var i :| i in intents[1..] && Crosses(o, i, tickSize);
          assert i in intents;
        }
      }
    }
  }

  /** The mutations are cancels first, then places. */
  lemma {:induction false} CancelsComeFirst(desired: seq<OrderIntent>, confirmed: seq<ConfirmedOrder>)
    ensures var plan := Plan(desired, confirmed);
      var m, k := Mutations(plan), |plan.unmatched| + |plan.crossed|;
      && k <= |m|
      && (forall i :: 0 <= i < k ==> m[i].Cancel?)
      && (forall i :: k <= i < |m| ==> m[i].Place?)
  {
  }

  /** No id is cancelled twice, and only confirmed orders are cancelled. */
  lemma {:induction false} CancelledOnce(desired: seq<OrderIntent>, confirmed: seq<ConfirmedOrder>)
    requires DistinctIds(confirmed)
    ensures var ids := CancelIds(Mutations(Plan(desired, confirmed)));
      NoRepeats(ids) && forall id :: id in ids ==> id in Ids(confirmed)
  {
    var plan := Plan(desired, confirmed);
    PlanOnExchange(plan);
    AllCrossedFacts(plan.places, confirmed, Ids(plan.unmatched), SelfCrossTick(desired));
    ExcludingDistinct(confirmed, MatchedIds(Assignment(desired, confirmed)));
    assert Ids(plan.unmatched) !! Ids(plan.crossed);
    DistinctJoin(plan.unmatched, plan.crossed);
    assert Ids(plan.unmatched) <= Ids(confirmed) && Ids(plan.crossed) <= Ids(confirmed);
    IdsJoin(plan.unmatched, plan.crossed);
    IdSeqIds(plan.unmatched + plan.crossed);
    var ids := IdSeq(plan.unmatched + plan.crossed);
    forall id | id in ids ensures id in Ids(confirmed) {
      assert id in set x | x in ids;
    }
  }

  lemma {:induction false} TakenOrders(desired: seq<OrderIntent>, confirmed: seq<ConfirmedOrder>, o: ConfirmedOrder)
    requires DistinctIds(confirmed) && o in confirmed
    ensures var a := Assignment(desired, confirmed);
      && (o.orderId in MatchedIds(a) <==> exists i :: 0 <= i < |a| && a[i] == Some(o))
      && (forall i, j :: 0 <= i < j < |a| ==> !(a[i] == Some(o) && a[j] == Some(o)))
  {
    var a := Assignment(desired, confirmed);
    GreedyIsValid(desired, confirmed);
    if o.orderId in MatchedIds(a) {
      var i :| 0 <= i < |a| && a[i].Some? && a[i].value.orderId == o.orderId;
      assert a[i] == Some(o);
    }
  }

  /** A confirmed order survives exactly when some intent took it and no new order crosses it; that intent is unique. */
  lemma {:induction false} KeptForOneIntent(desired: seq<OrderIntent>, confirmed: seq<ConfirmedOrder>,
                                            o: ConfirmedOrder)
    requires DistinctIds(confirmed) && o in confirmed
    ensures var a, plan := Assignment(desired, confirmed), Plan(desired, confirmed);
      var survives := o.orderId !in CancelIds(Mutations(plan));
      var taken := exists i :: 0 <= i < |a| && a[i] == Some(o);
      var endangered := exists p :: p in plan.places && Crosses(o, p, SelfCrossTick(desired));
      && (survives <==> taken && !endangered)
      && (forall i, j :: 0 <= i < j < |a| ==> !(a[i] == Some(o) && a[j] == Some(o)))
  {
    hide Assignment, AllCrossed, Mutations, MatchedIds, ToPlace, Crosses;
    var plan := Plan(desired, confirmed);
    TakenOrders(desired, confirmed, o);
    PlanOnExchange(plan);
    AllCrossedFacts(plan.places, confirmed, Ids(plan.unmatched), SelfCrossTick(desired));
    assert o.orderId in CancelIds(Mutations(plan)) <==> o.orderId in CancelledBy(plan);
    assert o.orderId in Ids(plan.crossed) <==> o in plan.crossed;
  }

  /** The positions of the intents that got no order, in order. */
  ghost function OpenPositions(a: seq<Option<ConfirmedOrder>>): seq<int>
  {
    if a == [] then [] else
      var n := |a| - 1;
      OpenPositions(a[..n]) + (if a[n].None? then [n] else [])
  }

  lemma {:induction false} ToPlaceAppend(desired: seq<OrderIntent>, a: seq<Option<ConfirmedOrder>>, i: OrderIntent,
                                         m: Option<ConfirmedOrder>)
    requires |a| == |desired|
    ensures ToPlace(desired + [i], a + [m]) == ToPlace(desired, a) + if m.None? then [i] else []
  {
    if desired != [] {
      assert (desired + [i])[1..] == desired[1..] + [i] && (a + [m])[1..] == a[1..] + [m];
      ToPlaceAppend(desired[1..], a[1..], i, m);
    }
  }

  lemma {:induction false} OpenPositionsFacts(desired: seq<OrderIntent>, a: seq<Option<ConfirmedOrder>>)
    requires |a| == |desired|
    ensures var p, places := OpenPositions(a), ToPlace(desired, a);
      && |p| == |places|
      && (forall k :: 0 <= k < |p| ==> 0 <= p[k] < |a| && places[k] == desired[p[k]])
      && (forall k, l :: 0 <= k < l < |p| ==> p[k] < p[l])
      && (forall i :: 0 <= i < |a| ==> (i in p <==> a[i].None?))
  {
    if a != [] {
      var n := |a| - 1;
      OpenPositionsFacts(desired[..n], a[..n]);
      ToPlaceAppend(desired[..n], a[..n], desired[n], a[n]);
      assert desired[..n] + [desired[n]] == desired && a[..n] + [a[n]] == a;
      var q := OpenPositions(a[..n]);
      forall i | 0 <= i < |a| ensures i in OpenPositions(a) <==> a[i].None? {
        if i < n {
          assert i in q <==> a[..n][i].None?;
        } else {
          assert i !in q;
        }
      }
    }
  }

  /** Every desired intent is either matched or placed once, and the placed ones keep their order. */
  lemma {:induction false} PlacedOnceInOrder(desired: seq<OrderIntent>, confirmed: seq<ConfirmedOrder>)
    ensures var a, placed := Assignment(desired, confirmed), PlaceIntents(Mutations(Plan(desired, confirmed)));
      var p := OpenPositions(a);
      && |p| == |placed|
      && (forall k :: 0 <= k < |p| ==> 0 <= p[k] < |desired| && placed[k] == desired[p[k]])
      && (forall k, l :: 0 <= k < l < |p| ==> p[k] < p[l])
      && (forall i :: 0 <= i < |desired| ==> (i in p <==> a[i].None?))
  {
    PlanOnExchange(Plan(desired, confirmed));
    OpenPositionsFacts(desired, Assignment(desired, confirmed));
  }
}
