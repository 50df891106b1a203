/**
 Order reconciliation: from desired intents and confirmed orders to cancels and places.

 `Diff` is the loop of the execution actor; `Plan` is the function it computes. What the
 plan achieves is proved in `MatchingQuality`, `Convergence` and `SelfCrossSafety`.
 */
module OrderDiff {
  import opened Common
  import opened OrderTypes

  const PRICE_EPSILON := 0.000000001
  const SIZE_EPSILON := 0.000001
  const DEFAULT_TICK := 0.01

  predicate PriceMatches(a: real, b: real, tickSize: real)
  {
    Abs(a - b) < tickSize + PRICE_EPSILON
  }

  /** Token, side, price within a tick, size, duration and post-only flag all agree. */
  predicate Fits(order: ConfirmedOrder, intent: OrderIntent)
  {
    && order.tokenId == intent.tokenId
    && order.side == intent.side
    && PriceMatches(order.price, intent.price, intent.tickSize)
    && Abs(order.size - intent.size) < SIZE_EPSILON
    && order.timeInForce == intent.timeInForce
    && order.postOnly == intent.postOnly
  }

  /** A resting order that a new `intent` could trade against. */
  predicate Crosses(order: ConfirmedOrder, intent: OrderIntent, tickSize: real)
  {
    && order.tokenId == intent.tokenId
    && order.side == Opposite(intent.side)
    && PriceMatches(order.price, intent.price, tickSize)
  }

  function SelfCrossTick(desired: seq<OrderIntent>): real
  {
    if desired != [] then desired[0].tickSize else DEFAULT_TICK
  }

  // ----- Step 1: greedy first fit -----

  function FirstFit(orders: seq<ConfirmedOrder>, intent: OrderIntent): (m: Option<ConfirmedOrder>)
    ensures m.Some? ==> m.value in orders && Fits(m.value, intent)
    ensures m.None? ==> forall o :: o in orders ==> !Fits(o, intent)
  {
    if orders == [] then None
    else if Fits(orders[0], intent) then Some(orders[0])
    else FirstFit(orders[1..], intent)
  }

  function IdOf(m: Option<ConfirmedOrder>): set<string>
  {
    if m.Some? then {m.value.orderId} else {}
  }

  /** For each intent the order it takes, each order being taken at most once. */
  function Assignment(desired: seq<OrderIntent>, remaining: seq<ConfirmedOrder>): (a: seq<Option<ConfirmedOrder>>)
    ensures |a| == |desired|
  {
    if desired == [] then [] else
      var m := FirstFit(remaining, desired[0]);
      [m] + Assignment(desired[1..], Excluding(remaining, IdOf(m)))
  }

  function MatchedIds(a: seq<Option<ConfirmedOrder>>): (ids: set<string>)
  {
    set i | 0 <= i < |a| && a[i].Some? :: a[i].value.orderId
  }

  /** The intents left without an order, in order. */
  function ToPlace(desired: seq<OrderIntent>, a: seq<Option<ConfirmedOrder>>): (intents: seq<OrderIntent>)
    requires |a| == |desired|
    ensures forall i :: i in intents ==> i in desired
  {
    if desired == [] then []
    else (if a[0].None? then [desired[0]] else []) + ToPlace(desired[1..], a[1..])
  }

  // ----- Step 3: self-cross pass -----

  function CrossedBy(intent: OrderIntent, orders: seq<ConfirmedOrder>, cancelling: set<string>, tickSize: real)
    : (crossed: seq<ConfirmedOrder>)
  {
    if orders == [] then []
    else if orders[0].orderId !in cancelling && Crosses(orders[0], intent, tickSize) then
      [orders[0]] + CrossedBy(intent, orders[1..], cancelling + {orders[0].orderId}, tickSize)
    else CrossedBy(intent, orders[1..], cancelling, tickSize)
  }

  function AllCrossed(intents: seq<OrderIntent>, orders: seq<ConfirmedOrder>, cancelling: set<string>, tickSize: real)
    : (crossed: seq<ConfirmedOrder>)
  {
    if intents == [] then [] else
      var now := CrossedBy(intents[0], orders, cancelling, tickSize);
      now + AllCrossed(intents[1..], orders, cancelling + Ids(now), tickSize)
  }

  // ----- The plan -----

  datatype Reconciliation = Reconciliation(
    unmatched: seq<ConfirmedOrder>, crossed: seq<ConfirmedOrder>, places: seq<OrderIntent>)

  function Plan(desired: seq<OrderIntent>, confirmed: seq<ConfirmedOrder>): Reconciliation
  {
    var a := Assignment(desired, confirmed);
    var unmatched := Excluding(confirmed, MatchedIds(a));
    var places := ToPlace(desired, a);
    Reconciliation(unmatched, AllCrossed(places, confirmed, Ids(unmatched), SelfCrossTick(desired)), places)
  }

  function Cancels(orders: seq<ConfirmedOrder>, reason: CancelReason): (c: seq<OrderMutation>)
  {
    seq(|orders|, i requires 0 <= i < |orders| => Cancel(orders[i].orderId, orders[i].tokenId, reason))
  }

  function Places(intents: seq<OrderIntent>): seq<OrderMutation>
  {
    seq(|intents|, i requires 0 <= i < |intents| => Place(intents[i]))
  }

  function Mutations(plan: Reconciliation): seq<OrderMutation>
  {
    Cancels(plan.unmatched, NoLongerDesired) + Cancels(plan.crossed, SelfCross) + Places(plan.places)
  }

  lemma {:induction false} IdsAppend(a: seq<ConfirmedOrder>, o: ConfirmedOrder)
    ensures Ids(a + [o]) == Ids(a) + {o.orderId}
  {
    assert o in a + [o];
  }

  lemma {:induction false} CancelsAppend(a: seq<ConfirmedOrder>, o: ConfirmedOrder, reason: CancelReason)
    ensures Cancels(a + [o], reason) == Cancels(a, reason) + [Cancel(o.orderId, o.tokenId, reason)]
  {
  }

  /** Moving the j-th order from the part still to do to the part done. */
  lemma {:induction false} ExcludingStep(dropped: seq<ConfirmedOrder>, orders: seq<ConfirmedOrder>, j: nat,
                                         ids: set<string>)
    requires j < |orders|
    ensures dropped + Excluding(orders[j..], ids)
         == (if orders[j].orderId in ids then dropped else dropped + [orders[j]]) + Excluding(orders[j + 1..], ids)
  {
    assert orders[j..][1..] == orders[j + 1..];
  }

  lemma {:induction false} CrossedByStep(found: seq<ConfirmedOrder>, intent: OrderIntent, orders: seq<ConfirmedOrder>,
                                         j: nat,
                                         cancelling: set<string>, tickSize: real)
    requires j < |orders|
    ensures found + CrossedBy(intent, orders[j..], cancelling, tickSize)
         == if orders[j].orderId !in cancelling && Crosses(orders[j], intent, tickSize)
            then found + [orders[j]] + CrossedBy(intent, orders[j + 1..], cancelling + {orders[j].orderId}, tickSize)
            else found + CrossedBy(intent, orders[j + 1..], cancelling, tickSize)
  {
    assert orders[j..][1..] == orders[j + 1..];
  }

  lemma {:induction false} AllCrossedStep(crossed: seq<ConfirmedOrder>, intents: seq<OrderIntent>, i: nat,
                                          orders: seq<ConfirmedOrder>,
                                          cancelling: set<string>, tickSize: real)
    requires i < |intents|
    ensures var now := CrossedBy(intents[i], orders, cancelling, tickSize);
      crossed + AllCrossed(intents[i..], orders, cancelling, tickSize)
      == crossed + now + AllCrossed(intents[i + 1..], orders, cancelling + Ids(now), tickSize)
  {
    assert intents[i..][1..] == intents[i + 1..];
  }

  lemma {:induction false} CancelsJoin(a: seq<ConfirmedOrder>, b: seq<ConfirmedOrder>, reason: CancelReason)
    ensures Cancels(a + b, reason) == Cancels(a, reason) + Cancels(b, reason)
  {
  }

  lemma {:induction false} AssignmentStep(desired: seq<OrderIntent>, i: nat, remaining: seq<ConfirmedOrder>)
    requires i < |desired|
    ensures var a, m := Assignment(desired[i..], remaining), FirstFit(remaining, desired[i]);
      a[0] == m && a[1..] == Assignment(desired[i + 1..], Excluding(remaining, IdOf(m)))
  {
    assert desired[i..][1..] == desired[i + 1..];
  }

  lemma {:induction false} ToPlaceStep(toPlace: seq<OrderIntent>, desired: seq<OrderIntent>,
                                       a: seq<Option<ConfirmedOrder>>, i: nat)
    requires i < |desired| == |a|
    ensures toPlace + ToPlace(desired[i..], a[i..])
         == (if a[i].None? then toPlace + [desired[i]] else toPlace) + ToPlace(desired[i + 1..], a[i + 1..])
  {
    assert desired[i..][1..] == desired[i + 1..] && a[i..][1..] == a[i + 1..];
  }

  lemma {:induction false} MatchedIdsStep(a: seq<Option<ConfirmedOrder>>, i: nat)
    requires i < |a|
    ensures MatchedIds(a[..i + 1]) == MatchedIds(a[..i]) + IdOf(a[i])
  {
    assert a[..i + 1] == a[..i] + [a[i]];
    MatchedIdsAppend(a[..i], a[i]);
  }

  // ----- The loop -----

  method TakeFirstFit(orders: seq<ConfirmedOrder>, intent: OrderIntent) returns (matched: Option<ConfirmedOrder>)
    ensures matched == FirstFit(orders, intent)
  {
    for k := 0 to |orders|
      invariant FirstFit(orders, intent) == FirstFit(orders[k..], intent)
    {
      if Fits(orders[k], intent) {
        return Some(orders[k]);
      }
    }
    return None;
  }

  /** Step 1: match intents to confirmed orders. */
  method MatchIntents(desired: seq<OrderIntent>, confirmed: seq<ConfirmedOrder>)
    returns (toPlace: seq<OrderIntent>, matchedIds: set<string>)
    ensures toPlace == ToPlace(desired, Assignment(desired, confirmed))
    ensures matchedIds == MatchedIds(Assignment(desired, confirmed))
  {
    ghost var a := Assignment(desired, confirmed);
    var remaining := confirmed;
    toPlace, matchedIds := [], {};
    for i := 0 to |desired|
      invariant a[i..] == Assignment(desired[i..], remaining)
      invariant toPlace + ToPlace(desired[i..], a[i..]) == ToPlace(desired, a)
      invariant matchedIds == MatchedIds(a[..i])
    {
      var matched := TakeFirstFit(remaining, desired[i]);
      AssignmentStep(desired, i, remaining);
      assert a[i] == matched && a[i + 1..] == a[i..][1..];
      ToPlaceStep(toPlace, desired, a, i);
      MatchedIdsStep(a, i);
      if matched.Some? {
        matchedIds := matchedIds + {matched.value.orderId};
        remaining := Excluding(remaining, {matched.value.orderId});
      } else {
        toPlace := toPlace + [desired[i]];
        ExcludingNothing(remaining, {});
      }
    }
    assert a[..|desired|] == a;
  }

  /** Step 2: cancel what no intent took. */
  method CancelUnmatched(confirmed: seq<ConfirmedOrder>, matchedIds: set<string>)
    returns (cancels: seq<OrderMutation>, cancelling: set<string>)
    ensures cancels == Cancels(Excluding(confirmed, matchedIds), NoLongerDesired)
    ensures cancelling == Ids(Excluding(confirmed, matchedIds))
  {
    cancels, cancelling := [], {};
    ghost var dropped: seq<ConfirmedOrder> := [];
    for j := 0 to |confirmed|
      invariant dropped + Excluding(confirmed[j..], matchedIds) == Excluding(confirmed, matchedIds)
      invariant cancels == Cancels(dropped, NoLongerDesired)
      invariant cancelling == Ids(dropped)
    {
      ExcludingStep(dropped, confirmed, j, matchedIds);
      if confirmed[j].orderId !in matchedIds {
        IdsAppend(dropped, confirmed[j]);
        CancelsAppend(dropped, confirmed[j], NoLongerDesired);
        cancels := cancels + [Cancel(confirmed[j].orderId, confirmed[j].tokenId, NoLongerDesired)];
        cancelling := cancelling + {confirmed[j].orderId};
        dropped := dropped + [confirmed[j]];
      }
    }
    assert dropped == Excluding(confirmed, matchedIds);
  }

  /** Step 3, for one new order: cancel the orders it would cross. */
  method CancelCrossed(intent: OrderIntent, confirmed: seq<ConfirmedOrder>, alreadyCancelling: set<string>,
                       tickSize: real)
    returns (cancels: seq<OrderMutation>, cancelling: set<string>)
    ensures cancels == Cancels(CrossedBy(intent, confirmed, alreadyCancelling, tickSize), SelfCross)
    ensures cancelling == alreadyCancelling + Ids(CrossedBy(intent, confirmed, alreadyCancelling, tickSize))
  {
    cancels, cancelling := [], alreadyCancelling;
    ghost var found: seq<ConfirmedOrder> := [];
    for j := 0 to |confirmed|
      invariant CrossedBy(intent, confirmed, alreadyCancelling, tickSize)
             == found + CrossedBy(intent, confirmed[j..], cancelling, tickSize)
      invariant cancelling == alreadyCancelling + Ids(found)
      invariant cancels == Cancels(found, SelfCross)
    {
      CrossedByStep(found, intent, confirmed, j, cancelling, tickSize);
      if confirmed[j].orderId !in cancelling && Crosses(confirmed[j], intent, tickSize) {
        IdsAppend(found, confirmed[j]);
        CancelsAppend(found, confirmed[j], SelfCross);
        cancels := cancels + [Cancel(confirmed[j].orderId, confirmed[j].tokenId, SelfCross)];
        cancelling := cancelling + {confirmed[j].orderId};
        found := found + [confirmed[j]];
      }
    }
    assert found == CrossedBy(intent, confirmed, alreadyCancelling, tickSize);
  }

  /** Step 3: cancel the orders that any new order would cross. */
  method CancelAllCrossed(toPlace: seq<OrderIntent>, confirmed: seq<ConfirmedOrder>, alreadyCancelling: set<string>,
                          tickSize: real)
    returns (cancels: seq<OrderMutation>)
    ensures cancels == Cancels(AllCrossed(toPlace, confirmed, alreadyCancelling, tickSize), SelfCross)
  {
    cancels := [];
    var cancelling := alreadyCancelling;
    ghost var crossed: seq<ConfirmedOrder> := [];
    for i := 0 to |toPlace|
      invariant AllCrossed(toPlace, confirmed, alreadyCancelling, tickSize)
             == crossed + AllCrossed(toPlace[i..], confirmed, cancelling, tickSize)
      invariant cancels == Cancels(crossed, SelfCross)
    {
      ghost var now := CrossedBy(toPlace[i], confirmed, cancelling, tickSize);
      AllCrossedStep(crossed, toPlace, i, confirmed, cancelling, tickSize);
      CancelsJoin(crossed, now, SelfCross);
      var more;
      more, cancelling := CancelCrossed(toPlace[i], confirmed, cancelling, tickSize);
      cancels := cancels + more;
      crossed := crossed + now;
    }
    assert crossed == AllCrossed(toPlace, confirmed, alreadyCancelling, tickSize);
  }

  method Diff(desired: seq<OrderIntent>, confirmed: seq<ConfirmedOrder>) returns (mutations: seq<OrderMutation>)
    ensures mutations == Mutations(Plan(desired, confirmed))
  {
    if desired == [] && confirmed == [] {
      return [];
    }
    var tickSize := if desired != [] then desired[0].tickSize else DEFAULT_TICK;
    var toPlace, matchedIds := MatchIntents(desired, confirmed);
    var cancels, cancelling := CancelUnmatched(confirmed, matchedIds);
    var extra := CancelAllCrossed(toPlace, confirmed, cancelling, tickSize);
    mutations := cancels + extra + Places(toPlace);
  }

  lemma {:induction false} MatchedIdsAppend(a: seq<Option<ConfirmedOrder>>, m: Option<ConfirmedOrder>)
    ensures MatchedIds(a + [m]) == MatchedIds(a) + IdOf(m)
  {
    var b := a + [m];
    forall id | id in MatchedIds(a) + IdOf(m) ensures id in MatchedIds(b) {
      if id in MatchedIds(a) {
        var i :| 0 <= i < |a| && a[i].Some? && a[i].value.orderId == id;
        assert b[i] == a[i];
      } else {
        assert b[|a|] == m;
      }
    }
  }
}
