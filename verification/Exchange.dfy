/** The exchange side of a mutation list: cancelled ids leave the book, acknowledged places join it. */
module Exchange {
  import opened Common
  import opened OrderTypes
  import opened OrderDiff

  function CancelIds(mutations: seq<OrderMutation>): seq<string>
  {
    if mutations == [] then []
    else (if mutations[0].Cancel? then [mutations[0].orderId] else []) + CancelIds(mutations[1..])
  }

  function PlaceIntents(mutations: seq<OrderMutation>): seq<OrderIntent>
  {
    if mutations == [] then []
    else (if mutations[0].Place? then [mutations[0].intent] else []) + PlaceIntents(mutations[1..])
  }

  function AsOrder(intent: OrderIntent, orderId: string): ConfirmedOrder
  {
    ConfirmedOrder(orderId, intent.tokenId, intent.side, intent.price, intent.size, intent.timeInForce,
                   intent.postOnly, intent.strategy)
  }

  /** The acknowledged orders, in order; `acks[k]` is the id given to the k-th place, if it was accepted. */
  function Acknowledged(intents: seq<OrderIntent>, acks: seq<Option<string>>): (orders: seq<ConfirmedOrder>)
    requires |acks| == |intents|
    ensures forall o :: o in orders ==>
              exists k :: 0 <= k < |acks| && acks[k].Some? && o == AsOrder(intents[k], acks[k].value)
  {
    if intents == [] then [] else
      var rest := Acknowledged(intents[1..], acks[1..]);
      assert forall k :: 0 <= k < |acks| - 1 ==> acks[1..][k] == acks[k + 1] && intents[1..][k] == intents[k + 1];
      if acks[0].Some? then
        var first := AsOrder(intents[0], acks[0].value);
        assert forall o :: o in [first] + rest <==> o == first || o in rest;
        [first] + rest
      else rest
  }

  /** What rests after the mutations have been applied. */
  function After(resting: seq<ConfirmedOrder>, mutations: seq<OrderMutation>,
                 acks: seq<Option<string>>): seq<ConfirmedOrder>
    requires |acks| == |PlaceIntents(mutations)|
  {
    Excluding(resting, set id | id in CancelIds(mutations)) + Acknowledged(PlaceIntents(mutations), acks)
  }

  ghost function CancelledBy(plan: Reconciliation): set<string>
  {
    Ids(plan.unmatched) + Ids(plan.crossed)
  }

  lemma {:induction false} CancelIdsAppend(a: seq<OrderMutation>, b: seq<OrderMutation>)
    ensures CancelIds(a + b) == CancelIds(a) + CancelIds(b)
  {
    if a == [] {
      assert a + b == b;
    } else {
      assert (a + b)[1..] == a[1..] + b;
      CancelIdsAppend(a[1..], b);
      var head := if a[0].Cancel? then [a[0].orderId] else [];
      assert CancelIds(a) == head + CancelIds(a[1..]);
    }
  }

  lemma {:induction false} PlaceIntentsAppend(a: seq<OrderMutation>, b: seq<OrderMutation>)
    ensures PlaceIntents(a + b) == PlaceIntents(a) + PlaceIntents(b)
  {
    if a == [] {
      assert a + b == b;
    } else {
      assert (a + b)[1..] == a[1..] + b;
      PlaceIntentsAppend(a[1..], b);
      var head := if a[0].Place? then [a[0].intent] else [];
      assert PlaceIntents(a) == head + PlaceIntents(a[1..]);
    }
  }

  /** With the two lemmas above: an exchange sees the cancelled ids and the placed intents in the order of the list. */
  lemma {:induction false} OneMutation(m: OrderMutation)
    ensures CancelIds([m]) == if m.Cancel? then [m.orderId] else []
    ensures PlaceIntents([m]) == if m.Place? then [m.intent] else []
  {
    assert [m][1..] == [];
  }

  function IdSeq(orders: seq<ConfirmedOrder>): (ids: seq<string>)
    ensures |ids| == |orders| && forall i :: 0 <= i < |ids| ==> ids[i] == orders[i].orderId
  {
    seq(|orders|, i requires 0 <= i < |orders| => orders[i].orderId)
  }

  lemma {:induction false} CancelIdsOfCancels(orders: seq<ConfirmedOrder>, reason: CancelReason)
    ensures CancelIds(Cancels(orders, reason)) == IdSeq(orders)
    ensures PlaceIntents(Cancels(orders, reason)) == []
  {
    if orders != [] {
      assert Cancels(orders, reason)[1..] == Cancels(orders[1..], reason);
      CancelIdsOfCancels(orders[1..], reason);
    }
  }

  lemma {:induction false} PlaceIntentsOfPlaces(intents: seq<OrderIntent>)
    ensures CancelIds(Places(intents)) == []
    ensures PlaceIntents(Places(intents)) == intents
  {
    if intents != [] {
      assert Places(intents)[1..] == Places(intents[1..]);
      PlaceIntentsOfPlaces(intents[1..]);
    }
  }

  lemma {:induction false} IdSeqIds(orders: seq<ConfirmedOrder>)
    ensures (set id | id in IdSeq(orders)) == Ids(orders)
  {
    forall o | o in orders ensures o.orderId in IdSeq(orders) {
      var k :| 0 <= k < |orders| && orders[k] == o;
      assert IdSeq(orders)[k] == o.orderId;
    }
  }

  lemma {:induction false} IdsJoin(a: seq<ConfirmedOrder>, b: seq<ConfirmedOrder>)
    ensures Ids(a + b) == Ids(a) + Ids(b)
  {
    assert forall o :: o in a + b <==> o in a || o in b;
  }

  /** The exchange sees of a plan exactly its two lists of cancels and its places. */
  lemma {:induction false} PlanOnExchange(plan: Reconciliation)
    ensures CancelIds(Mutations(plan)) == IdSeq(plan.unmatched + plan.crossed)
    ensures PlaceIntents(Mutations(plan)) == plan.places
    ensures (set id | id in CancelIds(Mutations(plan))) == CancelledBy(plan)
  {
    assert CancelIds(Mutations(plan)) == IdSeq(plan.unmatched + plan.crossed)
        && PlaceIntents(Mutations(plan)) == plan.places by {
      var u, c, p := Cancels(plan.unmatched, NoLongerDesired), Cancels(plan.crossed, SelfCross), Places(plan.places);
      CancelIdsAppend(u + c, p);
      CancelIdsAppend(u, c);
      PlaceIntentsAppend(u + c, p);
      PlaceIntentsAppend(u, c);
      CancelIdsOfCancels(plan.unmatched, NoLongerDesired);
      CancelIdsOfCancels(plan.crossed, SelfCross);
      PlaceIntentsOfPlaces(plan.places);
    }
    IdSeqIds(plan.unmatched + plan.crossed);
    IdsJoin(plan.unmatched, plan.crossed);
  }
}
