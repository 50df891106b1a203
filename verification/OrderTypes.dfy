/** Desired and confirmed orders, and the mutations that lead from one to the other. */
module OrderTypes {
  import opened Common

  datatype Side = Buy | Sell

  function Opposite(side: Side): Side
  {
    if side.Buy? then Sell else Buy
  }

  /** What the quote engine wants to have resting. */
  datatype OrderIntent = OrderIntent(
    tokenId: string, side: Side, price: real, size: real, timeInForce: string, postOnly: bool,
    expiration: Option<int>, strategy: string, feeRateBps: int, negRisk: bool, tickSize: real)

  /** What the exchange has acknowledged. */
  datatype ConfirmedOrder = ConfirmedOrder(
    orderId: string, tokenId: string, side: Side, price: real, size: real, timeInForce: string,
    postOnly: bool, strategy: string)

  datatype CancelReason = NoLongerDesired | SelfCross

  datatype OrderMutation =
    | Cancel(orderId: string, tokenId: string, reason: CancelReason)
    | Place(intent: OrderIntent)

  /** Each order carries its own id. */
  ghost predicate DistinctIds(orders: seq<ConfirmedOrder>)
  {
    forall i, j :: 0 <= i < j < |orders| ==> orders[i].orderId != orders[j].orderId
  }

  lemma {:induction false} SameIdSameOrder(orders: seq<ConfirmedOrder>, o: ConfirmedOrder, p: ConfirmedOrder)
    requires DistinctIds(orders) && o in orders && p in orders && o.orderId == p.orderId
    ensures o == p
  {
  }

  function Ids(orders: seq<ConfirmedOrder>): set<string>
  {
    set o | o in orders :: o.orderId
  }

  /** The orders whose id is not in `ids`, in order. */
  function Excluding(orders: seq<ConfirmedOrder>, ids: set<string>): (rest: seq<ConfirmedOrder>)
    ensures forall o :: o in rest <==> o in orders && o.orderId !in ids
    ensures |rest| <= |orders|
  {
    if orders == [] then []
    else if orders[0].orderId in ids then Excluding(orders[1..], ids)
    else [orders[0]] + Excluding(orders[1..], ids)
  }

  /** The orders whose id is in `ids`, in order. */
  function Only(orders: seq<ConfirmedOrder>, ids: set<string>): (kept: seq<ConfirmedOrder>)
    ensures forall o :: o in kept <==> o in orders && o.orderId in ids
    ensures |kept| <= |orders|
  {
    if orders == [] then []
    else if orders[0].orderId in ids then [orders[0]] + Only(orders[1..], ids)
    else Only(orders[1..], ids)
  }

  function OfToken(orders: seq<ConfirmedOrder>, tokenId: string): (mine: seq<ConfirmedOrder>)
    ensures forall o :: o in mine <==> o in orders && o.tokenId == tokenId
  {
    if orders == [] then []
    else if orders[0].tokenId == tokenId then [orders[0]] + OfToken(orders[1..], tokenId)
    else OfToken(orders[1..], tokenId)
  }

  lemma {:induction false} ExcludingAppend(a: seq<ConfirmedOrder>, b: seq<ConfirmedOrder>, ids: set<string>)
    ensures Excluding(a + b, ids) == Excluding(a, ids) + Excluding(b, ids)
  {
    if a == [] {
      assert a + b == b;
    } else {
      assert (a + b)[1..] == a[1..] + b;
      ExcludingAppend(a[1..], b, ids);
    }
  }

  lemma {:induction false} ExcludingNothing(orders: seq<ConfirmedOrder>, ids: set<string>)
    requires Ids(orders) !! ids
    ensures Excluding(orders, ids) == orders
  {
    if orders != [] {
      assert orders[0] in orders;
      assert Ids(orders[1..]) <= Ids(orders);
      ExcludingNothing(orders[1..], ids);
    }
  }

  lemma {:induction false} ExcludingAll(orders: seq<ConfirmedOrder>, ids: set<string>)
    requires Ids(orders) <= ids
    ensures Excluding(orders, ids) == []
  {
    if orders != [] {
      assert orders[0] in orders;
      assert Ids(orders[1..]) <= Ids(orders);
      ExcludingAll(orders[1..], ids);
    }
  }

  lemma {:induction false} ExcludingOnly(orders: seq<ConfirmedOrder>, ids: set<string>, kept: set<string>)
    requires forall o :: o in orders ==> (o.orderId in kept <==> o.orderId !in ids)
    ensures Excluding(orders, ids) == Only(orders, kept)
  {
    if orders != [] {
      assert orders[0] in orders;
      ExcludingOnly(orders[1..], ids, kept);
    }
  }

  lemma {:induction false} ExcludingDistinct(orders: seq<ConfirmedOrder>, ids: set<string>)
    requires DistinctIds(orders)
    ensures DistinctIds(Excluding(orders, ids))
  {
    if orders != [] {
      ExcludingDistinct(orders[1..], ids);
      var rest := Excluding(orders[1..], ids);
      forall i | 0 <= i < |rest| ensures rest[i].orderId != orders[0].orderId {
        assert rest[i] in orders[1..];
      }
    }
  }

  /** With distinct ids a list is as long as its set of ids. */
  lemma {:induction false} DistinctLength(orders: seq<ConfirmedOrder>)
    requires DistinctIds(orders)
    ensures |Ids(orders)| == |orders|
  {
    if orders == [] {
      assert Ids(orders) == {};
    } else {
      DistinctLength(orders[1..]);
      assert Ids(orders) == {orders[0].orderId} + Ids(orders[1..]);
      assert orders[0].orderId !in Ids(orders[1..]);
    }
  }
}
