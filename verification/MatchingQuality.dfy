/** How good the greedy first-fit matching of `OrderDiff` is. */
module MatchingQuality {
  import opened Common
  import opened OrderTypes
  import opened OrderDiff

  /** Any way at all of giving each intent at most one fitting order, no order to two intents. */
  ghost predicate ValidMatching(m: seq<Option<ConfirmedOrder>>, desired: seq<OrderIntent>,
                                confirmed: seq<ConfirmedOrder>)
  {
    && |m| == |desired|
    && (forall i :: 0 <= i < |m| && m[i].Some? ==> m[i].value in confirmed && Fits(m[i].value, desired[i]))
    && (forall i, j :: 0 <= i < j < |m| && m[i].Some? && m[j].Some? ==> m[i].value.orderId != m[j].value.orderId)
  }

  ghost function MatchedIndices(m: seq<Option<ConfirmedOrder>>): set<int>
  {
    set i | 0 <= i < |m| && m[i].Some?
  }

  /** How many intents a matching serves. */
  ghost function Served(m: seq<Option<ConfirmedOrder>>): nat
  {
    |MatchedIndices(m)|
  }

  lemma {:induction false} GreedyIsValid(desired: seq<OrderIntent>, confirmed: seq<ConfirmedOrder>)
    ensures ValidMatching(Assignment(desired, confirmed), desired, confirmed)
    decreases |desired|
  {
    if desired != [] {
      var m := FirstFit(confirmed, desired[0]);
      var rest := Excluding(confirmed, IdOf(m));
      GreedyIsValid(desired[1..], rest);
      var tail := Assignment(desired[1..], rest);
      var a := Assignment(desired, confirmed);
      forall i | 0 < i < |a| && a[i].Some?
        ensures a[i].value in confirmed && Fits(a[i].value, desired[i]) && a[i].value.orderId !in IdOf(m)
      {
        assert a[i] == tail[i - 1] && desired[i] == desired[1..][i - 1];
      }
      forall i, j | 0 <= i < j < |a| && a[i].Some? && a[j].Some? ensures a[i].value.orderId != a[j].value.orderId {
        if i > 0 {
          assert a[i] == tail[i - 1] && a[j] == tail[j - 1];
        }
      }
    }
  }

  /** No order left over fits an intent left over, so nothing is placed that already rests unclaimed. */
  lemma {:induction false} GreedyIsMaximal(desired: seq<OrderIntent>, confirmed: seq<ConfirmedOrder>, i: nat,
                                           o: ConfirmedOrder)
    requires i < |desired| && Assignment(desired, confirmed)[i].None?
    requires o in confirmed && o.orderId !in MatchedIds(Assignment(desired, confirmed))
    ensures !Fits(o, desired[i])
    decreases |desired|
  {
    if i > 0 {
      var m := FirstFit(confirmed, desired[0]);
      var a := Assignment(desired, confirmed);
      var tail := Assignment(desired[1..], Excluding(confirmed, IdOf(m)));
      assert a[1..] == tail && a[0] == m;
      forall id | id in MatchedIds(tail) + IdOf(m) ensures id in MatchedIds(a) {
        MatchedIdsHeadTail(a);
      }
      GreedyIsMaximal(desired[1..], Excluding(confirmed, IdOf(m)), i - 1, o);
    }
  }

  lemma {:induction false} MatchedIdsHeadTail(a: seq<Option<ConfirmedOrder>>)
    requires a != []
    ensures MatchedIds(a) == IdOf(a[0]) + MatchedIds(a[1..])
  {
    var t := a[1..];
    forall id | id in IdOf(a[0]) + MatchedIds(t) ensures id in MatchedIds(a) {
      if id in MatchedIds(t) {
        var i :| 0 <= i < |t| && t[i].Some? && t[i].value.orderId == id;
        assert a[i + 1] == t[i];
      }
    }
    forall id | id in MatchedIds(a) ensures id in IdOf(a[0]) + MatchedIds(t) {
      var i :| 0 <= i < |a| && a[i].Some? && a[i].value.orderId == id;
      if i > 0 {
        assert t[i - 1] == a[i];
      }
    }
  }

  /** A set of indices served by a matching needs as many distinct orders. */
  lemma {:induction false} IndicesBoundedByIds(m: seq<Option<ConfirmedOrder>>, desired: seq<OrderIntent>,
                                               confirmed: seq<ConfirmedOrder>,
                                               indices: set<int>, ids: set<string>)
    requires ValidMatching(m, desired, confirmed)
    requires indices <= MatchedIndices(m)
    requires forall i :: i in indices ==> 0 <= i < |m| && m[i].Some? && m[i].value.orderId in ids
    ensures |indices| <= |ids|
    decreases |indices|
  {
    if indices != {} {
      var i :| i in indices;
      var id := m[i].value.orderId;
      IndicesBoundedByIds(m, desired, confirmed, indices - {i}, ids - {id});
    }
  }

  /** Each served intent holds one order id: a matching serves as many intents as it uses ids. */
  lemma {:induction false} ServedIsMatchedIds(m: seq<Option<ConfirmedOrder>>, desired: seq<OrderIntent>,
                                              confirmed: seq<ConfirmedOrder>)
    requires ValidMatching(m, desired, confirmed)
    ensures Served(m) == |MatchedIds(m)|
  {
    IndicesBoundedByIds(m, desired, confirmed, MatchedIndices(m), MatchedIds(m));
    IdsBoundedByIndices(m, MatchedIds(m), MatchedIndices(m));
  }

  lemma {:induction false} IdsBoundedByIndices(m: seq<Option<ConfirmedOrder>>, ids: set<string>, indices: set<int>)
    requires forall id :: id in ids ==>
               exists i :: i in indices && 0 <= i < |m| && m[i].Some? && m[i].value.orderId == id
    ensures |ids| <= |indices|
    decreases |ids|
  {
    if ids != {} {
      var id :| id in ids;
      var i :| i in indices && 0 <= i < |m| && m[i].Some? && m[i].value.orderId == id;
      IdsBoundedByIndices(m, ids - {id}, indices - {i});
    }
  }

  /** An intent that another matching serves and greedy does not has its order taken by greedy. */
  lemma {:induction false} RivalOrderTaken(desired: seq<OrderIntent>, confirmed: seq<ConfirmedOrder>,
                                           m: seq<Option<ConfirmedOrder>>, i: int)
    requires ValidMatching(m, desired, confirmed)
    requires i in MatchedIndices(m) - MatchedIndices(Assignment(desired, confirmed))
    ensures m[i].value.orderId in MatchedIds(Assignment(desired, confirmed))
  {
    if m[i].value.orderId !in MatchedIds(Assignment(desired, confirmed)) {
      GreedyIsMaximal(desired, confirmed, i, m[i].value);
    }
  }

  lemma {:induction false} IndicesInRange(m: seq<Option<ConfirmedOrder>>)
    ensures forall i :: i in MatchedIndices(m) ==> 0 <= i < |m| && m[i].Some?
  {
  }

  /** Greedy serves at least half as many intents as any valid matching. */
  lemma {:induction false} GreedyServesHalf(desired: seq<OrderIntent>, confirmed: seq<ConfirmedOrder>,
                                            m: seq<Option<ConfirmedOrder>>)
    requires ValidMatching(m, desired, confirmed)
    ensures Served(m) <= 2 * Served(Assignment(desired, confirmed))
  {
    hide Assignment, MatchedIndices, MatchedIds, ValidMatching;
    var a := Assignment(desired, confirmed);
    var missed := MatchedIndices(m) - MatchedIndices(a);
    IndicesInRange(m);
    forall i | i in missed ensures 0 <= i < |m| && m[i].Some? && m[i].value.orderId in MatchedIds(a) {
      RivalOrderTaken(desired, confirmed, m, i);
    }
    IndicesBoundedByIds(m, desired, confirmed, missed, MatchedIds(a));
    GreedyIsValid(desired, confirmed);
    ServedIsMatchedIds(a, desired, confirmed);
    SubsetSize(MatchedIndices(m) - missed, MatchedIndices(a));
    assert MatchedIndices(m) == missed + (MatchedIndices(m) - missed);
  }

  /** Two intents never compete for the same confirmed order. */
  ghost predicate NoContention(desired: seq<OrderIntent>, confirmed: seq<ConfirmedOrder>)
  {
    forall o, i, j ::
      o in confirmed && 0 <= i < |desired| && 0 <= j < |desired| ==>
        (Fits(o, desired[i]) && Fits(o, desired[j]) ==> i == j)
  }

  /**
   Orders that share one fitting intent fit the same intents. The price tolerance is not transitive,
   so this can fail: an order a tick from two intents, another a tick from only one of them.
   */
  ghost predicate NoZigzag(desired: seq<OrderIntent>, confirmed: seq<ConfirmedOrder>)
  {
    forall i, j, o, p ::
      i in desired && j in desired && o in confirmed && p in confirmed ==>
        (Fits(o, i) && Fits(o, j) && Fits(p, j) ==> Fits(p, i))
  }

  lemma {:induction false} NoContentionNoZigzag(desired: seq<OrderIntent>, confirmed: seq<ConfirmedOrder>)
    requires NoContention(desired, confirmed)
    ensures NoZigzag(desired, confirmed)
  {
    forall i, j, o | i in desired && j in desired && o in confirmed && Fits(o, i) && Fits(o, j) ensures i == j {
      var k :| 0 <= k < |desired| && desired[k] == i;
      var l :| 0 <= l < |desired| && desired[l] == j;
      assert k == l;
    }
  }

  lemma {:induction false} IndicesHeadTail(m: seq<Option<ConfirmedOrder>>)
    requires m != []
    ensures MatchedIndices(m) == Shifted(MatchedIndices(m[1..])) + if m[0].Some? then {0} else {}
    ensures 0 !in Shifted(MatchedIndices(m[1..]))
  {
    forall i | i in MatchedIndices(m) && i > 0 ensures i in Shifted(MatchedIndices(m[1..])) {
      assert i - 1 in MatchedIndices(m[1..]);
    }
  }

  lemma {:induction false} ServedHeadTail(m: seq<Option<ConfirmedOrder>>)
    requires m != []
    ensures Served(m) == Served(m[1..]) + if m[0].Some? then 1 else 0
  {
    hide MatchedIndices, Shifted;
    IndicesHeadTail(m);
    ShiftSize(MatchedIndices(m[1..]));
  }

  lemma {:induction false} ServedReplaced(m: seq<Option<ConfirmedOrder>>, k: nat, x: Option<ConfirmedOrder>)
    requires k < |m| && m[k].Some?
    ensures Served(m[k := x]) == Served(m) - if x.Some? then 0 else 1
  {
    assert MatchedIndices(m[k := x]) == if x.Some? then MatchedIndices(m) else MatchedIndices(m) - {k};
  }

  /** Intent `j` gives up greedy's first order `o` and takes over the order the first intent had. */
  lemma {:induction false} TakeOver(desired: seq<OrderIntent>, confirmed: seq<ConfirmedOrder>,
                                    m: seq<Option<ConfirmedOrder>>,
                                    o: ConfirmedOrder, j: nat)
    requires DistinctIds(confirmed) && NoZigzag(desired, confirmed) && ValidMatching(m, desired, confirmed)
    requires o in confirmed && 0 < j < |m| && Fits(o, desired[0]) && m[j] == Some(o)
    ensures ValidMatching(m[1..][j - 1 := m[0]], desired[1..], Excluding(confirmed, {o.orderId}))
  {
    hide Fits;
    assert m[0].Some? ==> Fits(m[0].value, desired[j]) by {
      assert desired[0] in desired && desired[j] in desired;
    }
  }

  lemma {:induction false} MatchedElsewhere(desired: seq<OrderIntent>, confirmed: seq<ConfirmedOrder>,
                                            m: seq<Option<ConfirmedOrder>>,
                                            o: ConfirmedOrder)
    requires m != [] && ValidMatching(m, desired, confirmed)
    requires forall j :: 0 < j < |m| && m[j].Some? ==> m[j].value.orderId != o.orderId
    ensures ValidMatching(m[1..], desired[1..], Excluding(confirmed, {o.orderId}))
  {
    hide Fits;
  }

  /**
   If another matching gives greedy's first order to a later intent, that intent can take over the
   order the first one had.
   */
  lemma {:induction false} ExchangeFirst(desired: seq<OrderIntent>, confirmed: seq<ConfirmedOrder>,
                                         m: seq<Option<ConfirmedOrder>>, o: ConfirmedOrder)
    returns (rest: seq<Option<ConfirmedOrder>>)
    requires desired != [] && DistinctIds(confirmed) && NoZigzag(desired, confirmed)
    requires ValidMatching(m, desired, confirmed)
    requires o in confirmed && Fits(o, desired[0])
    ensures ValidMatching(rest, desired[1..], Excluding(confirmed, {o.orderId}))
    ensures Served(m) <= Served(rest) + 1
  {
    hide Fits, NoZigzag, Served;
    ServedHeadTail(m);
    if j :| 0 < j < |m| && m[j].Some? && m[j].value.orderId == o.orderId {
      SameIdSameOrder(confirmed, m[j].value, o);
      TakeOver(desired, confirmed, m, o, j);
      ServedReplaced(m[1..], j - 1, m[0]);
      rest := m[1..][j - 1 := m[0]];
    } else {
      MatchedElsewhere(desired, confirmed, m, o);
      rest := m[1..];
    }
  }

  /** Without a zigzag greedy is a maximum matching. */
  lemma {:induction false} GreedyIsMaximum(desired: seq<OrderIntent>, confirmed: seq<ConfirmedOrder>,
                                           m: seq<Option<ConfirmedOrder>>)
    requires DistinctIds(confirmed)
    requires NoZigzag(desired, confirmed)
    requires ValidMatching(m, desired, confirmed)
    ensures Served(m) <= Served(Assignment(desired, confirmed))
    decreases |desired|
  {
    if desired != [] {
      var first := FirstFit(confirmed, desired[0]);
      var a, left := Assignment(desired, confirmed), Excluding(confirmed, IdOf(first));
      assert a[0] == first && a[1..] == Assignment(desired[1..], left);
      ExcludingDistinct(confirmed, IdOf(first));
      NoZigzagOfPart(desired, confirmed, desired[1..], left);
      ServedHeadTail(a);
      var rest;
      if first.Some? {
        rest := ExchangeFirst(desired, confirmed, m, first.value);
      } else {
        rest := m[1..];
        ServedHeadTail(m);
      }
      GreedyIsMaximum(desired[1..], left, rest);
    }
  }

  /** The intents and orders of `d` and `c` are among those given, in any order and number. */
  ghost predicate DrawnFrom(d: seq<OrderIntent>, c: seq<ConfirmedOrder>, desired: seq<OrderIntent>,
                            confirmed: seq<ConfirmedOrder>)
  {
    (forall i :: i in d ==> i in desired) && (forall o :: o in c ==> o in confirmed) && DistinctIds(c)
  }

  lemma {:induction false} NoZigzagOfPart(desired: seq<OrderIntent>, confirmed: seq<ConfirmedOrder>,
                                          d: seq<OrderIntent>, c: seq<ConfirmedOrder>)
    requires NoZigzag(desired, confirmed) && DrawnFrom(d, c, desired, confirmed)
    ensures NoZigzag(d, c)
  {
  }

  ghost predicate GreedyIsBest(desired: seq<OrderIntent>, confirmed: seq<ConfirmedOrder>)
  {
    forall m :: ValidMatching(m, desired, confirmed) ==> Served(m) <= Served(Assignment(desired, confirmed))
  }

  /** A zigzag misleads greedy: the intent with a choice takes the only order the other one fits. */
  lemma {:induction false} ZigzagMisleads(i: OrderIntent, j: OrderIntent, o: ConfirmedOrder, p: ConfirmedOrder)
    requires o.orderId != p.orderId
    requires Fits(o, i) && Fits(o, j) && Fits(p, j) && !Fits(p, i)
    ensures !GreedyIsBest([j, i], [o, p])
  {
    var m := [Some(p), Some(o)];
    assert ValidMatching(m, [j, i], [o, p]);
    assert MatchedIndices(m) == {0, 1};
    assert [j, i][1..] == [i] && [i][1..] == [] && [o, p][1..] == [p] && [p][1..] == [];
    assert FirstFit([o, p], j) == Some(o) && Excluding([o, p], {o.orderId}) == [p];
    assert FirstFit([p], i) == None;
    assert Assignment([i], [p]) == [None];
    assert MatchedIndices(Assignment([j, i], [o, p])) == {0};
  }

  /**
   Exactly when the matching pays off: greedy serves as many intents as possible, whichever of the
   intents and orders are present and in whatever order, if and only if there is no zigzag.
   */
  lemma {:induction false} AlwaysMaximumIff(desired: seq<OrderIntent>, confirmed: seq<ConfirmedOrder>)
    requires DistinctIds(confirmed)
    ensures (forall d, c :: DrawnFrom(d, c, desired, confirmed) ==> GreedyIsBest(d, c))
        <==> NoZigzag(desired, confirmed)
  {
    if NoZigzag(desired, confirmed) {
      forall d, c | DrawnFrom(d, c, desired, confirmed) ensures GreedyIsBest(d, c) {
        NoZigzagOfPart(desired, confirmed, d, c);
        forall m | ValidMatching(m, d, c) ensures Served(m) <= Served(Assignment(d, c)) {
          GreedyIsMaximum(d, c, m);
        }
      }
    } else {
      var i, j, o, p :| i in desired && j in desired && o in confirmed && p in confirmed
                        && Fits(o, i) && Fits(o, j) && Fits(p, j) && !Fits(p, i);
      if o.orderId == p.orderId {
        SameIdSameOrder(confirmed, o, p);
      }
      ZigzagMisleads(i, j, o, p);
      assert DrawnFrom([j, i], [o, p], desired, confirmed);
    }
  }

  /** Mutations a matching leads to, self-cross cancels aside: cancel the unused, place the unserved. */
  ghost function Cost(m: seq<Option<ConfirmedOrder>>, desired: seq<OrderIntent>, confirmed: seq<ConfirmedOrder>): int
  {
    |desired| - Served(m) + |confirmed| - Served(m)
  }

  /** All mutations a matching leads to: those, and a cancel for every kept order that a new one crosses. */
  ghost function FullCost(m: seq<Option<ConfirmedOrder>>, desired: seq<OrderIntent>,
                          confirmed: seq<ConfirmedOrder>): int
    requires |m| == |desired|
  {
    var unused := Ids(Excluding(confirmed, MatchedIds(m)));
    Cost(m, desired, confirmed) + |AllCrossed(ToPlace(desired, m), confirmed, unused, SelfCrossTick(desired))|
  }

  lemma {:induction false} ToPlaceLength(desired: seq<OrderIntent>, a: seq<Option<ConfirmedOrder>>)
    requires |a| == |desired|
    ensures |ToPlace(desired, a)| == |desired| - Served(a)
  {
    if desired == [] {
      assert MatchedIndices(a) == {};
    } else {
      ToPlaceLength(desired[1..], a[1..]);
      ServedHeadTail(a);
    }
  }

  ghost function Shifted(s: set<int>): set<int>
  {
    set i | i in s :: i + 1
  }

  lemma {:induction false} ShiftSize(s: set<int>)
    ensures |Shifted(s)| == |s|
    decreases |s|
  {
    if s == {} {
      assert Shifted(s) == {};
    } else {
      var x := Pick(s);
      ShiftSize(s - {x});
      assert Shifted(s) == Shifted(s - {x}) + {x + 1} by {
        forall y | y in Shifted(s) && y != x + 1 ensures y in Shifted(s - {x}) {
          assert y - 1 in s - {x};
        }
      }
    }
  }

  lemma {:induction false} OnlyLength(orders: seq<ConfirmedOrder>, ids: set<string>)
    requires DistinctIds(orders) && ids <= Ids(orders)
    ensures |Excluding(orders, ids)| == |orders| - |ids|
  {
    if orders == [] {
      assert Ids(orders) == {};
    } else {
      var id := orders[0].orderId;
      assert id !in Ids(orders[1..]);
      assert Ids(orders) == {id} + Ids(orders[1..]);
      OnlyLength(orders[1..], ids - {id});
      ExcludingIrrelevant(orders[1..], ids, id);
    }
  }

  lemma {:induction false} ExcludingIrrelevant(orders: seq<ConfirmedOrder>, ids: set<string>, id: string)
    requires id !in Ids(orders)
    ensures Excluding(orders, ids) == Excluding(orders, ids - {id})
  {
    if orders != [] {
      assert orders[0] in orders;
      assert Ids(orders[1..]) <= Ids(orders);
      ExcludingIrrelevant(orders[1..], ids, id);
    }
  }

  /** The plan has exactly the mutations its matching leads to. */
  lemma {:induction false} PlanCost(desired: seq<OrderIntent>, confirmed: seq<ConfirmedOrder>)
    requires DistinctIds(confirmed)
    ensures var plan := Plan(desired, confirmed);
      && |plan.unmatched| + |plan.places| == Cost(Assignment(desired, confirmed), desired, confirmed)
      && |Mutations(plan)| == FullCost(Assignment(desired, confirmed), desired, confirmed)
  {
    var a := Assignment(desired, confirmed);
    GreedyIsValid(desired, confirmed);
    ServedIsMatchedIds(a, desired, confirmed);
    ToPlaceLength(desired, a);
    assert MatchedIds(a) <= Ids(confirmed);
    OnlyLength(confirmed, MatchedIds(a));
  }

  /** The minimum mutation set, self-cross cancels aside, when there is no zigzag. */
  lemma {:induction false} PlanIsMinimum(desired: seq<OrderIntent>, confirmed: seq<ConfirmedOrder>,
                                         m: seq<Option<ConfirmedOrder>>)
    requires DistinctIds(confirmed)
    requires NoZigzag(desired, confirmed)
    requires ValidMatching(m, desired, confirmed)
    ensures var plan := Plan(desired, confirmed);
      |plan.unmatched| + |plan.places| <= Cost(m, desired, confirmed)
  {
    GreedyIsMaximum(desired, confirmed, m);
    PlanCost(desired, confirmed);
  }

  const HIGH_BID := OrderIntent("T", Buy, 0.51, 10.0, "GTC", true, None, "A", 0, false, 0.01)
  const LOW_BID := HIGH_BID.(price := 0.50)
  const RESTING_LOW := ConfirmedOrder("0", "T", Buy, 0.50, 10.0, "GTC", true, "A")
  const RESTING_HIGH := RESTING_LOW.(orderId := "1", price := 0.52)

  lemma {:induction false} HighBidTakesLowOrder()
    ensures RESTING_LOW.orderId != RESTING_HIGH.orderId
    ensures Assignment([HIGH_BID, LOW_BID], [RESTING_LOW, RESTING_HIGH]) == [Some(RESTING_LOW), None]
    ensures Excluding([RESTING_LOW, RESTING_HIGH], {"0"}) == [RESTING_HIGH]
  {
    var desired, confirmed := [HIGH_BID, LOW_BID], [RESTING_LOW, RESTING_HIGH];
    assert "0"[0] != "1"[0];
    assert confirmed[1..] == [RESTING_HIGH] && desired[1..] == [LOW_BID] && desired[1..][1..] == [];
    assert FirstFit(confirmed, HIGH_BID) == Some(RESTING_LOW);
    ExcludingNothing([RESTING_HIGH], {"0"});
    assert [RESTING_HIGH][1..] == [];
    assert FirstFit([RESTING_HIGH], LOW_BID) == None;
    assert Assignment([LOW_BID], [RESTING_HIGH]) == [None] by { assert [LOW_BID][1..] == []; }
  }

  lemma {:induction false} LowBidIsLeft(taken: Option<ConfirmedOrder>)
    requires taken == Some(RESTING_LOW)
    ensures MatchedIds([taken, None]) == {"0"} && ToPlace([HIGH_BID, LOW_BID], [taken, None]) == [LOW_BID]
    ensures Ids([RESTING_HIGH]) == {"1"}
  {
    var a, desired := [taken, None], [HIGH_BID, LOW_BID];
    assert a[0].value.orderId == "0";
    assert a[1..] == [None] && desired[1..] == [LOW_BID] && [LOW_BID][1..] == [];
    assert ToPlace([LOW_BID], [None]) == [LOW_BID];
    assert RESTING_HIGH in [RESTING_HIGH];
  }

  lemma {:induction false} LowBidCrossesNothing()
    ensures AllCrossed([LOW_BID], [RESTING_LOW, RESTING_HIGH], {"1"}, 0.01) == []
  {
    var confirmed := [RESTING_LOW, RESTING_HIGH];
    assert confirmed[1..] == [RESTING_HIGH] && [RESTING_HIGH][1..] == [] && [LOW_BID][1..] == [];
    assert CrossedBy(LOW_BID, [RESTING_HIGH], {"1"}, 0.01) == [];
    assert CrossedBy(LOW_BID, confirmed, {"1"}, 0.01) == [];
  }

  /**
   With a zigzag it need not be: two bids a cent apart compete for the lower resting bid, the
   first takes it, and a cancel and a place are issued that keeping both orders avoids.
   */
  lemma {:induction false} PlanNotAlwaysMinimum()
    returns (desired: seq<OrderIntent>, confirmed: seq<ConfirmedOrder>, m: seq<Option<ConfirmedOrder>>)
    ensures DistinctIds(confirmed) && ValidMatching(m, desired, confirmed)
    ensures Cost(m, desired, confirmed) == 0
    ensures |Mutations(Plan(desired, confirmed))| == 2
  {
    desired, confirmed := [HIGH_BID, LOW_BID], [RESTING_LOW, RESTING_HIGH];
    m := [Some(RESTING_HIGH), Some(RESTING_LOW)];
    HighBidTakesLowOrder();
    LowBidCrossesNothing();
    assert MatchedIndices(m) == {0, 1};
    hide Assignment, AllCrossed, Excluding, MatchedIds, ToPlace, Ids;
    LowBidIsLeft(Some(RESTING_LOW));
    assert Plan(desired, confirmed) == Reconciliation([RESTING_HIGH], [], [LOW_BID]);
  }

  // ----- Self-cross cancels count too -----

  const BID := LOW_BID
  const ASK := LOW_BID.(side := Sell, price := 0.515)
  const NEAR_ASK := RESTING_LOW.(price := 0.506)
  const FAR_FROM_ASK := RESTING_LOW.(orderId := "1", price := 0.494)

  lemma {:induction false} BidTakesNearAsk()
    ensures NEAR_ASK.orderId != FAR_FROM_ASK.orderId
    ensures Assignment([BID, ASK], [NEAR_ASK, FAR_FROM_ASK]) == [Some(NEAR_ASK), None]
    ensures Excluding([NEAR_ASK, FAR_FROM_ASK], {"0"}) == [FAR_FROM_ASK]
    ensures Excluding([NEAR_ASK, FAR_FROM_ASK], {"1"}) == [NEAR_ASK]
  {
    var desired, confirmed := [BID, ASK], [NEAR_ASK, FAR_FROM_ASK];
    assert "0"[0] != "1"[0];
    assert confirmed[1..] == [FAR_FROM_ASK] && desired[1..] == [ASK] && [FAR_FROM_ASK][1..] == [] && [ASK][1..] == [];
    assert FirstFit(confirmed, BID) == Some(NEAR_ASK);
    ExcludingNothing([FAR_FROM_ASK], {"0"});
    assert FirstFit([FAR_FROM_ASK], ASK) == None;
    assert Assignment([ASK], [FAR_FROM_ASK]) == [None];
    assert Excluding([FAR_FROM_ASK], {"1"}) == [];
  }

  lemma {:induction false} AskIsLeft(taken: Option<ConfirmedOrder>)
    requires taken.Some?
    ensures MatchedIds([taken, None]) == {taken.value.orderId} && ToPlace([BID, ASK], [taken, None]) == [ASK]
    ensures Served([taken, None]) == 1 && Ids([taken.value]) == {taken.value.orderId}
  {
    var a, desired := [taken, None], [BID, ASK];
    assert a[0].value.orderId == taken.value.orderId;
    assert a[1..] == [None] && desired[1..] == [ASK] && [ASK][1..] == [];
    assert ToPlace([ASK], [None]) == [ASK];
    assert MatchedIndices(a) == {0};
    assert taken.value in [taken.value];
  }

  lemma {:induction false} AskCrosses(cancelling: set<string>)
    requires cancelling == {"0"} || cancelling == {"1"}
    ensures AllCrossed([ASK], [NEAR_ASK, FAR_FROM_ASK], cancelling, 0.01)
         == if cancelling == {"1"} then [NEAR_ASK] else []
  {
    var confirmed := [NEAR_ASK, FAR_FROM_ASK];
    assert "0" !in {"1"} by { assert "0"[0] != "1"[0]; }
    assert confirmed[1..] == [FAR_FROM_ASK] && [FAR_FROM_ASK][1..] == [] && [ASK][1..] == [];
    assert Crosses(NEAR_ASK, ASK, 0.01) && !Crosses(FAR_FROM_ASK, ASK, 0.01);
    assert CrossedBy(ASK, [FAR_FROM_ASK], cancelling + {"0"}, 0.01) == [];
    assert CrossedBy(ASK, [FAR_FROM_ASK], cancelling, 0.01) == [];
  }

  /**
   Even without a zigzag: the bid may take the resting bid that the new ask then crosses. Keeping the
   other one instead crosses nothing and saves a mutation.
   */
  lemma {:induction false} SelfCrossNotMinimum()
    returns (desired: seq<OrderIntent>, confirmed: seq<ConfirmedOrder>, m: seq<Option<ConfirmedOrder>>)
    ensures DistinctIds(confirmed) && NoZigzag(desired, confirmed) && ValidMatching(m, desired, confirmed)
    ensures FullCost(m, desired, confirmed) == 2
    ensures |Mutations(Plan(desired, confirmed))| == 3
  {
    desired, confirmed, m := [BID, ASK], [NEAR_ASK, FAR_FROM_ASK], [Some(FAR_FROM_ASK), None];
    BidTakesNearAsk();
    AskCrosses({"0"});
    AskCrosses({"1"});
    hide Assignment, AllCrossed, Excluding, MatchedIds, MatchedIndices, ToPlace, Ids;
    AskIsLeft(Some(NEAR_ASK));
    AskIsLeft(Some(FAR_FROM_ASK));
    assert Plan(desired, confirmed) == Reconciliation([FAR_FROM_ASK], [NEAR_ASK], [ASK]);
  }
}
