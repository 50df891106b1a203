/**
 Crash recovery: the ledger is reconciled with the open orders the exchange reports.

 `Reconcile` is the effect on the ledger as a value, `Recover` the loop on the heap.
 */
module Recovery {
  import opened Common
  import opened OrderLedger
  import opened LedgerRuns

  const CANCEL_REASON := "not_in_open_orders_on_recovery"

  /** A number as the exchange sends it: possibly missing, possibly not a number at all. */
  datatype Numeric = Absent | Number(value: real) | Malformed

  datatype RawOrder = RawOrder(
    id: Option<string>, assetId: Option<string>, side: Option<string>, price: Numeric, originalSize: Numeric,
    timeInForce: Option<string>, postOnly: Option<bool>)

  function OrElse<T>(o: Option<T>, default: T): T
  {
    if o.Some? then o.value else default
  }

  function RawId(raw: RawOrder): OrderId
  {
    OrderId(OrElse(raw.id, ""))
  }

  /** The exchange's answer names this order. */
  predicate IsNamed(raw: RawOrder)
  {
    RawId(raw).text != ""
  }

  predicate IsMalformed(raw: RawOrder)
  {
    raw.price.Malformed? || raw.originalSize.Malformed?
  }

  function Amount(n: Numeric): real
  {
    if n.Number? then n.value else 0.0
  }

  /** What is recorded of an order the ledger did not know. */
  function Stub(raw: RawOrder): Identity
  {
    Identity(RawId(raw), OrElse(raw.assetId, ""), OrElse(raw.side, ""), Amount(raw.price), Amount(raw.originalSize),
             OrElse(raw.timeInForce, "GTC"), OrElse(raw.postOnly, true), "", 0, false)
  }

  function LiveIds(raws: seq<RawOrder>): set<OrderId>
  {
    set raw | raw in raws && raw.id.Some? :: RawId(raw)
  }

  function NamedIds(raws: seq<RawOrder>): set<OrderId>
  {
    set raw | raw in raws && IsNamed(raw) :: RawId(raw)
  }

  // ----- The reconciliation -----

  function SettleOp(id: OrderId, live: set<OrderId>): Op
  {
    if id in live then Acknowledge(id) else CancelOrder(id, CANCEL_REASON)
  }

  /** Acknowledges the open orders still live, cancels the others. */
  function Settle(l: Ledger, ids: seq<OrderId>, live: set<OrderId>): (r: Ledger)
    requires WellFormed(l)
    ensures WellFormed(r)
    decreases |ids|
  {
    if ids == [] then l else
      ApplyWellFormed(l, SettleOp(ids[0], live));
      Settle(Apply(l, SettleOp(ids[0], live)), ids[1..], live)
  }

  function Survivors(ids: seq<OrderId>, live: set<OrderId>): (s: seq<OrderId>)
    ensures forall id :: id in s <==> id in ids && id in live
  {
    if ids == [] then [] else
      assert ids == [ids[0]] + ids[1..];
      (if ids[0] in live then [ids[0]] else []) + Survivors(ids[1..], live)
  }

  /** `raised` when a malformed number stopped the adoption half-way. */
  datatype Outcome = Outcome(ledger: Ledger, recovered: seq<OrderId>, raised: bool)

  predicate IsStranger(l: Ledger, raw: RawOrder)
  {
    IsNamed(raw) && RawId(raw) !in l.history
  }

  function Adopted(l: Ledger, raw: RawOrder): (r: Ledger)
    requires WellFormed(l)
    ensures WellFormed(r)
  {
    ApplyWellFormed(l, Submit(Stub(raw)));
    ApplyWellFormed(Apply(l, Submit(Stub(raw))), Acknowledge(RawId(raw)));
    Apply(Apply(l, Submit(Stub(raw))), Acknowledge(RawId(raw)))
  }

  /** Records live orders that the ledger does not know. */
  function Adopt(l: Ledger, raws: seq<RawOrder>): (r: Outcome)
    requires WellFormed(l)
    ensures WellFormed(r.ledger)
    decreases |raws|
  {
    if raws == [] then Outcome(l, [], false)
    else if !IsStranger(l, raws[0]) then Adopt(l, raws[1..])
    else if IsMalformed(raws[0]) then Outcome(l, [], true)
    else
      var rest := Adopt(Adopted(l, raws[0]), raws[1..]);
      rest.(recovered := [RawId(raws[0])] + rest.recovered)
  }

  function Reconcile(l: Ledger, raws: seq<RawOrder>): (r: Outcome)
    requires WellFormed(l)
    ensures WellFormed(r.ledger)
  {
    var open := OpenIds(l);
    var adopted := Adopt(Settle(l, open, LiveIds(raws)), raws);
    adopted.(recovered := Survivors(open, LiveIds(raws)) + adopted.recovered)
  }

  // ----- What it achieves -----

  ghost predicate IsOpen(l: Ledger, id: OrderId)
    requires WellFormed(l)
  {
    id in l.history && !IsTerminal(Latest(l, id).state)
  }

  lemma {:induction false} HeadNotRepeated(ids: seq<OrderId>)
    requires ids != [] && NoRepeats(ids)
    ensures NoRepeats(ids[1..]) && ids[0] !in ids[1..]
    ensures forall i :: i in ids <==> i == ids[0] || i in ids[1..]
  {
    assert ids == [ids[0]] + ids[1..];
  }

  lemma {:induction false} SettleFacts(l: Ledger, ids: seq<OrderId>, live: set<OrderId>, id: OrderId)
    requires WellFormed(l) && NoRepeats(ids) && forall i :: i in ids ==> i in l.history
    ensures var r := Settle(l, ids, live);
      && r.order == l.order && r.history.Keys == l.history.Keys
      && (id in l.history ==>
            r.history[id] == l.history[id] + if id in ids then [NextRecord(Latest(l, id), SettleOp(id, live))] else [])
    decreases |ids|
  {
    if ids != [] {
      hide Upsert, NextRecord, SettleOp;
      var first := Apply(l, SettleOp(ids[0], live));
      ApplyKnown(l, SettleOp(ids[0], live));
      ApplyWellFormed(l, SettleOp(ids[0], live));
      HeadNotRepeated(ids);
      SettleFacts(first, ids[1..], live, id);
    }
  }

  lemma {:induction false} AdoptedFacts(l: Ledger, raw: RawOrder)
    requires WellFormed(l) && IsStranger(l, raw)
    ensures var r := Adopted(l, raw);
      && r.order == l.order + [RawId(raw)]
      && r.history == l.history[RawId(raw) := [RecordValue(Stub(raw), Submitted, 0.0, ""),
         RecordValue(Stub(raw), Acknowledged, 0.0, "")]]
  {
    var id, v := RawId(raw), RecordValue(Stub(raw), Submitted, 0.0, "");
    var mid := Apply(l, Submit(Stub(raw)));
    ApplyWellFormed(l, Submit(Stub(raw)));
    assert mid.history[id] == [v];
    ApplyKnown(mid, Acknowledge(id));
    assert [v] + [v.(state := Acknowledged)] == [v, v.(state := Acknowledged)];
    assert mid.history == l.history[id := [v]];
  }

  /** The adopted ids: all named ones the ledger did not know, each once, each now acknowledged. */
  lemma {:induction false} AdoptFacts(l: Ledger, raws: seq<RawOrder>, id: OrderId)
    requires WellFormed(l)
    ensures var r := Adopt(l, raws);
      && (id in l.history ==> id in r.ledger.history && r.ledger.history[id] == l.history[id])
      && (id in r.recovered <==> id in r.ledger.history && id !in l.history)
      && (id in r.recovered ==> Latest(r.ledger, id).state.Acknowledged?)
      && NoRepeats(r.recovered)
      && (!r.raised ==> (id in r.ledger.history <==> id in l.history || id in NamedIds(raws)))
    decreases |raws|
  {
    if raws != [] {
      assert raws == [raws[0]] + raws[1..];
      if !IsStranger(l, raws[0]) {
        AdoptFacts(l, raws[1..], id);
      } else if !IsMalformed(raws[0]) {
        var mid, new0 := Adopted(l, raws[0]), RawId(raws[0]);
        AdoptedFacts(l, raws[0]);
        AdoptFacts(mid, raws[1..], id);
        AdoptFacts(mid, raws[1..], new0);
      }
    }
  }

  /** What settling makes of each order. */
  lemma {:induction false} SettledStates(l: Ledger, live: set<OrderId>, id: OrderId)
    requires WellFormed(l)
    ensures var s := Settle(l, OpenIds(l), live);
      && s.history.Keys == l.history.Keys
      && (IsOpen(s, id) <==> IsOpen(l, id) && id in live)
      && (IsOpen(s, id) ==> Latest(s, id).state.Acknowledged?)
      && (IsOpen(l, id) && id !in live ==>
            Latest(s, id).state.Cancelled? && Latest(s, id).cancelReason == CANCEL_REASON)
      && (id in l.history && !IsOpen(l, id) ==> s.history[id] == l.history[id])
  {
    hide Settle, Apply;
    OpenAmongNoRepeats(l.order, l);
    SettleFacts(l, OpenIds(l), live, id);
  }

  lemma {:induction false} OpenIdsAreOpen(l: Ledger, id: OrderId)
    requires WellFormed(l)
    ensures id in OpenIds(l) <==> IsOpen(l, id)
  {
  }

  lemma {:induction false} SurvivorsAreLive(ids: seq<OrderId>, live: set<OrderId>)
    ensures forall id :: id in Survivors(ids, live) <==> id in ids && id in live
  {
  }

  /** Exact recovery: when no malformed number stops it, the outcome of a reconciliation, id by id. */
  lemma {:induction false} RecoveryIsExact(l: Ledger, raws: seq<RawOrder>, id: OrderId)
    requires WellFormed(l) && !Reconcile(l, raws).raised
    ensures var r, live := Reconcile(l, raws), LiveIds(raws);
      // known before: still known, unknown before: known only if live
      && (id in r.ledger.history <==> id in l.history || (id in live && id.text != ""))
      // open now: live on the exchange, and open or unknown before
      && (IsOpen(r.ledger, id) <==> id in live && (IsOpen(l, id) || (id !in l.history && id.text != "")))
      && (IsOpen(r.ledger, id) ==> Latest(r.ledger, id).state.Acknowledged?)
      && (id in r.recovered <==> IsOpen(r.ledger, id))
      // open before but no longer live: cancelled
      && (IsOpen(l, id) && id !in live ==>
            && Latest(r.ledger, id).state.Cancelled?
            && Latest(r.ledger, id).cancelReason == "not_in_open_orders_on_recovery")
      // ended before: untouched
      && (id in l.history && !IsOpen(l, id) ==> r.ledger.history[id] == l.history[id])
  {
    hide Adopt, Settle, Apply, OpenIds, LiveIds, NamedIds, Survivors;
    var live := LiveIds(raws);
    SurvivorsAreLive(OpenIds(l), live);
    OpenIdsAreOpen(l, id);
    SettledStates(l, live, id);
    AdoptFacts(Settle(l, OpenIds(l), live), raws, id);
    NamedAreLive(raws, id);
  }

  // ----- What is recorded of an order not known before -----

  /** The first order of the answer to bear the id. */
  ghost predicate FirstNaming(raws: seq<RawOrder>, k: int, id: string)
  {
    0 <= k < |raws| && raws[k].id == Some(id) && forall j :: 0 <= j < k ==> raws[j].id != Some(id)
  }

  lemma {:induction false} AdoptKeeps(l: Ledger, raws: seq<RawOrder>, id: OrderId)
    requires WellFormed(l) && id in l.history
    ensures id in Adopt(l, raws).ledger.history && Adopt(l, raws).ledger.history[id] == l.history[id]
  {
    AdoptFacts(l, raws, id);
  }

  lemma {:induction false} AdoptRecords(l: Ledger, raws: seq<RawOrder>, k: int, id: string)
    requires WellFormed(l) && !Adopt(l, raws).raised
    requires id != "" && OrderId(id) !in l.history && FirstNaming(raws, k, id)
    ensures var h := Adopt(l, raws).ledger.history;
      && OrderId(id) in h && !IsMalformed(raws[k])
      && h[OrderId(id)] == [RecordValue(Stub(raws[k]), Submitted, 0.0, ""),
                            RecordValue(Stub(raws[k]), Acknowledged, 0.0, "")]
    decreases |raws|
  {
    hide Stub, Adopted;
    var rest := raws[1..];
    if k == 0 {
      AdoptedFacts(l, raws[0]);
      AdoptKeeps(Adopted(l, raws[0]), rest, OrderId(id));
    } else {
      assert rest[k - 1] == raws[k] && forall j :: 0 <= j < k - 1 ==> rest[j] == raws[j + 1];
      if !IsStranger(l, raws[0]) {
        AdoptRecords(l, rest, k - 1, id);
      } else {
        AdoptedFacts(l, raws[0]);
        assert RawId(raws[0]) != OrderId(id);
        AdoptRecords(Adopted(l, raws[0]), rest, k - 1, id);
      }
    }
  }

  /**
   After a successful recovery an order not known before is recorded as the first mention of it says,
   with the defaults where that says nothing: submitted and then acknowledged, unfilled.
   */
  lemma {:induction false} AdoptedAsReported(l: Ledger, raws: seq<RawOrder>, k: int, id: string)
    requires WellFormed(l) && !Reconcile(l, raws).raised
    requires id != "" && OrderId(id) !in l.history && FirstNaming(raws, k, id)
    ensures var h, raw := Reconcile(l, raws).ledger.history, raws[k];
      && OrderId(id) in h && |h[OrderId(id)]| == 2
      && h[OrderId(id)][0].state == Submitted && h[OrderId(id)][1].state == Acknowledged
      && forall v :: v in h[OrderId(id)] ==>
           && v.identity.orderId == OrderId(id)
           && v.identity.tokenId == (if raw.assetId.Some? then raw.assetId.value else "")
           && v.identity.side == (if raw.side.Some? then raw.side.value else "")
           && !raw.price.Malformed? && v.identity.price == (if raw.price.Number? then raw.price.value else 0.0)
           && !raw.originalSize.Malformed?
           && v.identity.size == (if raw.originalSize.Number? then raw.originalSize.value else 0.0)
           && v.identity.timeInForce == (if raw.timeInForce.Some? then raw.timeInForce.value else "GTC")
           && v.identity.postOnly == (raw.postOnly != Some(false))
           && v.identity.strategy == "" && v.identity.feeRateBps == 0 && !v.identity.negRisk
           && v.filledSize == 0.0 && v.cancelReason == ""
  {
    hide Adopt, Settle;
    SettledStates(l, LiveIds(raws), OrderId(id));
    AdoptRecords(Settle(l, OpenIds(l), LiveIds(raws)), raws, k, id);
  }

  /** No id is reported recovered twice. */
  lemma {:induction false} RecoveredOnce(l: Ledger, raws: seq<RawOrder>)
    requires WellFormed(l)
    ensures NoRepeats(Reconcile(l, raws).recovered)
  {
    var open, live := OpenIds(l), LiveIds(raws);
    var settled := Settle(l, open, live);
    var adopted := Adopt(settled, raws);
    OpenAmongNoRepeats(l.order, l);
    SurvivorsNoRepeats(open, live);
    AdoptFacts(settled, raws, OrderId(""));
    forall x | x in adopted.recovered ensures x !in Survivors(open, live) {
      AdoptFacts(settled, raws, x);
      SettledStates(l, live, x);
    }
    JoinNoRepeats(Survivors(open, live), adopted.recovered);
  }

  lemma {:induction false} NamedAreLive(raws: seq<RawOrder>, id: OrderId)
    ensures id in NamedIds(raws) <==> id in LiveIds(raws) && id.text != ""
  {
    if raw :| raw in raws && IsNamed(raw) && RawId(raw) == id {
      assert raw.id.Some?;
    }
  }

  lemma {:induction false} SurvivorsNoRepeats(ids: seq<OrderId>, live: set<OrderId>)
    requires NoRepeats(ids)
    ensures NoRepeats(Survivors(ids, live))
  {
    if ids != [] {
      SurvivorsNoRepeats(ids[1..], live);
      var rest := Survivors(ids[1..], live);
      forall k | 0 <= k < |rest| ensures rest[k] != ids[0] {
        assert rest[k] in ids[1..];
      }
    }
  }

  lemma {:induction false} JoinNoRepeats(a: seq<OrderId>, b: seq<OrderId>)
    requires NoRepeats(a) && NoRepeats(b) && forall x :: x in b ==> x !in a
    ensures NoRepeats(a + b)
  {
    forall i, j | 0 <= i < j < |a + b| ensures (a + b)[i] != (a + b)[j] {
      if i < |a| <= j {
        assert b[j - |a|] in b && a[i] in a;
      }
    }
  }

  /** Adoption raises exactly when some order the ledger does not know comes first with a malformed number. */
  lemma {:induction false} AdoptRaisesIff(l: Ledger, raws: seq<RawOrder>)
    requires WellFormed(l)
    ensures Adopt(l, raws).raised <==>
            exists k :: Stopper(l, raws, k)
    decreases |raws|
  {
    if raws != [] {
      assert raws == [raws[0]] + raws[1..];
      if !IsStranger(l, raws[0]) {
        AdoptRaisesIff(l, raws[1..]);
        FirstShift(l, l, raws);
      } else if IsMalformed(raws[0]) {
        assert Stopper(l, raws, 0);
      } else {
        AdoptedFacts(l, raws[0]);
        AdoptRaisesIff(Adopted(l, raws[0]), raws[1..]);
        FirstShift(l, Adopted(l, raws[0]), raws);
      }
    }
  }

  ghost predicate FirstOfItsId(raws: seq<RawOrder>, k: int)
    requires 0 <= k < |raws|
  {
    forall j :: 0 <= j < k ==> RawId(raws[j]) != RawId(raws[k])
  }

  ghost predicate Stopper(l: Ledger, raws: seq<RawOrder>, k: int)
  {
    0 <= k < |raws| && IsStranger(l, raws[k]) && IsMalformed(raws[k]) && FirstOfItsId(raws, k)
  }

  lemma {:induction false} FirstShift(l: Ledger, mid: Ledger, raws: seq<RawOrder>)
    requires raws != [] && !(IsStranger(l, raws[0]) && IsMalformed(raws[0]))
    requires forall id :: id in mid.history <==> id in l.history || (IsStranger(l, raws[0]) && id == RawId(raws[0]))
    ensures (exists k :: Stopper(l, raws, k)) <==> (exists k :: Stopper(mid, raws[1..], k))
  {
    if k :| Stopper(l, raws, k) {
      assert k > 0 && raws[1..][k - 1] == raws[k];
      assert RawId(raws[0]) != RawId(raws[k]);
      forall j | 0 <= j < k - 1 ensures RawId(raws[1..][j]) != RawId(raws[1..][k - 1]) {
        assert raws[1..][j] == raws[j + 1];
      }
      assert Stopper(mid, raws[1..], k - 1);
    }
    if k :| Stopper(mid, raws[1..], k) {
      assert raws[1..][k] == raws[k + 1];
      forall j | 0 <= j < k + 1 ensures RawId(raws[j]) != RawId(raws[k + 1]) {
        if j > 0 {
          assert raws[1..][j - 1] == raws[j];
        }
      }
      assert Stopper(l, raws, k + 1);
    }
  }

  /** Recovery raises exactly when the first mention of some unknown order has a malformed price or size. */
  lemma {:induction false} RecoveryRaisesIff(l: Ledger, raws: seq<RawOrder>)
    requires WellFormed(l)
    ensures Reconcile(l, raws).raised <==> exists k :: Stopper(l, raws, k)
  {
    var settled := Settle(l, OpenIds(l), LiveIds(raws));
    AdoptRaisesIff(settled, raws);
    SettledStates(l, LiveIds(raws), OrderId(""));
    assert forall k :: Stopper(l, raws, k) <==> Stopper(settled, raws, k);
  }

  /**
   Into an empty ledger, an order with a price that is no number, after a good one: recovery raises
   with the first recorded.
   */
  lemma {:induction false} RaisesHalfWay() returns (raws: seq<RawOrder>)
    ensures Reconcile(Empty, raws).raised && IsOpen(Reconcile(Empty, raws).ledger, OrderId("a"))
  {
    var good := RawOrder(Some("a"), None, None, Number(0.5), Number(10.0), None, None);
    var bad := RawOrder(Some("b"), None, None, Malformed, Number(10.0), None, None);
    raws := [good, bad];
    assert "a"[0] != "b"[0];
    assert OpenIds(Empty) == [] && Settle(Empty, [], LiveIds(raws)) == Empty;
    assert raws[1..] == [bad];
    AdoptedFacts(Empty, good);
    assert Adopt(Adopted(Empty, good), [bad]).raised;
    assert Adopt(Adopted(Empty, good), [bad]).ledger == Adopted(Empty, good);
  }

  /** Recovering again from the same answer succeeds and keeps the open set and every state. */
  lemma {:induction false} SecondRecoveryKeepsStates(l: Ledger, raws: seq<RawOrder>, id: OrderId)
    requires WellFormed(l) && !Reconcile(l, raws).raised
    ensures var once := Reconcile(l, raws).ledger;
      var twice := Reconcile(once, raws);
      && !twice.raised
      && (IsOpen(twice.ledger, id) <==> IsOpen(once, id))
      && (id in once.history <==> id in twice.ledger.history)
      && (id in once.history ==> Latest(twice.ledger, id).state == Latest(once, id).state)
  {
    hide Reconcile, Adopt, Settle, Apply;
    var once := Reconcile(l, raws).ledger;
    forall k | 0 <= k < |raws| ensures !Stopper(once, raws, k) {
      RecoveryIsExact(l, raws, RawId(raws[k]));
      if IsNamed(raws[k]) {
        assert raws[k] in raws && RawId(raws[k]) in LiveIds(raws);
      }
    }
    RecoveryRaisesIff(once, raws);
    RecoveryIsExact(l, raws, id);
    RecoveryIsExact(once, raws, id);
  }

  // ----- On the heap -----

  datatype RecoveryResult = RecoveryResult(success: bool, recoveredOrderIds: seq<OrderId>, error: string)

  /** The answer to the open-orders query. */
  datatype FetchReply = FetchFailed(error: string) | Fetched(orders: seq<RawOrder>)

  lemma {:induction false} NothingToSettle(l: Ledger, live: set<OrderId>)
    requires WellFormed(l)
    ensures Settle(l, [], live) == l && Survivors([], live) == []
  {
  }

  lemma {:induction false} SurvivorsStep(done: seq<OrderId>, ids: seq<OrderId>, k: nat, live: set<OrderId>)
    requires k < |ids|
    ensures done + Survivors(ids[k..], live)
         == (if ids[k] in live then done + [ids[k]] else done) + Survivors(ids[k + 1..], live)
  {
    var rest := ids[k..];
    assert rest[0] == ids[k] && rest[1..] == ids[k + 1..];
    if ids[k] in live {
      Regroup(done, [ids[k]], Survivors(ids[k + 1..], live));
    }
  }

  lemma {:induction false} SettleStep(l: Ledger, ids: seq<OrderId>, k: nat, live: set<OrderId>)
    requires WellFormed(l) && k < |ids|
    ensures WellFormed(Apply(l, SettleOp(ids[k], live)))
    ensures Settle(l, ids[k..], live) == Settle(Apply(l, SettleOp(ids[k], live)), ids[k + 1..], live)
  {
    hide Apply;
    ApplyWellFormed(l, SettleOp(ids[k], live));
    var rest := ids[k..];
    assert rest[0] == ids[k] && rest[1..] == ids[k + 1..];
  }

  /** The ids of the orders the ledger holds open. */
  method ListOpen(ledger: OrderLedger) returns (ids: seq<OrderId>)
    requires ledger.Valid()
    ensures ids == OpenIds(ledger.View())
  {
    hide OpenIds, Holds, WellKept;
    var open := ledger.OpenOrders();
    ghost var l := ledger.View();
    forall k | 0 <= k < |open| ensures open[k].identity.orderId == OpenIds(l)[k] {
      ledger.CurrentRecord(OpenIds(l)[k]);
    }
    ids := [];
    for k := 0 to |open|
      invariant ids == OpenIds(l)[..k]
    {
      ids := ids + [open[k].identity.orderId];
    }
  }

  method SettleOne(ledger: OrderLedger, id: OrderId, live: set<OrderId>)
    requires ledger.Valid()
    modifies ledger
    ensures ledger.Valid() && ledger.View() == Apply(old(ledger.View()), SettleOp(id, live))
  {
    if id in live {
      var _ := PerformStateChange(ledger, Acknowledge(id));
    } else {
      var _ := PerformCancel(ledger, CancelOrder(id, CANCEL_REASON));
    }
  }

  /** First loop: acknowledge or cancel every order the ledger holds open. */
  method SettleOpenOrders(ledger: OrderLedger, live: set<OrderId>) returns (recovered: seq<OrderId>)
    requires ledger.Valid()
    modifies ledger
    ensures ledger.Valid()
    ensures ledger.View() == Settle(old(ledger.View()), OpenIds(old(ledger.View())), live)
    ensures recovered == Survivors(OpenIds(old(ledger.View())), live)
  {
    hide Apply, Settle, Survivors, OpenIds, SettleOp;
    ghost var l := ledger.View();
    var ids := ListOpen(ledger);
    recovered := [];
    for k := 0 to |ids|
      invariant ledger.Valid()
      invariant Settle(ledger.View(), ids[k..], live) == Settle(l, ids, live)
      invariant recovered + Survivors(ids[k..], live) == Survivors(ids, live)
    {
      SettleStep(ledger.View(), ids, k, live);
      SurvivorsStep(recovered, ids, k, live);
      SettleOne(ledger, ids[k], live);
      if ids[k] in live {
        recovered := recovered + [ids[k]];
      }
    }
    assert ids[|ids|..] == [];
    NothingToSettle(ledger.View(), live);
  }

  method AdoptOne(ledger: OrderLedger, raw: RawOrder)
    requires ledger.Valid()
    modifies ledger
    ensures ledger.Valid() && ledger.View() == Adopted(old(ledger.View()), raw)
  {
    var _ := PerformSubmit(ledger, Submit(Stub(raw)));
    var _ := PerformStateChange(ledger, Acknowledge(RawId(raw)));
  }

  lemma {:induction false} AdoptStep(l: Ledger, done: seq<OrderId>, raws: seq<RawOrder>, k: nat)
    requires WellFormed(l) && k < |raws|
    ensures var now := Adopt(l, raws[k..]);
      if !IsStranger(l, raws[k]) then now == Adopt(l, raws[k + 1..])
      else if IsMalformed(raws[k]) then now == Outcome(l, [], true)
      else
        var rest := Adopt(Adopted(l, raws[k]), raws[k + 1..]);
        now.ledger == rest.ledger && now.raised == rest.raised
        && done + now.recovered == (done + [RawId(raws[k])]) + rest.recovered
  {
    assert raws[k..][0] == raws[k] && raws[k..][1..] == raws[k + 1..];
  }

  /** Second loop: record the live orders the ledger does not know, until a malformed number stops it. */
  method AdoptStrangers(ledger: OrderLedger, raws: seq<RawOrder>) returns (recovered: seq<OrderId>, raised: bool)
    requires ledger.Valid()
    modifies ledger
    ensures ledger.Valid()
    ensures var r := Adopt(old(ledger.View()), raws);
      ledger.View() == r.ledger && raised == r.raised && (!raised ==> recovered == r.recovered)
  {
    ghost var r := Adopt(ledger.View(), raws);
    recovered, raised := [], false;
    for k := 0 to |raws|
      invariant ledger.Valid()
      invariant Adopt(ledger.View(), raws[k..]).ledger == r.ledger
      invariant Adopt(ledger.View(), raws[k..]).raised == r.raised
      invariant recovered + Adopt(ledger.View(), raws[k..]).recovered == r.recovered
    {
      AdoptStep(ledger.View(), recovered, raws, k);
      var raw := raws[k];
      if IsNamed(raw) && RawId(raw) !in ledger.records {
        if IsMalformed(raw) {
          raised := true;
          return;
        }
        AdoptOne(ledger, raw);
        recovered := recovered + [RawId(raw)];
      }
    }
    assert raws[|raws|..] == [];
  }

  class RecoveryCoordinator {
    const ledger: OrderLedger
    var lastResult: Option<RecoveryResult>
    var resyncing: bool

    constructor (ledger: OrderLedger)
      ensures this.ledger == ledger && lastResult == None && !resyncing
    {
      this.ledger, lastResult, resyncing := ledger, None, false;
    }

    /**
     A failed query changes no record. A fetched answer reconciles the ledger; if a malformed number
     raises half-way, the coordinator is left resyncing and without a result.
     */
    method Recover(reply: FetchReply) returns (result: Option<RecoveryResult>)
      requires ledger.Valid()
      modifies this, ledger
      ensures ledger.Valid()
      ensures reply.FetchFailed? ==>
                && unchanged(ledger) && !resyncing
                && result == lastResult == Some(RecoveryResult(false, [], reply.error))
      ensures reply.Fetched? ==>
                var r := Reconcile(old(ledger.View()), reply.orders);
                && ledger.View() == r.ledger
                && resyncing == r.raised
                && (r.raised ==> result == None && lastResult == old(lastResult))
                && (!r.raised ==> result == lastResult == Some(RecoveryResult(true, r.recovered, "")))
    {
      resyncing := true;
      if reply.FetchFailed? {
        resyncing := false;
        lastResult := Some(RecoveryResult(false, [], reply.error));
        return lastResult;
      }
      var live := LiveIds(reply.orders);
      var survivors := SettleOpenOrders(ledger, live);
      var adopted, raised := AdoptStrangers(ledger, reply.orders);
      if raised {
        return None;
      }
      resyncing := false;
      lastResult := Some(RecoveryResult(true, survivors + adopted, ""));
      return lastResult;
    }
  }
}
