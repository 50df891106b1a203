/**
 The order ledger: the latest record of every order, and every record it ever had.

 `Ledger` is the ledger as a value and `Apply` what an operation does to it. The class
 keeps the records on the heap, the latest one being the same object as the last of its history.
 */
module OrderLedger {
  import opened Common

  datatype OrderId = OrderId(text: string)

  datatype OrderState = Submitted | Acknowledged | PartiallyFilled | Filled | Cancelled | Expired | Rejected

  predicate IsTerminal(s: OrderState)
  {
    s.Filled? || s.Cancelled? || s.Expired? || s.Rejected?
  }

  /** What an order is, as opposed to what has become of it. */
  datatype Identity = Identity(
    orderId: OrderId, tokenId: string, side: string, price: real, size: real, timeInForce: string,
    postOnly: bool, strategy: string, feeRateBps: int, negRisk: bool)

  datatype RecordValue = RecordValue(identity: Identity, state: OrderState, filledSize: real, cancelReason: string)

  /** `order` lists the known ids in the order they were first submitted. */
  datatype Ledger = Ledger(order: seq<OrderId>, history: map<OrderId, seq<RecordValue>>)

  datatype Op =
    | Submit(identity: Identity)
    | Acknowledge(orderId: OrderId)
    | PartialFill(orderId: OrderId, filledSize: real)
    | Fill(orderId: OrderId, filled: Option<real>)
    | CancelOrder(orderId: OrderId, reason: string)
    | Expire(orderId: OrderId)
    | Reject(orderId: OrderId, reason: string)

  function OpId(op: Op): OrderId
  {
    if op.Submit? then op.identity.orderId else op.orderId
  }

  const Empty := Ledger([], map[])

  /** Every history starts somewhere, and its records carry the id it is kept under. */
  ghost predicate WellKept(history: map<OrderId, seq<RecordValue>>)
  {
    forall id :: id in history ==>
      history[id] != [] && forall i :: 0 <= i < |history[id]| ==> history[id][i].identity.orderId == id
  }

  ghost predicate WellFormed(l: Ledger)
  {
    && NoRepeats(l.order)
    && (forall id :: id in l.order <==> id in l.history)
    && WellKept(l.history)
  }

  function Latest(l: Ledger, id: OrderId): RecordValue
    requires id in l.history && l.history[id] != []
  {
    l.history[id][|l.history[id]| - 1]
  }

  function HistoryOf(l: Ledger, id: OrderId): seq<RecordValue>
  {
    if id in l.history then l.history[id] else []
  }

  function Extended(model: map<OrderId, seq<RecordValue>>, id: OrderId, v: RecordValue): map<OrderId, seq<RecordValue>>
  {
    model[id := (if id in model then model[id] else []) + [v]]
  }

  function Upsert(l: Ledger, id: OrderId, v: RecordValue): Ledger
  {
    Ledger(if id in l.history then l.order else l.order + [id], Extended(l.history, id, v))
  }

  /** The record an operation adds, from the latest one. */
  function NextRecord(v: RecordValue, op: Op): RecordValue
  {
    match op
    case Submit(identity) => RecordValue(identity, Submitted, 0.0, "")
    case Acknowledge(_) => v.(state := Acknowledged)
    case PartialFill(_, size) => v.(state := PartiallyFilled, filledSize := size)
    case Fill(_, filled) => FilledRecord(v, filled)
    case CancelOrder(_, reason) => v.(state := Cancelled, cancelReason := reason)
    case Expire(_) => v.(state := Expired)
    case Reject(_, reason) => v.(state := Rejected, cancelReason := reason)
  }

  /** An operation other than a submission is ignored for an unknown id. */
  function Apply(l: Ledger, op: Op): Ledger
    requires WellFormed(l)
  {
    var id := OpId(op);
    if op.Submit? then Upsert(l, id, RecordValue(op.identity, Submitted, 0.0, ""))
    else if id !in l.history then l
    else Upsert(l, id, NextRecord(Latest(l, id), op))
  }

  function FilledRecord(v: RecordValue, filled: Option<real>): RecordValue
  {
    match filled
    case Some(size) => v.(state := Filled, filledSize := size)
    case None => v.(state := Filled)
  }

  lemma {:induction false} ApplyKnown(l: Ledger, op: Op)
    requires WellFormed(l) && !op.Submit? && OpId(op) in l.history
    ensures Apply(l, op) == Ledger(l.order, Extended(l.history, OpId(op), NextRecord(Latest(l, OpId(op)), op)))
  {
  }

  lemma {:induction false} UpsertWellFormed(l: Ledger, id: OrderId, v: RecordValue)
    requires WellFormed(l) && v.identity.orderId == id
    ensures WellFormed(Upsert(l, id, v))
  {
    var l' := Upsert(l, id, v);
    forall x ensures x in l'.order <==> x in l'.history {
      assert x in l'.order <==> x in l.order || x == id;
    }
  }

  lemma {:induction false} ApplyWellFormed(l: Ledger, op: Op)
    requires WellFormed(l)
    ensures WellFormed(Apply(l, op))
  {
    var id := OpId(op);
    if op.Submit? {
      UpsertWellFormed(l, id, RecordValue(op.identity, Submitted, 0.0, ""));
    } else if id in l.history {
      UpsertWellFormed(l, id, NextRecord(Latest(l, id), op));
    }
  }

  function RunOps(l: Ledger, ops: seq<Op>): (r: Ledger)
    requires WellFormed(l)
    ensures WellFormed(r)
    decreases |ops|
  {
    if ops == [] then l else
      ApplyWellFormed(l, ops[0]);
      RunOps(Apply(l, ops[0]), ops[1..])
  }

  // ----- Append-only histories -----

  /** Histories only grow over a run, and known ids keep their place. */
  lemma {:induction false} HistoryOnlyGrows(l: Ledger, ops: seq<Op>, id: OrderId)
    requires WellFormed(l)
    ensures HistoryOf(l, id) <= HistoryOf(RunOps(l, ops), id)
    ensures l.order <= RunOps(l, ops).order
    decreases |ops|
  {
    if ops != [] {
      ApplyWellFormed(l, ops[0]);
      HistoryOnlyGrows(Apply(l, ops[0]), ops[1..], id);
    }
  }

  /** One record follows another: a new submission, or the same order in a new state. */
  ghost predicate Follows(v: RecordValue, w: RecordValue)
  {
    || (w.state.Submitted? && w.filledSize == 0.0 && w.cancelReason == "")
    || (&& !w.state.Submitted?
        && w.identity == v.identity
        && (w.filledSize == v.filledSize || w.state.PartiallyFilled? || w.state.Filled?)
        && (w.cancelReason == v.cancelReason || w.state.Cancelled? || w.state.Rejected?))
  }

  /** A history starts with a submission, and identity is frozen from each submission to the next. */
  ghost predicate Coherent(h: seq<RecordValue>)
  {
    && (h != [] ==> h[0].state.Submitted? && h[0].filledSize == 0.0 && h[0].cancelReason == "")
    && (forall i :: 0 < i < |h| ==> Follows(h[i - 1], h[i]))
  }

  lemma {:induction false} HistoriesStayCoherent(l: Ledger, ops: seq<Op>, id: OrderId)
    requires WellFormed(l) && Coherent(HistoryOf(l, id))
    ensures Coherent(HistoryOf(RunOps(l, ops), id))
    decreases |ops|
  {
    if ops != [] {
      ApplyWellFormed(l, ops[0]);
      HistoriesStayCoherent(Apply(l, ops[0]), ops[1..], id);
    }
  }

  /** Between submissions the identity never changes. */
  lemma {:induction false} IdentityFrozen(h: seq<RecordValue>, i: nat, j: nat)
    requires Coherent(h) && i <= j < |h|
    requires forall k :: i < k <= j ==> !h[k].state.Submitted?
    ensures h[j].identity == h[i].identity
  {
    if i < j {
      IdentityFrozen(h, i, j - 1);
      assert Follows(h[j - 1], h[j]);
    }
  }

  // ----- Open orders -----

  function OpenAmong(ids: seq<OrderId>, l: Ledger): (open: seq<OrderId>)
    requires WellFormed(l) && forall id :: id in ids ==> id in l.history
    ensures forall id :: id in open <==> id in ids && !IsTerminal(Latest(l, id).state)
  {
    if ids == [] then [] else
      assert ids == [ids[0]] + ids[1..];
      (if IsTerminal(Latest(l, ids[0]).state) then [] else [ids[0]]) + OpenAmong(ids[1..], l)
  }

  /** The ids of the orders that are not in a terminal state. */
  function OpenIds(l: Ledger): seq<OrderId>
    requires WellFormed(l)
  {
    OpenAmong(l.order, l)
  }

  lemma {:induction false} OpenAmongHead(ids: seq<OrderId>, l: Ledger)
    requires WellFormed(l) && ids != [] && forall id :: id in ids ==> id in l.history
    ensures forall id :: id in ids[1..] ==> id in l.history
    ensures OpenAmong(ids, l)
         == (if IsTerminal(Latest(l, ids[0]).state) then [] else [ids[0]]) + OpenAmong(ids[1..], l)
  {
    assert forall id :: id in ids[1..] ==> id in ids;
  }

  lemma {:induction false} OpenAmongStep(found: seq<OrderId>, ids: seq<OrderId>, k: nat, l: Ledger)
    requires WellFormed(l) && k < |ids| && forall id :: id in ids[k..] ==> id in l.history
    ensures forall id :: id in ids[k + 1..] ==> id in l.history
    ensures ids[k] in l.history
    ensures found + OpenAmong(ids[k..], l) ==
            (if IsTerminal(Latest(l, ids[k]).state) then found else found + [ids[k]]) + OpenAmong(ids[k + 1..], l)
  {
    var rest := ids[k..];
    assert rest[0] == ids[k] && rest[1..] == ids[k + 1..];
    assert ids[k] in rest;
    forall id | id in ids[k + 1..] ensures id in l.history {
      assert id in rest[1..];
    }
    OpenAmongHead(rest, l);
  }

  lemma {:induction false} OpenAmongNoRepeats(ids: seq<OrderId>, l: Ledger)
    requires WellFormed(l) && (forall id :: id in ids ==> id in l.history) && NoRepeats(ids)
    ensures NoRepeats(OpenAmong(ids, l))
  {
    if ids != [] {
      assert ids == [ids[0]] + ids[1..];
      OpenAmongNoRepeats(ids[1..], l);
    }
  }

  // ----- The latest record, told from the operations alone -----

  /** The last submission of the order. */
  ghost function LastSubmitted(ops: seq<Op>, id: OrderId): Option<Identity>
  {
    if ops == [] then None
    else
      var last := ops[|ops| - 1];
      if last.Submit? && last.identity.orderId == id then Some(last.identity)
      else LastSubmitted(ops[..|ops| - 1], id)
  }

  /** The state that the last operation on the order has put it in. */
  ghost function LastState(ops: seq<Op>, id: OrderId): OrderState
  {
    if ops == [] then Submitted
    else
      var last := ops[|ops| - 1];
      if OpId(last) != id then LastState(ops[..|ops| - 1], id)
      else match last
        case Submit(_) => Submitted
        case Acknowledge(_) => Acknowledged
        case PartialFill(_, _) => PartiallyFilled
        case Fill(_, _) => Filled
        case CancelOrder(_, _) => Cancelled
        case Expire(_) => Expired
        case Reject(_, _) => Rejected
  }

  /** The size last reported filled since the order was submitted. */
  ghost function LastFilled(ops: seq<Op>, id: OrderId): real
  {
    if ops == [] then 0.0
    else
      var init, last := ops[..|ops| - 1], ops[|ops| - 1];
      if OpId(last) != id then LastFilled(init, id)
      else if last.Submit? then 0.0
      else if last.PartialFill? then last.filledSize
      else if last.Fill? && last.filled.Some? then last.filled.value
      else LastFilled(init, id)
  }

  /** The reason last given for a cancel or a rejection since the order was submitted. */
  ghost function LastReason(ops: seq<Op>, id: OrderId): string
  {
    if ops == [] then ""
    else
      var init, last := ops[..|ops| - 1], ops[|ops| - 1];
      if OpId(last) != id then LastReason(init, id)
      else if last.Submit? then ""
      else if last.CancelOrder? || last.Reject? then last.reason
      else LastReason(init, id)
  }

  lemma {:induction false} RunOpsStep(l: Ledger, ops: seq<Op>, op: Op)
    requires WellFormed(l)
    ensures RunOps(l, ops + [op]) == Apply(RunOps(l, ops), op)
    decreases |ops|
  {
    if ops == [] {
      assert [op][1..] == [];
      ApplyWellFormed(l, op);
    } else {
      ApplyWellFormed(l, ops[0]);
      assert (ops + [op])[1..] == ops[1..] + [op];
      RunOpsStep(Apply(l, ops[0]), ops[1..], op);
    }
  }

  /** The state says that no operation has ended the order since it was submitted. */
  ghost predicate IsLive(s: OrderState)
  {
    s == Submitted || s == Acknowledged || s == PartiallyFilled
  }

  /** What the operations last said of a submitted order. */
  ghost function Told(ops: seq<Op>, id: OrderId, identity: Identity): RecordValue
  {
    RecordValue(identity, LastState(ops, id), LastFilled(ops, id), LastReason(ops, id))
  }

  lemma {:induction false} ToldStep(ops: seq<Op>, id: OrderId, identity: Identity)
    requires ops != []
    ensures var init, last := ops[..|ops| - 1], ops[|ops| - 1];
      Told(ops, id, identity) ==
        if OpId(last) != id then Told(init, id, identity)
        else if last.Submit? then RecordValue(identity, Submitted, 0.0, "")
        else NextRecord(Told(init, id, identity), last)
  {
  }

  /**
   After every run of operations the ledger knows exactly the submitted orders, and the latest record
   of each is what the operations last said, field by field. It is open unless an operation has ended it.
   */
  lemma {:induction false} LatestFollowsOps(ops: seq<Op>, id: OrderId)
    ensures var l, identity := RunOps(Empty, ops), LastSubmitted(ops, id);
      && (id in l.history <==> identity.Some?)
      && (id in l.history ==> Latest(l, id) == Told(ops, id, identity.value))
      && (id in OpenIds(l) <==> identity.Some? && IsLive(LastState(ops, id)))
  {
    hide OpenIds, RunOps, Apply, NextRecord, LastState, LastFilled, LastReason, IsLive;
    OpenIffLive(RunOps(Empty, ops), id);
    if ops == [] {
      NothingKnown(id);
    } else {
      var init, last := ops[..|ops| - 1], ops[|ops| - 1];
      assert ops == init + [last];
      RunOpsStep(Empty, init, last);
      LatestFollowsOps(init, id);
      LatestStep(RunOps(Empty, init), last, id);
      if LastSubmitted(ops, id).Some? {
        ToldStep(ops, id, LastSubmitted(ops, id).value);
      }
    }
  }

  lemma {:induction false} NothingKnown(id: OrderId)
    ensures id !in RunOps(Empty, []).history
  {
  }

  lemma {:induction false} OpenIffLive(l: Ledger, id: OrderId)
    requires WellFormed(l)
    ensures id in OpenIds(l) <==> id in l.history && IsLive(Latest(l, id).state)
  {
  }

  lemma {:induction false} LatestStep(l: Ledger, op: Op, id: OrderId)
    requires WellFormed(l)
    ensures WellFormed(Apply(l, op))
    ensures var l' := Apply(l, op);
      && (id in l'.history <==> id in l.history || (op.Submit? && OpId(op) == id))
      && (id in l'.history ==>
            if OpId(op) != id then Latest(l', id) == Latest(l, id)
            else if op.Submit? then Latest(l', id) == RecordValue(op.identity, Submitted, 0.0, "")
            else Latest(l', id) == NextRecord(Latest(l, id), op))
  {
    ApplyWellFormed(l, op);
  }

  // ----- On the heap -----

  class OrderRecord {
    var identity: Identity
    var state: OrderState
    var filledSize: real
    var cancelReason: string

    constructor (v: RecordValue)
      ensures Value() == v
    {
      identity, state, filledSize, cancelReason := v.identity, v.state, v.filledSize, v.cancelReason;
    }

    function Value(): RecordValue
      reads this
    {
      RecordValue(identity, state, filledSize, cancelReason)
    }
  }

  /** What each object holds. */
  type Contents = map<OrderRecord, RecordValue>

  /** `objects`, all different and ending in `current`, hold the history `h`. */
  ghost predicate HoldsHistory(objects: seq<OrderRecord>, current: OrderRecord, contents: Contents, h: seq<RecordValue>)
  {
    && |objects| == |h| > 0
    && objects[|objects| - 1] == current
    && (forall i, j :: 0 <= i < j < |objects| ==> objects[i] != objects[j])
    && (forall i :: 0 <= i < |objects| ==> objects[i] in contents && contents[objects[i]] == h[i])
  }

  function RecordsOf(histories: map<OrderId, seq<OrderRecord>>, id: OrderId): seq<OrderRecord>
  {
    if id in histories then histories[id] else []
  }

  /** The dictionaries of histories and of current records hold the histories of `model`. */
  ghost predicate Holds(histories: map<OrderId, seq<OrderRecord>>, current: map<OrderId, OrderRecord>,
                        contents: Contents,
                        model: map<OrderId, seq<RecordValue>>)
  {
    && (forall id :: id in histories <==> id in model)
    && (forall id :: id in current <==> id in model)
    && (forall id :: id in histories ==> HoldsHistory(histories[id], current[id], contents, model[id]))
  }

  lemma {:induction false} HistoryAppended(objects: seq<OrderRecord>, current: OrderRecord, contents: Contents,
                                           h: seq<RecordValue>,
                                           rec: OrderRecord, v: RecordValue)
    requires (objects == [] && h == []) || HoldsHistory(objects, current, contents, h)
    requires rec !in contents
    ensures HoldsHistory(objects + [rec], rec, contents[rec := v], h + [v])
  {
  }

  lemma {:induction false} HistoryUntouched(objects: seq<OrderRecord>, current: OrderRecord, contents: Contents,
                                            h: seq<RecordValue>,
                                            rec: OrderRecord, v: RecordValue)
    requires HoldsHistory(objects, current, contents, h) && rec !in contents
    ensures HoldsHistory(objects, current, contents[rec := v], h)
  {
  }

  lemma {:induction false} WellKeptExtended(model: map<OrderId, seq<RecordValue>>, id: OrderId, v: RecordValue)
    requires WellKept(model) && v.identity.orderId == id
    ensures WellKept(Extended(model, id, v))
    ensures forall x :: x in Extended(model, id, v) <==> x in model || x == id
  {
  }

  /** A new object appended to its order's history. */
  lemma {:induction false} Appended(histories: map<OrderId, seq<OrderRecord>>, current: map<OrderId, OrderRecord>,
                                    contents: Contents,
                                    model: map<OrderId, seq<RecordValue>>, id: OrderId, rec: OrderRecord,
                                        v: RecordValue)
    requires Holds(histories, current, contents, model) && rec !in contents
    ensures Holds(histories[id := RecordsOf(histories, id) + [rec]], current[id := rec], contents[rec := v],
        Extended(model, id, v))
  {
    hide HoldsHistory;
    HistoryAppended(RecordsOf(histories, id), if id in current then current[id] else rec, contents,
                    if id in model then model[id] else [], rec, v);
    forall x | x in histories ensures HoldsHistory(histories[x], current[x], contents[rec := v], model[x]) {
      HistoryUntouched(histories[x], current[x], contents, model[x], rec, v);
    }
  }

  /** `objects` are the current records of `ids`. */
  ghost predicate AreCurrent(objects: seq<OrderRecord>, ids: seq<OrderId>, current: map<OrderId, OrderRecord>)
  {
    |objects| == |ids| && forall i :: 0 <= i < |ids| ==> ids[i] in current && objects[i] == current[ids[i]]
  }

  lemma {:induction false} AreCurrentAppend(objects: seq<OrderRecord>, ids: seq<OrderId>,
                                            current: map<OrderId, OrderRecord>, id: OrderId)
    requires AreCurrent(objects, ids, current) && id in current
    ensures AreCurrent(objects + [current[id]], ids + [id], current)
  {
  }

  /** The dictionaries have gained exactly `rec`, if any, as the last and current record of `id`. */
  predicate AppendedTo(histories: map<OrderId, seq<OrderRecord>>, current: map<OrderId, OrderRecord>,
                       histories': map<OrderId, seq<OrderRecord>>, current': map<OrderId, OrderRecord>,
                       id: OrderId, rec: OrderRecord?)
  {
    if rec == null then id !in current && histories' == histories && current' == current
    else current' == current[id := rec] && histories' == histories[id := RecordsOf(histories, id) + [rec]]
  }

  method KeepOpen(order: seq<OrderId>, records: map<OrderId, OrderRecord>, ghost l: Ledger)
    returns (open: seq<OrderRecord>)
    requires WellFormed(l) && order == l.order
    requires forall id :: id in order ==> id in records && records[id].state == Latest(l, id).state
    ensures AreCurrent(open, OpenIds(l), records)
  {
    open := [];
    ghost var ids: seq<OrderId> := [];
    for k := 0 to |order|
      invariant forall id :: id in order[k..] ==> id in l.history
      invariant ids + OpenAmong(order[k..], l) == OpenIds(l)
      invariant AreCurrent(open, ids, records)
    {
      OpenAmongStep(ids, order, k, l);
      assert order[k] in order;
      var r := records[order[k]];
      if !IsTerminal(r.state) {
        AreCurrentAppend(open, ids, records, order[k]);
        open, ids := open + [r], ids + [order[k]];
      }
    }
    assert ids == OpenIds(l);
  }

  class OrderLedger {
    var order: seq<OrderId>
    var records: map<OrderId, OrderRecord>
    var histories: map<OrderId, seq<OrderRecord>>
    ghost var contents: Contents
    ghost var model: map<OrderId, seq<RecordValue>>

    ghost function View(): Ledger
      reads this
    {
      Ledger(order, model)
    }

    /** The record objects hold the histories of the model. */
    ghost predicate RecordsValid()
      reads this, contents.Keys
    {
      && WellKept(model)
      && Holds(histories, records, contents, model)
      && forall r :: r in contents ==> r.Value() == contents[r]
    }

    ghost predicate Valid()
      reads this, contents.Keys
    {
      && RecordsValid()
      && NoRepeats(order)
      && (forall id :: id in order <==> id in model)
    }

    constructor ()
      ensures Valid() && View() == Empty && contents == map[]
    {
      order, records, histories, model, contents := [], map[], map[], map[], map[];
    }

    /** Makes `rec` the current record and the last of its history. */
    method Put(id: OrderId, rec: OrderRecord)
      requires RecordsValid() && rec !in contents && rec.identity.orderId == id
      modifies this`records, this`histories, this`contents, this`model
      ensures RecordsValid() && contents == old(contents)[rec := rec.Value()]
      ensures model == Extended(old(model), id, rec.Value())
      ensures records == old(records)[id := rec]
      ensures histories == old(histories)[id := RecordsOf(old(histories), id) + [rec]]
    {
      hide Holds, WellKept, Extended, RecordsOf;
      ghost var v := rec.Value();
      Appended(histories, records, contents, model, id, rec, v);
      WellKeptExtended(model, id, v);
      histories := histories[id := RecordsOf(histories, id) + [rec]];
      records := records[id := rec];
      model, contents := Extended(model, id, v), contents[rec := v];
    }

    /** The current record of `id`, appended since the given state, has been written to: the model follows. */
    ghost method Amended(id: OrderId, rec: OrderRecord, histories0: map<OrderId, seq<OrderRecord>>,
                         records0: map<OrderId, OrderRecord>, contents0: Contents,
                         model0: map<OrderId, seq<RecordValue>>)
      requires Holds(histories0, records0, contents0, model0) && WellKept(model0) && id in model0
      requires rec !in contents0 && rec.identity.orderId == id
      requires forall r :: r in contents0 ==> r.Value() == contents0[r]
      requires histories == histories0[id := RecordsOf(histories0, id) + [rec]] && records == records0[id := rec]
      modifies this`contents, this`model
      ensures RecordsValid() && contents == contents0[rec := rec.Value()] && model == Extended(model0, id, rec.Value())
      ensures forall x :: x in model <==> x in model0
    {
      hide Holds, WellKept, Extended, RecordsOf;
      Appended(histories0, records0, contents0, model0, id, rec, rec.Value());
      WellKeptExtended(model0, id, rec.Value());
      model, contents := Extended(model0, id, rec.Value()), contents0[rec := rec.Value()];
    }

    /** A first submission also gives the id its place in the order. */
    method RecordSubmitted(identity: Identity) returns (rec: OrderRecord)
      requires Valid()
      modifies this
      ensures Valid() && View() == Upsert(old(View()), identity.orderId, RecordValue(identity, Submitted, 0.0, ""))
      ensures AppendedTo(old(histories), old(records), histories, records, identity.orderId, rec)
      ensures fresh(rec) && contents == old(contents)[rec := rec.Value()]
    {
      hide Holds, WellKept, RecordsOf;
      rec := new OrderRecord(RecordValue(identity, Submitted, 0.0, ""));
      RecordsAndModel(identity.orderId);
      var known := identity.orderId in records;
      Put(identity.orderId, rec);
      if !known {
        order := order + [identity.orderId];
      }
    }

    /** A copy of the current record in a new state becomes the current record; unknown ids are ignored. */
    method Transition(orderId: OrderId, newState: OrderState) returns (rec: OrderRecord?)
      requires RecordsValid()
      modifies this`records, this`histories, this`contents, this`model
      ensures (rec == null <==> orderId !in old(records)) && (rec == null <==> orderId !in old(model))
      ensures rec == null ==> unchanged(this)
      ensures rec != null ==>
                && orderId in old(model) && old(model)[orderId] != []
                && rec.Value() == Latest(old(View()), orderId).(state := newState)
                && fresh(rec) && rec !in old(contents) && rec.identity.orderId == orderId
                && model == Extended(old(model), orderId, rec.Value())
                && (forall x :: x in model <==> x in old(model))
                && contents == old(contents)[rec := rec.Value()]
                && records == old(records)[orderId := rec]
                && histories == old(histories)[orderId := RecordsOf(old(histories), orderId) + [rec]]
      ensures RecordsValid()
    {
      if orderId !in records {
        return null;
      }
      CurrentRecord(orderId);
      hide Holds, HoldsHistory, RecordsOf;
      var existing := records[orderId];
      rec := new OrderRecord(existing.Value().(state := newState));
      WellKeptExtended(model, orderId, rec.Value());
      Put(orderId, rec);
    }

    method RecordAcknowledged(orderId: OrderId) returns (rec: OrderRecord?)
      requires Valid()
      modifies this`records, this`histories, this`contents, this`model
      ensures Valid() && AppendedTo(old(histories), old(records), histories, records, orderId, rec)
      ensures (rec == null <==> orderId !in old(model)) && (rec == null ==> unchanged(this))
      ensures rec != null ==>
                && fresh(rec) && contents == old(contents)[rec := rec.Value()]
                && rec.Value() == Latest(old(View()), orderId).(state := Acknowledged)
                && model == Extended(old(model), orderId, rec.Value())
    {
      hide Holds, WellKept, Extended, RecordsOf, Latest;
      rec := Transition(orderId, Acknowledged);
    }

    method RecordPartiallyFilled(orderId: OrderId, filledSize: real) returns (rec: OrderRecord?)
      requires Valid()
      modifies this`records, this`histories, this`contents, this`model
      ensures Valid() && AppendedTo(old(histories), old(records), histories, records, orderId, rec)
      ensures (rec == null <==> orderId !in old(model)) && (rec == null ==> unchanged(this))
      ensures rec != null ==>
                && fresh(rec) && contents == old(contents)[rec := rec.Value()]
                && rec.Value() == Latest(old(View()), orderId).(state := PartiallyFilled, filledSize := filledSize)
                && model == Extended(old(model), orderId, rec.Value())
    {
      hide Holds, WellKept, Extended, RecordsOf, Latest;
      rec := Transition(orderId, PartiallyFilled);
      if rec != null {
        rec.filledSize := filledSize;
        Amended(orderId, rec, old(histories), old(records), old(contents), old(model));
      }
    }

    method RecordFilledWith(orderId: OrderId, filledSize: real) returns (rec: OrderRecord?)
      requires Valid()
      modifies this`records, this`histories, this`contents, this`model
      ensures Valid() && AppendedTo(old(histories), old(records), histories, records, orderId, rec)
      ensures (rec == null <==> orderId !in old(model)) && (rec == null ==> unchanged(this))
      ensures rec != null ==>
                && fresh(rec) && contents == old(contents)[rec := rec.Value()]
                && rec.Value() == Latest(old(View()), orderId).(state := Filled, filledSize := filledSize)
                && model == Extended(old(model), orderId, rec.Value())
    {
      hide Holds, WellKept, Extended, RecordsOf, Latest;
      rec := Transition(orderId, Filled);
      if rec != null {
        rec.filledSize := filledSize;
        Amended(orderId, rec, old(histories), old(records), old(contents), old(model));
      }
    }

    method RecordFilled(orderId: OrderId, filled: Option<real>) returns (rec: OrderRecord?)
      requires Valid()
      modifies this`records, this`histories, this`contents, this`model
      ensures Valid() && AppendedTo(old(histories), old(records), histories, records, orderId, rec)
      ensures (rec == null <==> orderId !in old(model)) && (rec == null ==> unchanged(this))
      ensures rec != null ==>
                && fresh(rec) && contents == old(contents)[rec := rec.Value()]
                && rec.Value() == FilledRecord(Latest(old(View()), orderId), filled)
                && model == Extended(old(model), orderId, rec.Value())
    {
      hide Holds, WellKept, Extended, RecordsOf, Latest;
      if filled.Some? {
        rec := RecordFilledWith(orderId, filled.value);
      } else {
        rec := Transition(orderId, Filled);
      }
    }

    method RecordCancelled(orderId: OrderId, reason: string) returns (rec: OrderRecord?)
      requires Valid()
      modifies this`records, this`histories, this`contents, this`model
      ensures Valid() && AppendedTo(old(histories), old(records), histories, records, orderId, rec)
      ensures (rec == null <==> orderId !in old(model)) && (rec == null ==> unchanged(this))
      ensures rec != null ==>
                && fresh(rec) && contents == old(contents)[rec := rec.Value()]
                && rec.Value() == Latest(old(View()), orderId).(state := Cancelled, cancelReason := reason)
                && model == Extended(old(model), orderId, rec.Value())
    {
      hide Holds, WellKept, Extended, RecordsOf, Latest;
      rec := Transition(orderId, Cancelled);
      if rec != null {
        rec.cancelReason := reason;
        Amended(orderId, rec, old(histories), old(records), old(contents), old(model));
      }
    }

    method RecordExpired(orderId: OrderId) returns (rec: OrderRecord?)
      requires Valid()
      modifies this`records, this`histories, this`contents, this`model
      ensures Valid() && AppendedTo(old(histories), old(records), histories, records, orderId, rec)
      ensures (rec == null <==> orderId !in old(model)) && (rec == null ==> unchanged(this))
      ensures rec != null ==>
                && fresh(rec) && contents == old(contents)[rec := rec.Value()]
                && rec.Value() == Latest(old(View()), orderId).(state := Expired)
                && model == Extended(old(model), orderId, rec.Value())
    {
      hide Holds, WellKept, Extended, RecordsOf, Latest;
      rec := Transition(orderId, Expired);
    }

    method RecordRejected(orderId: OrderId, reason: string) returns (rec: OrderRecord?)
      requires Valid()
      modifies this`records, this`histories, this`contents, this`model
      ensures Valid() && AppendedTo(old(histories), old(records), histories, records, orderId, rec)
      ensures (rec == null <==> orderId !in old(model)) && (rec == null ==> unchanged(this))
      ensures rec != null ==>
                && fresh(rec) && contents == old(contents)[rec := rec.Value()]
                && rec.Value() == Latest(old(View()), orderId).(state := Rejected, cancelReason := reason)
                && model == Extended(old(model), orderId, rec.Value())
    {
      hide Holds, WellKept, Extended, RecordsOf, Latest;
      rec := Transition(orderId, Rejected);
      if rec != null {
        rec.cancelReason := reason;
        Amended(orderId, rec, old(histories), old(records), old(contents), old(model));
      }
    }

    /** The orders that are not in a terminal state, in the order of their first submission. */
    method OpenOrders() returns (open: seq<OrderRecord>)
      requires Valid()
      ensures AreCurrent(open, OpenIds(View()), records)
    {
      forall id | id in order ensures id in records && records[id].state == Latest(View(), id).state {
        CurrentRecord(id);
      }
      open := KeepOpen(order, records, View());
    }

    lemma {:induction false} RecordsAndModel(id: OrderId)
      requires RecordsValid()
      ensures id in records <==> id in model
    {
    }

    /** The current record of an order holds the latest entry of its history. */
    lemma {:induction false} CurrentRecord(id: OrderId)
      requires RecordsValid() && id in records
      ensures id in model && model[id] != [] && model[id][|model[id]| - 1].identity.orderId == id
      ensures id in records && records[id] in contents && records[id].Value() == Latest(View(), id)
    {
    }
  }
}
