/** Runs of the order ledger on the heap: histories only grow, object by object, and what they hold never changes. */
module LedgerRuns {
  import opened OrderLedger

  /** Every old history is a prefix of the new one: the very same objects. */
  ghost predicate Grown(before: map<OrderId, seq<OrderRecord>>, after: map<OrderId, seq<OrderRecord>>)
  {
    forall id :: id in before ==> id in after && before[id] <= after[id]
  }

  /** An acknowledgement or an expiry. */
  method PerformStateChange(ledger: OrderLedger, op: Op) returns (rec: OrderRecord?)
    requires ledger.Valid() && (op.Acknowledge? || op.Expire?)
    modifies ledger
    ensures ledger.Valid() && ledger.View() == Apply(old(ledger.View()), op)
    ensures AppendedTo(old(ledger.histories), old(ledger.records), ledger.histories, ledger.records, op.orderId, rec)
    ensures rec != null ==> fresh(rec)
    ensures ledger.contents == if rec == null then old(ledger.contents) else old(ledger.contents)[rec := rec.Value()]
  {
    hide Apply, AppendedTo, Extended, Latest, Holds, WellKept;
    match op {
      case Acknowledge(id) => rec := ledger.RecordAcknowledged(id);
      case Expire(id) => rec := ledger.RecordExpired(id);
    }
    OperationIsApply(old(ledger.View()), op, ledger.View());
  }

  /** A fill, partial or whole. */
  method PerformFill(ledger: OrderLedger, op: Op) returns (rec: OrderRecord?)
    requires ledger.Valid() && (op.PartialFill? || op.Fill?)
    modifies ledger
    ensures ledger.Valid() && ledger.View() == Apply(old(ledger.View()), op)
    ensures AppendedTo(old(ledger.histories), old(ledger.records), ledger.histories, ledger.records, op.orderId, rec)
    ensures rec != null ==> fresh(rec)
    ensures ledger.contents == if rec == null then old(ledger.contents) else old(ledger.contents)[rec := rec.Value()]
  {
    hide Apply, AppendedTo, Extended, Latest, Holds, WellKept;
    match op {
      case PartialFill(id, size) => rec := ledger.RecordPartiallyFilled(id, size);
      case Fill(id, filled) => rec := ledger.RecordFilled(id, filled);
    }
    OperationIsApply(old(ledger.View()), op, ledger.View());
  }

  /** A cancel or a rejection. */
  method PerformCancel(ledger: OrderLedger, op: Op) returns (rec: OrderRecord?)
    requires ledger.Valid() && (op.CancelOrder? || op.Reject?)
    modifies ledger
    ensures ledger.Valid() && ledger.View() == Apply(old(ledger.View()), op)
    ensures AppendedTo(old(ledger.histories), old(ledger.records), ledger.histories, ledger.records, op.orderId, rec)
    ensures rec != null ==> fresh(rec)
    ensures ledger.contents == if rec == null then old(ledger.contents) else old(ledger.contents)[rec := rec.Value()]
  {
    hide Apply, AppendedTo, Extended, Latest, Holds, WellKept;
    match op {
      case CancelOrder(id, reason) => rec := ledger.RecordCancelled(id, reason);
      case Reject(id, reason) => rec := ledger.RecordRejected(id, reason);
    }
    OperationIsApply(old(ledger.View()), op, ledger.View());
  }

  /** A submission. */
  method PerformSubmit(ledger: OrderLedger, op: Op) returns (rec: OrderRecord)
    requires ledger.Valid() && op.Submit?
    modifies ledger
    ensures ledger.Valid() && ledger.View() == Apply(old(ledger.View()), op)
    ensures AppendedTo(old(ledger.histories), old(ledger.records), ledger.histories, ledger.records,
        op.identity.orderId, rec)
    ensures fresh(rec) && ledger.contents == old(ledger.contents)[rec := rec.Value()]
  {
    hide Apply, AppendedTo, Upsert, Holds, WellKept;
    rec := ledger.RecordSubmitted(op.identity);
    OperationIsApply(old(ledger.View()), op, ledger.View());
  }

  /** Carries out one operation: at most one fresh record is appended, nothing else changes. */
  method Perform(ledger: OrderLedger, op: Op) returns (rec: OrderRecord?)
    requires ledger.Valid()
    modifies ledger
    ensures ledger.Valid() && ledger.View() == Apply(old(ledger.View()), op)
    ensures AppendedTo(old(ledger.histories), old(ledger.records), ledger.histories, ledger.records, OpId(op), rec)
    ensures rec != null ==> fresh(rec)
    ensures ledger.contents == if rec == null then old(ledger.contents) else old(ledger.contents)[rec := rec.Value()]
  {
    hide Apply, AppendedTo, Holds, WellKept;
    if op.Submit? {
      rec := PerformSubmit(ledger, op);
    } else if op.Acknowledge? || op.Expire? {
      rec := PerformStateChange(ledger, op);
    } else if op.PartialFill? || op.Fill? {
      rec := PerformFill(ledger, op);
    } else {
      rec := PerformCancel(ledger, op);
    }
  }

  lemma {:induction false} AppendGrows(histories: map<OrderId, seq<OrderRecord>>, current: map<OrderId, OrderRecord>,
                                       histories': map<OrderId, seq<OrderRecord>>, current': map<OrderId, OrderRecord>,
                                       id: OrderId, rec: OrderRecord?)
    requires AppendedTo(histories, current, histories', current', id, rec)
    ensures Grown(histories, histories')
  {
  }

  lemma {:induction false} GrownTwice(a: map<OrderId, seq<OrderRecord>>, b: map<OrderId, seq<OrderRecord>>,
                                      c: map<OrderId, seq<OrderRecord>>)
    requires Grown(a, b) && Grown(b, c)
    ensures Grown(a, c)
  {
  }

  /** The ledger after a run is the value ledger after the same run, and on the heap it is append-only. */
  method Replay(ledger: OrderLedger, ops: seq<Op>)
    requires ledger.Valid()
    modifies ledger
    ensures ledger.Valid() && ledger.View() == RunOps(old(ledger.View()), ops)
    ensures Grown(old(ledger.histories), ledger.histories)
    ensures forall r :: r in old(ledger.contents) ==> unchanged(r) && r in ledger.contents
  {
    for k := 0 to |ops|
      invariant ledger.Valid()
      invariant RunOps(ledger.View(), ops[k..]) == RunOps(old(ledger.View()), ops)
      invariant Grown(old(ledger.histories), ledger.histories)
      invariant old(ledger.contents.Keys) <= ledger.contents.Keys
    {
      ghost var before, current := ledger.histories, ledger.records;
      assert ops[k..][0] == ops[k] && ops[k..][1..] == ops[k + 1..];
      var rec := Perform(ledger, ops[k]);
      AppendGrows(before, current, ledger.histories, ledger.records, OpId(ops[k]), rec);
      GrownTwice(old(ledger.histories), before, ledger.histories);
    }
  }

  /** One operation of the class is one step of the value ledger. */
  lemma {:induction false} OperationIsApply(l: Ledger, op: Op, l': Ledger)
    requires WellFormed(l)
    requires op.Submit? ==> l' == Upsert(l, OpId(op), RecordValue(op.identity, Submitted, 0.0, ""))
    requires !op.Submit? ==>
      l' == if OpId(op) in l.history then Ledger(l.order,
          Extended(l.history, OpId(op), NextRecord(Latest(l, OpId(op)), op))) else l
    ensures l' == Apply(l, op)
  {
  }
}
