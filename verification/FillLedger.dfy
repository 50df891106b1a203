/**
 The fill ledger: positions on the heap follow the trace of fills, and live strategy-A fills wait for
 their markout.
 */
module FillLedger {
  import opened Common
  import opened Positions

  // ----- Which fills get and which await their markout -----

  datatype MarkoutEvent =
    | FillRecorded(fillId: string, strategy: string, hasMid: bool, simulated: bool)
    | MarkoutRecorded(fillId: string)

  /** The record kept under a fill id: the number of the event that made it, and whether it is simulated. */
  datatype RecordRef = RecordRef(event: nat, simulated: bool)

  /** The record of each fill id, the ids pending, and the fills, by event, whose own record has a markout. */
  datatype MarkoutState = MarkoutState(latest: map<string, RecordRef>, pending: set<string>, marked: set<nat>)

  predicate NeedsMarkout(e: MarkoutEvent)
  {
    e.FillRecorded? && e.strategy == "A" && e.hasMid && !e.simulated
  }

  /** Event number `n`; a fill replaces the record of its id, a markout goes to the record its id has by then. */
  function NextMarkout(s: MarkoutState, n: nat, e: MarkoutEvent): MarkoutState
  {
    match e
    case FillRecorded(id, _, _, sim) =>
      s.(latest := s.latest[id := RecordRef(n, sim)], pending := s.pending + if NeedsMarkout(e) then {id} else {})
    case MarkoutRecorded(id) =>
      if id !in s.latest || s.latest[id].simulated then s
      else s.(pending := s.pending - {id}, marked := s.marked + {s.latest[id].event})
  }

  function RunMarkouts(events: seq<MarkoutEvent>): MarkoutState
  {
    if events == [] then MarkoutState(map[], {}, {})
    else NextMarkout(RunMarkouts(events[..|events| - 1]), |events| - 1, events[|events| - 1])
  }

  lemma {:induction false} RunMarkoutsStep(events: seq<MarkoutEvent>, e: MarkoutEvent)
    ensures RunMarkouts(events + [e]) == NextMarkout(RunMarkouts(events), |events|, e)
  {
    assert (events + [e])[..|events|] == events;
  }

  predicate Records(e: MarkoutEvent, id: string)
  {
    e.FillRecorded? && e.fillId == id
  }

  /** The record kept under an id is that of the last fill recorded under it. */
  lemma {:induction false} LatestIsLast(events: seq<MarkoutEvent>, id: string)
    ensures var latest := RunMarkouts(events).latest;
      if id in latest then
        var n := latest[id].event;
        && n < |events| && Records(events[n], id) && events[n].simulated == latest[id].simulated
        && forall j :: n < j < |events| ==> !Records(events[j], id)
      else forall j :: 0 <= j < |events| ==> !Records(events[j], id)
  {
    if events != [] {
      var init := events[..|events| - 1];
      LatestIsLast(init, id);
      assert forall j :: 0 <= j < |init| ==> init[j] == events[j];
    }
  }

  /** Markout `m` is the first event about the id of fill `n` that could concern its record. */
  ghost predicate Reaches(events: seq<MarkoutEvent>, m: nat, n: nat)
  {
    && n < m < |events| && events[n].FillRecorded? && events[m] == MarkoutRecorded(events[n].fillId)
    && forall j :: n < j < m ==> !Records(events[j], events[n].fillId)
  }

  /**
   A fill's own record gets a markout exactly when it is live and some markout of its id comes before
   the id is recorded again.
   */
  lemma {:induction false} MarkedIff(events: seq<MarkoutEvent>, n: nat)
    requires n < |events| && events[n].FillRecorded?
    ensures n in RunMarkouts(events).marked <==> !events[n].simulated && exists m: nat :: Reaches(events, m, n)
  {
    var k, id := |events| - 1, events[n].fillId;
    var init, last := events[..k], events[k];
    MarkedAreEvents(init);
    if n < k {
      MarkedIff(init, n);
      ReachesStep(events, n);
      LatestIsLast(init, id);
      if last.MarkoutRecorded? {
        LatestIsLast(init, last.fillId);
      }
      assert forall j :: 0 <= j < k ==> init[j] == events[j];
    }
  }

  lemma {:induction false} MarkedAreEvents(events: seq<MarkoutEvent>)
    ensures forall n :: n in RunMarkouts(events).marked ==> n < |events|
  {
    if events != [] {
      var init, last := events[..|events| - 1], events[|events| - 1];
      MarkedAreEvents(init);
      if last.MarkoutRecorded? {
        LatestIsLast(init, last.fillId);
      }
    }
  }

  lemma {:induction false} ReachesStep(events: seq<MarkoutEvent>, n: nat)
    requires n < |events| - 1
    ensures var k := |events| - 1;
      (exists m: nat :: Reaches(events, m, n))
          <==> (exists m: nat :: Reaches(events[..k], m, n)) || Reaches(events, k, n)
  {
    var k := |events| - 1;
    forall m: nat | m < k ensures Reaches(events, m, n) == Reaches(events[..k], m, n) {
      assert forall j :: 0 <= j <= m ==> events[..k][j] == events[j];
    }
    if m: nat :| Reaches(events[..k], m, n) {
      assert Reaches(events, m, n);
    }
    if m: nat :| Reaches(events, m, n) {
      assert m == k || Reaches(events[..k], m, n);
    }
  }

  /** The id of fill `n` is recorded again, live or simulated, before any markout of it. */
  ghost predicate ReusedWhileWaiting(events: seq<MarkoutEvent>, n: nat)
    requires n < |events|
  {
    exists j :: n < j < |events| && Records(events[j], events[n].fillId)
                && forall m :: n < m < j ==> events[m] != MarkoutRecorded(events[n].fillId)
  }

  ghost predicate MarkoutSince(events: seq<MarkoutEvent>, n: nat)
    requires n < |events|
  {
    exists m :: n < m < |events| && events[m] == MarkoutRecorded(events[n].fillId)
  }

  lemma {:induction false} FirstMarkoutSince(events: seq<MarkoutEvent>, n: nat) returns (m: nat)
    requires n < |events| && MarkoutSince(events, n)
    ensures n < m < |events| && events[m] == MarkoutRecorded(events[n].fillId)
    ensures forall j :: n < j < m ==> events[j] != MarkoutRecorded(events[n].fillId)
  {
    m := n + 1;
    while events[m] != MarkoutRecorded(events[n].fillId)
      invariant n < m < |events| && forall j :: n < j < m ==> events[j] != MarkoutRecorded(events[n].fillId)
      decreases |events| - m
    {
      m := m + 1;
    }
  }

  /**
   Once a markout of its id has come, a live fill has it on its own record exactly when the id was
   not recorded again meanwhile.
   */
  lemma {:induction false} OwnMarkoutIff(events: seq<MarkoutEvent>, n: nat)
    requires n < |events| && events[n].FillRecorded? && !events[n].simulated && MarkoutSince(events, n)
    ensures n in RunMarkouts(events).marked <==> !ReusedWhileWaiting(events, n)
  {
    MarkedIff(events, n);
    var first := FirstMarkoutSince(events, n);
    if ReusedWhileWaiting(events, n) {
      var j :| n < j < |events| && Records(events[j], events[n].fillId)
               && forall m :: n < m < j ==> events[m] != MarkoutRecorded(events[n].fillId);
      forall m: nat ensures !Reaches(events, m, n) {
        assert n < m < j && m < |events| ==> events[m] != MarkoutRecorded(events[n].fillId);
      }
    } else {
      assert Reaches(events, first, n);
    }
  }

  /**
   Every live strategy-A fill whose id has had a markout carries it, if and only if none of their ids
   was recorded again while waiting.
   */
  lemma {:induction false} AllMarkedIff(events: seq<MarkoutEvent>)
    ensures (forall n: nat :: n < |events| && NeedsMarkout(events[n]) && MarkoutSince(events, n) ==>
               n in RunMarkouts(events).marked)
       <==> (forall n: nat :: n < |events| && NeedsMarkout(events[n]) && MarkoutSince(events, n) ==>
               !ReusedWhileWaiting(events, n))
  {
    hide RunMarkouts, ReusedWhileWaiting;
    forall n: nat | n < |events| && NeedsMarkout(events[n]) && MarkoutSince(events, n)
      ensures n in RunMarkouts(events).marked <==> !ReusedWhileWaiting(events, n)
    {
      OwnMarkoutIff(events, n);
    }
  }

  /**
   Two partial fills of one order share its id: however many markouts come, and whether or not the
   mid was known, the first fill's record never gets one.
   */
  lemma {:induction false} FirstPartialFillNeverMarked(id: string, hasMid: bool, markouts: nat)
    ensures var events := [FillRecorded(id, "A", hasMid, false), FillRecorded(id, "A", hasMid, false)]
                          + seq(markouts, k => MarkoutRecorded(id));
      && 0 !in RunMarkouts(events).marked
      && (markouts > 0 ==> MarkoutSince(events, 0) && id !in RunMarkouts(events).pending)
  {
    var events := [FillRecorded(id, "A", hasMid, false), FillRecorded(id, "A", hasMid, false)]
        + seq(markouts, k => MarkoutRecorded(id));
    MarkedIff(events, 0);
    assert Records(events[1], id);
    if markouts > 0 {
      assert events[2] == MarkoutRecorded(id);
      LatestIsLast(events[..|events| - 1], id);
    }
  }

  // ----- The pending set -----

  /** A live strategy-A fill of the id still has no markout on its own record. */
  ghost predicate Waits(events: seq<MarkoutEvent>, n: nat, id: string)
  {
    && n < |events| && events[n].FillRecorded? && events[n].fillId == id
    && events[n].strategy == "A" && events[n].hasMid && !events[n].simulated
    && n !in RunMarkouts(events).marked
  }

  ghost predicate PendingIsRight(events: seq<MarkoutEvent>, id: string)
  {
    id in RunMarkouts(events).pending <==> exists n: nat :: Waits(events, n, id)
  }

  /** Event `k` records a live fill under the id of a fill that waits. */
  ghost predicate LiveReuse(events: seq<MarkoutEvent>, k: nat, id: string)
    requires k < |events|
  {
    Records(events[k], id) && !events[k].simulated && exists n: nat :: Waits(events[..k], n, id)
  }

  ghost predicate SomeLiveReuse(events: seq<MarkoutEvent>, id: string)
  {
    exists k: nat :: k < |events| && LiveReuse(events, k, id)
  }

  lemma {:induction false} NoEarlierReuse(events: seq<MarkoutEvent>, k: nat, id: string)
    requires k <= |events| && !SomeLiveReuse(events, id)
    ensures !SomeLiveReuse(events[..k], id)
  {
    hide RunMarkouts, Waits;
    forall j: nat | j < k ensures !LiveReuse(events[..k], j, id) {
      assert events[..k][..j] == events[..j];
      assert !LiveReuse(events, j, id);
    }
  }

  lemma {:induction false} WaitsStep(events: seq<MarkoutEvent>, n: nat, id: string)
    requires events != []
    ensures var k := |events| - 1;
      Waits(events, n, id) <==>
        if n == k then NeedsMarkout(events[k]) && events[k].fillId == id
        else Waits(events[..k], n, id)
             && !(events[k] == MarkoutRecorded(id) && var latest := RunMarkouts(events[..k]).latest;
                  id in latest && latest[id] == RecordRef(n, false))
  {
    var k := |events| - 1;
    MarkedAreEvents(events[..k]);
    if n != k && events[k].MarkoutRecorded? {
      LatestIsLast(events[..k], events[k].fillId);
    }
  }

  /**
   Without live reuse, an id is pending exactly while a fill of it waits, and that fill's record is
   the one kept, or is hidden by a simulated one.
   */
  lemma {:induction false} PendingWhileWaiting(events: seq<MarkoutEvent>, id: string)
    requires !SomeLiveReuse(events, id)
    ensures PendingIsRight(events, id)
    ensures var latest := RunMarkouts(events).latest;
      forall n: nat :: Waits(events, n, id) ==> id in latest && (latest[id].event == n || latest[id].simulated)
  {
    if events != [] {
      var k := |events| - 1;
      NoEarlierReuse(events, k, id);
      PendingWhileWaiting(events[..k], id);
      PendingStep(events, id);
    }
  }

  lemma {:induction false} PendingStep(events: seq<MarkoutEvent>, id: string)
    requires events != [] && !SomeLiveReuse(events, id)
    requires PendingIsRight(events[..|events| - 1], id)
    requires var init := events[..|events| - 1];
      var latest := RunMarkouts(init).latest;
      forall n: nat :: Waits(init, n, id) ==> id in latest && (latest[id].event == n || latest[id].simulated)
    ensures PendingIsRight(events, id)
    ensures var latest := RunMarkouts(events).latest;
      forall n: nat :: Waits(events, n, id) ==> id in latest && (latest[id].event == n || latest[id].simulated)
  {
    hide Waits;
    var k := |events| - 1;
    var init, last := events[..k], events[k];
    assert !LiveReuse(events, k, id);
    forall n: nat
      ensures Waits(events, n, id) <==>
                if n == k then NeedsMarkout(last) && last.fillId == id
                else Waits(init, n, id)
                     && !(last == MarkoutRecorded(id) && var latest := RunMarkouts(init).latest;
                          id in latest && latest[id] == RecordRef(n, false))
    {
      WaitsStep(events, n, id);
    }
    if NeedsMarkout(last) && last.fillId == id {
      assert Waits(events, k, id);
    } else {
      var latest := RunMarkouts(init).latest;
      var answered := last == MarkoutRecorded(id) && id in latest && !latest[id].simulated;
      if n: nat :| Waits(init, n, id) && !answered {
        WaitsBefore(init, n, id);
        assert Waits(events, n, id);
      }
      if n: nat :| Waits(events, n, id) {
        assert Waits(init, n, id) && !answered;
      }
    }
  }

  lemma {:induction false} WaitsBefore(events: seq<MarkoutEvent>, n: nat, id: string)
    requires Waits(events, n, id)
    ensures n < |events|
  {
  }

  ghost predicate RightThenAndAfterMarkout(events: seq<MarkoutEvent>, k: nat, id: string)
    requires k <= |events|
  {
    PendingIsRight(events[..k], id) && PendingIsRight(events[..k] + [MarkoutRecorded(id)], id)
  }

  /**
   The pending set is right all along, and after one more markout, if and only if no live fill is
   recorded under the id of a waiting one.
   */
  lemma {:induction false} PendingRightIff(events: seq<MarkoutEvent>, id: string)
    ensures (forall k: nat :: k <= |events| ==> RightThenAndAfterMarkout(events, k, id)) <==> !SomeLiveReuse(events, id)
  {
    if SomeLiveReuse(events, id) {
      var k: nat :| k < |events| && LiveReuse(events, k, id);
      ReuseBreaksPending(events, k, id);
    } else {
      forall k: nat | k <= |events| ensures RightThenAndAfterMarkout(events, k, id) {
        NoEarlierReuse(events, k, id);
        PendingWhileWaiting(events[..k], id);
        NoReuseByMarkout(events[..k], id);
        PendingWhileWaiting(events[..k] + [MarkoutRecorded(id)], id);
      }
    }
  }

  lemma {:induction false} NoReuseByMarkout(events: seq<MarkoutEvent>, id: string)
    requires !SomeLiveReuse(events, id)
    ensures !SomeLiveReuse(events + [MarkoutRecorded(id)], id)
  {
    hide RunMarkouts, Waits;
    var after := events + [MarkoutRecorded(id)];
    forall k: nat | k < |after| ensures !LiveReuse(after, k, id) {
      if k < |events| {
        assert after[..k] == events[..k];
        assert !LiveReuse(events, k, id);
      }
    }
  }

  lemma {:induction false} ReuseBreaksPending(events: seq<MarkoutEvent>, k: nat, id: string)
    requires k < |events| && LiveReuse(events, k, id)
    ensures !RightThenAndAfterMarkout(events, k + 1, id)
  {
    var n: nat :| Waits(events[..k], n, id);
    var reused := events[..k + 1];
    var after := reused + [MarkoutRecorded(id)];
    assert reused[..k] == events[..k] && reused[k] == events[k];
    WaitsStep(reused, n, id);
    RunMarkoutsStep(reused, MarkoutRecorded(id));
    assert after[..k + 1] == reused;
    WaitsStep(after, n, id);
    assert RunMarkouts(reused).latest[id] == RecordRef(k, false);
    assert Waits(after, n, id) && id !in RunMarkouts(after).pending;
  }

  // ----- The ledger -----

  class PositionRecord {
    var shares: real
    var avgEntryPrice: real
    var realizedPnl: real

    constructor (avgEntryPrice: real)
      ensures Value() == Opened(avgEntryPrice)
    {
      shares, this.avgEntryPrice, realizedPnl := 0.0, avgEntryPrice, 0.0;
    }

    function Value(): Position
      reads this
    {
      Position(shares, avgEntryPrice, realizedPnl)
    }

    method Apply(side: FillSide, price: real, size: real)
      modifies this
      ensures Value() == Updated(old(Value()), side, price, size)
    {
      match side {
        case BuyFill =>
          var total := shares + size;
          avgEntryPrice := if total > 0.0 then Averaged(Value(), price, size) else price;
          shares := total;
        case SellFill =>
          var realized := (price - avgEntryPrice) * size;
          realizedPnl := realizedPnl + realized;
          shares := shares - size;
          if shares < 0.0 {
            shares := 0.0;
          }
        case OtherFill =>
      }
    }
  }

  class FillRecord {
    const orderId: string
    const fill: Fill
    const midAtFill: Option<real>
    const simulated: bool
    var midAtT30: Option<real>
    var markout30s: Option<real>

    constructor (orderId: string, fill: Fill, midAtFill: Option<real>, simulated: bool)
      ensures this.orderId == orderId && this.fill == fill && this.midAtFill == midAtFill && this.simulated == simulated
      ensures midAtT30 == None && markout30s == None
    {
      this.orderId, this.fill, this.midAtFill, this.simulated := orderId, fill, midAtFill, simulated;
      midAtT30, markout30s := None, None;
    }

    /** The markout is the mid's later move, signed by side. */
    method Mark(mid: real)
      modifies this
      ensures midAtT30 == Some(mid)
      ensures markout30s == if midAtFill.None? then old(markout30s) else
                Some(if fill.side.BuyFill? then mid - midAtFill.value else midAtFill.value - mid)
    {
      midAtT30 := Some(mid);
      if midAtFill.Some? {
        var sideSign := if fill.side == BuyFill then 1.0 else -1.0;
        markout30s := Some((mid - midAtFill.value) * sideSign);
      }
    }
  }

  /** The record objects the events made, by event number. */
  type RecordObjects = map<nat, FillRecord>

  /** One object for each recorded fill, all different. */
  ghost predicate OwnObjects(objects: RecordObjects, events: seq<MarkoutEvent>)
  {
    && (forall n: nat :: n in objects <==> n < |events| && events[n].FillRecorded?)
    && (forall n: nat, m: nat :: n in objects && m in objects && n != m ==> objects[n] != objects[m])
    && (forall n: nat :: n in objects ==> objects[n].simulated == events[n].simulated)
  }

  /** The dictionary holds, for each id, the object of its latest record. */
  ghost predicate HoldsLatest(fills: map<string, FillRecord>, objects: RecordObjects, latest: map<string, RecordRef>)
  {
    && (forall id :: id in fills <==> id in latest)
    && (forall id :: id in fills ==> latest[id].event in objects && fills[id] == objects[latest[id].event])
  }

  lemma {:induction false} HoldsOneMore(fills: map<string, FillRecord>, objects: RecordObjects,
                                        events: seq<MarkoutEvent>,
                                        e: MarkoutEvent, rec: FillRecord)
    requires OwnObjects(objects, events) && HoldsLatest(fills, objects, RunMarkouts(events).latest)
    requires e.FillRecorded? && rec.simulated == e.simulated && forall n :: n in objects ==> objects[n] != rec
    ensures OwnObjects(objects[|events| := rec], events + [e])
    ensures HoldsLatest(fills[e.fillId := rec], objects[|events| := rec], RunMarkouts(events + [e]).latest)
  {
    RunMarkoutsStep(events, e);
    forall id | id in fills ensures RunMarkouts(events).latest[id].event < |events| {
      LatestIsLast(events, id);
    }
  }

  lemma {:induction false} MarkoutEffect(events: seq<MarkoutEvent>, id: string)
    ensures var s, s' := RunMarkouts(events), RunMarkouts(events + [MarkoutRecorded(id)]);
      if id !in s.latest || s.latest[id].simulated then s' == s
      else s'.pending == s.pending - {id} && s'.marked == s.marked + {s.latest[id].event} && s'.latest == s.latest
  {
    RunMarkoutsStep(events, MarkoutRecorded(id));
  }

  lemma {:induction false} HoldsAfterMarkout(fills: map<string, FillRecord>, objects: RecordObjects,
                                             events: seq<MarkoutEvent>, id: string)
    requires OwnObjects(objects, events) && HoldsLatest(fills, objects, RunMarkouts(events).latest)
    ensures OwnObjects(objects, events + [MarkoutRecorded(id)])
    ensures HoldsLatest(fills, objects, RunMarkouts(events + [MarkoutRecorded(id)]).latest)
    ensures id in fills <==> id in RunMarkouts(events).latest
    ensures id in fills ==> fills[id].simulated == RunMarkouts(events).latest[id].simulated
    ensures id in fills ==>
              forall n :: n in objects ==> (objects[n] == fills[id] <==> n == RunMarkouts(events).latest[id].event)
  {
    RunMarkoutsStep(events, MarkoutRecorded(id));
    LatestIsLast(events, id);
  }

  class FillAndPositionLedger {
    var fills: map<string, FillRecord>
    var positions: map<string, PositionRecord>
    var pendingMarkout: set<string>
    ghost var trace: seq<Fill>
    ghost var events: seq<MarkoutEvent>
    ghost var objects: RecordObjects

    /** Each token touched by the trace has its own position object, holding what the trace makes of it. */
    ghost predicate PositionsValid()
      reads this, positions.Values
    {
      && (forall t :: t in positions <==> PositionAfter(trace, t).Some?)
      && (forall t :: t in positions ==> positions[t].Value() == PositionAfter(trace, t).value)
      && (forall t, t' :: t in positions && t' in positions && t != t' ==> positions[t] != positions[t'])
    }

    /** Each recorded fill has its own object, which has a markout exactly when the events say so. */
    ghost predicate FillsValid()
      reads this, objects.Values
    {
      var s := RunMarkouts(events);
      && OwnObjects(objects, events) && HoldsLatest(fills, objects, s.latest)
      && pendingMarkout == s.pending
      && (forall n :: n in s.marked ==> n in objects)
      && (forall n: nat :: n in objects ==> (objects[n].midAtT30.Some? <==> n in s.marked))
    }

    constructor ()
      ensures PositionsValid() && FillsValid() && trace == [] && events == []
    {
      fills, positions, pendingMarkout, trace, events, objects := map[], map[], {}, [], [], map[];
    }

    method UpdatePosition(f: Fill)
      requires PositionsValid()
      modifies this`positions, this`trace, positions.Values
      ensures PositionsValid() && trace == old(trace) + [f]
    {
      if f.tokenId !in positions {
        var newPos := new PositionRecord(f.price);
        positions := positions[f.tokenId := newPos];
      }
      var pos := positions[f.tokenId];
      pos.Apply(f.side, f.price, f.size);
      trace := trace + [f];
      assert trace[..|trace| - 1] == old(trace);
    }

    /** Adds the record of a fill and marks it as pending if it needs a markout. */
    method AddRecord(fillId: string, orderId: string, f: Fill, strategy: string, midAtFill: Option<real>,
                     simulated: bool)
      returns (rec: FillRecord)
      requires FillsValid()
      modifies this`fills, this`pendingMarkout, this`events, this`objects
      ensures FillsValid() && fresh(rec)
      ensures rec.fill == f && rec.orderId == orderId && rec.midAtFill == midAtFill && rec.simulated == simulated
      ensures events == old(events) + [FillRecorded(fillId, strategy, midAtFill.Some?, simulated)]
      ensures objects == old(objects)[|old(events)| := rec] && fills == old(fills)[fillId := rec]
    {
      hide RunMarkouts;
      rec := new FillRecord(orderId, f, midAtFill, simulated);
      ghost var e := FillRecorded(fillId, strategy, midAtFill.Some?, simulated);
      HoldsOneMore(fills, objects, events, e, rec);
      RunMarkoutsStep(events, e);
      fills := fills[fillId := rec];
      if strategy == "A" && midAtFill.Some? && !simulated {
        pendingMarkout := pendingMarkout + {fillId};
      }
      objects, events := objects[|events| := rec], events + [e];
    }

    method RecordFill(fillId: string, orderId: string, f: Fill, strategy: string, midAtFill: Option<real>,
                      simulated: bool)
      returns (rec: FillRecord)
      requires PositionsValid() && FillsValid()
      modifies this, positions.Values
      ensures PositionsValid() && trace == old(trace) + [f]
      ensures FillsValid() && fresh(rec)
      ensures rec.fill == f && rec.orderId == orderId && rec.midAtFill == midAtFill && rec.simulated == simulated
      ensures events == old(events) + [FillRecorded(fillId, strategy, midAtFill.Some?, simulated)]
      ensures objects == old(objects)[|old(events)| := rec] && fills == old(fills)[fillId := rec]
    {
      rec := AddRecord(fillId, orderId, f, strategy, midAtFill, simulated);
      UpdatePosition(f);
    }

    /** Marks the record kept under the id; unknown ids and simulated fills are left alone. */
    method RecordMarkout(fillId: string, midAtT30: real) returns (rec: FillRecord?)
      requires FillsValid()
      modifies this`pendingMarkout, this`events, if fillId in fills && !fills[fillId].simulated then {fills[fillId]}
          else {}
      ensures FillsValid() && fills == old(fills) && objects == old(objects)
      ensures events == old(events) + [MarkoutRecorded(fillId)]
      ensures rec == if fillId in fills then fills[fillId] else null
      ensures rec != null && !rec.simulated ==>
                && rec.midAtT30 == Some(midAtT30)
                && rec.markout30s == if rec.midAtFill.None? then old(rec.markout30s) else
                     Some(if rec.fill.side.BuyFill? then midAtT30 - rec.midAtFill.value
                         else rec.midAtFill.value - midAtT30)
    {
      hide RunMarkouts, NextMarkout, OwnObjects, HoldsLatest;
      HoldsAfterMarkout(fills, objects, events, fillId);
      MarkoutEffect(events, fillId);
      events := events + [MarkoutRecorded(fillId)];
      if fillId !in fills {
        return null;
      }
      rec := fills[fillId];
      if rec.simulated {
        return;
      }
      rec.Mark(midAtT30);
      pendingMarkout := pendingMarkout - {fillId};
    }
  }
}
