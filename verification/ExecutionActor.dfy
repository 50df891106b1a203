/** Applying mutations to the exchange: one batch of cancels, then placements with retries. */
module ExecutionActor {
  import opened Common
  import opened OrderTypes
  import opened Exchange
  import opened RejectionTracking

  const MAX_ATTEMPTS := 3

  /**
   How one attempt to create and post an order ends. Creating it may fail, and may even be rejected
   as a duplicate, before anything is `sent` to the exchange.
   */
  datatype Reply = Posted(orderId: Option<string>) | Duplicate(sent: bool) | Failed(sent: bool)

  predicate IsSent(r: Reply)
  {
    r.Posted? || r.sent
  }

  /** An attempt, its time, and the id of the order it leaves resting, whatever the answer says of it. */
  datatype Attempt = Attempt(reply: Reply, at: real, rested: Option<string>)

  /** What the exchange would answer to the attempts of one placement, and when. */
  datatype PlaceScript = PlaceScript(startedAt: real, attempts: seq<Attempt>)

  ghost predicate Complete(script: PlaceScript)
  {
    |script.attempts| == MAX_ATTEMPTS
  }

  // ----- One placement -----

  /** The id of the first answer that is not a duplicate rejection. */
  function Outcome(attempts: seq<Attempt>): Option<string>
  {
    if attempts == [] then None
    else match attempts[0].reply
      case Posted(orderId) => orderId
      case Duplicate(_) => Outcome(attempts[1..])
      case Failed(_) => None
  }

  /** The posts sent by the attempts made: those up to the first that is not a duplicate rejection. */
  function PostsSent(attempts: seq<Attempt>): (n: nat)
    ensures n <= |attempts|
  {
    if attempts == [] then 0
    else
      (if IsSent(attempts[0].reply) then 1 else 0)
      + if attempts[0].reply.Duplicate? then PostsSent(attempts[1..]) else 0
  }

  function AfterAttempts(t: TrackerState, attempts: seq<Attempt>, thresholdPct: real): TrackerState
    decreases |attempts|
  {
    if attempts == [] then t
    else match attempts[0].reply
      case Posted(_) => WithMode(t, thresholdPct)
      case Duplicate(_) =>
        AfterAttempts(WithMode(Recorded(t, Rejection(attempts[0].at)), thresholdPct), attempts[1..], thresholdPct)
      case Failed(_) => t
  }

  function AfterPlacement(t: TrackerState, script: PlaceScript, thresholdPct: real): TrackerState
  {
    AfterAttempts(Recorded(t, Placement(script.startedAt)), script.attempts, thresholdPct)
  }

  /** Attempt `k` is made: every earlier one met a duplicate rejection. */
  ghost predicate Made(attempts: seq<Attempt>, k: int)
  {
    0 <= k < |attempts| && forall j :: 0 <= j < k ==> attempts[j].reply.Duplicate?
  }

  lemma {:induction false} MadeStep(attempts: seq<Attempt>, k: int)
    requires attempts != [] && attempts[0].reply.Duplicate?
    ensures Made(attempts, k + 1) && k >= 0 <==> Made(attempts[1..], k)
  {
    assert forall j :: 0 <= j < |attempts| - 1 ==> attempts[1..][j] == attempts[j + 1];
    if Made(attempts[1..], k) {
      forall j | 0 < j < k + 1 ensures attempts[j].reply.Duplicate? {
        assert attempts[1..][j - 1] == attempts[j];
      }
    }
  }

  /** A placement succeeds exactly when some attempt made is posted with an id. */
  lemma {:induction false} OutcomeIff(attempts: seq<Attempt>, id: string)
    ensures Outcome(attempts) == Some(id) <==> exists k :: Made(attempts, k) && attempts[k].reply == Posted(Some(id))
  {
    if attempts != [] {
      var rest := attempts[1..];
      OutcomeIff(rest, id);
      if !attempts[0].reply.Duplicate? {
        assert Made(attempts, 0);
      } else {
        if k :| Made(rest, k) && rest[k].reply == Posted(Some(id)) {
          MadeStep(attempts, k);
          assert Made(attempts, k + 1) && attempts[k + 1] == rest[k];
        }
        if k :| Made(attempts, k) && attempts[k].reply == Posted(Some(id)) {
          MadeStep(attempts, k - 1);
          assert Made(rest, k - 1) && rest[k - 1] == attempts[k];
        }
      }
    }
  }

  /**
   After a placement the mode tells whether the rejections, in percent of the placements, exceed the
   threshold, unless its first attempt failed outright.
   */
  lemma {:induction false} ModeAfterPlacement(t: TrackerState, script: PlaceScript, thresholdPct: real)
    requires Complete(script)
    ensures var after := AfterPlacement(t, script, thresholdPct);
      after.confirmCancel == if script.attempts[0].reply.Failed? then t.confirmCancel
                             else if after.placements == 0 then 0.0 > thresholdPct
                             else after.rejections as real * 100.0 > thresholdPct * after.placements as real
  {
    hide RejectionRatePct;
    RateExceeds(AfterPlacement(t, script, thresholdPct), thresholdPct);
    var placed := Recorded(t, Placement(script.startedAt));
    match script.attempts[0].reply {
      case Posted(_) =>
        ModeIsCurrent(placed, thresholdPct);
      case Duplicate(_) =>
        var once := Recorded(placed, Rejection(script.attempts[0].at));
        ModeIsCurrent(once, thresholdPct);
        ModeStaysCurrent(WithMode(once, thresholdPct), script.attempts[1..], thresholdPct);
      case Failed(_) =>
    }
  }

  lemma {:induction false} ModeIsCurrent(t: TrackerState, thresholdPct: real)
    ensures var after := WithMode(t, thresholdPct);
      after.confirmCancel == (RejectionRatePct(after) > thresholdPct)
  {
  }

  lemma {:induction false} ModeStaysCurrent(t: TrackerState, attempts: seq<Attempt>, thresholdPct: real)
    requires t.confirmCancel == (RejectionRatePct(t) > thresholdPct)
    ensures var after := AfterAttempts(t, attempts, thresholdPct);
      after.confirmCancel == (RejectionRatePct(after) > thresholdPct)
    decreases |attempts|
  {
    hide RejectionRatePct;
    if attempts != [] && attempts[0].reply.Duplicate? {
      var once := Recorded(t, Rejection(attempts[0].at));
      ModeIsCurrent(once, thresholdPct);
      ModeStaysCurrent(WithMode(once, thresholdPct), attempts[1..], thresholdPct);
    } else if attempts != [] && attempts[0].reply.Posted? {
      ModeIsCurrent(t, thresholdPct);
    }
  }

  /** What a placement adds to the history of its tracker. */
  ghost function RejectionEvents(attempts: seq<Attempt>): seq<TrackerEvent>
  {
    if attempts == [] || !attempts[0].reply.Duplicate? then []
    else [Rejection(attempts[0].at)] + RejectionEvents(attempts[1..])
  }

  ghost predicate SameCounters(a: TrackerState, b: TrackerState)
  {
    a.placements == b.placements && a.rejections == b.rejections && a.windowStart == b.windowStart
  }

  lemma {:induction false} RecordedTheSame(a: TrackerState, b: TrackerState, e: TrackerEvent, thresholdPct: real)
    requires SameCounters(a, b)
    ensures SameCounters(WithMode(Recorded(a, e), thresholdPct), Recorded(b, e))
  {
  }

  lemma {:induction false} OneMoreRejection(trace: seq<TrackerEvent>, attempts: seq<Attempt>)
    requires attempts != [] && attempts[0].reply.Duplicate?
    ensures trace + RejectionEvents(attempts) == trace + [Rejection(attempts[0].at)] + RejectionEvents(attempts[1..])
  {
  }

  lemma {:induction false} AttemptsExtendTrace(start: real, trace: seq<TrackerEvent>, t: TrackerState,
                                               attempts: seq<Attempt>, thresholdPct: real)
    requires SameCounters(t, RunTracker(start, trace))
    ensures SameCounters(AfterAttempts(t, attempts, thresholdPct), RunTracker(start, trace + RejectionEvents(attempts)))
    decreases |attempts|
  {
    hide RejectionRatePct, Recorded, RunTracker;
    if attempts == [] || !attempts[0].reply.Duplicate? {
      assert trace + [] == trace;
    } else {
      var e := Rejection(attempts[0].at);
      RunStep(start, trace, e);
      RecordedTheSame(t, RunTracker(start, trace), e, thresholdPct);
      AttemptsExtendTrace(start, trace + [e], WithMode(Recorded(t, e), thresholdPct), attempts[1..], thresholdPct);
      OneMoreRejection(trace, attempts);
    }
  }

  /**
   One placement counts once, and each duplicate rejection of it once, so the window theorem applies
   to whole runs of placements.
   */
  lemma {:induction false} PlacementExtendsTrace(start: real, trace: seq<TrackerEvent>, t: TrackerState,
                                                 script: PlaceScript, thresholdPct: real)
    requires SameCounters(t, RunTracker(start, trace))
    ensures SameCounters(AfterPlacement(t, script, thresholdPct),
                         RunTracker(start, trace + [Placement(script.startedAt)] + RejectionEvents(script.attempts)))
  {
    var e := Placement(script.startedAt);
    RunStep(start, trace, e);
    AttemptsExtendTrace(start, trace + [e], Recorded(t, e), script.attempts, thresholdPct);
  }

  // ----- A batch of mutations -----

  datatype ApplyResult = Applied(cancelled: seq<string>, placed: seq<string>) | Raised

  /** Requests to the exchange, in the order they are sent. */
  datatype Call = CancelOrders(orderIds: seq<string>, awaited: bool) | PostOrder(intent: OrderIntent)

  function CancelTokens(mutations: seq<OrderMutation>): (tokens: seq<string>)
    ensures |tokens| == |CancelIds(mutations)|
  {
    if mutations == [] then []
    else (if mutations[0].Cancel? then [mutations[0].tokenId] else []) + CancelTokens(mutations[1..])
  }

  /** The id the caller learns: an accepted order without an id goes unnoticed. */
  function Ack(script: PlaceScript): Option<string>
  {
    if Outcome(script.attempts) == Some("") then None else Outcome(script.attempts)
  }

  function Acks(scripts: seq<PlaceScript>): (acks: seq<Option<string>>)
    ensures |acks| == |scripts|
  {
    seq(|scripts|, k requires 0 <= k < |scripts| => Ack(scripts[k]))
  }

  function Reported(script: PlaceScript): seq<string>
  {
    if Ack(script).Some? then [Ack(script).value] else []
  }

  function PlacedIds(scripts: seq<PlaceScript>): seq<string>
  {
    if scripts == [] then [] else PlacedIds(scripts[..|scripts| - 1]) + Reported(scripts[|scripts| - 1])
  }

  function PostCalls(intent: OrderIntent, count: nat): seq<Call>
  {
    seq(count, _ => PostOrder(intent))
  }

  function PlaceCalls(intents: seq<OrderIntent>, scripts: seq<PlaceScript>): seq<Call>
    requires |scripts| == |intents|
  {
    if intents == [] then []
    else
      var last := |intents| - 1;
      PlaceCalls(intents[..last], scripts[..last]) + PostCalls(intents[last], PostsSent(scripts[last].attempts))
  }

  function SideText(side: Side): string
  {
    if side.Buy? then "BUY" else "SELL"
  }

  function DryRunIds(intents: seq<OrderIntent>): seq<string>
  {
    seq(|intents|, k requires 0 <= k < |intents| => "dry_run_" + intents[k].tokenId + "_" + SideText(intents[k].side))
  }

  type Trackers = map<string, TrackerState>

  function TrackerFor(trackers: Trackers, tokenId: string, now: real): TrackerState
  {
    if tokenId in trackers then trackers[tokenId] else NewTracker(now)
  }

  function AfterPlace(trackers: Trackers, tokenId: string, script: PlaceScript, thresholdPct: real): Trackers
  {
    trackers[tokenId := AfterPlacement(TrackerFor(trackers, tokenId, script.startedAt), script, thresholdPct)]
  }

  function AfterPlaces(trackers: Trackers, intents: seq<OrderIntent>, scripts: seq<PlaceScript>,
                       thresholdPct: real): Trackers
    requires |scripts| == |intents|
  {
    if intents == [] then trackers
    else
      var last := |intents| - 1;
      AfterPlace(AfterPlaces(trackers, intents[..last], scripts[..last], thresholdPct), intents[last].tokenId,
          scripts[last], thresholdPct)
  }

  /** The trackers after the batch of cancels looked up its first token. */
  function AfterCancels(trackers: Trackers, mutations: seq<OrderMutation>, now: real): Trackers
  {
    var tokens := CancelTokens(mutations);
    if tokens == [] then trackers else trackers[tokens[0] := TrackerFor(trackers, tokens[0], now)]
  }

  /** The batch of cancels is awaited when the first cancelled token is in confirm-cancel mode. */
  predicate Awaits(trackers: Trackers, mutations: seq<OrderMutation>)
  {
    var tokens := CancelTokens(mutations);
    tokens != [] && tokens[0] in trackers && trackers[tokens[0]].confirmCancel
  }

  function CancelCalls(trackers: Trackers, mutations: seq<OrderMutation>): seq<Call>
  {
    if CancelIds(mutations) == [] then [] else [CancelOrders(CancelIds(mutations), Awaits(trackers, mutations))]
  }

  lemma {:induction false} NothingPlaced(trackers: Trackers, thresholdPct: real)
    ensures AfterPlaces(trackers, [], [], thresholdPct) == trackers && PlacedIds([]) == [] && PlaceCalls([], []) == []
  {
  }

  /** One more placement. */
  lemma {:induction false} PlaceStep(trackers: Trackers, intents: seq<OrderIntent>, scripts: seq<PlaceScript>, k: nat,
                                     thresholdPct: real)
    requires k < |intents| == |scripts|
    ensures AfterPlaces(trackers, intents[..k + 1], scripts[..k + 1], thresholdPct)
         == AfterPlace(AfterPlaces(trackers, intents[..k], scripts[..k], thresholdPct), intents[k].tokenId,
                       scripts[k], thresholdPct)
    ensures PlacedIds(scripts[..k + 1])
         == PlacedIds(scripts[..k]) + (var id := Outcome(scripts[k].attempts);
                                       if id.Some? && id.value != "" then [id.value] else [])
    ensures PlaceCalls(intents[..k + 1], scripts[..k + 1])
         == PlaceCalls(intents[..k], scripts[..k]) + PostCalls(intents[k], PostsSent(scripts[k].attempts))
  {
    assert intents[..k + 1][..k] == intents[..k] && scripts[..k + 1][..k] == scripts[..k];
    hide AfterPlace, PostCalls, Outcome, PostsSent;
  }

  class ExecutionActor {
    const dryRun: bool
    const thresholdPct: real
    var trackers: map<string, RejectionTracker>

    /** Each token has its own tracker. */
    ghost predicate Valid()
      reads this
    {
      forall a, b :: a in trackers && b in trackers && a != b ==> trackers[a] != trackers[b]
    }

    ghost function View(): Trackers
      reads this, trackers.Values
    {
      map t | t in trackers :: trackers[t].View()
    }

    constructor (dryRun: bool, thresholdPct: real)
      ensures Valid() && trackers == map[] && this.dryRun == dryRun && this.thresholdPct == thresholdPct
    {
      this.dryRun, this.thresholdPct, trackers := dryRun, thresholdPct, map[];
    }

    method Tracker(tokenId: string, now: real) returns (t: RejectionTracker)
      requires Valid()
      modifies this`trackers
      ensures Valid() && tokenId in trackers && t == trackers[tokenId]
      ensures fresh(trackers.Values - old(trackers.Values))
      ensures View() == old(View())[tokenId := TrackerFor(old(View()), tokenId, now)]
    {
      if tokenId !in trackers {
        var created := new RejectionTracker(now);
        trackers := trackers[tokenId := created];
      }
      t := trackers[tokenId];
    }

    /** Up to three attempts: duplicates are counted and retried, anything else ends the placement. */
    method Retry(t: RejectionTracker, attempts: seq<Attempt>) returns (orderId: Option<string>, posts: nat)
      modifies t
      ensures t.View() == AfterAttempts(old(t.View()), attempts, thresholdPct)
      ensures orderId == Outcome(attempts) && posts == PostsSent(attempts)
    {
      orderId, posts := None, 0;
      for k := 0 to |attempts|
        invariant AfterAttempts(t.View(), attempts[k..], thresholdPct)
            == AfterAttempts(old(t.View()), attempts, thresholdPct)
        invariant Outcome(attempts[k..]) == Outcome(attempts)
        invariant posts + PostsSent(attempts[k..]) == PostsSent(attempts)
      {
        posts := posts + if IsSent(attempts[k].reply) then 1 else 0;
        match attempts[k].reply {
          case Posted(id) =>
            t.UpdateConfirmCancelMode(thresholdPct);
            return id, posts;
          case Duplicate(_) =>
            t.RecordRejection(attempts[k].at);
            t.UpdateConfirmCancelMode(thresholdPct);
          case Failed(_) =>
            return None, posts;
        }
      }
    }

    /** One placement on its token's tracker. */
    method PlaceOn(t: RejectionTracker, script: PlaceScript) returns (orderId: Option<string>, posts: nat)
      modifies t
      ensures t.View() == AfterPlacement(old(t.View()), script, thresholdPct)
      ensures orderId == Outcome(script.attempts) && posts == PostsSent(script.attempts)
    {
      t.RecordPlacement(script.startedAt);
      orderId, posts := Retry(t, script.attempts);
    }

    method PlaceWithRetry(intent: OrderIntent, script: PlaceScript) returns (orderId: Option<string>, calls: seq<Call>)
      requires Valid() && Complete(script)
      modifies this`trackers, trackers.Values
      ensures Valid()
      ensures fresh(trackers.Values - old(trackers.Values))
      ensures View() == AfterPlace(old(View()), intent.tokenId, script, thresholdPct)
      ensures orderId == Outcome(script.attempts)
      ensures calls == PostCalls(intent, PostsSent(script.attempts))
    {
      hide AfterPlacement, TrackerFor, Outcome, PostsSent, PostCalls;
      var t := Tracker(intent.tokenId, script.startedAt);
      var posts;
      orderId, posts := PlaceOn(t, script);
      calls := PostCalls(intent, posts);
    }

    method PlaceAll(intents: seq<OrderIntent>, scripts: seq<PlaceScript>)
      returns (placed: seq<string>, calls: seq<Call>)
      requires Valid() && |scripts| == |intents|
      requires forall script :: script in scripts ==> Complete(script)
      modifies this`trackers, trackers.Values
      ensures Valid()
      ensures View() == AfterPlaces(old(View()), intents, scripts, thresholdPct)
      ensures placed == PlacedIds(scripts) && calls == PlaceCalls(intents, scripts)
    {
      hide AfterPlace, AfterPlaces, PostCalls, PlaceCalls, PlacedIds, Outcome, PostsSent;
      placed, calls := [], [];
      NothingPlaced(View(), thresholdPct);
      for k := 0 to |intents|
        invariant Valid() && fresh(trackers.Values - old(trackers.Values))
        invariant View() == AfterPlaces(old(View()), intents[..k], scripts[..k], thresholdPct)
        invariant placed == PlacedIds(scripts[..k]) && calls == PlaceCalls(intents[..k], scripts[..k])
      {
        PlaceStep(old(View()), intents, scripts, k, thresholdPct);
        var orderId, posts := PlaceWithRetry(intents[k], scripts[k]);
        if orderId.Some? && orderId.value != "" {
          placed := placed + [orderId.value];
        }
        calls := calls + posts;
      }
      assert intents[..|intents|] == intents && scripts[..|scripts|] == scripts;
    }

    /** Sends the batch of cancels, if any; it is awaited in confirm-cancel mode. */
    method CancelBatch(mutations: seq<OrderMutation>, now: real) returns (awaited: bool, calls: seq<Call>)
      requires Valid()
      modifies this`trackers
      ensures Valid() && fresh(trackers.Values - old(trackers.Values))
      ensures View() == AfterCancels(old(View()), mutations, now)
      ensures awaited == Awaits(old(View()), mutations) && calls == CancelCalls(old(View()), mutations)
    {
      awaited, calls := false, [];
      var cancelIds := CancelIds(mutations);
      if cancelIds != [] {
        var tokenId := CancelTokens(mutations)[0];
        var first := Tracker(tokenId, now);
        assert first.View() == View()[tokenId];
        awaited := first.confirmCancelMode;
        calls := [CancelOrders(cancelIds, awaited)];
      }
    }

    /**
     `scripts` holds the exchange's answers to each place; `cancelRaises` says whether an awaited
     batch of cancels fails.
     */
    method Apply(mutations: seq<OrderMutation>, now: real, scripts: seq<PlaceScript>, cancelRaises: bool)
      returns (result: ApplyResult, calls: seq<Call>)
      requires Valid() && |scripts| == |PlaceIntents(mutations)|
      requires forall script :: script in scripts ==> Complete(script)
      modifies this`trackers, trackers.Values
      ensures Valid()
      ensures dryRun ==>
                && calls == [] && View() == old(View())
                && result == Applied(CancelIds(mutations), DryRunIds(PlaceIntents(mutations)))
      ensures !dryRun && Awaits(old(View()), mutations) && cancelRaises ==>
                && result == Raised && calls == CancelCalls(old(View()), mutations)
                && View() == AfterCancels(old(View()), mutations, now)
      ensures !dryRun && !(Awaits(old(View()), mutations) && cancelRaises) ==>
                && result == Applied(CancelIds(mutations), PlacedIds(scripts))
                && calls == CancelCalls(old(View()), mutations) + PlaceCalls(PlaceIntents(mutations), scripts)
                && View() == AfterPlaces(AfterCancels(old(View()), mutations, now), PlaceIntents(mutations), scripts,
                   thresholdPct)
    {
      var cancelIds, intents := CancelIds(mutations), PlaceIntents(mutations);
      if dryRun {
        return Applied(cancelIds, DryRunIds(intents)), [];
      }
      var awaited;
      awaited, calls := CancelBatch(mutations, now);
      if awaited && cancelRaises {
        return Raised, calls;
      }
      var placed, posts := PlaceAll(intents, scripts);
      result, calls := Applied(cancelIds, placed), calls + posts;
    }
  }

  // ----- The actor and the exchange -----

  lemma {:induction false} AcknowledgedIds(intents: seq<OrderIntent>, scripts: seq<PlaceScript>)
    requires |scripts| == |intents|
    ensures IdSeq(Acknowledged(intents, Acks(scripts))) == PlacedIds(scripts)
  {
    hide PlacedIds, Outcome;
    NoneReported();
    if intents != [] {
      assert Acks(scripts)[1..] == Acks(scripts[1..]);
      AcknowledgedIds(intents[1..], scripts[1..]);
      assert scripts == [scripts[0]] + scripts[1..];
      PlacedFirst(scripts[0], scripts[1..]);
    }
  }

  lemma {:induction false} NoneReported()
    ensures PlacedIds([]) == []
  {
  }

  lemma {:induction false} PlacedLast(scripts: seq<PlaceScript>, init: seq<PlaceScript>, last: PlaceScript)
    requires scripts == init + [last]
    ensures PlacedIds(scripts) == PlacedIds(init) + Reported(last)
  {
    assert scripts[..|scripts| - 1] == init;
  }

  lemma {:induction false} PlacedFirst(first: PlaceScript, rest: seq<PlaceScript>)
    ensures PlacedIds([first] + rest) == Reported(first) + PlacedIds(rest)
  {
    if rest == [] {
      assert [first] + rest == [first] && PlacedIds([first][..0]) == [];
    } else {
      hide PlacedIds, Reported;
      var init, last := rest[..|rest| - 1], rest[|rest| - 1];
      assert rest == init + [last];
      PlacedFirst(first, init);
      Regroup([first], init, [last]);
      PlacedLast([first] + rest, [first] + init, last);
      PlacedLast(rest, init, last);
      Regroup(Reported(first), PlacedIds(init), Reported(last));
    }
  }

  /** The id an answer tells, if any. */
  function Told(a: Attempt): Option<string>
  {
    if a.reply.Posted? && a.reply.orderId != Some("") then a.reply.orderId else None
  }

  /** An attempt that is not sent leaves nothing resting. */
  function Leaves(a: Attempt): Option<string>
  {
    if IsSent(a.reply) then a.rested else None
  }

  /** The ids left resting by the attempts made. */
  function RestedBy(attempts: seq<Attempt>): seq<string>
  {
    if attempts == [] then []
    else
      (if Leaves(attempts[0]).Some? then [Leaves(attempts[0]).value] else [])
      + if attempts[0].reply.Duplicate? then RestedBy(attempts[1..]) else []
  }

  function OrdersWithIds(intent: OrderIntent, ids: seq<string>): (orders: seq<ConfirmedOrder>)
    ensures |orders| == |ids|
  {
    seq(|ids|, k requires 0 <= k < |ids| => AsOrder(intent, ids[k]))
  }

  /** What the places leave resting, told or not. */
  function NewlyResting(intents: seq<OrderIntent>, scripts: seq<PlaceScript>): seq<ConfirmedOrder>
    requires |scripts| == |intents|
  {
    if intents == [] then []
    else OrdersWithIds(intents[0], RestedBy(scripts[0].attempts)) + NewlyResting(intents[1..], scripts[1..])
  }

  /** What rests on the exchange once the cancels are carried out and the attempts made. */
  function OnExchange(resting: seq<ConfirmedOrder>, mutations: seq<OrderMutation>,
                      scripts: seq<PlaceScript>): seq<ConfirmedOrder>
    requires |scripts| == |PlaceIntents(mutations)|
  {
    Excluding(resting, set id | id in CancelIds(mutations)) + NewlyResting(PlaceIntents(mutations), scripts)
  }

  /** An id in an answer is that of the order the attempt leaves resting. */
  ghost predicate Truthful(script: PlaceScript)
  {
    forall a :: a in script.attempts && Told(a).Some? ==> a.rested == Told(a)
  }

  /** Every order that an attempt made leaves resting is told by its answer. */
  ghost predicate AllTold(script: PlaceScript)
  {
    forall k :: Made(script.attempts, k) && Leaves(script.attempts[k]).Some? ==>
      script.attempts[k].reply == Posted(script.attempts[k].rested) && script.attempts[k].rested != Some("")
  }

  lemma {:induction false} AllToldStep(attempts: seq<Attempt>, startedAt: real)
    requires attempts != []
    ensures var first := attempts[0];
      AllTold(PlaceScript(startedAt, attempts)) <==>
        && (Leaves(first).Some? ==> first.reply == Posted(first.rested) && first.rested != Some(""))
        && (first.reply.Duplicate? ==> AllTold(PlaceScript(startedAt, attempts[1..])))
  {
  }

  /** Nothing is reported that does not rest; more rests than is reported exactly if some order is not told. */
  lemma {:induction false} ReportedOfRested(attempts: seq<Attempt>, startedAt: real)
    requires Truthful(PlaceScript(startedAt, attempts))
    ensures var script := PlaceScript(startedAt, attempts);
      && |Reported(script)| <= |RestedBy(attempts)|
      && (AllTold(script) ==> RestedBy(attempts) == Reported(script))
      && (!AllTold(script) ==> |Reported(script)| < |RestedBy(attempts)|)
  {
    if attempts != [] {
      AllToldStep(attempts, startedAt);
      assert attempts[0] in attempts;
      if attempts[0].reply.Duplicate? {
        assert Truthful(PlaceScript(startedAt, attempts[1..]));
        ReportedOfRested(attempts[1..], startedAt);
      }
    }
  }

  /** The orders the bot learns of are all that come to rest, or fewer. */
  lemma {:induction false} LearntOfRested(intents: seq<OrderIntent>, scripts: seq<PlaceScript>)
    requires |scripts| == |intents|
    requires forall script :: script in scripts ==> Truthful(script)
    ensures var learnt, resting := Acknowledged(intents, Acks(scripts)), NewlyResting(intents, scripts);
      && |learnt| <= |resting|
      && ((forall script :: script in scripts ==> AllTold(script)) ==> learnt == resting)
      && ((exists script :: script in scripts && !AllTold(script)) ==> |learnt| < |resting|)
  {
    hide Truthful, AllTold, RestedBy, Ack;
    if intents != [] {
      assert Acks(scripts)[1..] == Acks(scripts[1..]);
      LearntOfRested(intents[1..], scripts[1..]);
      assert scripts[0] in scripts;
      ReportedOfRested(scripts[0].attempts, scripts[0].startedAt);
    }
  }

  lemma {:induction false} BelievedIds(resting: seq<ConfirmedOrder>, mutations: seq<OrderMutation>,
                                       scripts: seq<PlaceScript>)
    requires |scripts| == |PlaceIntents(mutations)|
    ensures IdSeq(After(resting, mutations, Acks(scripts)))
         == IdSeq(Excluding(resting, set id | id in CancelIds(mutations))) + PlacedIds(scripts)
  {
    AcknowledgedIds(PlaceIntents(mutations), scripts);
    var kept := Excluding(resting, set id | id in CancelIds(mutations));
    var placed := Acknowledged(PlaceIntents(mutations), Acks(scripts));
    assert IdSeq(kept + placed) == IdSeq(kept) + IdSeq(placed);
  }

  /**
   The book that the bot believes in, and whose ids it reports, is the one on the exchange if and only
   if every order that an attempt made leaves resting is told by its answer. Otherwise more rests than
   is reported: an order whose answer was lost, was taken for a duplicate, or carried no id.
   */
  lemma {:induction false} ReportMatchesExchange(resting: seq<ConfirmedOrder>, mutations: seq<OrderMutation>,
                                                 scripts: seq<PlaceScript>)
    requires |scripts| == |PlaceIntents(mutations)|
    requires forall script :: script in scripts ==> Truthful(script)
    ensures var believed, actual := After(resting, mutations, Acks(scripts)), OnExchange(resting, mutations, scripts);
      && IdSeq(believed) == IdSeq(Excluding(resting, set id | id in CancelIds(mutations))) + PlacedIds(scripts)
      && |believed| <= |actual|
      && (believed == actual <==> forall script :: script in scripts ==> AllTold(script))
      && (IdSeq(believed) == IdSeq(actual) <==> forall script :: script in scripts ==> AllTold(script))
  {
    hide Truthful, AllTold, Excluding, Acknowledged, NewlyResting, PlacedIds, CancelIds, PlaceIntents, Acks;
    BelievedIds(resting, mutations, scripts);
    LearntOfRested(PlaceIntents(mutations), scripts);
  }

  /** A post whose answer is lost: its order rests, and the actor reports nothing. */
  lemma {:induction false} LostPostRests(intent: OrderIntent) returns (script: PlaceScript)
    ensures Complete(script) && Truthful(script) && !AllTold(script)
    ensures PlacedIds([script]) == [] && NewlyResting([intent], [script]) == [AsOrder(intent, "7")]
  {
    var lost := Attempt(Failed(true), 0.0, Some("7"));
    script := PlaceScript(0.0, [lost, lost, lost]);
    assert Made(script.attempts, 0);
    assert RestedBy(script.attempts) == ["7"];
    assert [script][1..] == [] && [intent][1..] == [] && [script][..0] == [];
    assert OrdersWithIds(intent, ["7"]) == [AsOrder(intent, "7")];
  }

  /** A placement sends a post exactly when some attempt made reaches it. */
  lemma {:induction false} PostedIff(attempts: seq<Attempt>)
    ensures PostsSent(attempts) >= 1 <==> exists k :: Made(attempts, k) && IsSent(attempts[k].reply)
  {
    if attempts != [] {
      var rest := attempts[1..];
      PostedIff(rest);
      if IsSent(attempts[0].reply) {
        assert Made(attempts, 0);
      } else if attempts[0].reply.Duplicate? {
        if k :| Made(rest, k) && IsSent(rest[k].reply) {
          MadeStep(attempts, k);
          assert Made(attempts, k + 1) && attempts[k + 1] == rest[k];
        }
        if k :| Made(attempts, k) && IsSent(attempts[k].reply) {
          MadeStep(attempts, k - 1);
          assert Made(rest, k - 1) && rest[k - 1] == attempts[k];
        }
      }
    }
  }

  // ----- The calls sent -----

  /** The attempts made that reach the exchange. */
  ghost function Reaching(attempts: seq<Attempt>): set<int>
  {
    set k | 0 <= k < |attempts| && Made(attempts, k) && (attempts[k].reply.Posted? || attempts[k].reply.sent)
  }

  ghost function OneUp(s: set<int>): set<int>
  {
    set k | k in s :: k + 1
  }

  lemma {:induction false} OneUpSize(s: set<int>)
    ensures |OneUp(s)| == |s|
    decreases |s|
  {
    if s == {} {
      assert OneUp(s) == {};
    } else {
      var x := Pick(s);
      OneUpSize(s - {x});
      assert OneUp(s) == OneUp(s - {x}) + {x + 1} by {
        forall y | y in OneUp(s) && y != x + 1 ensures y in OneUp(s - {x}) {
          assert y - 1 in s - {x};
        }
      }
    }
  }

  lemma {:induction false} ReachingStep(attempts: seq<Attempt>)
    requires attempts != []
    ensures Reaching(attempts) ==
              (if attempts[0].reply.Duplicate? then OneUp(Reaching(attempts[1..])) else {})
              + if attempts[0].reply.Posted? || attempts[0].reply.sent then {0} else {}
  {
    var rest := attempts[1..];
    forall k | k > 0 ensures k in Reaching(attempts) <==> attempts[0].reply.Duplicate? && k - 1 in Reaching(rest) {
      if attempts[0].reply.Duplicate? {
        MadeStep(attempts, k - 1);
      }
    }
    forall k | k > 0 ensures k in OneUp(Reaching(rest)) <==> k - 1 in Reaching(rest) {
    }
  }

  lemma {:induction false} SentIsReaching(attempts: seq<Attempt>)
    ensures PostsSent(attempts) == |Reaching(attempts)|
  {
    if attempts == [] {
      assert Reaching(attempts) == {};
    } else {
      ReachingStep(attempts);
      SentIsReaching(attempts[1..]);
      OneUpSize(Reaching(attempts[1..]));
      assert 0 !in OneUp(Reaching(attempts[1..]));
    }
  }

  ghost function CallsFor(origin: seq<int>, k: int): set<int>
  {
    set c | 0 <= c < |origin| && origin[c] == k
  }

  /** Call `c` posts the intent `origin[c]`, none out of turn, and each as often as an attempt reached the exchange. */
  ghost predicate PostsInTurn(calls: seq<Call>, origin: seq<int>, intents: seq<OrderIntent>, scripts: seq<PlaceScript>)
    requires |scripts| == |intents|
  {
    && |origin| == |calls|
    && (forall c :: 0 <= c < |calls| ==> 0 <= origin[c] < |intents| && calls[c] == PostOrder(intents[origin[c]]))
    && (forall c, d :: 0 <= c < d < |calls| ==> origin[c] <= origin[d])
    && (forall k :: 0 <= k < |intents| ==> |CallsFor(origin, k)| == |Reaching(scripts[k].attempts)|)
  }

  lemma {:induction false} AppendOrigin(origin: seq<int>, last: int, n: nat, k: int)
    requires forall c :: 0 <= c < |origin| ==> origin[c] < last
    ensures |CallsFor(origin + seq(n, _ => last), k)| == if k == last then n else |CallsFor(origin, k)|
    decreases n
  {
    if n == 0 {
      assert origin + seq(0, _ => last) == origin;
      assert k == last ==> CallsFor(origin, k) == {};
    } else {
      AppendOrigin(origin, last, n - 1, k);
      var less := origin + seq(n - 1, _ => last);
      var more := origin + seq(n, _ => last);
      assert more == less + [last];
      assert CallsFor(more, k) == CallsFor(less, k) + if k == last then {|less|} else {};
    }
  }

  /**
   The calls after the batch of cancels post the intents of the mutation list in its order, the k-th
   exactly as often as an attempt of its placement reached the exchange.
   */
  lemma {:induction false} CallsPostIntents(intents: seq<OrderIntent>, scripts: seq<PlaceScript>)
    returns (origin: seq<int>)
    requires |scripts| == |intents|
    ensures PostsInTurn(PlaceCalls(intents, scripts), origin, intents, scripts)
  {
    origin := [];
    if intents != [] {
      var last := |intents| - 1;
      var before := CallsPostIntents(intents[..last], scripts[..last]);
      var n := PostsSent(scripts[last].attempts);
      origin := before + seq(n, _ => last);
      SentIsReaching(scripts[last].attempts);
      forall k | 0 <= k < |intents| ensures |CallsFor(origin, k)| == |Reaching(scripts[k].attempts)| {
        AppendOrigin(before, last, n, k);
        assert k < last ==> scripts[..last][k] == scripts[k];
      }
      forall c | 0 <= c < |origin|
        ensures 0 <= origin[c] < |intents| && PlaceCalls(intents, scripts)[c] == PostOrder(intents[origin[c]])
      {
        assert c < |before| ==> intents[..last][before[c]] == intents[before[c]];
      }
    }
  }

  /** An order newly resting is the one some call has sent. */
  lemma {:induction false} RestingWasSent(intents: seq<OrderIntent>, scripts: seq<PlaceScript>, o: ConfirmedOrder)
    returns (i: OrderIntent)
    requires |scripts| == |intents| && o in NewlyResting(intents, scripts)
    ensures PostOrder(i) in PlaceCalls(intents, scripts)
    ensures o.tokenId == i.tokenId && o.side == i.side && o.price == i.price && o.size == i.size
    ensures o.timeInForce == i.timeInForce && o.postOnly == i.postOnly && o.strategy == i.strategy
  {
    var k := RestingFrom(intents, scripts, o);
    i := intents[k];
    var origin := CallsPostIntents(intents, scripts);
    RestedWasSent(scripts[k].attempts);
    SentIsReaching(scripts[k].attempts);
    assert |CallsFor(origin, k)| > 0;
    var c := Pick(CallsFor(origin, k));
    assert PlaceCalls(intents, scripts)[c] == PostOrder(i);
  }

  lemma {:induction false} RestedWasSent(attempts: seq<Attempt>)
    ensures RestedBy(attempts) != [] ==> PostsSent(attempts) > 0
  {
    if attempts != [] {
      RestedWasSent(attempts[1..]);
    }
  }

  lemma {:induction false} RestingFrom(intents: seq<OrderIntent>, scripts: seq<PlaceScript>, o: ConfirmedOrder)
    returns (k: nat)
    requires |scripts| == |intents| && o in NewlyResting(intents, scripts)
    ensures k < |intents| && RestedBy(scripts[k].attempts) != []
    ensures o.tokenId == intents[k].tokenId && o.side == intents[k].side && o.price == intents[k].price
    ensures o.size == intents[k].size && o.timeInForce == intents[k].timeInForce
    ensures o.postOnly == intents[k].postOnly && o.strategy == intents[k].strategy
  {
    var first := OrdersWithIds(intents[0], RestedBy(scripts[0].attempts));
    if o in first {
      k := 0;
      var n :| 0 <= n < |first| && first[n] == o;
    } else {
      k := RestingFrom(intents[1..], scripts[1..], o);
      k := k + 1;
    }
  }

  /**
   At most one batch of cancels is sent: there is one exactly when something is cancelled, and it is
   awaited exactly when the token of the first cancel has been rejected too often.
   */
  lemma {:induction false} OneBatchOfCancels(trackers: Trackers, mutations: seq<OrderMutation>)
    ensures var calls := CancelCalls(trackers, mutations);
      if exists n :: 0 <= n < |mutations| && mutations[n].Cancel? then
        && |calls| == 1 && calls[0].CancelOrders? && calls[0].orderIds == CancelIds(mutations)
        && (calls[0].awaited <==>
              exists n :: FirstCancel(mutations, n) && InConfirmMode(trackers, mutations[n].tokenId))
      else calls == []
  {
    if n :| 0 <= n < |mutations| && mutations[n].Cancel? {
      var first := FirstToken(mutations, n);
    } else {
      NoTokens(mutations);
    }
  }

  ghost predicate InConfirmMode(trackers: Trackers, tokenId: string)
  {
    tokenId in trackers && trackers[tokenId].confirmCancel
  }

  ghost predicate FirstCancel(mutations: seq<OrderMutation>, n: int)
  {
    0 <= n < |mutations| && mutations[n].Cancel? && forall j :: 0 <= j < n ==> mutations[j].Place?
  }

  lemma {:induction false} FirstToken(mutations: seq<OrderMutation>, n: int) returns (first: int)
    requires 0 <= n < |mutations| && mutations[n].Cancel?
    ensures FirstCancel(mutations, first) && forall m :: FirstCancel(mutations, m) ==> m == first
    ensures CancelTokens(mutations) != [] && CancelTokens(mutations)[0] == mutations[first].tokenId
  {
    if mutations[0].Cancel? {
      first := 0;
    } else {
      first := FirstToken(mutations[1..], n - 1);
      first := first + 1;
    }
  }

  lemma {:induction false} NoTokens(mutations: seq<OrderMutation>)
    requires forall n :: 0 <= n < |mutations| ==> !mutations[n].Cancel?
    ensures CancelTokens(mutations) == [] && CancelIds(mutations) == []
  {
    if mutations != [] {
      NoTokens(mutations[1..]);
    }
  }

  /** Placements leave the tracker of every other token as it is; those of a token follow each other on its own. */
  lemma {:induction false} TrackersApart(trackers: Trackers, intents: seq<OrderIntent>, scripts: seq<PlaceScript>,
                                         thresholdPct: real, tokenId: string)
    requires |scripts| == |intents| && intents != []
    ensures var last := |intents| - 1;
      var before := AfterPlaces(trackers, intents[..last], scripts[..last], thresholdPct);
      var after := AfterPlaces(trackers, intents, scripts, thresholdPct);
      if tokenId != intents[last].tokenId then
        (tokenId in after <==> tokenId in before) && (tokenId in after ==> after[tokenId] == before[tokenId])
      else
        && tokenId in after
        && after[tokenId] == AfterPlacement(if tokenId in before then before[tokenId]
                                            else TrackerState(0, 0, scripts[last].startedAt, false),
                                            scripts[last], thresholdPct)
  {
  }

  /** A dry run makes up one id for each place, naming its token and side. */
  lemma {:induction false} DryRunNames(intents: seq<OrderIntent>, k: nat)
    requires k < |intents|
    ensures |DryRunIds(intents)| == |intents|
    ensures DryRunIds(intents)[k]
         == "dry_run_" + intents[k].tokenId + if intents[k].side == Buy then "_BUY" else "_SELL"
  {
    assert "_" + "BUY" == "_BUY" && "_" + "SELL" == "_SELL";
    Regroup("dry_run_" + intents[k].tokenId, "_", SideText(intents[k].side));
  }

  /** Every placement sends at most three posts; it may send none, when creating the order fails. */
  lemma {:induction false} PostsBounded(intents: seq<OrderIntent>, scripts: seq<PlaceScript>)
    requires |scripts| == |intents|
    requires forall script :: script in scripts ==> Complete(script)
    ensures |PlaceCalls(intents, scripts)| <= 3 * |intents|
  {
    if intents != [] {
      var last := |intents| - 1;
      PostsBounded(intents[..last], scripts[..last]);
      assert scripts[last] in scripts;
    }
  }
}
