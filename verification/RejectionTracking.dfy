/** How often a market answers a placement with a duplicate-id rejection, over rolling minutes. */
module RejectionTracking {
  import opened Common

  const WINDOW_SECONDS := 60.0

  datatype TrackerState = TrackerState(placements: nat, rejections: nat, windowStart: real, confirmCancel: bool)

  function NewTracker(now: real): TrackerState
  {
    TrackerState(0, 0, now, false)
  }

  function Rolled(t: TrackerState, now: real): TrackerState
  {
    if now - t.windowStart >= WINDOW_SECONDS then t.(placements := 0, rejections := 0, windowStart := now) else t
  }

  datatype TrackerEvent = Placement(at: real) | Rejection(at: real)

  function Recorded(t: TrackerState, e: TrackerEvent): TrackerState
  {
    var r := Rolled(t, e.at);
    if e.Placement? then r.(placements := r.placements + 1) else r.(rejections := r.rejections + 1)
  }

  function RejectionRatePct(t: TrackerState): real
  {
    if t.placements > 0 then t.rejections as real / t.placements as real * 100.0 else 0.0
  }

  lemma {:induction false} RateExceeds(t: TrackerState, thresholdPct: real)
    ensures RejectionRatePct(t) > thresholdPct <==>
              if t.placements == 0 then 0.0 > thresholdPct
              else t.rejections as real * 100.0 > thresholdPct * t.placements as real
  {
    if t.placements > 0 {
      var rejections, placements := t.rejections as real, t.placements as real;
      var rate := Quotient(rejections, placements);
      ScaleIff(rate * 100.0, thresholdPct, placements);
    }
  }

  function WithMode(t: TrackerState, thresholdPct: real): TrackerState
  {
    t.(confirmCancel := RejectionRatePct(t) > thresholdPct)
  }

  class RejectionTracker {
    var placements: nat
    var rejections: nat
    var windowStart: real
    var confirmCancelMode: bool

    constructor (now: real)
      ensures View() == NewTracker(now)
    {
      placements, rejections, windowStart, confirmCancelMode := 0, 0, now, false;
    }

    function View(): TrackerState
      reads this
    {
      TrackerState(placements, rejections, windowStart, confirmCancelMode)
    }

    method MaybeRoll(now: real)
      modifies this
      ensures View() == Rolled(old(View()), now)
    {
      if now - windowStart >= WINDOW_SECONDS {
        placements := 0;
        rejections := 0;
        windowStart := now;
      }
    }

    method RecordPlacement(now: real)
      modifies this
      ensures View() == Recorded(old(View()), Placement(now))
    {
      MaybeRoll(now);
      placements := placements + 1;
    }

    method RecordRejection(now: real)
      modifies this
      ensures View() == Recorded(old(View()), Rejection(now))
    {
      MaybeRoll(now);
      rejections := rejections + 1;
    }

    method UpdateConfirmCancelMode(thresholdPct: real)
      modifies this
      ensures View() == WithMode(old(View()), thresholdPct)
    {
      var rate := RejectionRatePct(View());
      if !confirmCancelMode && rate > thresholdPct {
        confirmCancelMode := true;
      } else if confirmCancelMode && rate <= thresholdPct {
        confirmCancelMode := false;
      }
    }
  }

  // ----- The window over whole runs -----

  /** A tracker created at `start` after recording a trace of events. */
  function RunTracker(start: real, trace: seq<TrackerEvent>): TrackerState
  {
    if trace == [] then NewTracker(start)
    else Recorded(RunTracker(start, trace[..|trace| - 1]), trace[|trace| - 1])
  }

  lemma {:induction false} RunStep(start: real, trace: seq<TrackerEvent>, e: TrackerEvent)
    ensures RunTracker(start, trace + [e]) == Recorded(RunTracker(start, trace), e)
  {
    assert (trace + [e])[..|trace|] == trace;
  }

  /** The clock does not go back. */
  ghost predicate InOrder(start: real, trace: seq<TrackerEvent>)
  {
    && (forall i :: 0 <= i < |trace| ==> start <= trace[i].at)
    && (forall i, j :: 0 <= i <= j < |trace| ==> trace[i].at <= trace[j].at)
  }

  /** The window moves to an event a minute or more after it began, and stays otherwise. */
  lemma {:induction false} WindowMoves(start: real, trace: seq<TrackerEvent>, e: TrackerEvent)
    ensures var began := RunTracker(start, trace).windowStart;
      RunTracker(start, trace + [e]).windowStart == if e.at >= began + 60.0 then e.at else began
  {
    RunStep(start, trace, e);
  }

  /** The events of one kind that happened at `from` or later. */
  ghost function CountFrom(trace: seq<TrackerEvent>, placements: bool, from: real): nat
  {
    if trace == [] then 0
    else
      var last := trace[|trace| - 1];
      CountFrom(trace[..|trace| - 1], placements, from)
      + if last.Placement? == placements && last.at >= from then 1 else 0
  }

  lemma {:induction false} NothingFrom(trace: seq<TrackerEvent>, placements: bool, from: real)
    requires forall i :: 0 <= i < |trace| ==> trace[i].at < from
    ensures CountFrom(trace, placements, from) == 0
  {
    if trace != [] {
      NothingFrom(trace[..|trace| - 1], placements, from);
    }
  }

  /**
   Under a monotone clock the counters count exactly the events since the window began, all within
   one minute of it.
   */
  lemma {:induction false} CountersCountTheWindow(start: real, trace: seq<TrackerEvent>)
    requires InOrder(start, trace)
    ensures var t := RunTracker(start, trace);
      && t.placements == CountFrom(trace, true, t.windowStart)
      && t.rejections == CountFrom(trace, false, t.windowStart)
    ensures forall i :: 0 <= i < |trace| ==> trace[i].at < RunTracker(start, trace).windowStart + 60.0
    ensures RunTracker(start, trace).windowStart <= if trace == [] then start else trace[|trace| - 1].at
  {
    if trace != [] {
      var init, last := trace[..|trace| - 1], trace[|trace| - 1];
      CountersCountTheWindow(start, init);
      var before := RunTracker(start, init);
      forall i | 0 <= i < |init| ensures init[i].at < before.windowStart + WINDOW_SECONDS && init[i].at <= last.at {
        assert init[i] == trace[i];
      }
      if last.at - before.windowStart >= WINDOW_SECONDS {
        NothingFrom(init, true, last.at);
        NothingFrom(init, false, last.at);
      }
    }
  }
}
