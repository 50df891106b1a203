/** Submitting through the relayer, with failover to the EOA wallet during a long outage. */
module Failover {
  import opened Common

  /**
   How the relayer answers a submission: only connection errors and timeouts count as unreachable. An
   answer lost to a timeout, or to an error while it is read, does not tell whether the order was
   `carriedOut`.
   */
  datatype RelayReply = Accepted | Unreachable(carriedOut: bool) | OtherError(carriedOut: bool)

  /** How the EOA wallet answers; a post that raises may have been carried out as well. */
  datatype EoaReply = Posted | Raises(carriedOut: bool)

  /** How the alert channel answers; it too may fail with a connection error or timeout, or in another way. */
  datatype AlertReply = Sent | ChannelUnreachable | ChannelError

  /**
   One call: the relayer's answer, the monotonic clock, and what the EOA wallet and the alert channel
   would answer.
   */
  datatype Request = Request(relay: RelayReply, now: real, eoa: EoaReply, alertReply: AlertReply)

  predicate RelayerCarriesOut(r: Request)
  {
    r.relay.Accepted? || r.relay.carriedOut
  }

  predicate EoaCarriesOut(r: Request)
  {
    r.eoa.Posted? || r.eoa.carriedOut
  }

  datatype Alert = FailoverActivated | Recovered

  datatype Status = Status(downSince: Option<real>, eoaActive: bool)

  const FRESH := Status(None, false)

  /**
   What a call did: whether it returned a result, whether the relayer carried the order out, whether
   the EOA wallet was tried and carried it out, and which alert was raised.
   */
  datatype Effect = Effect(returned: bool, relayed: bool, eoaAttempted: bool, eoaSubmitted: bool, alert: Option<Alert>)

  /** The outage start once this request has failed to reach the relayer. */
  function DownSince(s: Status, now: real): real
  {
    if s.downSince.Some? then s.downSince.value else now
  }

  function Next(s: Status, r: Request, timeout: real): Status
  {
    match r.relay
    case Accepted => FRESH
    case OtherError(_) => s
    case Unreachable(_) =>
      if s.eoaActive then s
      else Status(Some(DownSince(s, r.now)), r.now - DownSince(s, r.now) >= timeout)
  }

  /** The call ends after the relayer's answer. */
  function WithoutEoa(r: Request, returned: bool, alert: Option<Alert>): Effect
  {
    Effect(returned, RelayerCarriesOut(r), false, false, alert)
  }

  /** The call ends with a submission through the EOA wallet. */
  function ThroughEoa(r: Request, alert: Option<Alert>): Effect
  {
    Effect(r.eoa.Posted?, RelayerCarriesOut(r), true, EoaCarriesOut(r), alert)
  }

  /** A recovery alert is sent inside the block that catches connection errors, a failover alert outside it. */
  function EffectOf(s: Status, r: Request, timeout: real): Effect
  {
    match r.relay
    case Accepted =>
      if !s.eoaActive then WithoutEoa(r, true, None)
      else (match r.alertReply
            case Sent => WithoutEoa(r, true, Some(Recovered))
            case ChannelUnreachable => ThroughEoa(r, Some(Recovered))
            case ChannelError => WithoutEoa(r, false, Some(Recovered)))
    case OtherError(_) => WithoutEoa(r, false, None)
    case Unreachable(_) =>
      if s.eoaActive then ThroughEoa(r, None)
      else if r.now - DownSince(s, r.now) < timeout then WithoutEoa(r, false, None)
      else if r.alertReply.Sent? then ThroughEoa(r, Some(FailoverActivated))
      else WithoutEoa(r, false, Some(FailoverActivated))
  }

  class FailoverState {
    var relayerDownSince: Option<real>
    var eoaActive: bool

    constructor ()
      ensures View() == FRESH
    {
      relayerDownSince, eoaActive := None, false;
    }

    function View(): Status
      reads this
    {
      Status(relayerDownSince, eoaActive)
    }

    method SubmitWithFailover(r: Request, timeout: real) returns (e: Effect)
      modifies this
      ensures View() == Next(old(View()), r, timeout) && e == EffectOf(old(View()), r, timeout)
    {
      if eoaActive {
        match r.relay {
          case Accepted =>
            eoaActive := false;
            relayerDownSince := None;
            match r.alertReply {
              case Sent => return WithoutEoa(r, true, Some(Recovered));
              case ChannelUnreachable => return ThroughEoa(r, Some(Recovered));
              case ChannelError => return WithoutEoa(r, false, Some(Recovered));
            }
          case Unreachable(_) =>
            return ThroughEoa(r, None);
          case OtherError(_) =>
            return WithoutEoa(r, false, None);
        }
      }
      match r.relay {
        case Accepted =>
          relayerDownSince := None;
          return WithoutEoa(r, true, None);
        case Unreachable(_) =>
          if relayerDownSince == None {
            relayerDownSince := Some(r.now);
          }
          var elapsed := r.now - relayerDownSince.value;
          if elapsed >= timeout {
            eoaActive := true;
            if !r.alertReply.Sent? {
              return WithoutEoa(r, false, Some(FailoverActivated));
            }
            return ThroughEoa(r, Some(FailoverActivated));
          }
          return WithoutEoa(r, false, None);
        case OtherError(_) =>
          return WithoutEoa(r, false, None);
      }
    }
  }

  // ----- Whole runs -----

  function Run(trace: seq<Request>, timeout: real): Status
  {
    if trace == [] then FRESH else Next(Run(trace[..|trace| - 1], timeout), trace[|trace| - 1], timeout)
  }

  function EffectAt(trace: seq<Request>, n: nat, timeout: real): Effect
    requires n < |trace|
  {
    EffectOf(Run(trace[..n], timeout), trace[n], timeout)
  }

  function Alerts(trace: seq<Request>, timeout: real): seq<Alert>
  {
    if trace == [] then []
    else
      var alert := EffectAt(trace, |trace| - 1, timeout).alert;
      Alerts(trace[..|trace| - 1], timeout) + if alert.Some? then [alert.value] else []
  }

  /**
   Alerts alternate, starting with a failover, and the EOA wallet is in use exactly while the last
   alert is a failover.
   */
  lemma {:induction false} AlertsAlternate(trace: seq<Request>, timeout: real)
    ensures forall k :: 0 <= k < |Alerts(trace, timeout)| ==>
              Alerts(trace, timeout)[k] == if k % 2 == 0 then FailoverActivated else Recovered
    ensures Run(trace, timeout).eoaActive <==> |Alerts(trace, timeout)| % 2 == 1
    ensures Run(trace, timeout).eoaActive ==> Run(trace, timeout).downSince.Some?
  {
    if trace != [] {
      AlertsAlternate(trace[..|trace| - 1], timeout);
    }
  }

  /** Where the calls since the relayer last accepted begin. */
  ghost function AfterAcceptance(trace: seq<Request>): (w: nat)
    ensures w <= |trace| && (w > 0 ==> trace[w - 1].relay.Accepted?)
    ensures forall j :: w <= j < |trace| ==> !trace[j].relay.Accepted?
  {
    if trace == [] then 0
    else if trace[|trace| - 1].relay.Accepted? then |trace|
    else AfterAcceptance(trace[..|trace| - 1])
  }

  /** Call `k` is the earliest failure to reach the relayer since it last accepted. */
  ghost predicate OutageBegins(trace: seq<Request>, k: nat)
  {
    && AfterAcceptance(trace) <= k < |trace| && trace[k].relay.Unreachable?
    && forall j :: AfterAcceptance(trace) <= j < k ==> !trace[j].relay.Unreachable?
  }

  /** The recorded outage start is the time of that call; none is recorded while the relayer has been reachable. */
  lemma {:induction false} OutageStart(trace: seq<Request>, timeout: real) returns (k: nat)
    ensures Run(trace, timeout).downSince.Some? ==>
              OutageBegins(trace, k) && Run(trace, timeout).downSince == Some(trace[k].now)
    ensures Run(trace, timeout).downSince.None? ==>
              forall j :: AfterAcceptance(trace) <= j < |trace| ==> !trace[j].relay.Unreachable?
  {
    k := 0;
    if trace != [] {
      var n := |trace| - 1;
      AlertsAlternate(trace[..n], timeout);
      k := OutageStart(trace[..n], timeout);
      if trace[n].relay.Unreachable? && Run(trace[..n], timeout).downSince.None? {
        k := n;
      }
    }
  }

  /** The monotonic clock. */
  ghost predicate Monotone(trace: seq<Request>)
  {
    forall i, j :: 0 <= i <= j < |trace| ==> trace[i].now <= trace[j].now
  }

  lemma {:induction false} ActiveOnlyAfterTimeout(trace: seq<Request>, timeout: real)
    requires Monotone(trace) && Run(trace, timeout).eoaActive
    ensures trace != [] && Run(trace, timeout).downSince.Some?
    ensures trace[|trace| - 1].now - Run(trace, timeout).downSince.value >= timeout
  {
    var n := |trace| - 1;
    if Run(trace[..n], timeout).eoaActive {
      ActiveOnlyAfterTimeout(trace[..n], timeout);
    }
  }

  /**
   On an unreachable relayer the EOA wallet is tried exactly when the timeout has passed since the
   earliest failure after the relayer last accepted, a failing failover alert aside; otherwise only
   a recovery whose alert channel is unreachable tries it.
   */
  lemma {:induction false} EoaExactlyAfterTimeout(trace: seq<Request>, n: nat, timeout: real) returns (k: nat)
    requires Monotone(trace) && n < |trace|
    ensures k <= n && (trace[n].relay.Unreachable? ==> OutageBegins(trace[..n + 1], k))
    ensures var r, active := trace[n], Run(trace[..n], timeout).eoaActive;
      EffectAt(trace, n, timeout).eoaAttempted <==>
        || (r.relay.Unreachable? && r.now - trace[k].now >= timeout && (active || r.alertReply.Sent?))
        || (r.relay.Accepted? && active && r.alertReply.ChannelUnreachable?)
  {
    var run := trace[..n + 1];
    assert run[..n] == trace[..n];
    AlertsAlternate(trace[..n], timeout);
    k := OutageStart(run, timeout);
    if !trace[n].relay.Unreachable? {
      k := 0;
    }
    if Run(trace[..n], timeout).eoaActive {
      ActiveOnlyAfterTimeout(trace[..n], timeout);
    }
  }

  // ----- How often an order goes out -----

  /** How often the order of a call was carried out. */
  function Submissions(e: Effect): nat
  {
    (if e.relayed then 1 else 0) + if e.eoaSubmitted then 1 else 0
  }

  /** The relayer accepts again while the EOA wallet is in use, and the recovery alert fails. */
  ghost predicate FailedRecovery(s: Status, r: Request)
  {
    s.eoaActive && r.relay.Accepted? && !r.alertReply.Sent?
  }

  /** The relayer carries the order out, and its answer is lost. */
  ghost predicate LostByRelayer(r: Request)
  {
    !r.relay.Accepted? && r.relay.carriedOut
  }

  /** The relayer is unreachable, the EOA wallet is or comes into use, and no failover alert fails. */
  ghost predicate FailsOver(s: Status, r: Request, timeout: real)
  {
    r.relay.Unreachable? && (s.eoaActive || (r.now - DownSince(s, r.now) >= timeout && r.alertReply.Sent?))
  }

  /** What the call returns is not what became of the order. */
  ghost predicate Miscounts(trace: seq<Request>, n: nat, timeout: real)
    requires n < |trace|
  {
    var s, r := Run(trace[..n], timeout), trace[n];
    || FailedRecovery(s, r)
    || LostByRelayer(r)
    || (FailsOver(s, r, timeout) && r.eoa.Raises? && r.eoa.carriedOut)
  }

  /**
   A call has its order carried out at most once, and returns exactly when it was, if and only if it
   is no failed recovery and neither the relayer nor the EOA wallet loses its answer to an order it
   carried out. The order goes out twice exactly when the EOA wallet carries out what the relayer has.
   */
  lemma {:induction false} SubmitsOnceIff(trace: seq<Request>, n: nat, timeout: real)
    requires n < |trace|
    ensures var e := EffectAt(trace, n, timeout);
      (Submissions(e) == if e.returned then 1 else 0) <==> !Miscounts(trace, n, timeout)
    ensures var e := EffectAt(trace, n, timeout);
      e.returned ==> Submissions(e) >= 1
    ensures var s, r := Run(trace[..n], timeout), trace[n];
      Submissions(EffectAt(trace, n, timeout)) == 2 <==>
        && EoaCarriesOut(r)
        && if r.relay.Accepted? then FailedRecovery(s, r) && r.alertReply.ChannelUnreachable?
           else LostByRelayer(r) && FailsOver(s, r, timeout)
  {
  }

  ghost function TotalSubmissions(trace: seq<Request>, timeout: real): nat
  {
    if trace == [] then 0
    else TotalSubmissions(trace[..|trace| - 1], timeout) + Submissions(EffectAt(trace, |trace| - 1, timeout))
  }

  ghost function TotalReturned(trace: seq<Request>, timeout: real): nat
  {
    if trace == [] then 0
    else TotalReturned(trace[..|trace| - 1], timeout) + if EffectAt(trace, |trace| - 1, timeout).returned then 1 else 0
  }

  ghost predicate SomeMiscounts(trace: seq<Request>, timeout: real)
  {
    exists n: nat :: n < |trace| && Miscounts(trace, n, timeout)
  }

  lemma {:induction false} SomeMiscountsStep(trace: seq<Request>, timeout: real)
    requires trace != []
    ensures var n := |trace| - 1;
      SomeMiscounts(trace, timeout) <==> SomeMiscounts(trace[..n], timeout) || Miscounts(trace, n, timeout)
  {
    hide Run, FailedRecovery, LostByRelayer, FailsOver;
    var last := |trace| - 1;
    forall n: nat | n < last ensures Miscounts(trace[..last], n, timeout) == Miscounts(trace, n, timeout) {
      assert trace[..last][..n] == trace[..n];
    }
    if SomeMiscounts(trace[..last], timeout) {
      var n: nat :| n < last && Miscounts(trace[..last], n, timeout);
      assert Miscounts(trace, n, timeout);
    }
    if SomeMiscounts(trace, timeout) {
      var n: nat :| n < |trace| && Miscounts(trace, n, timeout);
      assert n < last ==> Miscounts(trace[..last], n, timeout);
    }
  }

  /**
   Over every run, at least as many orders are carried out as calls return, and as many exactly if
   and only if no call miscounts.
   */
  lemma {:induction false} ReturnsCountSubmissions(trace: seq<Request>, timeout: real)
    ensures TotalReturned(trace, timeout) <= TotalSubmissions(trace, timeout)
    ensures TotalReturned(trace, timeout) == TotalSubmissions(trace, timeout) <==> !SomeMiscounts(trace, timeout)
  {
    hide Submissions, FailedRecovery, LostByRelayer, FailsOver, Miscounts, SomeMiscounts, EffectAt;
    if trace == [] {
      NoMiscountYet(timeout);
    } else {
      var n := |trace| - 1;
      ReturnsCountSubmissions(trace[..n], timeout);
      SubmitsOnceIff(trace, n, timeout);
      SomeMiscountsStep(trace, timeout);
    }
  }

  lemma {:induction false} NoMiscountYet(timeout: real)
    ensures !SomeMiscounts([], timeout)
  {
  }

  /** A call that does not reach the relayer, with a working EOA wallet and alert channel. */
  const DOWN := Request(Unreachable(false), 0.0, Posted, Sent)

  lemma {:induction false} AfterOutage(last: Request)
    requires last.relay.Unreachable? && last.now == 30.0
    ensures [DOWN, last][..1] == [DOWN] && Run([DOWN], 30.0) == Status(Some(0.0), false)
    ensures Run([DOWN, last], 30.0) == Status(Some(0.0), true)
  {
    assert [DOWN][..0] == [] && Run([DOWN], 30.0) == Next(FRESH, DOWN, 30.0);
    assert [DOWN, last][..1] == [DOWN];
    assert Run([DOWN, last], 30.0) == Next(Run([DOWN], 30.0), last, 30.0);
  }

  /**
   Two unreachable calls 30 seconds apart, and a recovery whose alert cannot be delivered: the order
   goes out twice.
   */
  lemma {:induction false} SubmittedTwice() returns (trace: seq<Request>)
    ensures |trace| == 3 && EffectAt(trace, 2, 30.0).returned
    ensures Submissions(EffectAt(trace, 2, 30.0)) == 2 && FailedRecovery(Run(trace[..2], 30.0), trace[2])
  {
    var later := DOWN.(now := 30.0);
    trace := [DOWN, later, Request(Accepted, 31.0, Posted, ChannelUnreachable)];
    AfterOutage(later);
    assert trace[..2] == [DOWN, later];
  }

  /**
   Every alert is sent: the relayer cannot be reached at first, and 30 seconds later carries the order
   out without its answer arriving in time. The EOA wallet posts the same order.
   */
  lemma {:induction false} TimedOutAndSubmittedTwice() returns (trace: seq<Request>)
    ensures |trace| == 2 && forall n :: 0 <= n < 2 ==> trace[n].alertReply.Sent?
    ensures EffectAt(trace, 1, 30.0).returned && Submissions(EffectAt(trace, 1, 30.0)) == 2
    ensures LostByRelayer(trace[1]) && !FailedRecovery(Run(trace[..1], 30.0), trace[1])
  {
    var late := DOWN.(relay := Unreachable(true), now := 30.0);
    trace := [DOWN, late];
    AfterOutage(late);
  }
}
