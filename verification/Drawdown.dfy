/** The maximum-drawdown criterion of the paper trading report. */
module Drawdown {
  import opened Common

  /** A paper trading event; an event without a profit figure counts as zero. */
  datatype Event = Event(eventType: string, pnl: Option<real>)

  function PnlOf(e: Event): real
  {
    if e.pnl.Some? then e.pnl.value else 0.0
  }

  /** The profit of each fill, in order. */
  function FillPnls(events: seq<Event>): seq<real>
  {
    if events == [] then []
    else
      var last := events[|events| - 1];
      FillPnls(events[..|events| - 1]) + if last.eventType == "FILL" then [PnlOf(last)] else []
  }

  /** The account after the first `n` fills. */
  function Balance(pnls: seq<real>, n: nat): real
    requires n <= |pnls|
  {
    if n == 0 then 0.0 else Balance(pnls, n - 1) + pnls[n - 1]
  }

  /** The loss from one point of the run to a later one. */
  function Drop(pnls: seq<real>, i: nat, j: nat): real
    requires i <= j <= |pnls|
  {
    Balance(pnls, i) - Balance(pnls, j)
  }

  ghost predicate DropsAtMost(pnls: seq<real>, bound: real)
  {
    forall i: nat, j: nat :: i <= j <= |pnls| ==> Drop(pnls, i, j) <= bound
  }

  /** `m` is the largest loss between any two points of the run, its start included. */
  ghost predicate IsMaxDrop(pnls: seq<real>, m: real)
  {
    && (exists i: nat, j: nat :: i <= j <= |pnls| && Drop(pnls, i, j) == m)
    && DropsAtMost(pnls, m)
  }

  /** `peak` is the highest balance so far. */
  ghost predicate IsPeak(pnls: seq<real>, peak: real)
  {
    && (exists i: nat :: i <= |pnls| && Balance(pnls, i) == peak)
    && (forall i: nat :: i <= |pnls| ==> Balance(pnls, i) <= peak)
  }

  lemma {:induction false} BalanceOfPrefix(pnls: seq<real>, x: real, n: nat)
    requires n <= |pnls|
    ensures Balance(pnls + [x], n) == Balance(pnls, n)
  {
    if n > 0 {
      BalanceOfPrefix(pnls, x, n - 1);
    }
  }

  lemma {:induction false} BalanceOfAll(pnls: seq<real>, x: real)
    ensures Balance(pnls + [x], |pnls + [x]|) == Balance(pnls, |pnls|) + x
  {
    BalanceOfPrefix(pnls, x, |pnls|);
  }

  lemma {:induction false} FlatStart()
    ensures IsPeak(FillPnls([]), 0.0) && IsMaxDrop(FillPnls([]), 0.0) && Balance(FillPnls([]), |FillPnls([])|) == 0.0
  {
    assert Balance([], 0) == 0.0 && Drop([], 0, 0) == 0.0;
  }

  lemma {:induction false} PeakStep(pnls: seq<real>, x: real, peak: real)
    requires IsPeak(pnls, peak)
    ensures IsPeak(pnls + [x], Max(peak, Balance(pnls, |pnls|) + x))
  {
    var longer := pnls + [x];
    forall i: nat | i <= |pnls| ensures Balance(longer, i) == Balance(pnls, i) {
      BalanceOfPrefix(pnls, x, i);
    }
    assert Balance(longer, |longer|) == Balance(pnls, |pnls|) + x;
    var i: nat :| i <= |pnls| && Balance(pnls, i) == peak;
    assert Balance(longer, i) == peak;
  }

  lemma {:induction false} DropStep(pnls: seq<real>, x: real, peak: real, m: real)
    requires IsMaxDrop(pnls, m) && IsPeak(pnls + [x], peak)
    ensures IsMaxDrop(pnls + [x], Max(m, peak - (Balance(pnls, |pnls|) + x)))
  {
    var longer, n := pnls + [x], |pnls| + 1;
    forall i: nat | i <= |pnls| ensures Balance(longer, i) == Balance(pnls, i) {
      BalanceOfPrefix(pnls, x, i);
    }
    assert Balance(longer, n) == Balance(pnls, |pnls|) + x;
    forall i: nat, j: nat | i <= j <= |pnls| ensures Drop(longer, i, j) == Drop(pnls, i, j) {
    }
    var i: nat, j: nat :| i <= j <= |pnls| && Drop(pnls, i, j) == m;
    assert Drop(longer, i, j) == m;
    var top: nat :| top <= n && Balance(longer, top) == peak;
    assert Drop(longer, top, n) == peak - Balance(longer, n);
  }

  lemma {:induction false} FillStep(events: seq<Event>, k: nat)
    requires k < |events|
    ensures FillPnls(events[..k + 1])
         == if events[k].eventType == "FILL" then FillPnls(events[..k]) + [PnlOf(events[k])] else FillPnls(events[..k])
  {
    assert events[..k + 1][..k] == events[..k];
  }

  lemma {:induction false} DropsWithin(pnls: seq<real>, m: real, bound: real)
    requires IsMaxDrop(pnls, m)
    ensures DropsAtMost(pnls, bound) <==> m <= bound
  {
    var i: nat, j: nat :| i <= j <= |pnls| && Drop(pnls, i, j) == m;
  }

  /** One pass over the events finds the largest loss between any two points. */
  method MaxDrawdown(events: seq<Event>) returns (maxDrawdown: real)
    ensures IsMaxDrop(FillPnls(events), maxDrawdown)
  {
    hide IsPeak, IsMaxDrop, FillPnls, Balance;
    var cumulative, peak := 0.0, 0.0;
    maxDrawdown := 0.0;
    FlatStart();
    for k := 0 to |events|
      invariant var pnls := FillPnls(events[..k]);
        cumulative == Balance(pnls, |pnls|) && IsPeak(pnls, peak) && IsMaxDrop(pnls, maxDrawdown)
    {
      ghost var pnls := FillPnls(events[..k]);
      FillStep(events, k);
      if events[k].eventType != "FILL" {
        continue;
      }
      var pnl := PnlOf(events[k]);
      BalanceOfAll(pnls, pnl);
      PeakStep(pnls, pnl, peak);
      cumulative := cumulative + pnl;
      if cumulative > peak {
        peak := cumulative;
      }
      DropStep(pnls, pnl, peak, maxDrawdown);
      var drawdown := peak - cumulative;
      if drawdown > maxDrawdown {
        maxDrawdown := drawdown;
      }
    }
    assert events[..|events|] == events;
  }

  // ----- In terms of the events -----

  /** What the fills among the events earned together. */
  ghost function Earned(events: seq<Event>): real
  {
    if events == [] then 0.0
    else
      var last := events[|events| - 1];
      Earned(events[..|events| - 1])
      + if last.eventType == "FILL" && last.pnl.Some? then last.pnl.value else 0.0
  }

  lemma {:induction false} EarnedIsBalance(events: seq<Event>)
    ensures Earned(events) == Balance(FillPnls(events), |FillPnls(events)|)
  {
    if events != [] {
      var n := |events| - 1;
      EarnedIsBalance(events[..n]);
      assert events[..n + 1] == events;
      FillStep(events, n);
      BalanceOfAll(FillPnls(events[..n]), PnlOf(events[n]));
    }
  }

  /** The fills of the first events are the first fills. */
  lemma {:induction false} FillsOfPrefix(events: seq<Event>, k: nat)
    requires k <= |events|
    ensures FillPnls(events[..k]) <= FillPnls(events)
    ensures Balance(FillPnls(events), |FillPnls(events[..k])|) == Earned(events[..k])
    decreases |events|
  {
    EarnedIsBalance(events[..k]);
    if k == |events| {
      assert events[..k] == events;
    } else {
      var n := |events| - 1;
      assert events[..n][..k] == events[..k] && events[..n + 1] == events;
      FillsOfPrefix(events[..n], k);
      FillStep(events, n);
      BalanceOfPrefix(FillPnls(events[..n]), PnlOf(events[n]), |FillPnls(events[..k])|);
    }
  }

  /** Every number of fills is that of some first events. */
  lemma {:induction false} PrefixOfFills(events: seq<Event>, n: nat) returns (k: nat)
    requires n <= |FillPnls(events)|
    ensures k <= |events| && |FillPnls(events[..k])| == n
  {
    k := |events|;
    assert events[..k] == events;
    if n < |FillPnls(events)| {
      var m := |events| - 1;
      FillStep(events, m);
      k := PrefixOfFills(events[..m], n);
      assert events[..m][..k] == events[..k];
    }
  }

  lemma {:induction false} LossOfFills(events: seq<Event>, m: real, k: nat, l: nat)
    requires IsMaxDrop(FillPnls(events), m) && k <= l <= |events|
    ensures Earned(events[..k]) - Earned(events[..l]) <= m
  {
    FillsOfPrefix(events, k);
    FillsOfPrefix(events, l);
    assert events[..l][..k] == events[..k];
    FillsOfPrefix(events[..l], k);
    assert Drop(FillPnls(events), |FillPnls(events[..k])|, |FillPnls(events[..l])|)
        == Earned(events[..k]) - Earned(events[..l]);
  }

  /** The largest drop of the fills is the largest loss between two points of the events. */
  lemma {:induction false} LossBetweenEvents(events: seq<Event>, m: real)
    requires IsMaxDrop(FillPnls(events), m)
    ensures forall k: nat, l: nat :: k <= l <= |events| ==> Earned(events[..k]) - Earned(events[..l]) <= m
    ensures exists k: nat, l: nat :: k <= l <= |events| && Earned(events[..k]) - Earned(events[..l]) == m
  {
    forall k: nat, l: nat | k <= l <= |events| ensures Earned(events[..k]) - Earned(events[..l]) <= m {
      LossOfFills(events, m, k, l);
    }
    var i: nat, j: nat :| i <= j <= |FillPnls(events)| && Drop(FillPnls(events), i, j) == m;
    var l := PrefixOfFills(events, j);
    FillsOfPrefix(events, l);
    var k := PrefixOfFills(events[..l], i);
    assert events[..l][..k] == events[..k];
    FillsOfPrefix(events, k);
    assert Earned(events[..k]) - Earned(events[..l]) == m;
  }

  /**
   The criterion holds exactly when the capital is positive and no loss between two points exceeds a
   twentieth of it.
   */
  method MaxDrawdownCriterion(events: seq<Event>, capital: real) returns (passed: bool)
    ensures passed <==> capital > 0.0 && DropsAtMost(FillPnls(events), capital / 20.0)
  {
    var maxDrawdown := MaxDrawdown(events);
    if capital <= 0.0 {
      return false;
    }
    DropsWithin(FillPnls(events), maxDrawdown, capital / 20.0);
    PercentOfCapital(maxDrawdown, capital);
    passed := maxDrawdown / capital * 100.0 <= 5.0;
  }

  lemma {:induction false} PercentOfCapital(m: real, capital: real)
    requires capital > 0.0
    ensures m / capital * 100.0 <= 5.0 <==> m <= capital / 20.0
  {
    var share := m / capital;
    QuotientAtMost(m, capital, 0.05);
    assert share * 100.0 <= 5.0 <==> share <= 0.05;
  }
}
