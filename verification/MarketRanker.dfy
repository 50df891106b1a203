/** Ranking markets by expected value and spreading the capital over the best of them. */
module MarketRanker {
  import opened Common
  import opened Sorting

  const COLD_START_FILLS := 100
  const COLD_START_HOURS := 24.0
  const EVENT_RISK_WINDOW_H := 6.0

  datatype RankerSettings = RankerSettings(maxMarkets: nat, maxTotalExposure: real, maxPerMarket: real,
      minOrderSize: nat)

  datatype MarketEVInputs = MarketEVInputs(
    tokenId: string, tickSize: real, observedHalfSpread: real, postedTicksFromMid: real, fillCount: int,
        hoursLive: real,
    fillProbability: Option<real>, adverseSelectionCost: Option<real>, rewardsDailyRate: Option<real>,
        proximityScore: real,
    rebateRate: real, expectedDailyVolume: real, inventorySkew: real, timeToResolutionH: Option<real>)

  datatype RankedMarket = RankedMarket(
    tokenId: string, makerEv: real, spreadEv: real, rewardEv: real, rebateEv: real, adverseSelectionCost: real,
    inventoryCost: real, eventRiskCost: real, isColdStart: bool, allocatedExposure: real)

  // ----- Expected value -----

  function ColdStartFillProb(ticksFromMid: real): real
  {
    Max(0.05, 0.5 - (0.5 - 0.05) / 5.0 * ticksFromMid)
  }

  function IsColdStart(m: MarketEVInputs): bool
  {
    m.fillCount < COLD_START_FILLS || m.hoursLive < COLD_START_HOURS
  }

  function EventRiskCost(m: MarketEVInputs): real
  {
    if m.timeToResolutionH.Some? && 0.0 < m.timeToResolutionH.value < EVENT_RISK_WINDOW_H
    then (1.0 - m.timeToResolutionH.value / EVENT_RISK_WINDOW_H) * m.observedHalfSpread
    else 0.0
  }

  function ComputeEv(m: MarketEVInputs): RankedMarket
  {
    var cold := IsColdStart(m);
    var fillProb := if cold || m.fillProbability.None? then ColdStartFillProb(m.postedTicksFromMid)
        else m.fillProbability.value;
    var spreadEv := m.observedHalfSpread * fillProb;
    var rewardEv := if m.rewardsDailyRate.Some? then m.rewardsDailyRate.value * m.proximityScore else 0.0;
    var rebateEv := m.rebateRate * m.expectedDailyVolume;
    var adverse := if cold || m.adverseSelectionCost.None? then m.tickSize else m.adverseSelectionCost.value;
    var inventoryCost := Abs(m.inventorySkew) * m.tickSize;
    var eventRisk := EventRiskCost(m);
    RankedMarket(m.tokenId, spreadEv + rewardEv + rebateEv - adverse - inventoryCost - eventRisk,
                 spreadEv, rewardEv, rebateEv, adverse, inventoryCost, eventRisk, cold, 0.0)
  }

  /** The cold-start curve falls from one half at the mid to its floor five ticks out, and stays there. */
  lemma {:induction false} ColdStartCurve(near: real, far: real)
    requires 0.0 <= near <= far
    ensures 0.05 <= ColdStartFillProb(far) <= ColdStartFillProb(near) <= 0.5
    ensures far >= 5.0 ==> ColdStartFillProb(far) == 0.05
  {
  }

  lemma {:induction false} ScaledDown(fraction: real, x: real)
    requires 0.0 <= fraction <= 1.0 && x >= 0.0
    ensures 0.0 <= fraction * x <= x
  {
  }

  /** Event risk takes at most the half spread. */
  lemma {:induction false} EventRiskBounded(m: MarketEVInputs)
    requires m.observedHalfSpread >= 0.0
    ensures 0.0 <= EventRiskCost(m) <= m.observedHalfSpread
  {
    if m.timeToResolutionH.Some? && 0.0 < m.timeToResolutionH.value < EVENT_RISK_WINDOW_H {
      var fraction := 1.0 - m.timeToResolutionH.value / EVENT_RISK_WINDOW_H;
      assert 0.0 <= fraction <= 1.0;
      ScaledDown(fraction, m.observedHalfSpread);
    }
  }

  // ----- Selection -----

  function DescendingEv(r: RankedMarket): real { -r.makerEv }

  function Candidates(markets: seq<MarketEVInputs>): (c: seq<RankedMarket>)
    ensures forall r :: r in c ==> r.makerEv > 0.0
  {
    if markets == [] then [] else
      var n := |markets| - 1;
      Candidates(markets[..n]) + if ComputeEv(markets[n]).makerEv > 0.0 then [ComputeEv(markets[n])] else []
  }

  function Selected(markets: seq<MarketEVInputs>, maxMarkets: nat): seq<RankedMarket>
  {
    var sorted := SortBy(Candidates(markets), DescendingEv);
    if |sorted| <= maxMarkets then sorted else sorted[..maxMarkets]
  }

  /** Cutting a list sorted by value leaves the best in front. */
  lemma {:induction false} BestInFront(sorted: seq<RankedMarket>, k: nat)
    requires Sorted(sorted, DescendingEv) && k <= |sorted|
    ensures forall i, j :: 0 <= i < j < k ==> sorted[i].makerEv >= sorted[j].makerEv
    ensures forall x, y :: x in sorted[..k] && y in sorted[k..] ==> x.makerEv >= y.makerEv
  {
    forall i, j | 0 <= i < j < |sorted| ensures sorted[i].makerEv >= sorted[j].makerEv {
      assert DescendingEv(sorted[i]) <= DescendingEv(sorted[j]);
    }
    forall x, y | x in sorted[..k] && y in sorted[k..] ensures x.makerEv >= y.makerEv {
      var i :| 0 <= i < k && sorted[..k][i] == x;
      var j :| 0 <= j < |sorted| - k && sorted[k..][j] == y;
      assert sorted[i] == x && sorted[k + j] == y;
    }
  }

  lemma {:induction false} CutsApart(sorted: seq<RankedMarket>, c: seq<RankedMarket>, k: nat)
    requires multiset(sorted) == multiset(c) && k <= |sorted|
    ensures |sorted| == |c| && multiset(sorted[..k]) + multiset(sorted[k..]) == multiset(c)
    ensures forall x :: x in sorted[..k] ==> x in c
  {
    assert sorted == sorted[..k] + sorted[k..];
    assert |multiset(sorted)| == |multiset(c)|;
    forall x | x in sorted[..k] ensures x in c {
      assert x in multiset(sorted);
    }
  }

  /** The markets selected are the best of those with positive value, best first, as many as allowed. */
  lemma {:induction false} SelectsTheBest(markets: seq<MarketEVInputs>, maxMarkets: nat)
    returns (rest: seq<RankedMarket>)
    ensures var s, c := Selected(markets, maxMarkets), Candidates(markets);
      && |s| == (if |c| <= maxMarkets then |c| else maxMarkets)
      && multiset(s) + multiset(rest) == multiset(c)
      && (forall i, j :: 0 <= i < j < |s| ==> s[i].makerEv >= s[j].makerEv)
      && (forall x, y :: x in s && y in rest ==> x.makerEv >= y.makerEv)
      && (forall x :: x in s ==> x.makerEv > 0.0)
  {
    hide Candidates, SortBy, Sorted, DescendingEv;
    var c := Candidates(markets);
    var sorted := SortBy(c, DescendingEv);
    SortSorts(c, DescendingEv);
    var k := if |sorted| <= maxMarkets then |sorted| else maxMarkets;
    assert Selected(markets, maxMarkets) == sorted[..k];
    BestInFront(sorted, k);
    CutsApart(sorted, c, k);
    rest := sorted[k..];
  }

  // ----- Allocation -----

  function TotalEv(s: seq<RankedMarket>): real
  {
    if s == [] then 0.0 else TotalEv(s[..|s| - 1]) + s[|s| - 1].makerEv
  }

  lemma {:induction false} TotalEvPositive(s: seq<RankedMarket>)
    requires forall x :: x in s ==> x.makerEv > 0.0
    ensures TotalEv(s) >= 0.0 && (s != [] ==> TotalEv(s) > 0.0)
  {
    if s != [] {
      TotalEvPositive(s[..|s| - 1]);
    }
  }

  function Remaining(n: nat, settings: RankerSettings): real
  {
    Max(0.0, settings.maxTotalExposure - settings.minOrderSize as real * n as real)
  }

  /** A market's allocation before rounding: the floor, plus its share of what the floors leave, under the cap. */
  function Allocation(ev: real, totalEv: real, n: nat, settings: RankerSettings): real
    requires n > 0
  {
    var share := if totalEv > 0.0 then ev / totalEv * Remaining(n, settings) else Remaining(n, settings) / n as real;
    Min(settings.maxPerMarket, settings.minOrderSize as real + share)
  }

  function Funded(r: RankedMarket, totalEv: real, n: nat, settings: RankerSettings): RankedMarket
    requires n > 0
  {
    r.(allocatedExposure := RoundTo(Allocation(r.makerEv, totalEv, n, settings), 1_000_000.0))
  }

  function Allocated(s: seq<RankedMarket>, settings: RankerSettings): (r: seq<RankedMarket>)
    ensures |r| == |s|
  {
    seq(|s|, i requires 0 <= i < |s| => Funded(s[i], TotalEv(s), |s|, settings))
  }

  method SelectMarkets(markets: seq<MarketEVInputs>, maxMarkets: nat) returns (selected: seq<RankedMarket>)
    ensures selected == Selected(markets, maxMarkets)
  {
    var positive: seq<RankedMarket> := [];
    for i := 0 to |markets|
      invariant positive == Candidates(markets[..i])
    {
      assert markets[..i + 1][..i] == markets[..i];
      var r := ComputeEv(markets[i]);
      if r.makerEv > 0.0 {
        positive := positive + [r];
      }
    }
    assert markets[..|markets|] == markets;
    positive := SortBy(positive, DescendingEv);
    selected := if |positive| <= maxMarkets then positive else positive[..maxMarkets];
  }

  method SumEv(selected: seq<RankedMarket>) returns (totalEv: real)
    ensures totalEv == TotalEv(selected)
  {
    totalEv := 0.0;
    for i := 0 to |selected|
      invariant totalEv == TotalEv(selected[..i])
    {
      assert selected[..i + 1][..i] == selected[..i];
      totalEv := totalEv + selected[i].makerEv;
    }
    assert selected[..|selected|] == selected;
  }

  /** Sets the allocation of each selected market. */
  method Assign(selected: seq<RankedMarket>, fund: RankedMarket -> RankedMarket) returns (funded: seq<RankedMarket>)
    ensures |funded| == |selected| && forall i :: 0 <= i < |selected| ==> funded[i] == fund(selected[i])
  {
    funded := selected;
    for i := 0 to |selected|
      invariant |funded| == |selected|
      invariant forall j :: 0 <= j < i ==> funded[j] == fund(selected[j])
      invariant forall j :: i <= j < |selected| ==> funded[j] == selected[j]
    {
      funded := funded[i := fund(funded[i])];
    }
  }

  method Rank(markets: seq<MarketEVInputs>, settings: RankerSettings) returns (selected: seq<RankedMarket>)
    ensures selected == Allocated(Selected(markets, settings.maxMarkets), settings)
  {
    var chosen := SelectMarkets(markets, settings.maxMarkets);
    if chosen == [] {
      return [];
    }
    var totalEv := SumEv(chosen);
    var n := |chosen|;
    selected := Assign(chosen, r => Funded(r, totalEv, n, settings));
  }

  // ----- What the allocation guarantees -----

  ghost function Exact(s: seq<RankedMarket>, i: nat, settings: RankerSettings): real
  {
    if i < |s| then Allocation(s[i].makerEv, TotalEv(s), |s|, settings) else 0.0
  }

  /** A market's floor and share, cap aside. */
  ghost function Uncapped(s: seq<RankedMarket>, i: nat, settings: RankerSettings): real
  {
    if i < |s| && TotalEv(s) > 0.0 then settings.minOrderSize as real
        + s[i].makerEv / TotalEv(s) * Remaining(|s|, settings) else 0.0
  }

  lemma {:induction false} ShareMonotone(a: real, b: real, total: real, rest: real)
    requires 0.0 <= a <= b && total > 0.0 && rest >= 0.0
    ensures 0.0 <= a / total * rest <= b / total * rest
  {
    QuotientMonotone(0.0, a, total);
    QuotientMonotone(a, b, total);
    ScaleMonotone(0.0, a / total, rest);
    ScaleMonotone(a / total, b / total, rest);
  }

  /** Each allocation lies between the capped floor and the cap, and a better market never gets less. */
  lemma {:induction false} AllocationBounds(s: seq<RankedMarket>, settings: RankerSettings, i: nat, j: nat)
    requires i < |s| && j < |s| && s[i].makerEv <= s[j].makerEv
    requires forall x :: x in s ==> x.makerEv > 0.0
    ensures Min(settings.minOrderSize as real, settings.maxPerMarket) <= Exact(s, i, settings) <= settings.maxPerMarket
    ensures Exact(s, i, settings) <= Exact(s, j, settings)
  {
    var a, b := Shares(s, settings, i, j);
    CappedBounds(settings.minOrderSize as real, settings.maxPerMarket, a, b);
  }

  lemma {:induction false} Shares(s: seq<RankedMarket>, settings: RankerSettings, i: nat, j: nat)
    returns (a: real, b: real)
    requires i < |s| && j < |s| && s[i].makerEv <= s[j].makerEv
    requires forall x :: x in s ==> x.makerEv > 0.0
    ensures 0.0 <= a <= b
    ensures Exact(s, i, settings) == Min(settings.maxPerMarket, settings.minOrderSize as real + a)
    ensures Exact(s, j, settings) == Min(settings.maxPerMarket, settings.minOrderSize as real + b)
  {
    TotalEvPositive(s);
    assert s[i] in s;
    var total, rest := TotalEv(s), Remaining(|s|, settings);
    a, b := s[i].makerEv / total * rest, s[j].makerEv / total * rest;
    ShareMonotone(s[i].makerEv, s[j].makerEv, total, rest);
  }

  lemma {:induction false} CappedBounds(floor: real, cap: real, a: real, b: real)
    requires 0.0 <= a <= b
    ensures Min(floor, cap) <= Min(cap, floor + a) <= Min(cap, floor + b) <= cap
  {
  }

  /** The capital the floors leave. */
  ghost function LeftByFloors(n: nat, settings: RankerSettings): real
  {
    var left := settings.maxTotalExposure - settings.minOrderSize as real * n as real;
    if left > 0.0 then left else 0.0
  }

  /**
   Unless the cap cuts it, what a market gets above the floor is to the capital left by the floors as
   its value is to the total; the cap only ever cuts.
   */
  lemma {:induction false} ShareOfCapital(s: seq<RankedMarket>, settings: RankerSettings, i: nat)
    requires i < |s| && forall x :: x in s ==> x.makerEv > 0.0
    ensures Exact(s, i, settings) <= settings.maxPerMarket
    ensures var above, due := Times(Exact(s, i, settings) - settings.minOrderSize as real, TotalEv(s)),
        Times(s[i].makerEv, LeftByFloors(|s|, settings));
      if Exact(s, i, settings) < settings.maxPerMarket then above == due else above <= due
  {
    TotalEvPositive(s);
    assert s[i] in s;
    var exact, floor, share := FloorAndShare(s, settings, i);
    hide Exact, LeftByFloors, TotalEv, Times;
    CutShare(exact, settings.maxPerMarket, floor, share, TotalEv(s), exact - floor);
  }

  lemma {:induction false} FloorAndShare(s: seq<RankedMarket>, settings: RankerSettings, i: nat)
    returns (exact: real, floor: real, share: real)
    requires i < |s| && TotalEv(s) > 0.0
    ensures exact == Exact(s, i, settings) && floor == settings.minOrderSize as real
    ensures exact == Min(settings.maxPerMarket, floor + share)
    ensures Times(share, TotalEv(s)) == Times(s[i].makerEv, LeftByFloors(|s|, settings))
  {
    exact, floor := Exact(s, i, settings), settings.minOrderSize as real;
    var total, left := TotalEv(s), Remaining(|s|, settings);
    assert left == LeftByFloors(|s|, settings);
    share := s[i].makerEv / total * left;
    hide Remaining, LeftByFloors, TotalEv;
    ShareDue(s[i].makerEv, total, left);
  }

  lemma {:induction false} CutShare(exact: real, cap: real, floor: real, share: real, total: real, above: real)
    requires exact == Min(cap, floor + share) && total > 0.0 && above == exact - floor
    ensures exact <= cap
    ensures if exact < cap then Times(above, total) == Times(share, total)
            else Times(above, total) <= Times(share, total)
  {
    ScaleMonotone(above, share, total);
  }

  lemma {:induction false} ShareDue(ev: real, total: real, left: real)
    requires total > 0.0
    ensures (ev / total * left) * total == ev * left
  {
    ShareAsWeight(ev, total, left);
    var w := Quotient(left, total);
    assert (ev * w) * total == ev * (w * total);
  }

  /** Rounding keeps the order of allocations. */
  lemma {:induction false} RoundedAllocationsMonotone(s: seq<RankedMarket>, settings: RankerSettings, i: nat, j: nat)
    requires i < |s| && j < |s| && Exact(s, i, settings) <= Exact(s, j, settings)
    ensures Allocated(s, settings)[i].allocatedExposure <= Allocated(s, settings)[j].allocatedExposure
  {
    RoundToMonotone(Exact(s, i, settings), Exact(s, j, settings), 1_000_000.0);
  }

  // ----- Totals -----

  ghost function SumTo(f: nat -> real, k: nat): real
  {
    if k == 0 then 0.0 else SumTo(f, k - 1) + f(k - 1)
  }

  /** Capping each term cannot raise a sum, and keeps it exactly when the cap cuts no term. */
  lemma {:induction false} CappedSum(f: nat -> real, capped: nat -> real, cap: real, k: nat)
    requires forall i: nat :: i < k ==> capped(i) == Min(cap, f(i))
    ensures SumTo(capped, k) <= SumTo(f, k)
    ensures SumTo(capped, k) == SumTo(f, k) <==> forall i: nat :: i < k ==> f(i) <= cap
  {
    if k > 0 {
      CappedSum(f, capped, cap, k - 1);
      assert (forall i: nat :: i < k ==> f(i) <= cap)
          <==> (forall i: nat :: i < k - 1 ==> f(i) <= cap) && f(k - 1) <= cap;
    }
  }

  lemma {:induction false} ShareAsWeight(ev: real, total: real, rest: real)
    requires total > 0.0
    ensures ev / total * rest == ev * (rest / total)
  {
    DivideBack(ev, total);
    DivideBack(rest, total);
    var x, y := ev / total, rest / total;
    assert x * (y * total) == (x * total) * y;
  }

  /** `k` terms, each a floor and a weighted value, sum to `k` floors and the weighted sum of values. */
  lemma {:induction false} WeightedSum(f: nat -> real, floor: real, w: real, s: seq<RankedMarket>, k: nat)
    requires k <= |s| && forall i: nat :: i < k ==> f(i) == floor + s[i].makerEv * w
    ensures SumTo(f, k) == k as real * floor + TotalEv(s[..k]) * w
  {
    if k > 0 {
      WeightedSum(f, floor, w, s, k - 1);
      assert s[..k][..k - 1] == s[..k - 1];
      Distribute(TotalEv(s[..k - 1]), s[k - 1].makerEv, w);
      Distribute((k - 1) as real, 1.0, floor);
    }
  }

  ghost function FloorTotal(s: seq<RankedMarket>, settings: RankerSettings): real
  {
    settings.minOrderSize as real * |s| as real
  }

  ghost function Exacts(s: seq<RankedMarket>, settings: RankerSettings): nat -> real
  {
    (i: nat) => Exact(s, i, settings)
  }

  lemma {:induction false} WeightBack(total: real, rest: real)
    requires total > 0.0
    ensures total * (rest / total) == rest
  {
    DivideBack(rest, total);
  }

  lemma {:induction false} UncappedAsWeights(s: seq<RankedMarket>, settings: RankerSettings, w: real, i: nat)
    requires i < |s| && TotalEv(s) > 0.0 && w == Remaining(|s|, settings) / TotalEv(s)
    ensures Uncapped(s, i, settings) == settings.minOrderSize as real + s[i].makerEv * w
  {
    ShareAsWeight(s[i].makerEv, TotalEv(s), Remaining(|s|, settings));
  }

  lemma {:induction false} UncappedTotal(s: seq<RankedMarket>, settings: RankerSettings, f: nat -> real)
    requires s != [] && TotalEv(s) > 0.0
    requires forall i: nat :: i < |s| ==> f(i) == Uncapped(s, i, settings)
    ensures SumTo(f, |s|) == FloorTotal(s, settings) + Remaining(|s|, settings)
  {
    var w := Remaining(|s|, settings) / TotalEv(s);
    forall i: nat | i < |s| ensures f(i) == settings.minOrderSize as real + s[i].makerEv * w {
      UncappedAsWeights(s, settings, w, i);
    }
    WeightedSum(f, settings.minOrderSize as real, w, s, |s|);
    assert s[..|s|] == s;
    WeightBack(TotalEv(s), Remaining(|s|, settings));
  }

  lemma {:induction false} BudgetOrFloors(s: seq<RankedMarket>, settings: RankerSettings)
    ensures FloorTotal(s, settings) + Remaining(|s|, settings)
        == Max(settings.maxTotalExposure, FloorTotal(s, settings))
  {
  }

  /**
   Before rounding, all allocations together use at most the budget, or the floors when those alone exceed it; they use
   exactly that much if and only if the cap cuts none of them.
   */
  lemma {:induction false} AllocationTotal(s: seq<RankedMarket>, settings: RankerSettings)
    requires s != [] && forall x :: x in s ==> x.makerEv > 0.0
    ensures var limit, sum := Max(settings.maxTotalExposure, FloorTotal(s, settings)), SumTo(Exacts(s, settings), |s|);
      && sum <= limit
      && (sum == limit <==> forall i: nat :: i < |s| ==> Uncapped(s, i, settings) <= settings.maxPerMarket)
  {
    TotalEvPositive(s);
    var uncapped: nat -> real := (i: nat) => Uncapped(s, i, settings);
    UncappedTotal(s, settings, uncapped);
    BudgetOrFloors(s, settings);
    forall i: nat | i < |s| ensures Exacts(s, settings)(i) == Min(settings.maxPerMarket, uncapped(i)) {
    }
    CappedSum(uncapped, Exacts(s, settings), settings.maxPerMarket, |s|);
  }

  /** Rounding to six decimals moves an allocation by at most half a millionth. */
  lemma {:induction false} RoundingError(s: seq<RankedMarket>, i: nat, settings: RankerSettings)
    requires i < |s|
    ensures Abs(Allocated(s, settings)[i].allocatedExposure - Exact(s, i, settings)) <= 0.0000005
  {
    RoundToClose(Exact(s, i, settings), 1_000_000.0);
  }

  const ROUNDING := 0.0000005

  ghost function Exposure(s: seq<RankedMarket>, i: nat, settings: RankerSettings): real
  {
    if i < |s| then Allocated(s, settings)[i].allocatedExposure else 0.0
  }

  ghost function Exposures(s: seq<RankedMarket>, settings: RankerSettings): nat -> real
  {
    (i: nat) => Exposure(s, i, settings)
  }

  lemma {:induction false} SumsClose(f: nat -> real, g: nat -> real, k: nat)
    requires forall i: nat :: i < k ==> Abs(f(i) - g(i)) <= ROUNDING
    ensures Abs(SumTo(f, k) - SumTo(g, k)) <= k as real * ROUNDING
  {
    if k > 0 {
      SumsClose(f, g, k - 1);
    }
  }

  /**
   The rounded allocations exceed the budget, or the floors where those exceed it, by at most half a
   millionth a market.
   */
  lemma {:induction false} RoundedTotal(s: seq<RankedMarket>, settings: RankerSettings)
    requires s != [] && forall x :: x in s ==> x.makerEv > 0.0
    ensures SumTo(Exposures(s, settings), |s|)
         <= Max(settings.maxTotalExposure, FloorTotal(s, settings)) + |s| as real * ROUNDING
  {
    hide Exact, Exposure, FloorTotal;
    forall i: nat | i < |s| ensures Abs(Exposures(s, settings)(i) - Exacts(s, settings)(i)) <= ROUNDING {
      ExposureClose(s, i, settings);
    }
    SumsClose(Exposures(s, settings), Exacts(s, settings), |s|);
    AllocationTotal(s, settings);
  }

  lemma {:induction false} ExposureClose(s: seq<RankedMarket>, i: nat, settings: RankerSettings)
    requires i < |s|
    ensures Abs(Exposure(s, i, settings) - Exact(s, i, settings)) <= ROUNDING
  {
    RoundingError(s, i, settings);
  }
}
