/**
 How a market's value answers its inputs: the exact shift for a change of each, the direction of each,
 and which markets are worth quoting at all. Together the shifts and the idle market fix the value.
 */
module MarketValue {
  import opened Common
  import opened MarketRanker

  ghost function Value(m: MarketEVInputs): real
  {
    ComputeEv(m).makerEv
  }

  /** Fewer than a hundred fills or less than a day of trading. */
  ghost predicate TooNew(m: MarketEVInputs)
  {
    m.fillCount < 100 || m.hoursLive < 24.0
  }

  /** How much of the last six hours before its resolution is gone. */
  ghost function Nearness(m: MarketEVInputs): real
  {
    if m.timeToResolutionH.Some? && 0.0 < m.timeToResolutionH.value < 6.0
    then (6.0 - m.timeToResolutionH.value) / 6.0 else 0.0
  }

  /** The chance of a fill: observed, or one half at the mid, 0.09 less for each tick from it, at least 0.05. */
  ghost function FillChance(m: MarketEVInputs): real
  {
    if !TooNew(m) && m.fillProbability.Some? then m.fillProbability.value
    else if m.postedTicksFromMid >= 5.0 then 0.05
    else 0.5 - 0.09 * m.postedTicksFromMid
  }

  /** What adverse selection costs: as observed, or a tick. */
  ghost function AdverseCost(m: MarketEVInputs): real
  {
    if !TooNew(m) && m.adverseSelectionCost.Some? then m.adverseSelectionCost.value else m.tickSize
  }

  ghost function RewardRate(m: MarketEVInputs): real
  {
    if m.rewardsDailyRate.Some? then m.rewardsDailyRate.value else 0.0
  }

  /** How much likelier a fill is than the resolution is near: what is kept of the half spread. */
  ghost function Margin(m: MarketEVInputs): real
  {
    FillChance(m) - Nearness(m)
  }

  // ----- The terms, their products kept apart -----

  lemma {:induction false} TimesLess(x: real, x': real, y: real)
    ensures Times(x', y) - Times(x, y) == (x' - x) * y
  {
  }

  lemma {:induction false} TimesLessRight(y: real, x: real, x': real)
    ensures Times(y, x') - Times(y, x) == y * (x' - x)
  {
  }

  lemma {:induction false} TimesDiffer(x: real, x': real, y: real, d: real)
    requires d == x' - x
    ensures Times(x', y) - Times(x, y) == Times(d, y)
    ensures Times(y, x') - Times(y, x) == Times(y, d)
  {
  }

  lemma {:induction false} TimesZero(x: real)
    ensures Times(0.0, x) == Times(x, 0.0) == 0.0
  {
  }

  lemma {:induction false} TimesGrow(a: real, b: real, a': real, b': real)
    requires a <= a' && b <= b' && 0.0 <= b && 0.0 <= a'
    ensures Times(a, b) <= Times(a', b')
  {
    ScaleMonotone(a, a', b);
    ScaleMonotone(b, b', a');
  }

  lemma {:induction false} EventRisk(m: MarketEVInputs)
    ensures ComputeEv(m).eventRiskCost == Times(m.observedHalfSpread, Nearness(m))
  {
  }

  lemma {:induction false} Earned(m: MarketEVInputs)
    ensures ComputeEv(m).spreadEv == Times(m.observedHalfSpread, FillChance(m))
    ensures ComputeEv(m).rewardEv == Times(RewardRate(m), m.proximityScore)
    ensures ComputeEv(m).rebateEv == Times(m.rebateRate, m.expectedDailyVolume)
    ensures ComputeEv(m).inventoryCost == Times(Abs(m.inventorySkew), m.tickSize)
    ensures ComputeEv(m).adverseSelectionCost == AdverseCost(m)
  {
    hide EventRiskCost;
    TimesZero(m.proximityScore);
  }

  lemma {:induction false} NetOfCosts(m: MarketEVInputs)
    ensures var r := ComputeEv(m);
      Value(m) == r.spreadEv + r.rewardEv + r.rebateEv - r.adverseSelectionCost - r.inventoryCost - r.eventRiskCost
  {
  }

  lemma {:induction false} Terms(m: MarketEVInputs)
    ensures Value(m) == Times(m.observedHalfSpread, Margin(m))
        + Times(RewardRate(m), m.proximityScore) + Times(m.rebateRate, m.expectedDailyVolume)
        - AdverseCost(m) - Times(Abs(m.inventorySkew), m.tickSize)
  {
    hide ComputeEv, Value, Times, FillChance, Nearness, AdverseCost;
    NetOfCosts(m);
    Earned(m);
    EventRisk(m);
    TimesSplit(m.observedHalfSpread, FillChance(m), Nearness(m));
  }

  lemma {:induction false} TimesSplit(x: real, y: real, z: real)
    ensures Times(x, y - z) == Times(x, y) - Times(x, z)
  {
  }

  // ----- The exact shifts -----

  /** A market that earns nothing costs what adverse selection does. */
  lemma {:induction false} IdleMarket(m: MarketEVInputs)
    requires m.observedHalfSpread == 0.0 && m.rewardsDailyRate.None? && m.rebateRate == 0.0 && m.inventorySkew == 0.0
    ensures Value(m) == -AdverseCost(m)
  {
    hide Value, Times;
    Terms(m);
    TimesZero(Margin(m));
    TimesZero(m.proximityScore);
    TimesZero(m.expectedDailyVolume);
    TimesZero(m.tickSize);
  }

  lemma {:induction false} RewardShift(m: MarketEVInputs, rate: real)
    ensures Value(m.(rewardsDailyRate := Some(rate))) - Value(m) == (rate - RewardRate(m)) * m.proximityScore
  {
    var m' := m.(rewardsDailyRate := Some(rate));
    assert Margin(m') == Margin(m) && AdverseCost(m') == AdverseCost(m) && RewardRate(m') == rate;
    hide Value, Times, Margin, AdverseCost, RewardRate;
    Terms(m);
    Terms(m');
    TimesLess(RewardRate(m), rate, m.proximityScore);
  }

  lemma {:induction false} NoRewardIsZero(m: MarketEVInputs)
    ensures Value(m.(rewardsDailyRate := None)) == Value(m.(rewardsDailyRate := Some(0.0)))
  {
    hide Value, Times;
    Terms(m.(rewardsDailyRate := None));
    Terms(m.(rewardsDailyRate := Some(0.0)));
  }

  lemma {:induction false} ProximityShift(m: MarketEVInputs, proximity: real)
    ensures Value(m.(proximityScore := proximity)) - Value(m) == RewardRate(m) * (proximity - m.proximityScore)
  {
    hide Value, Times;
    Terms(m);
    Terms(m.(proximityScore := proximity));
    TimesLessRight(RewardRate(m), m.proximityScore, proximity);
  }

  lemma {:induction false} RebateShift(m: MarketEVInputs, rate: real)
    ensures Value(m.(rebateRate := rate)) - Value(m) == (rate - m.rebateRate) * m.expectedDailyVolume
  {
    hide Value, Times;
    Terms(m);
    Terms(m.(rebateRate := rate));
    TimesLess(m.rebateRate, rate, m.expectedDailyVolume);
  }

  lemma {:induction false} VolumeShift(m: MarketEVInputs, volume: real)
    ensures Value(m.(expectedDailyVolume := volume)) - Value(m) == m.rebateRate * (volume - m.expectedDailyVolume)
  {
    hide Value, Times;
    Terms(m);
    Terms(m.(expectedDailyVolume := volume));
    TimesLessRight(m.rebateRate, m.expectedDailyVolume, volume);
  }

  lemma {:induction false} SkewShift(m: MarketEVInputs, skew: real)
    ensures Value(m.(inventorySkew := skew)) - Value(m) == (Abs(m.inventorySkew) - Abs(skew)) * m.tickSize
  {
    hide Value, Abs;
    SkewTerm(m, skew);
  }

  lemma {:induction false} SkewTerm(m: MarketEVInputs, skew: real)
    ensures Value(m.(inventorySkew := skew)) - Value(m) == Times(Abs(m.inventorySkew) - Abs(skew), m.tickSize)
  {
    var m' := m.(inventorySkew := skew);
    assert Margin(m') == Margin(m) && AdverseCost(m') == AdverseCost(m) && RewardRate(m') == RewardRate(m);
    hide Value, Times, Margin, AdverseCost, RewardRate, Abs;
    Terms(m);
    Terms(m');
    TimesDiffer(Abs(skew), Abs(m.inventorySkew), m.tickSize, Abs(m.inventorySkew) - Abs(skew));
  }

  lemma {:induction false} AdverseShift(m: MarketEVInputs, cost: Option<real>)
    ensures var m' := m.(adverseSelectionCost := cost);
      Value(m') - Value(m) == AdverseCost(m) - AdverseCost(m')
  {
    hide Value, Times;
    Terms(m);
    Terms(m.(adverseSelectionCost := cost));
  }

  /** What a market too new has been observed to do plays no part. */
  lemma {:induction false} NewMarketsGoByTheCurve(m: MarketEVInputs, chance: Option<real>, cost: Option<real>)
    requires m.fillCount < 100 || m.hoursLive < 24.0
    ensures Value(m.(fillProbability := chance, adverseSelectionCost := cost)) == Value(m)
    ensures ComputeEv(m).isColdStart
  {
    hide Times;
    Terms(m);
    Terms(m.(fillProbability := chance, adverseSelectionCost := cost));
  }

  lemma {:induction false} HalfSpreadShift(m: MarketEVInputs, halfSpread: real)
    ensures Value(m.(observedHalfSpread := halfSpread)) - Value(m)
         == (halfSpread - m.observedHalfSpread) * Margin(m)
  {
    hide Value, Margin;
    HalfSpreadTerm(m, halfSpread);
  }

  lemma {:induction false} HalfSpreadTerm(m: MarketEVInputs, halfSpread: real)
    ensures Value(m.(observedHalfSpread := halfSpread)) - Value(m)
         == Times(halfSpread - m.observedHalfSpread, Margin(m))
  {
    var m' := m.(observedHalfSpread := halfSpread);
    assert Margin(m') == Margin(m) && AdverseCost(m') == AdverseCost(m) && RewardRate(m') == RewardRate(m);
    hide Value, Times, Margin, AdverseCost, RewardRate;
    Terms(m);
    Terms(m');
    TimesDiffer(m.observedHalfSpread, halfSpread, Margin(m), halfSpread - m.observedHalfSpread);
  }

  /** A change of distance from the mid, of the chance observed, or of the time to the resolution. */
  lemma {:induction false} ChanceShift(m: MarketEVInputs, ticks: real, chance: Option<real>, time: Option<real>)
    ensures var m' := m.(postedTicksFromMid := ticks, fillProbability := chance, timeToResolutionH := time);
      Value(m') - Value(m) == m.observedHalfSpread * (Margin(m') - Margin(m))
  {
    hide Value, Margin;
    var m' := m.(postedTicksFromMid := ticks, fillProbability := chance, timeToResolutionH := time);
    ChanceTerm(m, m');
  }

  lemma {:induction false} ChanceTerm(m: MarketEVInputs, m': MarketEVInputs)
    requires m' == m.(postedTicksFromMid := m'.postedTicksFromMid, fillProbability := m'.fillProbability,
                      timeToResolutionH := m'.timeToResolutionH)
    ensures Value(m') - Value(m) == Times(m.observedHalfSpread, Margin(m') - Margin(m))
  {
    assert AdverseCost(m') == AdverseCost(m) && RewardRate(m') == RewardRate(m);
    hide Value, Times, Margin, AdverseCost, RewardRate;
    Terms(m);
    Terms(m');
    TimesDiffer(Margin(m), Margin(m'), m.observedHalfSpread, Margin(m') - Margin(m));
  }

  // ----- The directions -----

  /** At least as good in every respect but how soon it resolves and the chance of a fill. */
  ghost predicate NoWorse(m: MarketEVInputs, m': MarketEVInputs)
  {
    && m'.tickSize == m.tickSize && m'.timeToResolutionH == m.timeToResolutionH && FillChance(m') == FillChance(m)
    && m.observedHalfSpread <= m'.observedHalfSpread
    && RewardRate(m) <= RewardRate(m') && m.proximityScore <= m'.proximityScore
    && m.rebateRate <= m'.rebateRate && m.expectedDailyVolume <= m'.expectedDailyVolume
    && AdverseCost(m') <= AdverseCost(m) && Abs(m'.inventorySkew) <= Abs(m.inventorySkew)
  }

  /**
   As long as a fill is likelier than the resolution is near, a market's value never falls with its half
   spread, reward rate, proximity, rebate or volume, and never rises with adverse cost or the size of
   the skew. That is so in particular outside the last six hours.
   */
  lemma {:induction false} NoWorseNoLess(m: MarketEVInputs, m': MarketEVInputs)
    requires NoWorse(m, m') && m.tickSize >= 0.0 && Margin(m) >= 0.0
    requires m'.observedHalfSpread >= 0.0
    requires RewardRate(m') >= 0.0 && m.proximityScore >= 0.0 && m'.rebateRate >= 0.0 && m.expectedDailyVolume >= 0.0
    ensures Value(m) <= Value(m')
  {
    hide Value, Times, FillChance, AdverseCost;
    Terms(m);
    Terms(m');
    TimesGrow(m.observedHalfSpread, Margin(m), m'.observedHalfSpread, Margin(m'));
    TimesGrow(RewardRate(m), m.proximityScore, RewardRate(m'), m'.proximityScore);
    TimesGrow(m.rebateRate, m.expectedDailyVolume, m'.rebateRate, m'.expectedDailyVolume);
    TimesGrow(Abs(m'.inventorySkew), m.tickSize, Abs(m.inventorySkew), m.tickSize);
  }

  /** Nor does it rise as the resolution comes nearer. */
  lemma {:induction false} NearerIsNoBetter(m: MarketEVInputs, soon: real, later: real)
    requires 0.0 < soon <= later && m.observedHalfSpread >= 0.0
    ensures Value(m.(timeToResolutionH := Some(soon))) <= Value(m.(timeToResolutionH := Some(later)))
    ensures Value(m.(timeToResolutionH := Some(later))) <= Value(m.(timeToResolutionH := None))
  {
    hide Value, Times;
    var s, l, n := m.(timeToResolutionH := Some(soon)), m.(timeToResolutionH := Some(later)),
        m.(timeToResolutionH := None);
    Terms(s);
    Terms(l);
    Terms(n);
    NearnessFalls(m, soon, later);
    TimesUp(m.observedHalfSpread, Margin(s), Margin(l));
    TimesUp(m.observedHalfSpread, Margin(l), Margin(n));
  }

  lemma {:induction false} NearnessFalls(m: MarketEVInputs, soon: real, later: real)
    requires 0.0 < soon <= later
    ensures Nearness(m.(timeToResolutionH := Some(soon))) >= Nearness(m.(timeToResolutionH := Some(later))) >= 0.0
  {
  }

  lemma {:induction false} TimesUp(w: real, x: real, y: real)
    requires w >= 0.0 && x <= y
    ensures Times(w, x) <= Times(w, y)
  {
  }

  // ----- Which markets are worth quoting -----

  /** Without rewards and rebates a market has value exactly when its spread pays for selection and inventory. */
  lemma {:induction false} UnrewardedIff(m: MarketEVInputs)
    requires m.rewardsDailyRate.None? && m.rebateRate == 0.0
    ensures Value(m) > 0.0 <==>
              m.observedHalfSpread * Margin(m) > AdverseCost(m) + Abs(m.inventorySkew) * m.tickSize
  {
    hide Value, Margin, AdverseCost;
    Terms(m);
    TimesZero(m.proximityScore);
    TimesZero(m.expectedDailyVolume);
  }

  /** A new one needs a half spread of more than two ticks, which is enough at the mid and far from a resolution. */
  lemma {:induction false} NewNeedsWideSpread(m: MarketEVInputs)
    requires m.rewardsDailyRate.None? && m.rebateRate == 0.0 && (m.fillCount < 100 || m.hoursLive < 24.0)
    requires m.postedTicksFromMid >= 0.0 && m.tickSize >= 0.0 && m.observedHalfSpread >= 0.0
    ensures Value(m) > 0.0 ==> m.observedHalfSpread > 2.0 * m.tickSize
    ensures m.postedTicksFromMid == 0.0 && m.inventorySkew == 0.0 && m.timeToResolutionH.None? ==>
              (Value(m) > 0.0 <==> m.observedHalfSpread > 2.0 * m.tickSize)
  {
    hide Value, Times;
    Terms(m);
    TimesZero(m.proximityScore);
    TimesZero(m.expectedDailyVolume);
    TimesZero(m.tickSize);
    TimesUp(m.observedHalfSpread, Margin(m), 0.5);
    HalfTimes(m.observedHalfSpread);
    TimesGrow(0.0, m.tickSize, Abs(m.inventorySkew), m.tickSize);
  }

  lemma {:induction false} HalfTimes(x: real)
    ensures Times(x, 0.5) == x / 2.0
  {
  }

  /** A market is a candidate exactly when it has value; what is ranked is a candidate. */
  lemma {:induction false} CandidatesHaveValue(markets: seq<MarketEVInputs>, r: RankedMarket)
    ensures r in Candidates(markets) <==> exists m :: m in markets && r == ComputeEv(m) && Value(m) > 0.0
  {
    if markets != [] {
      var n := |markets| - 1;
      CandidatesHaveValue(markets[..n], r);
      assert markets == markets[..n] + [markets[n]];
      if m :| m in markets && r == ComputeEv(m) && Value(m) > 0.0 {
        assert m in markets[..n] || m == markets[n];
      }
    }
  }

  /** What `Rank` returns are markets of the list, each with its own value. */
  lemma {:induction false} RankedHaveValue(markets: seq<MarketEVInputs>, settings: RankerSettings, k: nat)
    returns (m: MarketEVInputs)
    requires k < |Allocated(Selected(markets, settings.maxMarkets), settings)|
    ensures m in markets && Value(m) > 0.0
    ensures var r := Allocated(Selected(markets, settings.maxMarkets), settings)[k];
      r.tokenId == m.tokenId && r.makerEv == Value(m)
  {
    hide ComputeEv;
    var rest := SelectsTheBest(markets, settings.maxMarkets);
    var s := Selected(markets, settings.maxMarkets);
    assert s[k] in multiset(s) + multiset(rest);
    assert s[k] in multiset(Candidates(markets));
    CandidatesHaveValue(markets, s[k]);
    m :| m in markets && s[k] == ComputeEv(m) && Value(m) > 0.0;
    KeepsToken(m);
  }

  lemma {:induction false} KeepsToken(m: MarketEVInputs)
    ensures ComputeEv(m).tokenId == m.tokenId
  {
  }
}
