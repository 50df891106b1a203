/** The spread a quote must earn at a given fee rate. */
module FeeCalculator {
  import opened Common

  function BpsToDecimal(bps: int): real
  {
    bps as real / 10000.0
  }

  function MinProfitableSpread(feeRateBps: int, baseSpread: real, costFloor: real): real
  {
    Max(baseSpread, 2.0 * BpsToDecimal(feeRateBps) + costFloor)
  }

  predicate PassesStrategyAGate(feeRateBps: int, observedSpread: real, baseSpread: real, costFloor: real)
  {
    && observedSpread >= MinProfitableSpread(feeRateBps, baseSpread, costFloor)
    && (feeRateBps > 100 ==> observedSpread >= 3.0 * BpsToDecimal(feeRateBps))
  }

  /** A market that passes still passes with a wider spread, a lower fee or lower thresholds. */
  lemma {:induction false} GateMonotone(fee: int, spread: real, base: real, floor: real,
                                        fee': int, spread': real, base': real, floor': real)
    requires PassesStrategyAGate(fee, spread, base, floor)
    requires fee' <= fee && spread <= spread' && base' <= base && floor' <= floor
    ensures PassesStrategyAGate(fee', spread', base', floor')
  {
    assert BpsToDecimal(fee') <= BpsToDecimal(fee);
  }

  /**
   Above 100 bps the three-fold rule is the tighter one exactly when it exceeds the base spread and
   the fee exceeds the cost floor.
   */
  lemma {:induction false} ThreeFoldRuleBinds(fee: int, base: real, floor: real)
    requires fee > 100
    ensures (exists spread ::
               spread >= MinProfitableSpread(fee, base, floor) && !PassesStrategyAGate(fee, spread, base, floor))
       <==> 3.0 * BpsToDecimal(fee) > base && BpsToDecimal(fee) > floor
  {
    var least := MinProfitableSpread(fee, base, floor);
    if 3.0 * BpsToDecimal(fee) > base && BpsToDecimal(fee) > floor {
      assert least >= least && !PassesStrategyAGate(fee, least, base, floor);
    }
  }
}
