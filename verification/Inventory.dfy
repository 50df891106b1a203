/** Value-weighted inventory skew and how fills move it. */
module Inventory {
  import opened Common
  import opened Positions

  datatype InventoryState = InventoryState(yesShares: real, noShares: real, yesPrice: real)

  datatype InventoryFill = InventoryFill(side: FillSide, size: real)

  function SkewOf(yesValue: real, noValue: real): real
  {
    var total := yesValue + noValue;
    if total == 0.0 then 0.0 else (yesValue - noValue) / total
  }

  function YesValue(s: InventoryState): real
  {
    s.yesShares * s.yesPrice
  }

  function NoValue(s: InventoryState): real
  {
    s.noShares * (1.0 - s.yesPrice)
  }

  function ValueWeightedSkew(s: InventoryState): real
  {
    SkewOf(YesValue(s), NoValue(s))
  }

  function RoundedProduct(x: real, y: real): int
  {
    RoundHalfEven(x * y)
  }

  function QuoteOffsetTicks(skew: real, multiplier: int): int
  {
    RoundedProduct(skew, multiplier as real)
  }

  predicate ShouldHalt(skew: real, haltThreshold: real)
  {
    Abs(skew) >= haltThreshold
  }

  predicate ShouldResume(skew: real, resumeThreshold: real)
  {
    Abs(skew) < resumeThreshold
  }

  /** A buy adds YES shares, a sell adds NO shares. */
  function ApplyFill(s: InventoryState, f: InventoryFill): InventoryState
  {
    match f.side
    case BuyFill => s.(yesShares := s.yesShares + f.size)
    case SellFill => s.(noShares := s.noShares + f.size)
    case OtherFill => s
  }

  function ApplyFills(s: InventoryState, fills: seq<InventoryFill>): InventoryState
    decreases |fills|
  {
    if fills == [] then s else ApplyFills(ApplyFill(s, fills[0]), fills[1..])
  }

  /** No negative holdings, and a price that is a probability. */
  ghost predicate Sound(s: InventoryState)
  {
    s.yesShares >= 0.0 && s.noShares >= 0.0 && 0.0 <= s.yesPrice <= 1.0
  }

  ghost predicate SizesNonNegative(fills: seq<InventoryFill>)
  {
    forall f :: f in fills ==> f.size >= 0.0
  }

  lemma {:induction false} ProductNonNegative(x: real, y: real)
    requires x >= 0.0 && y >= 0.0
    ensures x * y >= 0.0
  {
  }

  lemma {:induction false} SkewOfBounded(y: real, n: real)
    requires y >= 0.0 && n >= 0.0
    ensures -1.0 <= SkewOf(y, n) <= 1.0
  {
    if y + n > 0.0 {
      QuotientMonotone(-(y + n), y - n, y + n);
      QuotientMonotone(y - n, y + n, y + n);
      DivideBack(-(y + n), y + n);
      assert (y + n) / (y + n) == 1.0 && -(y + n) / (y + n) == -1.0;
    }
  }

  /** More YES value never lowers the skew. */
  lemma {:induction false} MoreYesValue(y: real, y': real, n: real)
    requires 0.0 <= y <= y' && n >= 0.0
    ensures SkewOf(y, n) <= SkewOf(y', n)
  {
    SkewOfBounded(y', n);
    if y + n > 0.0 {
      CrossMultiplied(y, n, y' - y);
    } else if y' > 0.0 {
      assert SkewOf(y', n) == y' / y' == 1.0;
    }
  }

  /** More NO value never raises it. */
  lemma {:induction false} MoreNoValue(y: real, n: real, n': real)
    requires 0.0 <= n <= n' && y >= 0.0
    ensures SkewOf(y, n') <= SkewOf(y, n)
  {
    MoreYesValue(n, n', y);
    SkewOfAntisymmetric(y, n);
    SkewOfAntisymmetric(y, n');
  }

  lemma {:induction false} SkewOfAntisymmetric(y: real, n: real)
    ensures SkewOf(n, y) == -SkewOf(y, n)
  {
    if y + n != 0.0 {
      DivideBack(y - n, y + n);
      DivideBack(n - y, y + n);
      assert (SkewOf(y, n) + SkewOf(n, y)) * (y + n) == 0.0;
    }
  }

  lemma {:induction false} CrossMultiplied(y: real, n: real, d: real)
    requires y >= 0.0 && n >= 0.0 && d >= 0.0 && y + n > 0.0
    ensures SkewOf(y, n) <= SkewOf(y + d, n)
  {
    var t, k := y + n, SkewOf(y, n);
    DivideBack(y - n, t);
    SkewOfBounded(y, n);
    Distribute(t, d, k);
    ScaleMonotone(k, 1.0, d);
    QuotientAtLeast(y + d - n, t + d, k);
  }

  lemma {:induction false} ValuesNonNegative(s: InventoryState)
    requires Sound(s)
    ensures YesValue(s) >= 0.0 && NoValue(s) >= 0.0
  {
    ProductNonNegative(s.yesShares, s.yesPrice);
    ProductNonNegative(s.noShares, 1.0 - s.yesPrice);
  }

  lemma {:induction false} MoreSharesMoreValue(s: InventoryState, s': InventoryState)
    requires Sound(s) && s'.yesPrice == s.yesPrice
    requires s.yesShares <= s'.yesShares && s.noShares <= s'.noShares
    ensures YesValue(s) <= YesValue(s') && NoValue(s) <= NoValue(s')
    ensures s.yesShares == s'.yesShares ==> YesValue(s) == YesValue(s')
    ensures s.noShares == s'.noShares ==> NoValue(s) == NoValue(s')
  {
    ScaleMonotone(s.yesShares, s'.yesShares, s.yesPrice);
    ScaleMonotone(s.noShares, s'.noShares, 1.0 - s.yesPrice);
  }

  /** Skew is a fraction. */
  lemma {:induction false} SkewBounded(s: InventoryState)
    requires Sound(s)
    ensures -1.0 <= ValueWeightedSkew(s) <= 1.0
  {
    ValuesNonNegative(s);
    SkewOfBounded(YesValue(s), NoValue(s));
  }

  /** A buy never lowers the skew, a sell never raises it. */
  lemma {:induction false} FillMovesSkew(s: InventoryState, size: real)
    requires Sound(s) && size >= 0.0
    ensures ValueWeightedSkew(s) <= ValueWeightedSkew(ApplyFill(s, InventoryFill(BuyFill, size)))
    ensures ValueWeightedSkew(ApplyFill(s, InventoryFill(SellFill, size))) <= ValueWeightedSkew(s)
  {
    hide SkewOf, YesValue, NoValue;
    var bought := ApplyFill(s, InventoryFill(BuyFill, size));
    var sold := ApplyFill(s, InventoryFill(SellFill, size));
    ValuesNonNegative(s);
    MoreSharesMoreValue(s, bought);
    MoreSharesMoreValue(s, sold);
    MoreYesValue(YesValue(s), YesValue(bought), NoValue(s));
    MoreNoValue(YesValue(s), NoValue(s), NoValue(sold));
  }

  // ----- Whole sequences of fills -----

  ghost function Filled(fills: seq<InventoryFill>, side: FillSide): real
  {
    if fills == [] then 0.0
    else (if fills[0].side == side then fills[0].size else 0.0) + Filled(fills[1..], side)
  }

  /** Each side grows by exactly what was filled on it. */
  lemma {:induction false} FillsAddUp(s: InventoryState, fills: seq<InventoryFill>)
    ensures var s' := ApplyFills(s, fills);
      && s'.yesPrice == s.yesPrice
      && s'.yesShares == s.yesShares + Filled(fills, BuyFill)
      && s'.noShares == s.noShares + Filled(fills, SellFill)
    decreases |fills|
  {
    if fills != [] {
      FillsAddUp(ApplyFill(s, fills[0]), fills[1..]);
    }
  }

  /** Over every sequence of fills without negative sizes the skew stays a fraction. */
  lemma {:induction false} SkewBoundedOverFills(s: InventoryState, fills: seq<InventoryFill>)
    requires Sound(s) && SizesNonNegative(fills)
    ensures Sound(ApplyFills(s, fills)) && -1.0 <= ValueWeightedSkew(ApplyFills(s, fills)) <= 1.0
    decreases |fills|
  {
    if fills == [] {
      SkewBounded(s);
    } else {
      assert fills == [fills[0]] + fills[1..];
      assert Sound(ApplyFill(s, fills[0]));
      SkewBoundedOverFills(ApplyFill(s, fills[0]), fills[1..]);
    }
  }

  lemma {:induction false} FilledRemove(fills: seq<InventoryFill>, k: nat, side: FillSide)
    requires k < |fills|
    ensures Filled(fills, side) == Filled(fills[..k] + fills[k + 1..], side)
        + (if fills[k].side == side then fills[k].size else 0.0)
  {
    if k == 0 {
      assert fills[..0] + fills[1..] == fills[1..];
    } else {
      FilledRemove(fills[1..], k - 1, side);
      var rest := fills[..k] + fills[k + 1..];
      assert rest[0] == fills[0] && rest[1..] == fills[1..][..k - 1] + fills[1..][k..];
    }
  }

  lemma {:induction false} FilledPermuted(a: seq<InventoryFill>, b: seq<InventoryFill>, side: FillSide)
    requires multiset(a) == multiset(b)
    ensures Filled(a, side) == Filled(b, side)
    decreases |a|
  {
    if a == [] {
      assert |multiset(b)| == 0;
    } else {
      var k := TakeOut(a, b);
      FilledPermuted(a[1..], b[..k] + b[k + 1..], side);
      FilledRemove(b, k, side);
    }
  }

  /** The final inventory does not depend on the order of the fills. */
  lemma {:induction false} FillOrderIrrelevant(s: InventoryState, a: seq<InventoryFill>, b: seq<InventoryFill>)
    requires multiset(a) == multiset(b)
    ensures ApplyFills(s, a) == ApplyFills(s, b)
  {
    FillsAddUp(s, a);
    FillsAddUp(s, b);
    FilledPermuted(a, b, BuyFill);
    FilledPermuted(a, b, SellFill);
  }

  /**
   No skew both halts and resumes exactly when the resume threshold is at most the halt
   threshold (a negative halt threshold always halts, so zero is the bound then). At the halt threshold
   quoting halts, at the resume threshold it does not resume.
   */
  lemma {:induction false} HaltExcludesResume(halt: real, resume: real)
    ensures (forall skew :: !(ShouldHalt(skew, halt) && ShouldResume(skew, resume)))
       <==> resume <= Max(halt, 0.0)
    ensures forall skew :: ShouldHalt(skew, halt) <==> skew >= halt || skew <= -halt
    ensures forall skew :: ShouldResume(skew, resume) <==> -resume < skew < resume
  {
    var least := Max(halt, 0.0);
    if resume > least {
      assert ShouldHalt(least, halt) && ShouldResume(least, resume);
    }
  }
}
