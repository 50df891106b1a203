/** Small shared vocabulary: optional values, real arithmetic and Python's rounding. */
module Common {

  datatype Option<+T> = None | Some(value: T)

  function Abs(x: real): (r: real)
  {
    if x < 0.0 then -x else x
  }

  function Max(x: real, y: real): real
  {
    if x < y then y else x
  }

  function Min(x: real, y: real): real
  {
    if y < x then y else x
  }

  /** Python's `round(x)`: the nearest integer, ties going to the even one. */
  function RoundHalfEven(x: real): (n: int)
    ensures -0.5 <= n as real - x <= 0.5
  {
    var below := x.Floor;
    var part := x - below as real;
    if part < 0.5 || (part == 0.5 && below % 2 == 0) then below else below + 1
  }

  lemma {:induction false} RoundMonotone(x: real, y: real)
    requires x <= y
    ensures RoundHalfEven(x) <= RoundHalfEven(y)
  {
  }

  /** `round(x, d)` for `scale == 10^d`. */
  function RoundTo(x: real, scale: real): real
    requires scale > 0.0
  {
    RoundHalfEven(x * scale) as real / scale
  }

  /** Rounding moves a value by at most half a unit of the last place kept. */
  lemma {:induction false} RoundToClose(x: real, scale: real)
    requires scale > 0.0
    ensures -0.5 <= RoundTo(x, scale) * scale - x * scale <= 0.5
  {
    DivideBack(RoundHalfEven(x * scale) as real, scale);
  }

  lemma {:induction false} ScaleMonotone(x: real, y: real, s: real)
    requires x <= y && s >= 0.0
    ensures x * s <= y * s
  {
  }

  lemma {:induction false} ScaleStrict(x: real, y: real, s: real)
    requires x < y && s > 0.0
    ensures x * s < y * s
  {
  }

  /** A product kept apart from the arithmetic around it. */
  ghost function Times(x: real, y: real): real
  {
    x * y
  }

  lemma {:induction false} Distribute(a: real, b: real, w: real)
    ensures (a + b) * w == a * w + b * w
  {
  }

  lemma {:induction false} DivideBack(x: real, s: real)
    requires s != 0.0
    ensures x / s * s == x
  {
  }

  lemma {:induction false} QuotientMonotone(x: real, y: real, s: real)
    requires x <= y && s > 0.0
    ensures x / s <= y / s
  {
  }

  lemma {:induction false} RoundToMonotone(x: real, y: real, scale: real)
    requires x <= y && scale > 0.0
    ensures RoundTo(x, scale) <= RoundTo(y, scale)
  {
    ScaleMonotone(x, y, scale);
    RoundMonotone(x * scale, y * scale);
    QuotientMonotone(RoundHalfEven(x * scale) as real, RoundHalfEven(y * scale) as real, scale);
  }

  lemma {:induction false} Quotient(x: real, s: real) returns (q: real)
    requires s != 0.0
    ensures q == x / s && q * s == x
  {
    q := x / s;
    DivideBack(x, s);
  }

  lemma {:induction false} ScaleIff(x: real, y: real, s: real)
    requires s > 0.0
    ensures x <= y <==> x * s <= y * s
  {
    if x <= y {
      ScaleMonotone(x, y, s);
    } else {
      ScaleStrict(y, x, s);
    }
  }

  /** A quotient is at most a bound exactly when the dividend is at most that many divisors. */
  lemma {:induction false} QuotientAtMost(x: real, s: real, bound: real)
    requires s > 0.0
    ensures x / s <= bound <==> x <= bound * s
  {
    var q := Quotient(x, s);
    ScaleIff(q, bound, s);
  }

  lemma {:induction false} QuotientAtLeast(x: real, s: real, bound: real)
    requires s > 0.0
    ensures bound <= x / s <==> bound * s <= x
  {
    var q := Quotient(x, s);
    ScaleIff(bound, q, s);
  }

  /** No value occurs twice. */
  ghost predicate NoRepeats<T>(items: seq<T>)
  {
    forall i, j :: 0 <= i < j < |items| ==> items[i] != items[j]
  }

  lemma {:induction false} Regroup<T>(a: seq<T>, b: seq<T>, c: seq<T>)
    ensures a + b + c == a + (b + c)
  {
  }

  lemma {:induction false} Pick<T>(s: set<T>) returns (x: T)
    requires s != {}
    ensures x in s
  {
    x :| x in s;
  }

  lemma {:induction false} SubsetSize<T>(small: set<T>, big: set<T>)
    requires small <= big
    ensures |small| <= |big|
  {
    assert big == small + (big - small);
  }

  /** The head of a list can be taken out of any permutation of it, leaving a permutation of the rest. */
  lemma {:induction false} TakeOut<T(!new)>(a: seq<T>, b: seq<T>) returns (k: nat)
    requires a != [] && multiset(a) == multiset(b)
    ensures k < |b| && b[k] == a[0]
    ensures multiset(a[1..]) == multiset(b[..k] + b[k + 1..])
  {
    HeadMultiset(a);
    assert a[0] in multiset(b);
    k :| 0 <= k < |b| && b[k] == a[0];
    MultisetWithout(b, k);
    assert multiset(a[1..]) == multiset(a) - multiset{a[0]};
    assert multiset(b[..k] + b[k + 1..]) == multiset(b) - multiset{b[k]};
  }

  lemma {:induction false} HeadMultiset<T>(a: seq<T>)
    requires a != []
    ensures multiset(a) == multiset{a[0]} + multiset(a[1..])
  {
    assert a == [a[0]] + a[1..];
  }

  lemma {:induction false} MultisetWithout<T>(b: seq<T>, k: nat)
    requires k < |b|
    ensures multiset(b) == multiset{b[k]} + multiset(b[..k] + b[k + 1..])
  {
    assert b == b[..k] + b[k..];
    HeadMultiset(b[k..]);
    assert b[k..][1..] == b[k + 1..];
  }
}
