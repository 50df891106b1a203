/** Price levels, and the insertion-ordered price-to-size dictionaries a local book is made of. */
module BookTypes {
  import opened Common
  import opened Sorting

  datatype PriceLevel = PriceLevel(price: real, size: real)

  datatype BookEvent = BookEvent(tokenId: string, bids: seq<PriceLevel>, asks: seq<PriceLevel>)

  function AskKey(l: PriceLevel): real { l.price }

  function BidKey(l: PriceLevel): real { -l.price }

  /** A price as the feed spells it, and a size. */
  datatype Entry = Entry(key: string, size: real)

  /** A Python dict from price strings to sizes: insertion-ordered, one entry a key. */
  type Dict = seq<Entry>

  ghost predicate DistinctKeys(d: Dict)
  {
    forall i, j :: 0 <= i < j < |d| ==> d[i].key != d[j].key
  }

  function Get(d: Dict, key: string): Option<real>
  {
    if d == [] then None else if d[0].key == key then Some(d[0].size) else Get(d[1..], key)
  }

  /** `d[key] = size`: in place for a known key, at the end for a new one. */
  function Put(d: Dict, key: string, size: real): Dict
  {
    if d == [] then [Entry(key, size)]
    else if d[0].key == key then [Entry(key, size)] + d[1..]
    else [d[0]] + Put(d[1..], key, size)
  }

  /** `d.pop(key, None)`. */
  function Pop(d: Dict, key: string): Dict
  {
    if d == [] then [] else if d[0].key == key then d[1..] else [d[0]] + Pop(d[1..], key)
  }

  lemma {:induction false} GetIffIn(d: Dict, key: string, size: real)
    requires DistinctKeys(d)
    ensures Get(d, key) == Some(size) <==> Entry(key, size) in d
  {
    if d != [] {
      GetIffIn(d[1..], key, size);
      assert d == [d[0]] + d[1..];
    }
  }

  lemma {:induction false} GetNone(d: Dict, key: string)
    ensures Get(d, key).None? <==> forall e :: e in d ==> e.key != key
  {
    if d != [] {
      GetNone(d[1..], key);
      assert d == [d[0]] + d[1..];
    }
  }

  lemma {:induction false} GetPut(d: Dict, key: string, size: real, other: string)
    ensures Get(Put(d, key, size), other) == if other == key then Some(size) else Get(d, other)
  {
    if d != [] && d[0].key != key {
      GetPut(d[1..], key, size, other);
    }
  }

  lemma {:induction false} GetPop(d: Dict, key: string, other: string)
    requires DistinctKeys(d)
    ensures Get(Pop(d, key), other) == if other == key then None else Get(d, other)
  {
    if d != [] {
      if d[0].key == key {
        GetNone(d[1..], key);
      } else {
        GetPop(d[1..], key, other);
      }
    }
  }

  lemma {:induction false} PutKeys(d: Dict, key: string, size: real)
    requires DistinctKeys(d)
    ensures DistinctKeys(Put(d, key, size))
    ensures forall e :: e in Put(d, key, size) ==> e == Entry(key, size) || e in d
  {
    if d != [] {
      assert d == [d[0]] + d[1..];
      if d[0].key != key {
        var rest := Put(d[1..], key, size);
        PutKeys(d[1..], key, size);
        forall i | 0 <= i < |rest| ensures rest[i].key != d[0].key {
          assert rest[i] in rest;
        }
      }
    }
  }

  lemma {:induction false} PopKeys(d: Dict, key: string)
    requires DistinctKeys(d)
    ensures DistinctKeys(Pop(d, key))
    ensures forall e :: e in Pop(d, key) ==> e in d
  {
    if d != [] && d[0].key != key {
      assert d == [d[0]] + d[1..];
      var rest := Pop(d[1..], key);
      PopKeys(d[1..], key);
      forall i | 0 <= i < |rest| ensures rest[i].key != d[0].key {
        assert rest[i] in d[1..];
      }
    }
  }

  // ----- From a dictionary to sorted levels -----

  /** The levels of a dictionary, prices read by `toPrice`. */
  function Levels(d: Dict, toPrice: string -> real): (levels: seq<PriceLevel>)
    ensures |levels| == |d| && forall i :: 0 <= i < |d| ==> levels[i] == PriceLevel(toPrice(d[i].key), d[i].size)
  {
    seq(|d|, i requires 0 <= i < |d| => PriceLevel(toPrice(d[i].key), d[i].size))
  }

  /** No two keys of `d` spell the same price. */
  ghost predicate DistinctPrices(d: Dict, toPrice: string -> real)
  {
    forall i, j :: 0 <= i < j < |d| ==> toPrice(d[i].key) != toPrice(d[j].key)
  }

  ghost predicate NoTies(levels: seq<PriceLevel>, key: PriceLevel -> real)
  {
    forall i, j :: 0 <= i < j < |levels| ==> key(levels[i]) != key(levels[j])
  }

  ghost predicate StrictlySorted(levels: seq<PriceLevel>, key: PriceLevel -> real)
  {
    forall i, j :: 0 <= i < j < |levels| ==> key(levels[i]) < key(levels[j])
  }

  lemma {:induction false} WithKeyWithout(levels: seq<PriceLevel>, key: PriceLevel -> real, k: real, i: nat)
    requires i < |levels|
    ensures |WithKey(levels, key, k)|
         == |WithKey(levels[..i] + levels[i + 1..], key, k)| + if key(levels[i]) == k then 1 else 0
  {
    if i == 0 {
      assert levels[..0] + levels[1..] == levels[1..];
    } else {
      WithKeyWithout(levels[1..], key, k, i - 1);
      var rest := levels[..i] + levels[i + 1..];
      assert rest[0] == levels[0] && rest[1..] == levels[1..][..i - 1] + levels[1..][i..];
    }
  }

  /** A permutation has as many levels of each key. */
  lemma {:induction false} WithKeyPermuted(a: seq<PriceLevel>, b: seq<PriceLevel>, key: PriceLevel -> real, k: real)
    requires multiset(a) == multiset(b)
    ensures |WithKey(a, key, k)| == |WithKey(b, key, k)|
    decreases |a|
  {
    if a == [] {
      assert |multiset(b)| == 0;
    } else {
      var i := TakeOut(a, b);
      WithKeyPermuted(a[1..], b[..i] + b[i + 1..], key, k);
      WithKeyWithout(b, key, k, i);
    }
  }

  /** A sorted list of levels is strictly sorted exactly when no two of them, in any arrangement, have the same key. */
  lemma {:induction false} StrictIffNoTies(s: seq<PriceLevel>, levels: seq<PriceLevel>, key: PriceLevel -> real)
    requires Sorted(s, key) && multiset(s) == multiset(levels)
    ensures StrictlySorted(s, key) <==> NoTies(levels, key)
  {
    if StrictlySorted(s, key) {
      forall i, j | 0 <= i < j < |levels| ensures key(levels[i]) != key(levels[j]) {
        TieSurvives(levels, key, i, j);
        if key(levels[i]) == key(levels[j]) {
          WithKeyPermuted(s, levels, key, key(levels[i]));
          NoTiesHasOne(s, key, key(levels[i]));
        }
      }
    }
    if NoTies(levels, key) {
      forall i, j | 0 <= i < j < |s| ensures key(s[i]) < key(s[j]) {
        if key(s[i]) == key(s[j]) {
          WithKeyPermuted(s, levels, key, key(s[i]));
          TieSurvives(s, key, i, j);
          NoTiesHasOne(levels, key, key(s[i]));
        }
      }
    }
  }

  lemma {:induction false} TieSurvives(levels: seq<PriceLevel>, key: PriceLevel -> real, i: int, j: int)
    requires 0 <= i < j < |levels|
    ensures key(levels[i]) == key(levels[j]) ==> |WithKey(levels, key, key(levels[i]))| >= 2
  {
    if key(levels[i]) == key(levels[j]) {
      if i > 0 {
        TieSurvives(levels[1..], key, i - 1, j - 1);
      } else {
        WithKeyHas(levels[1..], key, j - 1);
      }
    }
  }

  lemma {:induction false} WithKeyHas(levels: seq<PriceLevel>, key: PriceLevel -> real, i: int)
    requires 0 <= i < |levels|
    ensures |WithKey(levels, key, key(levels[i]))| >= 1
  {
    if i > 0 {
      WithKeyHas(levels[1..], key, i - 1);
    }
  }

  lemma {:induction false} NoTiesHasOne(levels: seq<PriceLevel>, key: PriceLevel -> real, k: real)
    requires NoTies(levels, key)
    ensures |WithKey(levels, key, k)| <= 1
  {
    if levels != [] {
      NoTiesHasOne(levels[1..], key, k);
      if key(levels[0]) == k {
        NoneOfKey(levels[1..], key, k);
      }
    }
  }

  lemma {:induction false} NoneOfKey(levels: seq<PriceLevel>, key: PriceLevel -> real, k: real)
    requires forall i :: 0 <= i < |levels| ==> key(levels[i]) != k
    ensures WithKey(levels, key, k) == []
  {
    if levels != [] {
      NoneOfKey(levels[1..], key, k);
    }
  }
}
