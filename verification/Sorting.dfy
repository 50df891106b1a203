/** Python's `sorted(items, key=...)`: stable, ascending. */
module Sorting {

  predicate Sorted<T(!new)>(items: seq<T>, key: T -> real)
  {
    forall i, j :: 0 <= i < j < |items| ==> key(items[i]) <= key(items[j])
  }

  /** `x` goes before everything that is not smaller. */
  function Insert<T(!new)>(x: T, items: seq<T>, key: T -> real): seq<T>
  {
    if items == [] then [x]
    else if key(x) <= key(items[0]) then [x] + items
    else [items[0]] + Insert(x, items[1..], key)
  }

  function SortBy<T(!new)>(items: seq<T>, key: T -> real): seq<T>
  {
    if items == [] then [] else Insert(items[0], SortBy(items[1..], key), key)
  }

  lemma {:induction false} InsertPermutes<T(!new)>(x: T, items: seq<T>, key: T -> real)
    ensures multiset(Insert(x, items, key)) == multiset(items) + multiset{x}
  {
    if items != [] && key(x) > key(items[0]) {
      InsertPermutes(x, items[1..], key);
      assert items == [items[0]] + items[1..];
    }
  }

  lemma {:induction false} InsertMembers<T(!new)>(x: T, items: seq<T>, key: T -> real)
    ensures forall y :: y in Insert(x, items, key) <==> y == x || y in items
  {
    if items != [] && key(x) > key(items[0]) {
      InsertMembers(x, items[1..], key);
      assert items == [items[0]] + items[1..];
    }
  }

  lemma {:induction false} InsertSorted<T(!new)>(x: T, items: seq<T>, key: T -> real)
    requires Sorted(items, key)
    ensures Sorted(Insert(x, items, key), key)
  {
    if items != [] && key(x) > key(items[0]) {
      var tail := items[1..];
      var rest := Insert(x, tail, key);
      InsertSorted(x, tail, key);
      InsertMembers(x, tail, key);
      assert forall y :: y in rest ==> y == x || y in tail;
      forall i | 0 <= i < |rest| ensures key(items[0]) <= key(rest[i]) {
        assert rest[i] in rest;
        if rest[i] != x {
          assert rest[i] in tail;
          var j :| 0 <= j < |tail| && tail[j] == rest[i];
          assert items[j + 1] == tail[j];
        }
      }
    }
  }

  /** Sorting yields the same items in ascending key order. */
  lemma {:induction false} SortSorts<T(!new)>(items: seq<T>, key: T -> real)
    ensures Sorted(SortBy(items, key), key)
    ensures multiset(SortBy(items, key)) == multiset(items)
    ensures forall x :: x in SortBy(items, key) <==> x in items
    ensures |SortBy(items, key)| == |items|
  {
    if items != [] {
      var rest := SortBy(items[1..], key);
      SortSorts(items[1..], key);
      InsertSorted(items[0], rest, key);
      InsertPermutes(items[0], rest, key);
      InsertMembers(items[0], rest, key);
      assert items == [items[0]] + items[1..];
      assert |multiset(SortBy(items, key))| == |SortBy(items, key)|;
    }
  }

  /** Sorting what is sorted changes nothing. */
  lemma {:induction false} SortOfSorted<T(!new)>(items: seq<T>, key: T -> real)
    requires Sorted(items, key)
    ensures SortBy(items, key) == items
  {
    if items != [] {
      SortOfSorted(items[1..], key);
    }
  }

  /** The items of one key, in order. */
  function WithKey<T(!new)>(items: seq<T>, key: T -> real, k: real): seq<T>
  {
    if items == [] then []
    else (if key(items[0]) == k then [items[0]] else []) + WithKey(items[1..], key, k)
  }

  lemma {:induction false} WithKeyCons<T(!new)>(x: T, items: seq<T>, key: T -> real, k: real)
    ensures WithKey([x] + items, key, k) == (if key(x) == k then [x] else []) + WithKey(items, key, k)
  {
    assert ([x] + items)[1..] == items;
  }

  lemma {:induction false} InsertStable<T(!new)>(x: T, items: seq<T>, key: T -> real, k: real)
    requires Sorted(items, key)
    ensures WithKey(Insert(x, items, key), key, k) == (if key(x) == k then [x] else []) + WithKey(items, key, k)
  {
    hide WithKey;
    WithKeyCons(x, items, key, k);
    if items != [] && key(items[0]) < key(x) {
      var rest := Insert(x, items[1..], key);
      InsertStable(x, items[1..], key, k);
      WithKeyCons(items[0], rest, key, k);
      WithKeyCons(items[0], items[1..], key, k);
      assert items == [items[0]] + items[1..];
    } else if items == [] {
      assert [x] + items == [x];
    }
  }

  /** Items of equal key keep their order. */
  lemma {:induction false} SortIsStable<T(!new)>(items: seq<T>, key: T -> real, k: real)
    ensures WithKey(SortBy(items, key), key, k) == WithKey(items, key, k)
  {
    if items != [] {
      SortIsStable(items[1..], key, k);
      SortSorts(items[1..], key);
      InsertStable(items[0], SortBy(items[1..], key), key, k);
    }
  }
}
