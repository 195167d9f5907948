/** `sortItems`: a sorted copy of the filtered records, ordered by one
    field with the source's three-way comparator. The engine's
    `Array.prototype.sort` is stood in for by an insertion sort that uses
    that comparator. */
module Sorting {
  import opened Items

  /** The comparator passed to `sort`: negative when `a` goes first,
      positive when `b` goes first, 0 when neither key is below the other. */
  function Compare(a: Item, b: Item, f: Field, o: Order): (r: int)
    ensures -1 <= r <= 1
    ensures r < 0 <==> if o == Asc then KeyLess(Get(a, f), Get(b, f)) else KeyLess(Get(b, f), Get(a, f))
    ensures r > 0 <==> if o == Asc then KeyLess(Get(b, f), Get(a, f)) else KeyLess(Get(a, f), Get(b, f))
  {
    KeyLessAsymmetric(Get(a, f), Get(b, f));
    if KeyLess(Get(a, f), Get(b, f)) then (if o == Asc then -1 else 1)
    else if KeyLess(Get(b, f), Get(a, f)) then (if o == Asc then 1 else -1)
    else 0
  }

  /** The descending comparator is the ascending one negated, and swapping
      the arguments negates the result. */
  lemma CompareAntisymmetric(a: Item, b: Item, f: Field, o: Order)
    ensures Compare(a, b, f, Desc) == -Compare(a, b, f, Asc)
    ensures Compare(a, b, f, o) == -Compare(b, a, f, o)
  {
    KeyLessAsymmetric(Get(a, f), Get(b, f));
  }

  /** The comparator returns 0 exactly for records with equal keys. */
  lemma CompareZeroIffEqualKeys(a: Item, b: Item, f: Field, o: Order)
    ensures Compare(a, b, f, o) == 0 <==> Get(a, f) == Get(b, f)
  {
    KeyLessTotal(Get(a, f), Get(b, f));
    if Get(a, f) == Get(b, f) {
      KeyLessAsymmetric(Get(a, f), Get(a, f));
    }
  }

  /** `a` may stand before `b` in the sorted result. */
  predicate InOrder(a: Item, b: Item, f: Field, o: Order) {
    Compare(a, b, f, o) <= 0
  }

  /** Each record may stand before its successor. */
  ghost predicate Sorted(s: seq<Item>, f: Field, o: Order) {
    forall i :: 0 <= i < |s| - 1 ==> InOrder(s[i], s[i + 1], f, o)
  }

  /** Places `x` before the first record of the sorted `s` that `x` may
      stand before. */
  function Insert(x: Item, s: seq<Item>, f: Field, o: Order): (r: seq<Item>)
    requires Sorted(s, f, o)
    ensures Sorted(r, f, o)
    ensures multiset(r) == multiset(s) + multiset{x}
    ensures r[0] == x || (s != [] && r[0] == s[0])
  {
    if s == [] || InOrder(x, s[0], f, o) then [x] + s
    else
      CompareAntisymmetric(x, s[0], f, o);
      assert s == [s[0]] + s[1..];
      [s[0]] + Insert(x, s[1..], f, o)
  }

  /** `[...filteredItems].sort(comparator)`: a new sequence holding the same
      records, each one allowed to stand before the next. */
  function SortBy(s: seq<Item>, f: Field, o: Order): (r: seq<Item>)
    ensures Sorted(r, f, o)
    ensures multiset(r) == multiset(s)
  {
    if s == [] then []
    else
      assert s == [s[0]] + s[1..];
      Insert(s[0], SortBy(s[1..], f, o), f, o)
  }

  /** The records of `s`, in order, whose field `f` holds `k`. */
  function WithKey(s: seq<Item>, f: Field, k: Key): seq<Item> {
    if s == [] then []
    else if Get(s[0], f) == k then [s[0]] + WithKey(s[1..], f, k)
    else WithKey(s[1..], f, k)
  }

  /** `x` lands before every record that shares its key. */
  lemma {:induction false} InsertStable(x: Item, s: seq<Item>, f: Field, o: Order, k: Key)
    requires Sorted(s, f, o)
    ensures WithKey(Insert(x, s, f, o), f, k) ==
            if Get(x, f) == k then [x] + WithKey(s, f, k) else WithKey(s, f, k)
  {
    if s == [] || InOrder(x, s[0], f, o) {
      assert ([x] + s)[1..] == s;
    } else {
      InsertStable(x, s[1..], f, o, k);
      var r := Insert(x, s, f, o);
      assert r[1..] == Insert(x, s[1..], f, o);
      assert Get(x, f) != Get(s[0], f);
    }
  }

  /** The sort is stable: records with equal keys keep their relative
      order, so ties never reorder the rows across pages. */
  lemma {:induction false} SortByStable(s: seq<Item>, f: Field, o: Order, k: Key)
    ensures WithKey(SortBy(s, f, o), f, k) == WithKey(s, f, k)
  {
    if s != [] {
      SortByStable(s[1..], f, o, k);
      InsertStable(s[0], SortBy(s[1..], f, o), f, o, k);
    }
  }

  /** Ascending results never decrease in the chosen field; descending
      results never increase. */
  lemma SortedMeaning(s: seq<Item>, f: Field, o: Order, i: int)
    requires Sorted(s, f, o)
    requires 0 <= i < |s| - 1
    ensures o == Asc ==> !KeyLess(Get(s[i + 1], f), Get(s[i], f))
    ensures o == Desc ==> !KeyLess(Get(s[i], f), Get(s[i + 1], f))
  {
    assert InOrder(s[i], s[i + 1], f, o);
    KeyLessAsymmetric(Get(s[i], f), Get(s[i + 1], f));
  }

  /** Adjacent order extends to every pair: an earlier record may always
      stand before a later one. */
  lemma {:induction false} SortedPairwise(s: seq<Item>, f: Field, o: Order, i: int, j: int)
    requires Sorted(s, f, o)
    requires 0 <= i < j < |s|
    ensures InOrder(s[i], s[j], f, o)
    decreases j - i
  {
    if j > i + 1 {
      SortedPairwise(s, f, o, i + 1, j);
      var a, b, c := Get(s[i], f), Get(s[i + 1], f), Get(s[j], f);
      assert InOrder(s[i], s[i + 1], f, o);
      KeyLessAsymmetric(a, b);
      KeyLessAsymmetric(b, c);
      KeyLessAsymmetric(a, c);
      KeyLessTotal(a, b);
      KeyLessTotal(b, c);
      KeyLessTotal(a, c);
      if o == Asc {
        if KeyLess(c, a) {
          if KeyLess(a, b) { KeyLessTransitive(c, a, b); }
        }
      } else {
        if KeyLess(a, c) {
          if KeyLess(b, a) { KeyLessTransitive(b, a, c); }
        }
      }
    }
  }

  /** Sorting a sequence that is already sorted leaves it as it is, so
      sorting twice by the same header and order is sorting once. */
  lemma {:induction false} SortByKeepsSorted(s: seq<Item>, f: Field, o: Order)
    requires Sorted(s, f, o)
    ensures SortBy(s, f, o) == s
  {
    if s != [] {
      SortByKeepsSorted(s[1..], f, o);
      assert s == [s[0]] + s[1..];
    }
  }

  lemma SortByIdempotent(s: seq<Item>, f: Field, o: Order)
    ensures SortBy(SortBy(s, f, o), f, o) == SortBy(s, f, o)
  {
    SortByKeepsSorted(SortBy(s, f, o), f, o);
  }
}
