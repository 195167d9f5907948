/** The search box: `items.filter(...)` keeping the records whose name or
    category contains the query, ignoring ASCII letter case. */
module Search {
  import opened Text
  import opened Items

  /** The filter's test for one record: the lower-cased query occurs
      somewhere in the lower-cased name or the lower-cased category. */
  predicate Matches(item: Item, query: string)
    ensures Matches(item, query) <==>
      Occurs(ToLower(item.name), ToLower(query)) || Occurs(ToLower(item.category), ToLower(query))
  {
    IncludesIffOccurs(ToLower(item.name), ToLower(query));
    IncludesIffOccurs(ToLower(item.category), ToLower(query));
    Includes(ToLower(item.name), ToLower(query)) ||
    Includes(ToLower(item.category), ToLower(query))
  }

  /** `filteredItems`. */
  function Filter(items: seq<Item>, query: string): (r: seq<Item>)
    ensures |r| <= |items|
    ensures forall x :: x in r <==> x in items && Matches(x, query)
  {
    if items == [] then []
    else if Matches(items[0], query) then [items[0]] + Filter(items[1..], query)
    else Filter(items[1..], query)
  }

  /** `sub` is `s` with some elements dropped and the rest in their order. */
  ghost predicate SubsequenceOf<T>(sub: seq<T>, s: seq<T>)
    decreases |s|
  {
    if sub == [] then true
    else if s == [] then false
    else (sub[0] == s[0] && SubsequenceOf(sub[1..], s[1..])) || SubsequenceOf(sub, s[1..])
  }

  /** The filter keeps the relative order of the records it keeps, and it
      keeps every copy of a matching record and no copy of another. */
  lemma {:induction false} FilterIsOrderedSelection(items: seq<Item>, query: string)
    ensures SubsequenceOf(Filter(items, query), items)
    ensures forall x :: multiset(Filter(items, query))[x] ==
                        if Matches(x, query) then multiset(items)[x] else 0
  {
    if items != [] {
      FilterIsOrderedSelection(items[1..], query);
      assert items == [items[0]] + items[1..];
    }
  }

  /** An empty search box shows every record. */
  lemma {:induction false} FilterEmptyQuery(items: seq<Item>)
    ensures Filter(items, "") == items
  {
    if items != [] {
      IncludesEmpty(ToLower(items[0].name));
      FilterEmptyQuery(items[1..]);
    }
  }

  /** Queries that differ only in ASCII letter case select the same
      records. */
  lemma {:induction false} FilterIgnoresQueryCase(items: seq<Item>, q1: string, q2: string)
    requires ToLower(q1) == ToLower(q2)
    ensures Filter(items, q1) == Filter(items, q2)
  {
    if items != [] {
      FilterIgnoresQueryCase(items[1..], q1, q2);
    }
  }

  /** Filtering a concatenation filters each part. */
  lemma {:induction false} FilterAppend(a: seq<Item>, b: seq<Item>, query: string)
    ensures Filter(a + b, query) == Filter(a, query) + Filter(b, query)
  {
    if a != [] {
      assert (a + b)[1..] == a[1..] + b;
      FilterAppend(a[1..], b, query);
    } else {
      assert a + b == b;
    }
  }
}
