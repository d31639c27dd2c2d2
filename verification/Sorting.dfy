/** `Array.prototype.sort` with a comparator: the stable order section 23.1.3.30 of ECMA-262 requires. */
module Sorting {

  /** A comparator `sort` can rely on: signs agree both ways round and "not after" is transitive. */
  ghost predicate Consistent<T(!new)>(compare: (T, T) -> int) {
    && (forall a, b :: compare(a, b) <= 0 <==> compare(b, a) >= 0)
    && (forall a, b, c :: compare(a, b) <= 0 && compare(b, c) <= 0 ==> compare(a, c) <= 0)
  }

  /** The item goes after every item that does not come after it. */
  function Insert<T>(sorted: seq<T>, item: T, compare: (T, T) -> int): (r: seq<T>)
    ensures multiset(r) == multiset(sorted) + multiset{item}
  {
    if sorted == [] then [item]
    else
      var n := |sorted| - 1;
      assert sorted == sorted[..n] + [sorted[n]];
      if compare(sorted[n], item) <= 0 then sorted + [item]
      else Insert(sorted[..n], item, compare) + [sorted[n]]
  }

  function Sort<T>(items: seq<T>, compare: (T, T) -> int): (r: seq<T>)
    ensures multiset(r) == multiset(items)
  {
    if items == [] then []
    else
      assert items == items[..|items| - 1] + [items[|items| - 1]];
      Insert(Sort(items[..|items| - 1], compare), items[|items| - 1], compare)
  }

  predicate Sorted<T>(items: seq<T>, compare: (T, T) -> int) {
    forall i, j :: 0 <= i < j < |items| ==> compare(items[i], items[j]) <= 0
  }

  /** The items that compare equal to `item`, in their order. */
  function Ties<T>(items: seq<T>, item: T, compare: (T, T) -> int): seq<T> {
    if items == [] then []
    else
      var n := |items| - 1;
      Ties(items[..n], item, compare) + (if compare(items[n], item) == 0 then [items[n]] else [])
  }

  lemma Chain<T(!new)>(a: T, b: T, c: T, compare: (T, T) -> int)
    requires Consistent(compare) && compare(a, b) <= 0 && compare(b, c) <= 0
    ensures compare(a, c) <= 0
  {
  }

  lemma OtherWayRound<T(!new)>(a: T, b: T, compare: (T, T) -> int)
    requires Consistent(compare)
    ensures (compare(a, b) <= 0 <==> compare(b, a) >= 0) && (compare(b, a) <= 0 <==> compare(a, b) >= 0)
  {
  }

  lemma InsertMembers<T>(sorted: seq<T>, item: T, compare: (T, T) -> int, x: T)
    requires x in Insert(sorted, item, compare)
    ensures x in sorted || x == item
  {
    assert x in multiset(Insert(sorted, item, compare));
    assert x in multiset(sorted) || x == item;
  }

  lemma {:induction false} InsertKeepsOrder<T(!new)>(sorted: seq<T>, item: T, compare: (T, T) -> int)
    requires Consistent(compare) && Sorted(sorted, compare)
    ensures Sorted(Insert(sorted, item, compare), compare)
  {
    hide Consistent;
    if sorted != [] {
      var n := |sorted| - 1;
      var last := sorted[n];
      if compare(last, item) <= 0 {
        forall i | 0 <= i < n
          ensures compare(sorted[i], item) <= 0
        {
          Chain(sorted[i], last, item, compare);
        }
      } else {
        InsertKeepsOrder(sorted[..n], item, compare);
        OtherWayRound(last, item, compare);
        var r := Insert(sorted[..n], item, compare);
        forall i | 0 <= i < |r|
          ensures compare(r[i], last) <= 0
        {
          InsertMembers(sorted[..n], item, compare, r[i]);
          if r[i] != item {
            var k :| 0 <= k < n && sorted[k] == r[i];
          }
        }
      }
    }
  }

  lemma TiesAppend<T>(items: seq<T>, last: T, item: T, compare: (T, T) -> int)
    ensures Ties(items + [last], item, compare)
      == Ties(items, item, compare) + (if compare(last, item) == 0 then [last] else [])
  {
    assert (items + [last])[..|items|] == items;
  }

  lemma {:induction false} InsertGoesAfterTies<T(!new)>(sorted: seq<T>, last: T, item: T, compare: (T, T) -> int)
    requires Consistent(compare)
    ensures Ties(Insert(sorted, last, compare), item, compare)
      == Ties(sorted, item, compare) + (if compare(last, item) == 0 then [last] else [])
  {
    hide Consistent, Ties;
    TiesAppend(sorted, last, item, compare);
    if sorted == [] {
      assert sorted + [last] == [last];
    } else {
      var n := |sorted| - 1;
      if compare(sorted[n], last) > 0 {
        InsertGoesAfterTies(sorted[..n], last, item, compare);
        TiesAppend(Insert(sorted[..n], last, compare), sorted[n], item, compare);
        assert sorted == sorted[..n] + [sorted[n]];
        TiesAppend(sorted[..n], sorted[n], item, compare);
        NotBoth(sorted[n], last, item, compare);
      }
    }
  }

  /** Items that tie with a third tie with each other. */
  lemma NotBoth<T(!new)>(a: T, b: T, item: T, compare: (T, T) -> int)
    requires Consistent(compare) && compare(a, b) > 0
    ensures !(compare(a, item) == 0 && compare(b, item) == 0)
  {
    OtherWayRound(b, item, compare);
    if compare(a, item) <= 0 && compare(item, b) <= 0 {
      Chain(a, item, b, compare);
    }
  }

  /** Sorting orders the items, loses none, and keeps items that compare equal in their order. */
  lemma {:induction false} SortIsStable<T(!new)>(items: seq<T>, item: T, compare: (T, T) -> int)
    requires Consistent(compare)
    ensures Sorted(Sort(items, compare), compare)
    ensures multiset(Sort(items, compare)) == multiset(items)
    ensures Ties(Sort(items, compare), item, compare) == Ties(items, item, compare)
  {
    if items != [] {
      var front, last := items[..|items| - 1], items[|items| - 1];
      SortIsStable(front, item, compare);
      InsertKeepsOrder(Sort(front, compare), last, compare);
      InsertGoesAfterTies(Sort(front, compare), last, item, compare);
      TiesAppend(Sort(front, compare), last, item, compare);
    }
  }

  lemma SortKeepsItems<T>(items: seq<T>, compare: (T, T) -> int)
    ensures forall item :: item in Sort(items, compare) <==> item in items
    ensures |Sort(items, compare)| == |items|
  {
    var sorted := Sort(items, compare);
    assert |multiset(sorted)| == |sorted| && |multiset(items)| == |items|;
    assert forall item :: item in sorted <==> item in multiset(sorted);
    assert forall item :: item in items <==> item in multiset(items);
  }
}
