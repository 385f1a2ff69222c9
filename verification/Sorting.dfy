/** The library sort, known only by what every sort promises: the result is
    ordered by the comparison and holds the same items. Ties are left open. */
module Sorting {
  ghost predicate Ordered<T>(items: seq<T>, le: (T, T) -> bool) {
    forall i, j :: 0 <= i < j < |items| ==> le(items[i], items[j])
  }

  ghost predicate TotalPreorder<T(!new)>(le: (T, T) -> bool) {
    && (forall a, b :: le(a, b) || le(b, a))
    && (forall a, b, c :: le(a, b) && le(b, c) ==> le(a, c))
  }

  method Sort<T(!new, ==)>(items: seq<T>, le: (T, T) -> bool) returns (sorted: seq<T>)
    requires TotalPreorder(le)
    ensures Ordered(sorted, le) && multiset(sorted) == multiset(items)
  {
    hide Ordered, TotalPreorder;
    sorted := [];
    NothingIsOrdered(le);
    for i := 0 to |items|
      invariant Ordered(sorted, le) && multiset(sorted) == multiset(items[..i])
    {
      assert items[..i + 1] == items[..i] + [items[i]];
      sorted := Insert(sorted, items[i], le);
    }
    assert items[..|items|] == items;
  }

  lemma NothingIsOrdered<T>(le: (T, T) -> bool)
    ensures Ordered([], le)
  {}

  method Insert<T(!new, ==)>(before: seq<T>, item: T, le: (T, T) -> bool) returns (sorted: seq<T>)
    requires TotalPreorder(le) && Ordered(before, le)
    ensures Ordered(sorted, le) && multiset(sorted) == multiset(before) + multiset{item}
  {
    hide TotalPreorder, Ordered;
    var at := |before|;
    while at > 0 && !le(before[at - 1], item)
      invariant 0 <= at <= |before|
      invariant forall k :: at <= k < |before| ==> le(item, before[k])
    {
      OtherWay(le, before[at - 1], item);
      at := at - 1;
    }
    InsertedIsOrdered(before, item, at, le);
    assert before == before[..at] + before[at..];
    sorted := before[..at] + [item] + before[at..];
  }

  lemma OtherWay<T(!new)>(le: (T, T) -> bool, a: T, b: T)
    requires TotalPreorder(le) && !le(a, b)
    ensures le(b, a)
  {}

  lemma InsertedIsOrdered<T(!new)>(before: seq<T>, item: T, at: nat, le: (T, T) -> bool)
    requires TotalPreorder(le) && Ordered(before, le) && at <= |before|
    requires at > 0 ==> le(before[at - 1], item)
    requires forall k :: at <= k < |before| ==> le(item, before[k])
    ensures Ordered(before[..at] + [item] + before[at..], le)
  {
    forall k | 0 <= k < at ensures le(before[k], item) {
      if k < at - 1 {
        assert le(before[k], before[at - 1]);
      }
    }
    hide TotalPreorder;
  }
}
