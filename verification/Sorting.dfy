/** A stable sort on values, standing for Python's `sorted`. */
module Sorting {
  ghost predicate TotalOrder<T(!new)>(le: (T, T) -> bool) {
    && (forall a, b :: le(a, b) || le(b, a))
    && (forall a, b, c :: le(a, b) && le(b, c) ==> le(a, c))
  }

  ghost predicate Ordered<T>(le: (T, T) -> bool, s: seq<T>) {
    forall i, j :: 0 <= i < j < |s| ==> le(s[i], s[j])
  }

  function Insert<T>(le: (T, T) -> bool, x: T, s: seq<T>): seq<T> {
    if s == [] || le(s[|s| - 1], x) then s + [x]
    else Insert(le, x, s[..|s| - 1]) + [s[|s| - 1]]
  }

  function Sort<T>(le: (T, T) -> bool, s: seq<T>): seq<T> {
    if s == [] then [] else Insert(le, s[|s| - 1], Sort(le, s[..|s| - 1]))
  }

  lemma {:induction false} InsertPermutes<T>(le: (T, T) -> bool, x: T, s: seq<T>)
    ensures multiset(Insert(le, x, s)) == multiset(s) + multiset{x}
  {
    if s != [] && !le(s[|s| - 1], x) {
      InsertPermutes(le, x, s[..|s| - 1]);
      assert s == s[..|s| - 1] + [s[|s| - 1]];
    }
  }

  /** Sorting neither loses, adds nor repeats an element. */
  lemma {:induction false} SortPermutes<T>(le: (T, T) -> bool, s: seq<T>)
    ensures multiset(Sort(le, s)) == multiset(s)
  {
    if s != [] {
      SortPermutes(le, s[..|s| - 1]);
      InsertPermutes(le, s[|s| - 1], Sort(le, s[..|s| - 1]));
      assert s == s[..|s| - 1] + [s[|s| - 1]];
      assert multiset(s) == multiset(s[..|s| - 1]) + multiset{s[|s| - 1]};
    }
  }

  lemma SortKeepsMembers<T>(le: (T, T) -> bool, s: seq<T>)
    ensures forall x :: x in Sort(le, s) <==> x in s
    ensures |Sort(le, s)| == |s|
  {
    SortPermutes(le, s);
    assert forall x :: x in Sort(le, s) <==> x in multiset(Sort(le, s));
    assert |Sort(le, s)| == |multiset(Sort(le, s))|;
  }

  lemma {:induction false} InsertOrders<T(!new)>(le: (T, T) -> bool, x: T, s: seq<T>)
    requires TotalOrder(le) && Ordered(le, s)
    ensures Ordered(le, Insert(le, x, s))
  {
    if s == [] || le(s[|s| - 1], x) {
    } else {
      var last := s[|s| - 1];
      InsertOrders(le, x, s[..|s| - 1]);
      InsertPermutes(le, x, s[..|s| - 1]);
      var front := Insert(le, x, s[..|s| - 1]);
      forall i | 0 <= i < |front|
        ensures le(front[i], last)
      {
        assert front[i] in multiset(front);
        assert front[i] == x || front[i] in s[..|s| - 1];
      }
    }
  }

  lemma {:induction false} SortOrders<T(!new)>(le: (T, T) -> bool, s: seq<T>)
    requires TotalOrder(le)
    ensures Ordered(le, Sort(le, s))
  {
    if s != [] {
      SortOrders(le, s[..|s| - 1]);
      InsertOrders(le, s[|s| - 1], Sort(le, s[..|s| - 1]));
    }
  }
}
