/** Splitting a sequence on a separator and joining the pieces again, as `str.split` and `bytes.split` do. */
module Splitting {
  /** The pieces between separators. Never empty: a sequence without separators is one piece. */
  function Split<T(==)>(s: seq<T>, sep: T): (parts: seq<seq<T>>)
    ensures |parts| >= 1
  {
    if s == [] then [[]]
    else
      var rest := Split(s[1..], sep);
      if s[0] == sep then [[]] + rest else [[s[0]] + rest[0]] + rest[1..]
  }

  function Join<T>(parts: seq<seq<T>>, sep: T): seq<T> {
    if |parts| == 0 then []
    else if |parts| == 1 then parts[0]
    else parts[0] + [sep] + Join(parts[1..], sep)
  }

  ghost predicate SeparatorFree<T>(parts: seq<seq<T>>, sep: T) {
    forall i :: 0 <= i < |parts| ==> sep !in parts[i]
  }

  lemma {:induction false} SplitIsSeparatorFree<T>(s: seq<T>, sep: T)
    ensures SeparatorFree(Split(s, sep), sep)
  {
    if s != [] {
      SplitIsSeparatorFree(s[1..], sep);
    }
  }

  lemma {:induction false} JoinOfSplit<T>(s: seq<T>, sep: T)
    ensures Join(Split(s, sep), sep) == s
  {
    if s != [] {
      var rest := Split(s[1..], sep);
      JoinOfSplit(s[1..], sep);
      assert s == [s[0]] + s[1..];
      if s[0] == sep {
        assert ([[]] + rest)[1..] == rest;
      } else {
        assert Split(s, sep)[1..] == rest[1..];
      }
    }
  }

  lemma {:induction false} SplitAtFirst<T>(piece: seq<T>, sep: T, rest: seq<T>)
    requires sep !in piece
    ensures Split(piece + [sep] + rest, sep) == [piece] + Split(rest, sep)
  {
    var s := piece + [sep] + rest;
    if piece == [] {
      assert s[1..] == rest;
    } else {
      assert s[1..] == piece[1..] + [sep] + rest;
      SplitAtFirst(piece[1..], sep, rest);
      assert [piece[0]] + piece[1..] == piece;
    }
  }

  lemma {:induction false} SplitWithoutSeparator<T>(piece: seq<T>, sep: T)
    requires sep !in piece
    ensures Split(piece, sep) == [piece]
  {
    if piece != [] {
      SplitWithoutSeparator(piece[1..], sep);
      assert [piece[0]] + piece[1..] == piece;
    }
  }

  /** Joining separator-free pieces loses nothing. */
  lemma {:induction false} SplitOfJoin<T>(parts: seq<seq<T>>, sep: T)
    requires |parts| >= 1
    requires SeparatorFree(parts, sep)
    ensures Split(Join(parts, sep), sep) == parts
  {
    if |parts| == 1 {
      SplitWithoutSeparator(parts[0], sep);
    } else {
      SplitOfJoin(parts[1..], sep);
      SplitAtFirst(parts[0], sep, Join(parts[1..], sep));
    }
  }

  lemma ConcatAssociates<T>(a: seq<T>, b: seq<T>, c: seq<T>)
    ensures (a + b) + c == a + (b + c)
  {
  }

  /** The images of the items, one after the other. */
  function FlatMap<T, U>(f: T -> seq<U>, items: seq<T>): seq<U> {
    if items == [] then [] else FlatMap(f, items[..|items| - 1]) + f(items[|items| - 1])
  }

  lemma FlatMapOneMore<T, U>(f: T -> seq<U>, items: seq<T>, item: T)
    ensures FlatMap(f, items + [item]) == FlatMap(f, items) + f(item)
  {
    assert (items + [item])[..|items|] == items;
  }

  lemma {:induction false} FlatMapConcat<T, U>(f: T -> seq<U>, items: seq<T>, more: seq<T>)
    ensures FlatMap(f, items + more) == FlatMap(f, items) + FlatMap(f, more)
  {
    if more == [] {
      assert items + more == items;
    } else {
      var front, last := more[..|more| - 1], more[|more| - 1];
      FlatMapConcat(f, items, front);
      FlatMapOneMore(f, items + front, last);
      FlatMapOneMore(f, front, last);
      assert front + [last] == more && (items + front) + [last] == items + more;
      ConcatAssociates(FlatMap(f, items), FlatMap(f, front), f(last));
    }
  }

  /** How many of the items satisfy a predicate. */
  ghost function Count<T(!new)>(p: T -> bool, items: seq<T>): nat {
    if items == [] then 0 else Count(p, items[..|items| - 1]) + if p(items[|items| - 1]) then 1 else 0
  }

  lemma {:induction false} JoinIsInjective<T>(a: seq<seq<T>>, b: seq<seq<T>>, sep: T)
    requires |a| >= 1 && |b| >= 1
    requires SeparatorFree(a, sep) && SeparatorFree(b, sep)
    requires Join(a, sep) == Join(b, sep)
    ensures a == b
  {
    SplitOfJoin(a, sep);
    SplitOfJoin(b, sep);
  }
}
