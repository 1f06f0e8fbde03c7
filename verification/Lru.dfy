/** An ordered dictionary used as a bounded cache: the most recent entry last, the oldest dropped first. */
module Lru {
  import opened Wrappers

  datatype Entry<+V> = Entry(key: string, value: V)

  function Find<V>(entries: seq<Entry<V>>, key: string): Option<V> {
    if entries == [] then None
    else if entries[0].key == key then Some(entries[0].value)
    else Find(entries[1..], key)
  }

  function Without<V>(entries: seq<Entry<V>>, key: string): seq<Entry<V>> {
    if entries == [] then []
    else (if entries[0].key == key then [] else [entries[0]]) + Without(entries[1..], key)
  }

  /** Set an entry and move it to the end. */
  function Put<V>(entries: seq<Entry<V>>, key: string, value: V): seq<Entry<V>> {
    Without(entries, key) + [Entry(key, value)]
  }

  /** Drop the oldest entries beyond the capacity. */
  function Trim<V>(entries: seq<Entry<V>>, capacity: nat): seq<Entry<V>> {
    if |entries| > capacity then Trim(entries[1..], capacity) else entries
  }

  ghost predicate Distinct<V>(entries: seq<Entry<V>>) {
    forall i, j :: 0 <= i < j < |entries| ==> entries[i].key != entries[j].key
  }

  lemma {:induction false} FindIff<V>(entries: seq<Entry<V>>, key: string)
    ensures Find(entries, key).Some? <==> exists i :: 0 <= i < |entries| && entries[i].key == key
    ensures Find(entries, key).Some? ==> Entry(key, Find(entries, key).value) in entries
  {
    if entries != [] {
      FindIff(entries[1..], key);
      if i :| 0 <= i < |entries| && entries[i].key == key {
        assert i > 0 ==> entries[1..][i - 1].key == key;
      }
    }
  }

  lemma {:induction false} WithoutKeepsOthers<V>(entries: seq<Entry<V>>, key: string)
    ensures forall i :: 0 <= i < |Without(entries, key)| ==>
            Without(entries, key)[i].key != key && Without(entries, key)[i] in entries
    ensures forall entry :: entry in entries && entry.key != key ==> entry in Without(entries, key)
    ensures |Without(entries, key)| <= |entries|
  {
    if entries != [] {
      WithoutKeepsOthers(entries[1..], key);
    }
  }

  lemma {:induction false} WithoutKeepsDistinct<V>(entries: seq<Entry<V>>, key: string)
    requires Distinct(entries)
    ensures Distinct(Without(entries, key))
  {
    if entries != [] {
      var rest := Without(entries[1..], key);
      WithoutKeepsDistinct(entries[1..], key);
      WithoutKeepsOthers(entries[1..], key);
      forall i | 0 <= i < |rest| ensures rest[i].key != entries[0].key {
        assert rest[i] in entries[1..];
        var k :| 0 <= k < |entries| - 1 && entries[1..][k] == rest[i];
      }
    }
  }

  lemma PutKeepsDistinct<V>(entries: seq<Entry<V>>, key: string, value: V)
    requires Distinct(entries)
    ensures Distinct(Put(entries, key, value))
    ensures forall entry ::
              entry in Put(entries, key, value)
              <==> entry == Entry(key, value) || (entry in entries && entry.key != key)
  {
    WithoutKeepsOthers(entries, key);
    WithoutKeepsDistinct(entries, key);
  }

  lemma {:induction false} WithoutDropsOne<V>(entries: seq<Entry<V>>, key: string)
    requires Find(entries, key).Some?
    ensures |Without(entries, key)| < |entries|
  {
    WithoutKeepsOthers(entries[1..], key);
    if entries[0].key != key { WithoutDropsOne(entries[1..], key); }
  }

  lemma {:induction false} WithoutConcat<V>(a: seq<Entry<V>>, b: seq<Entry<V>>, key: string)
    ensures Without(a + b, key) == Without(a, key) + Without(b, key)
  {
    if a == [] {
      assert a + b == b;
    } else {
      var head, left, right := if a[0].key == key then [] else [a[0]], Without(a[1..], key), Without(b, key);
      WithoutConcat(a[1..], b, key);
      calc {
        Without(a + b, key);
        { assert (a + b)[1..] == a[1..] + b; }
        head + (left + right);
        (head + left) + right;
        Without(a, key) + right;
      }
    }
  }

  lemma {:induction false} WithoutAbsent<V>(entries: seq<Entry<V>>, key: string)
    requires forall i :: 0 <= i < |entries| ==> entries[i].key != key
    ensures Without(entries, key) == entries
  {
    if entries != [] {
      WithoutAbsent(entries[1..], key);
    }
  }

  ghost predicate Absent<V>(entries: seq<Entry<V>>, key: string) {
    forall i :: 0 <= i < |entries| ==> entries[i].key != key
  }

  lemma AbsentAround<V>(before: seq<Entry<V>>, entry: Entry<V>, after: seq<Entry<V>>)
    requires Distinct(before + [entry] + after)
    ensures Absent(before, entry.key) && Absent(after, entry.key)
  {
    var all, n := before + [entry] + after, |before|;
    assert all[n] == entry;
    forall i | 0 <= i < n ensures before[i].key != entry.key {
      assert all[i] == before[i];
    }
    forall i | 0 <= i < |after| ensures after[i].key != entry.key {
      assert all[n + 1 + i] == after[i];
    }
  }

  lemma WithoutOne<V>(before: seq<Entry<V>>, entry: Entry<V>, after: seq<Entry<V>>)
    requires Absent(before, entry.key) && Absent(after, entry.key)
    ensures Without(before + [entry] + after, entry.key) == before + after
  {
    WithoutConcat(before + [entry], after, entry.key);
    WithoutConcat(before, [entry], entry.key);
    WithoutAbsent(before, entry.key);
    WithoutAbsent(after, entry.key);
  }

  /** Setting an entry that is there moves it to the end, past the others in their order. */
  lemma PutMovesToEnd<V>(before: seq<Entry<V>>, entry: Entry<V>, after: seq<Entry<V>>, value: V)
    requires Distinct(before + [entry] + after)
    ensures Put(before + [entry] + after, entry.key, value) == before + after + [Entry(entry.key, value)]
  {
    AbsentAround(before, entry, after);
    WithoutOne(before, entry, after);
  }

  /** Setting an entry that is not there adds it at the end. */
  lemma PutAppends<V>(entries: seq<Entry<V>>, key: string, value: V)
    requires Find(entries, key).None?
    ensures Put(entries, key, value) == entries + [Entry(key, value)]
  {
    FindIff(entries, key);
    WithoutAbsent(entries, key);
  }

  /** In a cache without repetition an entry is found under its key. */
  lemma FindDistinct<V>(entries: seq<Entry<V>>, key: string, value: V)
    requires Distinct(entries)
    ensures Find(entries, key) == Some(value) <==> Entry(key, value) in entries
  {
    FindIff(entries, key);
    if Entry(key, value) in entries {
      var i :| 0 <= i < |entries| && entries[i] == Entry(key, value);
      assert Find(entries, key).Some?;
      var found := Entry(key, Find(entries, key).value);
      var j :| 0 <= j < |entries| && entries[j] == found;
      assert entries[i].key == entries[j].key;
    }
  }

  /** Moving an entry to the end makes no more of them. */
  lemma PutKeepsSize<V>(entries: seq<Entry<V>>, key: string, value: V)
    requires Find(entries, key).Some?
    ensures |Put(entries, key, value)| <= |entries|
  {
    WithoutDropsOne(entries, key);
  }

  /** What is left are the last entries, at most as many as there is room for. */
  lemma {:induction false} TrimIsSuffix<V>(entries: seq<Entry<V>>, capacity: nat)
    ensures |Trim(entries, capacity)| == if |entries| > capacity then capacity else |entries|
    ensures Trim(entries, capacity) == entries[|entries| - |Trim(entries, capacity)|..]
    ensures Distinct(entries) ==> Distinct(Trim(entries, capacity))
  {
    if |entries| > capacity {
      TrimIsSuffix(entries[1..], capacity);
    }
  }

  /** The entry put last survives the eviction. */
  lemma PutSurvives<V>(entries: seq<Entry<V>>, key: string, value: V, capacity: nat)
    requires Distinct(entries)
    ensures var kept := Trim(Put(entries, key, value), capacity);
            && |kept| <= capacity && Distinct(kept)
            && (capacity > 0 ==> kept != [] && kept[|kept| - 1] == Entry(key, value))
            && forall entry :: entry in kept ==> entry == Entry(key, value) || (entry in entries && entry.key != key)
  {
    var all := Put(entries, key, value);
    PutKeepsDistinct(entries, key, value);
    TrimIsSuffix(all, capacity);
    assert all[|all| - 1] == Entry(key, value);
    var kept := Trim(all, capacity);
    assert kept == all[|all| - |kept|..];
    forall entry | entry in kept ensures entry in all {
    }
  }

  /** The eviction loop. */
  method EvictOldest<V>(entries: seq<Entry<V>>, capacity: nat) returns (kept: seq<Entry<V>>)
    ensures kept == Trim(entries, capacity)
  {
    kept := entries;
    while |kept| > capacity
      invariant Trim(kept, capacity) == Trim(entries, capacity)
    {
      kept := kept[1..];
    }
  }
}
