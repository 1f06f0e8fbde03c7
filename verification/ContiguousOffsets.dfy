/** Advancing a partition checkpoint across the contiguous prefix of handled offsets. */
module ContiguousOffsets {
  import opened Sorting

  /** The first offset from the checkpoint on that was not handled. */
  function NextOffset(checkpoint: nat, handled: set<nat>): nat
    decreases handled
  {
    if checkpoint in handled then NextOffset(checkpoint + 1, handled - {checkpoint}) else checkpoint
  }

  /** It is the unique bound with everything from the checkpoint up to it handled and itself not handled. */
  lemma {:induction false} NextOffsetUnique(checkpoint: nat, handled: set<nat>, n: nat)
    ensures n == NextOffset(checkpoint, handled)
            <==> checkpoint <= n && n !in handled && forall o :: checkpoint <= o < n ==> o in handled
    decreases handled
  {
    if checkpoint in handled {
      NextOffsetUnique(checkpoint + 1, handled - {checkpoint}, n);
    } else {
      assert checkpoint < n ==> checkpoint <= checkpoint < n;
    }
  }

  lemma NextOffsetContiguous(checkpoint: nat, handled: set<nat>)
    ensures checkpoint <= NextOffset(checkpoint, handled)
    ensures NextOffset(checkpoint, handled) !in handled
    ensures forall o :: checkpoint <= o < NextOffset(checkpoint, handled) ==> o in handled
  {
    NextOffsetUnique(checkpoint, handled, NextOffset(checkpoint, handled));
  }

  /** Offsets below the checkpoint do not matter. */
  lemma NextOffsetIgnoresStale(checkpoint: nat, handled: set<nat>, others: set<nat>)
    requires forall o :: o >= checkpoint ==> (o in handled <==> o in others)
    ensures NextOffset(checkpoint, handled) == NextOffset(checkpoint, others)
  {
    NextOffsetContiguous(checkpoint, handled);
    NextOffsetUnique(checkpoint, others, NextOffset(checkpoint, handled));
  }

  lemma NextOffsetMonotone(checkpoint: nat, checkpoint': nat, handled: set<nat>, handled': set<nat>)
    requires checkpoint <= checkpoint' && handled <= handled'
    ensures NextOffset(checkpoint, handled) <= NextOffset(checkpoint', handled')
  {
    NextOffsetContiguous(checkpoint, handled);
    NextOffsetContiguous(checkpoint', handled');
  }

  /** Two batches one after the other never get past both at once. */
  lemma TwoBatchesDoNotOvertake(checkpoint: nat, first: set<nat>, second: set<nat>)
    ensures NextOffset(NextOffset(checkpoint, first), second) <= NextOffset(checkpoint, first + second)
  {
    var middle := NextOffset(checkpoint, first);
    NextOffsetContiguous(checkpoint, first);
    NextOffsetContiguous(middle, second);
    NextOffsetContiguous(checkpoint, first + second);
  }

  /** Replaying a batch against the checkpoint it produced moves nothing. */
  lemma ReplayDoesNotAdvance(checkpoint: nat, handled: set<nat>)
    ensures NextOffset(NextOffset(checkpoint, handled), handled) == NextOffset(checkpoint, handled)
  {
    NextOffsetContiguous(checkpoint, handled);
  }

  predicate NatLe(a: nat, b: nat) { a <= b }

  /** The scan: offsets below the candidate are skipped, the first gap stops it. */
  method Scan(checkpoint: nat, sorted: seq<nat>) returns (next: nat)
    requires Ordered(NatLe, sorted)
    ensures next == NextOffset(checkpoint, set o | o in sorted)
  {
    next := checkpoint;
    var i := 0;
    while i < |sorted|
      invariant 0 <= i <= |sorted|
      invariant checkpoint <= next
      invariant forall o :: checkpoint <= o < next ==> o in sorted
      invariant forall k :: 0 <= k < i ==> sorted[k] < next
    {
      if sorted[i] == next {
        next := next + 1;
      } else if sorted[i] > next {
        break;
      }
      i := i + 1;
    }
    forall k | 0 <= k < |sorted|
      ensures sorted[k] != next
    {
      if i < k {
        assert NatLe(sorted[i], sorted[k]);
      }
    }
    NextOffsetUnique(checkpoint, (set o | o in sorted), next);
  }

  /** The offsets are sorted first, so their order and repetitions do not matter. */
  method ComputeNextOffset(checkpoint: nat, offsets: seq<nat>) returns (next: nat)
    ensures next == NextOffset(checkpoint, set o | o in offsets)
  {
    var sorted := Sort(NatLe, offsets);
    SortOrders(NatLe, offsets);
    SortKeepsMembers(NatLe, offsets);
    ghost var members := set o: nat | o in sorted;
    assert members == set o: nat | o in offsets;
    next := Scan(checkpoint, sorted);
  }
}
