/** The historian's transactions, statement by statement, proved against the projection on values. */
module HistorianDatabase {
  import opened Wrappers
  import opened MetricFlattener
  import opened MetricStream
  import opened Sorting
  import opened ContiguousOffsets
  import opened HistorianTables

  function Distinct(keys: seq<PartitionKey>): seq<PartitionKey> {
    if keys == [] then []
    else
      var before, last := Distinct(keys[..|keys| - 1]), keys[|keys| - 1];
      if last in before then before else before + [last]
  }

  /** The distinct keys among `keys`, in the order rows are locked. */
  function LockOrder(keys: seq<PartitionKey>): seq<PartitionKey> {
    Sort(KeyLe, Distinct(keys))
  }

  lemma {:induction false} DistinctKeys(keys: seq<PartitionKey>)
    ensures forall key :: key in Distinct(keys) <==> key in keys
    ensures forall i, j :: 0 <= i < j < |Distinct(keys)| ==> Distinct(keys)[i] != Distinct(keys)[j]
  {
    if keys != [] {
      DistinctKeys(keys[..|keys| - 1]);
      assert keys == keys[..|keys| - 1] + [keys[|keys| - 1]];
    }
  }

  lemma {:induction false} DistinctIsMultiplicityOne(keys: seq<PartitionKey>)
    requires forall i, j :: 0 <= i < j < |keys| ==> keys[i] != keys[j]
    ensures forall key :: multiset(keys)[key] <= 1
  {
    if keys != [] {
      var before, last := keys[..|keys| - 1], keys[|keys| - 1];
      DistinctIsMultiplicityOne(before);
      assert keys == before + [last];
      assert last !in before;
      assert multiset(keys) == multiset(before) + multiset{last};
    }
  }

  lemma RepeatedTwice(keys: seq<PartitionKey>, i: nat, j: nat)
    requires i < j < |keys|
    ensures keys[i] == keys[j] ==> multiset(keys)[keys[i]] >= 2
  {
    assert keys == keys[..j] + keys[j..];
    assert keys[i] == keys[..j][i] && keys[j] == keys[j..][0];
    assert keys[i] in multiset(keys[..j]) && keys[j] in multiset(keys[j..]);
    assert multiset(keys) == multiset(keys[..j]) + multiset(keys[j..]);
  }

  /** Every transaction locks its checkpoint rows in one global order, each once, so no two can wait for each other. */
  lemma LockOrderIsStrict(keys: seq<PartitionKey>)
    ensures forall key :: key in LockOrder(keys) <==> key in keys
    ensures forall i, j :: 0 <= i < j < |LockOrder(keys)| ==>
                             InOrder(LockOrder(keys)[i], LockOrder(keys)[j]) && LockOrder(keys)[i] != LockOrder(keys)[j]
  {
    DistinctKeys(keys);
    KeyLeIsTotalOrder();
    SortOrders(KeyLe, Distinct(keys));
    SortKeepsMembers(KeyLe, Distinct(keys));
    SortPermutes(KeyLe, Distinct(keys));
    DistinctIsMultiplicityOne(Distinct(keys));
    var sorted := LockOrder(keys);
    forall i, j | 0 <= i < j < |sorted|
      ensures InOrder(sorted[i], sorted[j]) && sorted[i] != sorted[j]
    {
      KeyLeIff(sorted[i], sorted[j]);
      RepeatedTwice(sorted, i, j);
    }
  }

  function HandledSet(handled: map<PartitionKey, seq<nat>>, key: PartitionKey): set<nat> {
    if key in handled then set o | o in handled[key] else {}
  }

  /** Where the handled offsets of each partition take its checkpoint. */
  function Target(handled: map<PartitionKey, seq<nat>>, m: map<PartitionKey, nat>, key: PartitionKey): nat {
    NextOffset(Read(m, key), HandledSet(handled, key))
  }

  /** The handled lists agree, from each checkpoint on, with the offsets seen so far. */
  ghost predicate HandledSoFar(handled: map<PartitionKey, seq<nat>>, m: map<PartitionKey, nat>, cs: seq<Coordinate>) {
    forall key, o: nat :: o >= Read(m, key) ==> (o in Offsets(cs, key) <==> key in handled && o in handled[key])
  }

  function AddHandled(handled: map<PartitionKey, seq<nat>>, c: Coordinate): map<PartitionKey, seq<nat>> {
    handled[c.key := (if c.key in handled then handled[c.key] else []) + [c.offset]]
  }

  lemma OffsetsSnoc(cs: seq<Coordinate>, c: Coordinate, key: PartitionKey)
    ensures Offsets(cs + [c], key) == Offsets(cs, key) + if c.key == key then {c.offset} else {}
  {
  }

  lemma HandledSnoc(handled: map<PartitionKey, seq<nat>>, m: map<PartitionKey, nat>, cs: seq<Coordinate>, c: Coordinate)
    requires HandledSoFar(handled, m, cs)
    ensures HandledSoFar(if c.offset < Read(m, c.key) then handled else AddHandled(handled, c), m, cs + [c])
  {
    forall key ensures Offsets(cs + [c], key) == Offsets(cs, key) + if c.key == key then {c.offset} else {} {
      OffsetsSnoc(cs, c, key);
    }
  }

  lemma TargetIsAdvance(
      handled: map<PartitionKey, seq<nat>>, m: map<PartitionKey, nat>, cs: seq<Coordinate>, key: PartitionKey)
    requires HandledSoFar(handled, m, cs)
    ensures Target(handled, m, key) == NextOffset(Read(m, key), Offsets(cs, key))
    ensures key !in handled ==> Target(handled, m, key) == Read(m, key)
  {
    NextOffsetIgnoresStale(Read(m, key), Offsets(cs, key), HandledSet(handled, key));
  }

  lemma KeysListed(cs: seq<Coordinate>, keys: seq<PartitionKey>)
    requires |keys| == |cs| && forall i :: 0 <= i < |cs| ==> keys[i] == cs[i].key
    ensures (set key | key in keys) == Keys(cs)
  {
  }

  lemma TargetIsComputed(handled: map<PartitionKey, seq<nat>>, m: map<PartitionKey, nat>, key: PartitionKey, next: nat)
    requires key in handled && next == NextOffset(Read(m, key), set o | o in handled[key])
    ensures next == Target(handled, m, key) && Read(m, key) <= next
  {
    NextOffsetContiguous(Read(m, key), HandledSet(handled, key));
  }

  /** Partition by partition at its target is what advancing over the batch means. */
  lemma TargetsAreAdvances(
      handled: map<PartitionKey, seq<nat>>, m: map<PartitionKey, nat>, cs: seq<Coordinate>,
      advanced: map<PartitionKey, nat>, moved: map<PartitionKey, nat>)
    requires HandledSoFar(handled, m, cs) && handled.Keys <= Keys(cs)
    requires advanced.Keys == m.Keys + Keys(cs)
    requires forall key :: key in advanced ==>
             advanced[key] == if key in handled then Target(handled, m, key) else Read(m, key)
    requires forall key :: key in moved <==> key in handled && Target(handled, m, key) > Read(m, key)
    requires forall key :: key in moved ==> moved[key] == Target(handled, m, key)
    ensures advanced == AdvancedBy(m, cs)
    ensures moved == MovedBy(m, cs)
  {
    forall key
      ensures Target(handled, m, key) == NextOffset(Read(m, key), Offsets(cs, key))
      ensures key !in handled ==> Target(handled, m, key) == Read(m, key)
    {
      TargetIsAdvance(handled, m, cs, key);
    }
  }

  lemma EnsuredOneMore(m: map<PartitionKey, nat>, keys: set<PartitionKey>, key: PartitionKey)
    ensures var ensured := Ensured(m, keys);
            Ensured(m, keys + {key}) == (if key in ensured then ensured else ensured[key := 0])
    ensures Ensured(m, keys + {key})[key] == Read(m, key)
  {
  }

  /** The lists and counts of a classified batch. */
  ghost predicate Tallied(
      t: Tables, epoch: int, rows: seq<RawRow>, accepted: seq<RawRow>, stale: nat, duplicates: nat,
      quarantined: seq<ContentConflict>)
  {
    && accepted == Select(t, epoch, rows, Fresh)
    && stale == |Select(t, epoch, rows, Stale)| && duplicates == |Select(t, epoch, rows, Duplicate)|
    && quarantined == Conflicts(t, epoch, rows)
  }

  lemma TalliedSnoc(
      t: Tables, epoch: int, rows: seq<RawRow>, row: RawRow, accepted: seq<RawRow>, stale: nat, duplicates: nat,
      quarantined: seq<ContentConflict>)
    requires Tallied(t, epoch, rows, accepted, stale, duplicates, quarantined)
    ensures match Classify(t, epoch, row)
            case Stale => Tallied(t, epoch, rows + [row], accepted, stale + 1, duplicates, quarantined)
            case Duplicate => Tallied(t, epoch, rows + [row], accepted, stale, duplicates + 1, quarantined)
            case Fresh => Tallied(t, epoch, rows + [row], accepted + [row], stale, duplicates, quarantined)
            case Conflict =>
              var existing := Lookup(t.raw, row.record.time, row.record.eventId).value;
              Tallied(t, epoch, rows + [row], accepted, stale, duplicates,
                      quarantined + [ContentConflict(row.record.eventId, existing, row.record.contentHash)])
  {
  }

  lemma PullExtends(record: StoredRow, pulled: nat, metric: Metric, upcoming: seq<Metric>)
    requires record.eventKind.Telemetry? && pulled <= |IterMetrics(record.payload)|
    requires IterMetrics(record.payload)[pulled..] == [metric] + upcoming
    ensures pulled < |IterMetrics(record.payload)| && upcoming == IterMetrics(record.payload)[pulled + 1..]
    ensures MetricRows(record)[..pulled + 1] == MetricRows(record)[..pulled] + [MetricRowOf(record, metric)]
    ensures HoldFloats(MetricRows(record)[..pulled]) && HeldByFloat(metric.valueDouble) ==>
              HoldFloats(MetricRows(record)[..pulled + 1])
  {
    var all := IterMetrics(record.payload);
    assert all[pulled] == all[pulled..][0];
    assert all[pulled..][1..] == all[pulled + 1..];
  }

  lemma PullOverflows(record: StoredRow, pulled: nat, upcoming: seq<Metric>)
    requires record.eventKind.Telemetry? && pulled <= |IterMetrics(record.payload)|
    requires IterMetrics(record.payload)[pulled..] == upcoming != [] && !HeldByFloat(upcoming[0].valueDouble)
    ensures pulled < |MetricRows(record)| && !HeldByFloat(MetricRows(record)[pulled].valueDouble)
  {
    assert IterMetrics(record.payload)[pulled] == upcoming[0];
  }

  /** How many metrics of a row have been pulled, all of them floats, decides what expanding it comes to. */
  lemma PulledDecides(record: StoredRow, maxMetricRows: nat, pulled: nat)
    requires pulled <= |MetricRows(record)| && HoldFloats(MetricRows(record)[..pulled])
    ensures pulled == maxMetricRows + 1 ==> Expansion(record, maxMetricRows) == Err(MetricExpansionLimit)
    ensures pulled == |MetricRows(record)| <= maxMetricRows ==>
              Expansion(record, maxMetricRows) == Ok(MetricRows(record))
    ensures pulled < |MetricRows(record)| && pulled <= maxMetricRows
            && !HeldByFloat(MetricRows(record)[pulled].valueDouble) ==>
              Expansion(record, maxMetricRows) == Err(FloatOverflow)
  {
    var metrics := MetricRows(record);
    assert metrics[..|metrics|] == metrics;
    if pulled < |metrics| && pulled <= maxMetricRows {
      var seen := if |metrics| > maxMetricRows then metrics[..maxMetricRows + 1] else metrics;
      assert seen[pulled] in seen;
    }
  }

  lemma {:induction false} FirstExpansionError(rows: seq<RawRow>, maxMetricRows: nat, n: nat)
    requires n <= |rows| && ExpansionError(rows[..n], maxMetricRows).Some?
    ensures ExpansionError(rows, maxMetricRows) == ExpansionError(rows[..n], maxMetricRows)
  {
    if n == |rows| {
      assert rows[..n] == rows;
    } else {
      var before := rows[..|rows| - 1];
      assert before[..n] == rows[..n];
      FirstExpansionError(before, maxMetricRows, n);
    }
  }

  /** After rows without an error, the next row decides. */
  lemma {:induction false} NextExpansion(rows: seq<RawRow>, maxMetricRows: nat, i: nat)
    requires i < |rows| && ExpansionError(rows[..i], maxMetricRows) == None
    ensures var next := Expansion(rows[i].record, maxMetricRows);
            if next.Ok? then ExpansionError(rows[..i + 1], maxMetricRows) == None
            else ExpansionError(rows, maxMetricRows) == Some(next.error)
  {
    assert rows[..i + 1][..i] == rows[..i];
    if Expansion(rows[i].record, maxMetricRows).Err? {
      FirstExpansionError(rows, maxMetricRows, i + 1);
    }
  }

  class Database {
    var raw: seq<StoredRow>
    var metrics: seq<MetricRow>
    var checkpoints: map<int, map<PartitionKey, nat>>
    var worklist: map<int, WorkItem>

    function View(): Tables
      reads this
    {
      Tables(raw, metrics, checkpoints, worklist)
    }

    constructor ()
      ensures View() == Tables([], [], map[], map[])
    {
      raw, metrics, checkpoints, worklist := [], [], map[], map[];
    }

    // --------------------------------------------------------------- statements

    /** Insert rows one by one, doing nothing on a conflict, and return those that went in. */
    method InsertRaw(rows: seq<RawRow>) returns (returned: seq<RawRow>)
      modifies `raw
      ensures returned == Insertable(old(raw), rows)
      ensures raw == old(raw) + Records(returned)
    {
      returned := [];
      var i := 0;
      while i < |rows|
        invariant 0 <= i <= |rows|
        invariant returned == Insertable(old(raw), rows[..i])
        invariant raw == old(raw) + Records(returned)
      {
        assert rows[..i + 1][..i] == rows[..i];
        if !Stored(raw, rows[i].record) {
          RecordsSnoc(returned, rows[i]);
          raw, returned := raw + [rows[i].record], returned + [rows[i]];
        }
        i := i + 1;
      }
      assert rows[..|rows|] == rows;
    }

    method BumpLateRefresh(day: int)
      modifies `worklist
      ensures worklist == BumpDay(old(worklist), day)
    {
      if day in worklist {
        worklist := worklist[day := worklist[day].(pending := worklist[day].pending + 1)];
      } else {
        worklist := worklist[day := WorkItem(1, 0)];
      }
    }

    // ------------------------------------------------------------- transactions

    /** Expand a raw row metric by metric; one more than the budget is pulled at most, and the rest stays unexpanded. */
    static method BuildMetricRows(row: RawRow, maxMetricRows: nat)
      returns (r: Result<seq<MetricRow>, PersistError>, pulled: nat, left: seq<Visit>)
      ensures r == Expansion(row.record, maxMetricRows)
      ensures match r
              case Ok(metrics) => pulled == |metrics|
              case Err(MetricExpansionLimit) => pulled == maxMetricRows + 1
              case Err(FloatOverflow) =>
                && pulled <= maxMetricRows && pulled < |MetricRows(row.record)|
                && HoldFloats(MetricRows(row.record)[..pulled])
                && !HeldByFloat(MetricRows(row.record)[pulled].valueDouble)
      ensures row.record.eventKind.Telemetry? ==>
                pulled <= |IterMetrics(row.record.payload)|
                    && Upcoming(left) == IterMetrics(row.record.payload)[pulled..]
    {
      var record := row.record;
      if !record.eventKind.Telemetry? {
        return Ok([]), 0, [];
      }
      ghost var all := IterMetrics(record.payload);
      UpcomingRoot(record.payload);
      left, pulled := RootVisits(record.payload), 0;
      var rows, done := [], false;
      while !done
        invariant pulled <= |all| && Upcoming(left) == all[pulled..] && (done ==> pulled == |all|)
        invariant pulled <= maxMetricRows && rows == MetricRows(record)[..pulled] && HoldFloats(rows)
        decreases |all| - pulled, !done
      {
        var next;
        next, left := Pull(left);
        match next {
          case Exhausted => done := true;
          case Overflowed =>
            PullOverflows(record, pulled, Upcoming(left));
            PulledDecides(record, maxMetricRows, pulled);
            return Err(FloatOverflow), pulled, left;
          case Next(metric) =>
            PullExtends(record, pulled, metric, Upcoming(left));
            pulled := pulled + 1;
            if |rows| >= maxMetricRows {
              PulledDecides(record, maxMetricRows, pulled);
              return Err(MetricExpansionLimit), pulled, left;
            }
            rows := rows + [MetricRowOf(record, metric)];
        }
      }
      PulledDecides(record, maxMetricRows, pulled);
      assert MetricRows(record)[..pulled] == MetricRows(record);
      r := Ok(rows);
    }

    /** The metric rows of a whole batch, each event's in turn. */
    static method ExpandBatch(
        rows: seq<RawRow>, maxMetricRows: nat) returns (r: Result<seq<seq<MetricRow>>, PersistError>)
      ensures r.Err? <==> ExpansionError(rows, maxMetricRows).Some?
      ensures r.Err? ==> ExpansionError(rows, maxMetricRows).value == r.error
      ensures r.Ok? ==> |r.value| == |rows| && forall i :: 0 <= i < |rows| ==> r.value[i] == MetricRows(rows[i].record)
    {
      var expanded := [];
      var i := 0;
      while i < |rows|
        invariant 0 <= i <= |rows| && |expanded| == i
        invariant forall k :: 0 <= k < i ==> expanded[k] == MetricRows(rows[k].record)
        invariant ExpansionError(rows[..i], maxMetricRows) == None
      {
        var built, _, _ := BuildMetricRows(rows[i], maxMetricRows);
        NextExpansion(rows, maxMetricRows, i);
        if built.Err? {
          return Err(built.error);
        }
        expanded := expanded + [built.value];
        i := i + 1;
      }
      assert rows[..i] == rows;
      r := Ok(expanded);
    }

    static method OrderLocks(keys: seq<PartitionKey>) returns (order: seq<PartitionKey>)
      ensures order == LockOrder(keys)
      ensures (set key | key in order) == set key | key in keys
    {
      order := LockOrder(keys);
      LockOrderIsStrict(keys);
    }

    /** Create a missing checkpoint row at zero, then lock and read each in turn. */
    static method LockInOrder(
        m: map<PartitionKey, nat>, order: seq<PartitionKey>)
      returns (ensured: map<PartitionKey, nat>, locked: map<PartitionKey, nat>)
      ensures ensured == Ensured(m, set key | key in order)
      ensures locked.Keys == (set key | key in order) && forall key :: key in locked ==> locked[key] == Read(m, key)
    {
      ensured, locked := m, map[];
      ghost var seen: set<PartitionKey> := {};
      for i := 0 to |order|
        invariant forall key :: key in seen <==> key in order[..i]
        invariant ensured == Ensured(m, seen)
        invariant locked.Keys == seen && forall key :: key in locked ==> locked[key] == Read(m, key)
      {
        EnsuredOneMore(m, seen, order[i]);
        if order[i] !in ensured {
          ensured := ensured[order[i] := 0];
        }
        locked := locked[order[i] := ensured[order[i]]];
        assert order[..i + 1] == order[..i] + [order[i]];
        seen := seen + {order[i]};
      }
      assert order[..|order|] == order;
      assert seen == set key | key in order;
    }

    /** Ensure, lock and read the checkpoint row of every partition of the batch, in lock order. */
    static method LockCheckpoints(
        m: map<PartitionKey, nat>, cs: seq<Coordinate>)
      returns (ensured: map<PartitionKey, nat>, locked: map<PartitionKey, nat>)
      ensures ensured == Ensured(m, Keys(cs))
      ensures locked.Keys == Keys(cs) && forall key :: key in locked ==> locked[key] == Read(m, key)
    {
      var keys := seq(|cs|, i requires 0 <= i < |cs| => cs[i].key);
      KeysListed(cs, keys);
      var order := OrderLocks(keys);
      ensured, locked := LockInOrder(m, order);
    }

    /** Split the batch into new rows, known rows and stale rows, and collect the offsets handled per partition. */
    method ClassifyBatch(ghost t: Tables, epoch: int, rows: seq<RawRow>, locked: map<PartitionKey, nat>)
      returns (accepted: seq<RawRow>, handled: map<PartitionKey, seq<nat>>, stale: nat, duplicates: nat,
          quarantined: seq<ContentConflict>)
      requires raw == t.raw
      requires locked.Keys == Keys(Coordinates(rows)) && forall key :: key in locked ==>
               locked[key] == Checkpoint(t, epoch, key)
      ensures accepted == Select(t, epoch, rows, Fresh)
      ensures stale == |Select(t, epoch, rows, Stale)| && duplicates == |Select(t, epoch, rows, Duplicate)|
      ensures quarantined == Conflicts(t, epoch, rows)
      ensures HandledSoFar(handled, OfEpoch(t.checkpoints, epoch), Coordinates(rows))
      ensures forall key :: key in handled ==> key in locked
    {
      accepted, handled, stale, duplicates, quarantined := [], map[], 0, 0, [];
      CoordinatesOfRows(rows);
      var i := 0;
      while i < |rows|
        invariant 0 <= i <= |rows|
        invariant Tallied(t, epoch, rows[..i], accepted, stale, duplicates, quarantined)
        invariant HandledSoFar(handled, OfEpoch(t.checkpoints, epoch), Coordinates(rows[..i]))
        invariant forall key :: key in handled ==> key in locked
      {
        var row := rows[i];
        assert row in rows && Coordinate(row.key, row.offset) in Coordinates(rows);
        assert rows[..i + 1] == rows[..i] + [row];
        TalliedSnoc(t, epoch, rows[..i], row, accepted, stale, duplicates, quarantined);
        HandledSnoc(handled, OfEpoch(t.checkpoints, epoch), Coordinates(rows[..i]), Coordinate(row.key, row.offset));
        assert Coordinates(rows[..i + 1]) == Coordinates(rows[..i]) + [Coordinate(row.key, row.offset)];
        if row.offset < locked[row.key] {
          stale := stale + 1;
        } else {
          handled := AddHandled(handled, Coordinate(row.key, row.offset));
          var existing := Lookup(raw, row.record.time, row.record.eventId);
          if existing.None? {
            accepted := accepted + [row];
          } else if existing.value != row.record.contentHash {
            quarantined := quarantined + [ContentConflict(row.record.eventId, existing.value, row.record.contentHash)];
          } else {
            duplicates := duplicates + 1;
          }
        }
        i := i + 1;
      }
      assert rows[..i] == rows;
    }

    /** Insert the metric rows of every event of the batch whose id went into the raw table. */
    method InsertMetrics(rows: seq<RawRow>, expanded: seq<seq<MetricRow>>, ids: set<string>)
      requires |expanded| == |rows| && forall i :: 0 <= i < |rows| ==> expanded[i] == MetricRows(rows[i].record)
      modifies `metrics
      ensures metrics == old(metrics) + MetricsFor(rows, ids)
    {
      var payload := [];
      for i := 0 to |rows|
        invariant payload == MetricsFor(rows[..i], ids)
      {
        assert rows[..i + 1][..i] == rows[..i];
        if rows[i].record.eventId in ids {
          payload := payload + expanded[i];
        }
      }
      assert rows[..|rows|] == rows;
      metrics := metrics + payload;
    }

    /** Bump the day of every inserted late telemetry row. */
    method BumpReturned(returned: seq<RawRow>)
      modifies `worklist
      ensures worklist == BumpLate(old(worklist), returned)
    {
      for i := 0 to |returned|
        invariant worklist == BumpLate(old(worklist), returned[..i])
      {
        assert returned[..i + 1][..i] == returned[..i];
        if IsLate(returned[i].record) {
          BumpLateRefresh(UtcDay(returned[i].record.time));
        }
      }
      assert returned[..|returned|] == returned;
    }

    /** Advance each partition past the offsets handled contiguously from its checkpoint. */
    static method AdvanceAll(
        ensured: map<PartitionKey, nat>, handled: map<PartitionKey, seq<nat>>, locked: map<PartitionKey, nat>,
        ghost m: map<PartitionKey, nat>)
      returns (advanced: map<PartitionKey, nat>, moved: map<PartitionKey, nat>)
      requires forall key :: key in ensured ==> ensured[key] == Read(m, key)
      requires forall key :: key in handled ==> key in ensured && key in locked && locked[key] == Read(m, key)
      ensures advanced.Keys == ensured.Keys
      ensures forall key :: key in advanced ==>
              advanced[key] == if key in handled then Target(handled, m, key) else Read(m, key)
      ensures forall key :: key in moved <==> key in handled && Target(handled, m, key) > Read(m, key)
      ensures forall key :: key in moved ==> moved[key] == Target(handled, m, key)
    {
      advanced, moved := ensured, map[];
      var todo := handled.Keys;
      while todo != {}
        invariant todo <= handled.Keys
        invariant advanced.Keys == ensured.Keys
        invariant forall key :: key in ensured ==>
                    advanced[key] == if key in handled && key !in todo then Target(handled, m, key) else Read(m, key)
        invariant forall key ::
                    key in moved <==> key in handled && key !in todo && Target(handled, m, key) > Read(m, key)
        invariant forall key :: key in moved ==> moved[key] == Target(handled, m, key)
        decreases todo
      {
        var key :| key in todo;
        var next := ComputeNextOffset(locked[key], handled[key]);
        TargetIsComputed(handled, m, key, next);
        if next > locked[key] {
          if advanced[key] <= next {
            advanced := advanced[key := next];
          }
          moved := moved[key := next];
        }
        todo := todo - {key};
      }
    }

    static method AdvanceCheckpoints(
        ensured: map<PartitionKey, nat>, handled: map<PartitionKey, seq<nat>>, locked: map<PartitionKey, nat>,
        ghost m: map<PartitionKey, nat>, ghost cs: seq<Coordinate>)
      returns (advanced: map<PartitionKey, nat>, moved: map<PartitionKey, nat>)
      requires ensured == Ensured(m, Keys(cs))
      requires locked.Keys == Keys(cs) && forall key :: key in locked ==> locked[key] == Read(m, key)
      requires handled.Keys <= locked.Keys && HandledSoFar(handled, m, cs)
      ensures advanced == AdvancedBy(m, cs)
      ensures moved == MovedBy(m, cs)
    {
      advanced, moved := AdvanceAll(ensured, handled, locked, m);
      TargetsAreAdvances(handled, m, cs, advanced, moved);
    }

    /** Insert the accepted rows, the metrics of those that went in, and their late-refresh bumps. */
    method InsertBatch(
        rows: seq<RawRow>, expanded: seq<seq<MetricRow>>, accepted: seq<RawRow>)
      returns (ids: set<string>, returned: seq<RawRow>)
      requires |expanded| == |rows| && forall i :: 0 <= i < |rows| ==> expanded[i] == MetricRows(rows[i].record)
      modifies `raw, `metrics, `worklist
      ensures returned == Insertable(old(raw), accepted) && ids == EventIds(returned)
      ensures raw == old(raw) + Records(returned)
      ensures metrics == old(metrics) + MetricsFor(rows, ids)
      ensures worklist == BumpLate(old(worklist), returned)
    {
      ids, returned := {}, [];
      if accepted != [] {
        returned := InsertRaw(accepted);
        ids := EventIds(returned);
        InsertMetrics(rows, expanded, ids);
        BumpReturned(returned);
      } else {
        NoIdsNoMetrics(rows);
        assert EventIds([]) == {} && raw + Records([]) == raw && metrics + [] == metrics;
      }
    }

    method PersistRows(rows: seq<RawRow>, expanded: seq<seq<MetricRow>>, epoch: int) returns (r: BatchResult)
      requires |expanded| == |rows| && forall i :: 0 <= i < |rows| ==> expanded[i] == MetricRows(rows[i].record)
      modifies this
      ensures View() == Projected(old(View()), epoch, rows)
      ensures r == Summary(old(View()), epoch, rows)
    {
      ghost var t := View();
      var m := OfEpoch(checkpoints, epoch);
      var ensured, locked := LockCheckpoints(m, Coordinates(rows));
      var accepted, handled, stale, duplicates, quarantined := ClassifyBatch(t, epoch, rows, locked);
      var ids, returned := InsertBatch(rows, expanded, accepted);
      InsertableFromRows(t.raw, accepted);
      var advanced, moved := AdvanceCheckpoints(ensured, handled, locked, m, Coordinates(rows));
      checkpoints := checkpoints[epoch := advanced];
      r := BatchResult(|ids|, duplicates + |accepted| - |returned|, stale, quarantined, moved);
    }

    /**
     * One batch in one transaction: expand the metrics, lock the checkpoints, insert what is new, add its metrics,
     * bump the late days and advance the checkpoints. The only failure comes before the first statement.
     */
    method PersistBatch(
        events: seq<ConsumedEvent>, epoch: int, maxMetricRows: nat) returns (r: Result<BatchResult, PersistError>)
      modifies this
      ensures View() == Persist(old(View()), epoch, events, maxMetricRows).0
      ensures r == Persist(old(View()), epoch, events, maxMetricRows).1
    {
      if events == [] {
        return Ok(NOTHING_PERSISTED);
      }
      var rows := RowsOf(events);
      var expanded := ExpandBatch(rows, maxMetricRows);
      if expanded.Err? {
        return Err(expanded.error);
      }
      var result := PersistRows(rows, expanded.value, epoch);
      r := Ok(result);
    }

    /** Which ignored records are at or above their checkpoint, by partition. */
    static method CollectIgnored(
        m: map<PartitionKey, nat>, records: seq<Coordinate>, locked: map<PartitionKey, nat>)
      returns (handled: map<PartitionKey, seq<nat>>, stale: nat)
      requires locked.Keys == Keys(records) && forall key :: key in locked ==> locked[key] == Read(m, key)
      ensures HandledSoFar(handled, m, records) && handled.Keys <= locked.Keys
      ensures stale == StaleCount(m, records)
    {
      handled, stale := map[], 0;
      for i := 0 to |records|
        invariant HandledSoFar(handled, m, records[..i])
        invariant handled.Keys <= locked.Keys
        invariant stale == StaleCount(m, records[..i])
      {
        var record := records[i];
        assert record in records && record.key in Keys(records);
        assert records[..i + 1] == records[..i] + [record] && records[..i + 1][..i] == records[..i];
        HandledSnoc(handled, m, records[..i], record);
        if record.offset < locked[record.key] {
          stale := stale + 1;
        } else {
          handled := AddHandled(handled, record);
        }
      }
      assert records[..|records|] == records;
    }

    /** Records outside the historian's projection still count as handled. */
    method CheckpointIgnoredRecords(
        records: seq<Coordinate>, epoch: int) returns (moved: map<PartitionKey, nat>, stale: nat)
      modifies `checkpoints
      ensures View() == CheckpointIgnored(old(View()), epoch, records).0
      ensures moved == CheckpointIgnored(old(View()), epoch, records).1
      ensures stale == StaleCount(OfEpoch(old(checkpoints), epoch), records)
    {
      if records == [] {
        return map[], 0;
      }
      var m := OfEpoch(checkpoints, epoch);
      var ensured, locked := LockCheckpoints(m, records);
      var handled;
      handled, stale := CollectIgnored(m, records, locked);
      var advanced;
      advanced, moved := AdvanceCheckpoints(ensured, handled, locked, m, records);
      checkpoints := checkpoints[epoch := advanced];
    }
  }
}
