/** Laws of one projected batch: what is stored, what a replay does, what the metrics and counters add up to. */
module PersistLaws {
  import opened Wrappers
  import opened Events
  import opened Splitting
  import opened ContiguousOffsets
  import opened HistorianTables

  // ------------------------------------------------------------------ raw rows

  lemma {:induction false} InsertableStoresAll(raw: seq<StoredRow>, rows: seq<RawRow>, row: RawRow)
    requires row in rows
    ensures Stored(raw + Records(Insertable(raw, rows)), row.record)
  {
    var n := |rows| - 1;
    var before := Insertable(raw, rows[..n]);
    if row in rows[..n] {
      InsertableStoresAll(raw, rows[..n], row);
      if !Stored(raw + Records(before), rows[n].record) {
        RecordsSnoc(before, rows[n]);
        assert raw + Records(before + [rows[n]]) == (raw + Records(before)) + [rows[n].record];
        LookupConcat(raw + Records(before), [rows[n].record], row.record.time, row.record.eventId);
      }
    } else if !Stored(raw + Records(before), rows[n].record) {
      RecordsSnoc(before, rows[n]);
      assert raw + Records(before + [rows[n]]) == (raw + Records(before)) + [rows[n].record];
      LookupConcat(raw + Records(before), [rows[n].record], row.record.time, row.record.eventId);
    }
  }

  lemma {:induction false} InsertableKeepsIdentitiesUnique(raw: seq<StoredRow>, rows: seq<RawRow>)
    requires UniqueIdentities(raw)
    ensures UniqueIdentities(raw + Records(Insertable(raw, rows)))
  {
    if rows == [] {
      assert raw + [] == raw;
    } else {
      var n := |rows| - 1;
      var before := Insertable(raw, rows[..n]);
      InsertableKeepsIdentitiesUnique(raw, rows[..n]);
      if !Stored(raw + Records(before), rows[n].record) {
        RecordsSnoc(before, rows[n]);
        assert raw + Records(before + [rows[n]]) == (raw + Records(before)) + [rows[n].record];
        LookupFinds(raw + Records(before), rows[n].record.time, rows[n].record.eventId);
      }
    }
  }

  /** The raw table only grows at its end, and no `(time, event_id)` is ever stored twice. */
  lemma RawTableAppendOnly(t: Tables, epoch: int, rows: seq<RawRow>)
    ensures t.raw <= Projected(t, epoch, rows).raw
    ensures UniqueIdentities(t.raw) ==> UniqueIdentities(Projected(t, epoch, rows).raw)
  {
    if UniqueIdentities(t.raw) {
      InsertableKeepsIdentitiesUnique(t.raw, Select(t, epoch, rows, Fresh));
    }
  }

  lemma StoredStaysStored(raw: seq<StoredRow>, later: seq<StoredRow>, record: StoredRow)
    requires raw <= later && Stored(raw, record)
    ensures Stored(later, record)
  {
    assert later == raw + later[|raw|..];
    LookupConcat(raw, later[|raw|..], record.time, record.eventId);
  }

  /** Afterwards every event at or above its partition's checkpoint is in the raw table under its identity. */
  lemma HandledRowsAreStored(t: Tables, epoch: int, rows: seq<RawRow>, row: RawRow)
    requires row in rows && row.offset >= Checkpoint(t, epoch, row.key)
    ensures Stored(Projected(t, epoch, rows).raw, row.record)
  {
    var accepted := Select(t, epoch, rows, Fresh);
    if Classify(t, epoch, row) == Fresh {
      SelectSound(t, epoch, rows, Fresh);
      InsertableStoresAll(t.raw, accepted, row);
    } else {
      StoredStaysStored(t.raw, Projected(t, epoch, rows).raw, row.record);
    }
  }

  // --------------------------------------------------------------- checkpoints

  lemma ReadAfterAdvance(m: map<PartitionKey, nat>, cs: seq<Coordinate>, key: PartitionKey)
    ensures Read(AdvancedBy(m, cs), key) == NextOffset(Read(m, key), Offsets(cs, key))
  {
  }

  /** A checkpoint moves to the first offset of its partition that the batch leaves unhandled; other epochs stay. */
  lemma CheckpointAfter(t: Tables, epoch: int, rows: seq<RawRow>, epoch': int, key: PartitionKey)
    ensures Checkpoint(Projected(t, epoch, rows), epoch', key)
            == if epoch' == epoch then NextOffset(Checkpoint(t, epoch, key), Offsets(Coordinates(rows), key))
                else Checkpoint(t, epoch', key)
  {
  }

  /** The checkpoint passes only offsets of the batch, and their events are in the raw table by then. */
  lemma CheckpointPassesOnlyHandled(t: Tables, epoch: int, rows: seq<RawRow>, key: PartitionKey, offset: nat)
    requires Checkpoint(t, epoch, key) <= offset < Checkpoint(Projected(t, epoch, rows), epoch, key)
    ensures exists row ::
              && row in rows && row.key == key && row.offset == offset
              && Stored(Projected(t, epoch, rows).raw, row.record)
  {
    CheckpointAfter(t, epoch, rows, epoch, key);
    NextOffsetContiguous(Checkpoint(t, epoch, key), Offsets(Coordinates(rows), key));
    CoordinatesOfRows(rows);
    assert offset in Offsets(Coordinates(rows), key);
    assert Coordinate(key, offset) in Coordinates(rows);
    var row :| row in rows && Coordinate(key, offset) == Coordinate(row.key, row.offset);
    HandledRowsAreStored(t, epoch, rows, row);
  }

  // ---------------------------------------------------------------- replaying

  /** `later` is some state of the tables after `t`: rows are kept and no checkpoint of the epoch fell. */
  ghost predicate Follows(t: Tables, later: Tables, epoch: int) {
    && t.raw <= later.raw
    && forall key :: Checkpoint(t, epoch, key) <= Checkpoint(later, epoch, key)
  }

  lemma {:induction false} NothingFresh(t: Tables, epoch: int, rows: seq<RawRow>)
    requires forall row :: row in rows ==> Classify(t, epoch, row) != Fresh
    ensures Select(t, epoch, rows, Fresh) == []
  {
    if rows != [] {
      assert rows[|rows| - 1] in rows;
      NothingFresh(t, epoch, rows[..|rows| - 1]);
    }
  }

  lemma NeverFreshAgain(t: Tables, later: Tables, epoch: int, rows: seq<RawRow>, row: RawRow)
    requires Follows(Projected(t, epoch, rows), later, epoch)
    requires row in rows
    ensures Classify(later, epoch, row) != Fresh
  {
    CheckpointAfter(t, epoch, rows, epoch, row.key);
    NextOffsetContiguous(Checkpoint(t, epoch, row.key), Offsets(Coordinates(rows), row.key));
    if row.offset >= Checkpoint(t, epoch, row.key) {
      HandledRowsAreStored(t, epoch, rows, row);
      StoredStaysStored(Projected(t, epoch, rows).raw, later.raw, row.record);
    }
  }

  /**
   * Replaying a batch at any later time inserts nothing: raw rows, metrics and the late-refresh worklist stay as
   * they are, whatever other batches were projected in between.
   */
  lemma ReplayInsertsNothing(t: Tables, later: Tables, epoch: int, rows: seq<RawRow>)
    requires Follows(Projected(t, epoch, rows), later, epoch)
    ensures var again := Projected(later, epoch, rows);
            again.raw == later.raw && again.metrics == later.metrics && again.worklist == later.worklist
    ensures Summary(later, epoch, rows).inserted == 0
  {
    forall row | row in rows
      ensures Classify(later, epoch, row) != Fresh
    {
      NeverFreshAgain(t, later, epoch, rows, row);
    }
    NothingFresh(later, epoch, rows);
    NoIdsNoMetrics(rows);
    assert EventIds([]) == {};
    assert later.raw + [] == later.raw && later.metrics + [] == later.metrics;
  }

  lemma ReplayMovesNoOffset(m: map<PartitionKey, nat>, cs: seq<Coordinate>)
    ensures AdvancedBy(AdvancedBy(m, cs), cs) == AdvancedBy(m, cs)
    ensures MovedBy(AdvancedBy(m, cs), cs) == map[]
  {
    forall key
      ensures NextOffset(Read(AdvancedBy(m, cs), key), Offsets(cs, key)) == Read(AdvancedBy(m, cs), key)
    {
      ReadAfterAdvance(m, cs, key);
      ReplayDoesNotAdvance(Read(m, key), Offsets(cs, key));
    }
  }

  /** `persist_batch` is idempotent: a second run changes no table, inserts nothing and moves no offset. */
  lemma PersistIdempotent(t: Tables, epoch: int, events: seq<ConsumedEvent>, maxMetricRows: nat)
    ensures var (once, first) := Persist(t, epoch, events, maxMetricRows);
            var (twice, second) := Persist(once, epoch, events, maxMetricRows);
            && twice == once
            && second.Ok? == first.Ok?
            && (second.Ok? ==> second.value.inserted == 0 && second.value.nextOffsets == map[])
  {
    var rows := RowsOf(events);
    if events != [] && Expandable(rows, maxMetricRows) {
      var once := Projected(t, epoch, rows);
      ReplayInsertsNothing(t, once, epoch, rows);
      ReplayMovesNoOffset(OfEpoch(t.checkpoints, epoch), Coordinates(rows));
    }
  }

  // ------------------------------------------------------------------- metrics

  /** For each row of a batch, by position, whether it is inserted. */
  function Goes(t: Tables, epoch: int, rows: seq<RawRow>): (flags: seq<bool>)
    ensures |flags| == |rows|
  {
    if rows == [] then []
    else
      var before, last := rows[..|rows| - 1], rows[|rows| - 1];
      Goes(t, epoch, before) +
      [Classify(t, epoch, last) == Fresh && !Stored(t.raw + Records(Inserted(t, epoch, before)), last.record)]
  }

  function Pick(rows: seq<RawRow>, flags: seq<bool>, wanted: bool): seq<RawRow>
    requires |flags| == |rows|
  {
    if rows == [] then []
    else
      var n := |rows| - 1;
      Pick(rows[..n], flags[..n], wanted) + if flags[n] == wanted then [rows[n]] else []
  }

  /** The rows of a batch, by position, that are not inserted: stale, known, or repeated within the batch. */
  function NotInserted(t: Tables, epoch: int, rows: seq<RawRow>): seq<RawRow> {
    Pick(rows, Goes(t, epoch, rows), false)
  }

  lemma {:induction false} InsertedIsPicked(t: Tables, epoch: int, rows: seq<RawRow>)
    ensures Inserted(t, epoch, rows) == Pick(rows, Goes(t, epoch, rows), true)
  {
    if rows != [] {
      var before, last := rows[..|rows| - 1], rows[|rows| - 1];
      var accepted := Select(t, epoch, before, Fresh);
      InsertedIsPicked(t, epoch, before);
      assert Goes(t, epoch, rows)[..|before|] == Goes(t, epoch, before);
      if Classify(t, epoch, last) == Fresh {
        assert (accepted + [last])[..|accepted|] == accepted;
      } else {
        assert accepted + [] == accepted;
      }
    }
  }

  lemma MetricsForSnoc(rows: seq<RawRow>, row: RawRow, ids: set<string>)
    ensures MetricsFor(rows + [row], ids)
            == MetricsFor(rows, ids) + if row.record.eventId in ids then MetricRows(row.record) else []
  {
  }

  lemma MetricsOfSnoc(rows: seq<RawRow>, row: RawRow)
    ensures MetricsOf(Records(rows + [row])) == MetricsOf(Records(rows)) + MetricRows(row.record)
  {
    RecordsSnoc(rows, row);
    FlatMapOneMore(MetricRows, Records(rows), row.record);
  }

  lemma EventIdsSnoc(rows: seq<RawRow>, row: RawRow)
    ensures EventIds(rows + [row]) == EventIds(rows) + {row.record.eventId}
  {
  }

  /** The metric rows of a batch are those of the picked rows and those of the rows left out. */
  lemma {:induction false} MetricsSplit(rows: seq<RawRow>, flags: seq<bool>, ids: set<string>)
    requires |flags| == |rows| && EventIds(Pick(rows, flags, true)) <= ids
    ensures |MetricsFor(rows, ids)|
            == |MetricsOf(Records(Pick(rows, flags, true)))| + |MetricsFor(Pick(rows, flags, false), ids)|
    ensures MetricsFor(Pick(rows, flags, false), ids) == [] ==>
            MetricsFor(rows, ids) == MetricsOf(Records(Pick(rows, flags, true)))
  {
    if rows != [] {
      var n := |rows| - 1;
      var picked, others := Pick(rows[..n], flags[..n], true), Pick(rows[..n], flags[..n], false);
      if flags[n] {
        EventIdsSnoc(picked, rows[n]);
        MetricsOfSnoc(picked, rows[n]);
      } else {
        MetricsForSnoc(others, rows[n], ids);
      }
      assert picked + [] == picked && others + [] == others;
      MetricsSplit(rows[..n], flags[..n], ids);
    }
  }

  lemma {:induction false} MetricsForEmptyIff(rows: seq<RawRow>, ids: set<string>)
    ensures MetricsFor(rows, ids) == []
            <==> forall row :: row in rows && row.record.eventId in ids ==> MetricRows(row.record) == []
  {
    if rows != [] {
      var before, last := rows[..|rows| - 1], rows[|rows| - 1];
      MetricsForEmptyIff(before, ids);
      assert rows == before + [last];
      assert last in rows;
    }
  }

  /** No event left out of the raw table shares its id with one that goes in while having metrics of its own. */
  ghost predicate NoEchoes(t: Tables, epoch: int, rows: seq<RawRow>) {
    forall row :: row in NotInserted(t, epoch, rows) && row.record.eventId in EventIds(Inserted(t, epoch, rows)) ==>
                    MetricRows(row.record) == []
  }

  /** The metrics table holds the metric rows of the stored raw rows, each once. */
  ghost predicate MetricsExact(t: Tables) {
    t.metrics == MetricsOf(t.raw)
  }

  /** Metric rows beyond those of the stored rows. */
  function Surplus(t: Tables): int {
    |t.metrics| - |MetricsOf(t.raw)|
  }

  /**
   * From any tables, the surplus grows by the echoes' metric rows; without echoes the metrics of the new rows are
   * added.
   */
  lemma EchoesAddUp(t: Tables, epoch: int, rows: seq<RawRow>)
    ensures var after, ids := Projected(t, epoch, rows), EventIds(Inserted(t, epoch, rows));
            && Surplus(after) == Surplus(t) + |MetricsFor(NotInserted(t, epoch, rows), ids)|
            && (NoEchoes(t, epoch, rows) <==> MetricsFor(NotInserted(t, epoch, rows), ids) == [])
            && (NoEchoes(t, epoch, rows) && MetricsExact(t) ==> MetricsExact(after))
  {
    var inserted := Inserted(t, epoch, rows);
    var ids := EventIds(inserted);
    InsertedIsPicked(t, epoch, rows);
    MetricsSplit(rows, Goes(t, epoch, rows), ids);
    FlatMapConcat(MetricRows, t.raw, Records(inserted));
    MetricsForEmptyIff(NotInserted(t, epoch, rows), ids);
  }

  /**
   * A batch keeps the metrics exact when, and only when, it has no echo of an inserted event id.
   */
  lemma MetricsExactIff(t: Tables, epoch: int, rows: seq<RawRow>)
    requires MetricsExact(t)
    ensures MetricsExact(Projected(t, epoch, rows)) <==> NoEchoes(t, epoch, rows)
  {
    EchoesAddUp(t, epoch, rows);
  }

  /** A picked row sits in its list, and rows picked alike keep their order. */
  lemma {:induction false} PickedAt(rows: seq<RawRow>, flags: seq<bool>, i: nat) returns (k: nat)
    requires |flags| == |rows| && i < |rows|
    ensures k < |Pick(rows, flags, flags[i])| && Pick(rows, flags, flags[i])[k] == rows[i]
  {
    var n := |rows| - 1;
    if i < n {
      k := PickedAt(rows[..n], flags[..n], i);
    } else {
      k := |Pick(rows[..n], flags[..n], flags[n])|;
    }
  }

  lemma {:induction false} PickedInOrder(rows: seq<RawRow>, flags: seq<bool>, i: nat, j: nat) returns (k: nat, l: nat)
    requires |flags| == |rows| && i < j < |rows| && flags[i] == flags[j]
    ensures k < l < |Pick(rows, flags, flags[i])|
    ensures Pick(rows, flags, flags[i])[k] == rows[i] && Pick(rows, flags, flags[i])[l] == rows[j]
  {
    var n := |rows| - 1;
    if j < n {
      k, l := PickedInOrder(rows[..n], flags[..n], i, j);
    } else {
      k := PickedAt(rows[..n], flags[..n], i);
      l := |Pick(rows[..n], flags[..n], flags[n])|;
    }
  }

  lemma {:induction false} InsertableIdentities(raw: seq<StoredRow>, rows: seq<RawRow>)
    ensures forall i, j :: 0 <= i < j < |Insertable(raw, rows)| ==>
                             !HasIdentity(Insertable(raw, rows)[i].record, Insertable(raw, rows)[j].record.time,
                                 Insertable(raw, rows)[j].record.eventId)
  {
    if rows != [] {
      var before, last := Insertable(raw, rows[..|rows| - 1]), rows[|rows| - 1].record;
      InsertableIdentities(raw, rows[..|rows| - 1]);
      if !Stored(raw + Records(before), last) {
        LookupFinds(raw + Records(before), last.time, last.eventId);
        forall i | 0 <= i < |before| ensures !HasIdentity(before[i].record, last.time, last.eventId) {
          assert (raw + Records(before))[|raw| + i] == before[i].record;
        }
      }
    }
  }

  /** Of two rows with one identity, at most one goes in. */
  lemma OneGoesIn(t: Tables, epoch: int, rows: seq<RawRow>, i: nat, j: nat)
    requires i < |rows| && j < |rows| && i != j
    requires HasIdentity(rows[i].record, rows[j].record.time, rows[j].record.eventId)
    ensures !(Goes(t, epoch, rows)[i] && Goes(t, epoch, rows)[j])
  {
    var flags := Goes(t, epoch, rows);
    if flags[i] && flags[j] {
      InsertedIsPicked(t, epoch, rows);
      var _, _ := PickedInOrder(rows, flags, if i < j then i else j, if i < j then j else i);
      InsertableIdentities(t.raw, Select(t, epoch, rows, Fresh));
    }
  }

  /** Any row that is new to the table is represented among the inserted rows by one of its identity. */
  lemma FreshIsRepresented(t: Tables, epoch: int, rows: seq<RawRow>, row: RawRow) returns (i: nat)
    requires row in rows && Classify(t, epoch, row) == Fresh
    ensures i < |Inserted(t, epoch, rows)|
    ensures HasIdentity(Inserted(t, epoch, rows)[i].record, row.record.time, row.record.eventId)
  {
    var inserted := Inserted(t, epoch, rows);
    SelectSound(t, epoch, rows, Fresh);
    InsertableStoresAll(t.raw, Select(t, epoch, rows, Fresh), row);
    LookupConcat(t.raw, Records(inserted), row.record.time, row.record.eventId);
    LookupFinds(Records(inserted), row.record.time, row.record.eventId);
    i :| 0 <= i < |inserted| && HasIdentity(Records(inserted)[i], row.record.time, row.record.eventId);
  }

  /** A new event with metrics whose identity a batch repeats with metrics is echoed, whatever else the batch holds. */
  lemma RepeatedRowEchoes(t: Tables, epoch: int, rows: seq<RawRow>, i: nat, j: nat)
    requires i < |rows| && j < |rows| && i != j && Classify(t, epoch, rows[i]) == Fresh
    requires HasIdentity(rows[i].record, rows[j].record.time, rows[j].record.eventId)
    requires MetricRows(rows[i].record) != [] && MetricRows(rows[j].record) != []
    ensures !NoEchoes(t, epoch, rows)
  {
    var inserted, flags := Inserted(t, epoch, rows), Goes(t, epoch, rows);
    OneGoesIn(t, epoch, rows, i, j);
    var k := FreshIsRepresented(t, epoch, rows, rows[i]);
    assert inserted[k] in inserted && rows[i].record.eventId in EventIds(inserted);
    var out := if flags[i] then j else i;
    var l := PickedAt(rows, flags, out);
    assert rows[out] in NotInserted(t, epoch, rows);
  }

  ghost predicate DistinctIds(rows: seq<RawRow>) {
    forall i, j :: 0 <= i < j < |rows| ==> rows[i].record.eventId != rows[j].record.eventId
  }

  lemma LastIdIsNew(rows: seq<RawRow>)
    requires rows != [] && DistinctIds(rows)
    ensures rows[|rows| - 1].record.eventId !in EventIds(rows[..|rows| - 1])
  {
  }

  lemma {:induction false} DistinctIdsSeparate(rows: seq<RawRow>, flags: seq<bool>)
    requires |flags| == |rows| && DistinctIds(rows)
    ensures EventIds(Pick(rows, flags, true)) + EventIds(Pick(rows, flags, false)) <= EventIds(rows)
    ensures EventIds(Pick(rows, flags, true)) !! EventIds(Pick(rows, flags, false))
  {
    if rows != [] {
      var n := |rows| - 1;
      DistinctIdsSeparate(rows[..n], flags[..n]);
      LastIdIsNew(rows);
      EventIdsSnoc(rows[..n], rows[n]);
      EventIdsSnoc(Pick(rows[..n], flags[..n], flags[n]), rows[n]);
      assert rows[..n] + [rows[n]] == rows;
      assert Pick(rows, flags, !flags[n]) == Pick(rows[..n], flags[..n], !flags[n]);
    }
  }

  lemma DistinctIdsHaveNoEchoes(t: Tables, epoch: int, rows: seq<RawRow>)
    requires DistinctIds(rows)
    ensures NoEchoes(t, epoch, rows)
  {
    DistinctIdsSeparate(rows, Goes(t, epoch, rows));
    InsertedIsPicked(t, epoch, rows);
    forall row | row in NotInserted(t, epoch, rows)
      ensures row.record.eventId !in EventIds(Inserted(t, epoch, rows))
    {
      assert row.record.eventId in EventIds(NotInserted(t, epoch, rows));
    }
  }

  /** Batches of pairwise distinct event ids keep the metrics exact. */
  lemma DistinctIdsKeepMetricsExact(t: Tables, epoch: int, rows: seq<RawRow>)
    requires MetricsExact(t) && DistinctIds(rows)
    ensures MetricsExact(Projected(t, epoch, rows))
  {
    DistinctIdsHaveNoEchoes(t, epoch, rows);
    MetricsExactIff(t, epoch, rows);
  }

  // ------------------------------------------------------------------ counters

  lemma {:induction false} ClassesPartition(t: Tables, epoch: int, rows: seq<RawRow>)
    ensures |Select(t, epoch, rows, Stale)| + |Select(t, epoch, rows, Duplicate)|
            + |Select(t, epoch, rows, Conflict)| + |Select(t, epoch, rows, Fresh)| == |rows|
    ensures |Conflicts(t, epoch, rows)| == |Select(t, epoch, rows, Conflict)|
  {
    if rows != [] { ClassesPartition(t, epoch, rows[..|rows| - 1]); }
  }

  lemma DistinctIdsSnoc(rows: seq<RawRow>)
    requires rows != [] && rows[|rows| - 1].record.eventId !in EventIds(rows[..|rows| - 1])
    ensures DistinctIds(rows[..|rows| - 1]) <==> DistinctIds(rows)
  {
  }

  lemma {:induction false} IdCount(rows: seq<RawRow>)
    ensures |EventIds(rows)| <= |rows|
    ensures |EventIds(rows)| == |rows| <==> DistinctIds(rows)
  {
    if rows != [] {
      var before, last := rows[..|rows| - 1], rows[|rows| - 1];
      IdCount(before);
      EventIdsSnoc(before, last);
      assert before + [last] == rows;
      if last.record.eventId in EventIds(before) {
        assert EventIds(rows) == EventIds(before);
        var row :| row in before && row.record.eventId == last.record.eventId;
        var i :| 0 <= i < |before| && before[i] == row;
        assert rows[i].record.eventId == rows[|before|].record.eventId;
      } else {
        DistinctIdsSnoc(rows);
      }
    }
  }

  /** No two events that are new to the table share an id under different times. */
  ghost predicate OneTimePerNewId(t: Tables, epoch: int, rows: seq<RawRow>) {
    forall a, b :: (a in rows && b in rows && Classify(t, epoch, a) == Fresh && Classify(t, epoch, b) == Fresh
                    && a.record.eventId == b.record.eventId) ==> a.record.time == b.record.time
  }

  lemma InsertedIdsDistinctIff(t: Tables, epoch: int, rows: seq<RawRow>)
    ensures DistinctIds(Inserted(t, epoch, rows)) <==> OneTimePerNewId(t, epoch, rows)
  {
    var accepted, inserted := Select(t, epoch, rows, Fresh), Inserted(t, epoch, rows);
    SelectSound(t, epoch, rows, Fresh);
    InsertableFromRows(t.raw, accepted);
    InsertableIdentities(t.raw, accepted);
    if OneTimePerNewId(t, epoch, rows) {
      forall i, j | 0 <= i < j < |inserted| ensures inserted[i].record.eventId != inserted[j].record.eventId {
        assert inserted[i] in inserted && inserted[j] in inserted;
      }
    }
    if DistinctIds(inserted) {
      forall a, b | a in rows && b in rows && Classify(t, epoch, a) == Fresh && Classify(t, epoch, b) == Fresh
                    && a.record.eventId == b.record.eventId
        ensures a.record.time == b.record.time
      {
        var i := FreshIsRepresented(t, epoch, rows, a);
        var j := FreshIsRepresented(t, epoch, rows, b);
        assert i == j;
      }
    }
  }

  /**
   * Inserted, duplicate, stale and quarantined counts add up to the batch size when, and only when, no two new
   * events of the batch share an id under different times; otherwise they fall short of it.
   */
  lemma CountersAddUpIff(t: Tables, epoch: int, events: seq<ConsumedEvent>)
    ensures var s := Summary(t, epoch, RowsOf(events));
            var total := s.inserted + s.duplicates + s.stale + |s.quarantined|;
            && total <= |events|
            && (total == |events| <==> OneTimePerNewId(t, epoch, RowsOf(events)))
  {
    var rows := RowsOf(events);
    RowsOfMembers(events);
    ClassesPartition(t, epoch, rows);
    InsertableFromRows(t.raw, Select(t, epoch, rows, Fresh));
    IdCount(Inserted(t, epoch, rows));
    InsertedIdsDistinctIff(t, epoch, rows);
  }

  // ---------------------------------------------------------------- lost content

  /** What a lookup finds is the content of a row with that identity. */
  lemma {:induction false} LookupIsContent(raw: seq<StoredRow>, time: int, eventId: string) returns (i: nat)
    requires Lookup(raw, time, eventId).Some?
    ensures i < |raw| && HasIdentity(raw[i], time, eventId) && Lookup(raw, time, eventId) == Some(raw[i].contentHash)
  {
    if HasIdentity(raw[0], time, eventId) {
      i := 0;
    } else {
      i := LookupIsContent(raw[1..], time, eventId);
      i := i + 1;
    }
  }

  /** After the batch, something else is stored under the row's identity than the row's content. */
  predicate Superseded(t: Tables, epoch: int, rows: seq<RawRow>, row: RawRow) {
    Lookup(Projected(t, epoch, rows).raw, row.record.time, row.record.eventId) != Some(row.record.contentHash)
  }

  /** No two new rows share an identity under different content. */
  ghost predicate OneContentPerNewIdentity(t: Tables, epoch: int, rows: seq<RawRow>) {
    forall a, b :: (a in rows && b in rows && Classify(t, epoch, a) == Fresh && Classify(t, epoch, b) == Fresh
                    && HasIdentity(a.record, b.record.time, b.record.eventId)) ==>
                     a.record.contentHash == b.record.contentHash
  }

  /** Under the identity of a new row the batch stores the content of a new row. */
  lemma FreshContent(t: Tables, epoch: int, rows: seq<RawRow>, row: RawRow) returns (kept: RawRow)
    requires row in rows && Classify(t, epoch, row) == Fresh
    ensures kept in rows && Classify(t, epoch, kept) == Fresh
    ensures HasIdentity(kept.record, row.record.time, row.record.eventId)
    ensures Lookup(Projected(t, epoch, rows).raw, row.record.time, row.record.eventId) == Some(kept.record.contentHash)
  {
    var inserted := Inserted(t, epoch, rows);
    var k := FreshIsRepresented(t, epoch, rows, row);
    assert HasIdentity(Records(inserted)[k], row.record.time, row.record.eventId);
    LookupFinds(Records(inserted), row.record.time, row.record.eventId);
    LookupConcat(t.raw, Records(inserted), row.record.time, row.record.eventId);
    var i := LookupIsContent(Records(inserted), row.record.time, row.record.eventId);
    kept := inserted[i];
    InsertableFromRows(t.raw, Select(t, epoch, rows, Fresh));
    SelectSound(t, epoch, rows, Fresh);
    assert kept in inserted;
  }

  /** A row that is known already keeps or loses against what is stored, and a conflict always loses. */
  lemma KnownContent(t: Tables, epoch: int, rows: seq<RawRow>, row: RawRow)
    ensures Classify(t, epoch, row) == Duplicate ==> !Superseded(t, epoch, rows, row)
    ensures Classify(t, epoch, row) == Conflict ==> Superseded(t, epoch, rows, row)
  {
    LookupConcat(t.raw, Records(Inserted(t, epoch, rows)), row.record.time, row.record.eventId);
  }

  /**
   * Every handled row whose content is not the one stored is quarantined when, and only when, no two new rows share
   * an identity under different content: the content is read once, before the batch's own rows go in.
   */
  lemma LostContentIsQuarantinedIff(t: Tables, epoch: int, rows: seq<RawRow>)
    ensures (forall row :: row in rows && Classify(t, epoch, row) != Stale && Superseded(t, epoch, rows, row) ==>
                             Classify(t, epoch, row) == Conflict)
            <==> OneContentPerNewIdentity(t, epoch, rows)
  {
    forall row | row in rows && Classify(t, epoch, row) == Fresh
      ensures OneContentPerNewIdentity(t, epoch, rows) ==> !Superseded(t, epoch, rows, row)
    {
      var kept := FreshContent(t, epoch, rows, row);
    }
    forall row ensures Classify(t, epoch, row) == Duplicate ==> !Superseded(t, epoch, rows, row) {
      KnownContent(t, epoch, rows, row);
    }
    if forall row :: row in rows && Classify(t, epoch, row) == Fresh ==> !Superseded(t, epoch, rows, row) {
      forall a, b | a in rows && b in rows && Classify(t, epoch, a) == Fresh && Classify(t, epoch, b) == Fresh
                    && HasIdentity(a.record, b.record.time, b.record.eventId)
        ensures a.record.contentHash == b.record.contentHash
      {
        assert !Superseded(t, epoch, rows, a) && !Superseded(t, epoch, rows, b);
      }
    }
  }

  // ------------------------------------------------------------------- examples

  const EMPTY := Tables([], [], map[], map[])
  const KEY := PartitionKey("uns.historic-events", 0)

  /** Two events of one id at two times are both stored and counted once. */
  lemma OneIdAtTwoTimesMiscounts(epoch: int)
    ensures var events := [ConsumedEvent(KEY, 0, Sample([]), 1), ConsumedEvent(KEY, 1, Sample([]).(time := 1), 1)];
            var s := Summary(EMPTY, epoch, RowsOf(events));
            s.inserted + s.duplicates + s.stale + |s.quarantined| < |events|
  {
    var first, second := ConsumedEvent(KEY, 0, Sample([]), 1), ConsumedEvent(KEY, 1, Sample([]).(time := 1), 1);
    var rows := RowsOf([first, second]);
    RowsOfMembers([first, second]);
    var a, b := RawRowFromEvent(first), RawRowFromEvent(second);
    assert first in [first, second] && second in [first, second];
    assert a in rows && b in rows && Classify(EMPTY, epoch, a) == Fresh && Classify(EMPTY, epoch, b) == Fresh;
    CountersAddUpIff(EMPTY, epoch, [first, second]);
  }

  /** Two new events of one identity with different content: one is lost, and nothing is quarantined. */
  lemma LostContentUnnoticed(epoch: int)
    ensures var a := RawRow(RecordOf(Sample([])), KEY, 0);
            var b := RawRow(RecordOf(Sample([]).(topic := "a/c")), KEY, 1);
            && Conflicts(EMPTY, epoch, [a, b]) == []
            && (Superseded(EMPTY, epoch, [a, b], a) || Superseded(EMPTY, epoch, [a, b], b))
  {
    var a, b := RawRow(RecordOf(Sample([])), KEY, 0), RawRow(RecordOf(Sample([]).(topic := "a/c")), KEY, 1);
    var rows := [a, b];
    assert rows[0] in rows && rows[1] in rows;
    assert Classify(EMPTY, epoch, a) == Fresh && Classify(EMPTY, epoch, b) == Fresh;
    assert Conflicts(EMPTY, epoch, rows[..1]) == [] by { assert rows[..1][..0] == []; }
    assert a.record.contentHash.topic != b.record.contentHash.topic;
    LostContentIsQuarantinedIff(EMPTY, epoch, rows);
  }

  // ------------------------------------------------------------- late refreshes

  /** How many stored rows of a UTC day are late telemetry. */
  function LateRows(raw: seq<StoredRow>, day: int): nat {
    if raw == [] then 0
    else
      LateRows(raw[..|raw| - 1], day) +
      if IsLate(raw[|raw| - 1]) && UtcDay(raw[|raw| - 1].time) == day then 1 else 0
  }

  function Pending(worklist: map<int, WorkItem>, day: int): nat {
    if day in worklist then worklist[day].pending else 0
  }

  function Processed(worklist: map<int, WorkItem>, day: int): nat {
    if day in worklist then worklist[day].processed else 0
  }

  lemma {:induction false} LateRowsConcat(raw: seq<StoredRow>, more: seq<StoredRow>, day: int)
    ensures LateRows(raw + more, day) == LateRows(raw, day) + LateRows(more, day)
  {
    if more == [] {
      assert raw + more == raw;
    } else {
      LateRowsConcat(raw, more[..|more| - 1], day);
      assert (raw + more)[..|raw + more| - 1] == raw + more[..|more| - 1];
    }
  }

  lemma {:induction false} BumpLateCounts(worklist: map<int, WorkItem>, rows: seq<RawRow>, day: int)
    ensures Pending(BumpLate(worklist, rows), day) == Pending(worklist, day) + LateRows(Records(rows), day)
    ensures Processed(BumpLate(worklist, rows), day) == Processed(worklist, day)
  {
    if rows != [] {
      var before, last := rows[..|rows| - 1], rows[|rows| - 1];
      BumpLateCounts(worklist, before, day);
      RecordsSnoc(before, last);
      assert rows == before + [last];
      assert Records(rows)[..|before|] == Records(before);
    }
  }

  /** Each day's pending generation is the number of late telemetry rows stored for that day. */
  ghost predicate GenerationsCountLateRows(t: Tables) {
    forall day :: Pending(t.worklist, day) == LateRows(t.raw, day)
  }

  lemma BatchKeepsGenerations(t: Tables, epoch: int, rows: seq<RawRow>)
    requires GenerationsCountLateRows(t)
    ensures GenerationsCountLateRows(Projected(t, epoch, rows))
    ensures forall day :: Processed(Projected(t, epoch, rows).worklist, day) == Processed(t.worklist, day)
  {
    var inserted := Inserted(t, epoch, rows);
    forall day
      ensures Pending(BumpLate(t.worklist, inserted), day) == LateRows(t.raw + Records(inserted), day)
      ensures Processed(BumpLate(t.worklist, inserted), day) == Processed(t.worklist, day)
    {
      BumpLateCounts(t.worklist, inserted, day);
      LateRowsConcat(t.raw, Records(inserted), day);
    }
  }
}
