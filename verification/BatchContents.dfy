/** What a batch puts into the tables and reports, in terms of the envelopes of its events. */
module BatchContents {
  import opened Wrappers
  import opened Splitting
  import opened MetricFlattener
  import opened Events
  import opened Sorting
  import opened ContiguousOffsets
  import opened HistorianTables
  import opened PersistLaws

  /** The table has a row of the event's time and id. */
  ghost predicate Known(t: Tables, e: Envelope) {
    exists row :: row in t.raw && row.time == e.time && row.eventId == e.eventId
  }

  /** The event is one the batch is to insert: not below its checkpoint, and not known. */
  ghost predicate New(t: Tables, epoch: int, event: ConsumedEvent) {
    event.offset >= Checkpoint(t, epoch, event.key) && !Known(t, event.envelope)
  }

  ghost predicate DistinctEventIds(events: seq<ConsumedEvent>) {
    forall i, j :: 0 <= i < j < |events| ==> events[i].envelope.eventId != events[j].envelope.eventId
  }

  lemma KnownIsStored(t: Tables, e: Envelope)
    ensures Known(t, e) <==> Lookup(t.raw, e.time, e.eventId).Some?
  {
    LookupFinds(t.raw, e.time, e.eventId);
    if Lookup(t.raw, e.time, e.eventId).Some? {
      var i :| 0 <= i < |t.raw| && HasIdentity(t.raw[i], e.time, e.eventId);
      assert t.raw[i] in t.raw;
    }
    if row :| row in t.raw && row.time == e.time && row.eventId == e.eventId {
      var i :| 0 <= i < |t.raw| && t.raw[i] == row;
      assert HasIdentity(t.raw[i], e.time, e.eventId);
    }
  }

  lemma NewIsFresh(t: Tables, epoch: int, event: ConsumedEvent)
    ensures New(t, epoch, event) <==> Classify(t, epoch, RawRowFromEvent(event)) == Fresh
  {
    KnownIsStored(t, event.envelope);
  }

  // --------------------------------------------------------------------- raw rows

  /** What each column of a raw row holds. */
  ghost predicate IsRowOf(row: StoredRow, e: Envelope) {
    && row.time == e.time && row.topic == e.topic && row.clientId == None && row.payload == e.payload
    && row.eventId == e.eventId && row.identityQuality == e.identityQuality && row.receivedAt == e.receivedAt
    && row.eventKind == e.eventKind && row.isHistorical == e.isHistorical && row.siteId == e.siteId
    && row.sourceId == e.sourceId && row.sourceBootId == e.sourceBootId && row.sourceSequence == e.sourceSequence
    && row.timestampQuality == e.timestampQuality && row.contentHash == HashedContent(e)
  }

  ghost predicate InsertedFrom(t: Tables, epoch: int, events: seq<ConsumedEvent>, row: StoredRow) {
    exists event :: event in events && New(t, epoch, event) && IsRowOf(row, event.envelope)
  }

  lemma InsertedRowsAreNew(t: Tables, epoch: int, events: seq<ConsumedEvent>, k: nat)
    requires k < |Inserted(t, epoch, RowsOf(events))|
    ensures InsertedFrom(t, epoch, events, Inserted(t, epoch, RowsOf(events))[k].record)
  {
    var rows := RowsOf(events);
    var row := Inserted(t, epoch, rows)[k];
    InsertableFromRows(t.raw, Select(t, epoch, rows, Fresh));
    assert row in Inserted(t, epoch, rows);
    SelectSound(t, epoch, rows, Fresh);
    RowsOfMembers(events);
    var event :| event in events && row == RawRowFromEvent(event);
    NewIsFresh(t, epoch, event);
    assert IsRowOf(row.record, event.envelope);
  }

  lemma NewEventsAreInserted(t: Tables, epoch: int, events: seq<ConsumedEvent>, event: ConsumedEvent) returns (k: nat)
    requires event in events && New(t, epoch, event)
    ensures k < |Inserted(t, epoch, RowsOf(events))|
    ensures var row := Inserted(t, epoch, RowsOf(events))[k].record;
            row.time == event.envelope.time && row.eventId == event.envelope.eventId
  {
    RowsOfMembers(events);
    NewIsFresh(t, epoch, event);
    k := FreshIsRepresented(t, epoch, RowsOf(events), RawRowFromEvent(event));
  }

  /** One of the rows from `start` on is of the event's time and id; if it has to be its own, it is. */
  ghost predicate HasRow(raw: seq<StoredRow>, start: nat, event: ConsumedEvent, own: bool) {
    exists i :: start <= i < |raw|
                && raw[i].time == event.envelope.time && raw[i].eventId == event.envelope.eventId
                && (own ==> IsRowOf(raw[i], event.envelope))
  }

  lemma NewEventHasRow(t: Tables, epoch: int, events: seq<ConsumedEvent>, event: ConsumedEvent)
    requires event in events && New(t, epoch, event)
    ensures HasRow(t.raw + Records(Inserted(t, epoch, RowsOf(events))), |t.raw|, event, DistinctEventIds(events))
  {
    var inserted := Inserted(t, epoch, RowsOf(events));
    var raw := t.raw + Records(inserted);
    var k := NewEventsAreInserted(t, epoch, events, event);
    var i := |t.raw| + k;
    assert raw[i] == inserted[k].record;
    InsertedRowsAreNew(t, epoch, events, k);
    var other :| other in events && New(t, epoch, other) && IsRowOf(raw[i], other.envelope);
    if DistinctEventIds(events) {
      assert other == event;
    }
  }

  /**
   * A batch appends rows of its new events, column by column what their envelopes hold, and each new event has a row of
   * its time and id; with pairwise distinct ids that is its own row.
   */
  lemma RawRowsOfBatch(t: Tables, epoch: int, events: seq<ConsumedEvent>, maxMetricRows: nat)
    requires Persist(t, epoch, events, maxMetricRows).1.Ok?
    ensures var raw := Persist(t, epoch, events, maxMetricRows).0.raw;
            && t.raw <= raw
            && (forall i :: |t.raw| <= i < |raw| ==> InsertedFrom(t, epoch, events, raw[i]))
            && (forall event :: event in events && New(t, epoch, event) ==>
                  HasRow(raw, |t.raw|, event, DistinctEventIds(events)))
  {
    var rows, raw := RowsOf(events), Persist(t, epoch, events, maxMetricRows).0.raw;
    if events != [] {
      var inserted := Inserted(t, epoch, rows);
      forall i | |t.raw| <= i < |raw| ensures InsertedFrom(t, epoch, events, raw[i]) {
        assert raw[i] == inserted[i - |t.raw|].record;
        InsertedRowsAreNew(t, epoch, events, i - |t.raw|);
      }
      forall event | event in events && New(t, epoch, event)
        ensures HasRow(raw, |t.raw|, event, DistinctEventIds(events))
      {
        NewEventHasRow(t, epoch, events, event);
      }
    }
  }

  // ------------------------------------------------------------------ metric rows

  /** The value is in the column for its kind, and the other column is empty. */
  predicate Shows(row: MetricRow, value: Json) {
    match value
    case Num(n) => row.valueDouble == Some(n) && row.valueText == None
    case Str(s) => row.valueDouble == None && row.valueText == Some(s)
    case Bool(b) => row.valueDouble == None && row.valueText == Some(if b then "true" else "false")
    case _ => false
  }

  /** The event is telemetry and has a scalar at the path. */
  ghost predicate HasScalar(e: Envelope, path: seq<string>) {
    e.eventKind.Telemetry? && At(Obj(e.payload), path).Some? && IsScalar(At(Obj(e.payload), path).value)
  }

  /** The row is for the scalar at the path: under its dotted name, with the event's time, topic and id. */
  ghost predicate IsMetricOf(row: MetricRow, e: Envelope, path: seq<string>) {
    && HasScalar(e, path) && Shows(row, At(Obj(e.payload), path).value)
    && row.name == Join(path, '.') && row.time == e.time && row.topic == e.topic && row.eventId == e.eventId
  }

  lemma MetricsOfEvent(e: Envelope) returns (paths: seq<seq<string>>)
    requires UniqueFieldKeys(e.payload)
    ensures |paths| == |MetricRows(RecordOf(e))|
    ensures forall i :: 0 <= i < |paths| ==> IsMetricOf(MetricRows(RecordOf(e))[i], e, paths[i])
    ensures forall path :: path in paths <==> HasScalar(e, path)
    ensures forall i, j :: 0 <= i < j < |paths| ==> paths[i] != paths[j]
  {
    if !e.eventKind.Telemetry? {
      paths := [];
      return;
    }
    var leaves, rows := Leaves(Obj(e.payload), []), MetricRows(RecordOf(e));
    OneRowPerLeaf(e.payload);
    paths := seq(|leaves|, i requires 0 <= i < |leaves| => leaves[i].path);
    forall i | 0 <= i < |paths| ensures IsMetricOf(rows[i], e, paths[i]) {
      assert Leaf(paths[i], leaves[i].value) in leaves;
    }
    forall path ensures path in paths <==> HasScalar(e, path) {
      if HasScalar(e, path) {
        assert Leaf(path, At(Obj(e.payload), path).value) in leaves;
        var i :| 0 <= i < |leaves| && leaves[i] == Leaf(path, At(Obj(e.payload), path).value);
        assert paths[i] == path;
      }
    }
  }

  /** Where a metric row comes from: an event of the batch, by its place in Kafka order, and a path. */
  datatype Origin = Origin(place: nat, path: seq<string>)

  /** There is a scalar to show at the path of the event at the place. */
  ghost predicate Due(order: seq<ConsumedEvent>, ids: set<string>, o: Origin) {
    && o.place < |order| && order[o.place].envelope.eventId in ids && HasScalar(order[o.place].envelope, o.path)
  }

  ghost predicate ShownBy(metric: MetricRow, order: seq<ConsumedEvent>, o: Origin) {
    o.place < |order| && IsMetricOf(metric, order[o.place].envelope, o.path)
  }

  /** The events with these ids have their scalars among the rows, each once, and nothing else is there. */
  ghost predicate Explains(
      metrics: seq<MetricRow>, order: seq<ConsumedEvent>, ids: set<string>, origins: seq<Origin>)
  {
    && |metrics| == |origins|
    && (forall k :: 0 <= k < |origins| ==> ShownBy(metrics[k], order, origins[k]))
    && (forall o: Origin :: o in origins <==> Due(order, ids, o))
    && (forall k, l :: 0 <= k < l < |origins| ==> origins[k] != origins[l])
  }

  lemma DueOneMore(
      order: seq<ConsumedEvent>, ids: set<string>, event: ConsumedEvent, paths: seq<seq<string>>,
      added: seq<Origin>, o: Origin)
    requires |added| == |paths| && forall i :: 0 <= i < |added| ==> added[i] == Origin(|order|, paths[i])
    requires forall path :: path in paths <==> event.envelope.eventId in ids && HasScalar(event.envelope, path)
    ensures Due(order + [event], ids, o) <==> Due(order, ids, o) || o in added
  {
    if o.place == |order| && o.path in paths {
      var i :| 0 <= i < |paths| && paths[i] == o.path;
      assert added[i] == o;
    }
  }

  lemma ExplainsOneMore(
      metrics: seq<MetricRow>, order: seq<ConsumedEvent>, ids: set<string>, origins: seq<Origin>,
      more: seq<MetricRow>, event: ConsumedEvent, paths: seq<seq<string>>) returns (all: seq<Origin>)
    requires Explains(metrics, order, ids, origins)
    requires |paths| == |more| && forall i :: 0 <= i < |paths| ==> IsMetricOf(more[i], event.envelope, paths[i])
    requires forall path :: path in paths <==> event.envelope.eventId in ids && HasScalar(event.envelope, path)
    requires forall i, j :: 0 <= i < j < |paths| ==> paths[i] != paths[j]
    ensures Explains(metrics + more, order + [event], ids, all)
  {
    var longer := order + [event];
    var added := seq(|paths|, i requires 0 <= i < |paths| => Origin(|order|, paths[i]));
    all := origins + added;
    forall o: Origin ensures o in all <==> Due(longer, ids, o) {
      DueOneMore(order, ids, event, paths, added, o);
    }
    forall k | 0 <= k < |all| ensures ShownBy((metrics + more)[k], longer, all[k]) {
      assert k < |origins| ==> ShownBy(metrics[k], order, origins[k]);
    }
    forall k, l | 0 <= k < l < |all| ensures all[k] != all[l] {
      assert k < |origins| ==> Due(order, ids, all[k]);
    }
  }

  lemma {:induction false} MetricsForExplained(
      order: seq<ConsumedEvent>, rows: seq<RawRow>, ids: set<string>) returns (origins: seq<Origin>)
    requires |rows| == |order| && forall i :: 0 <= i < |order| ==> rows[i] == RawRowFromEvent(order[i])
    requires forall event :: event in order ==> UniqueFieldKeys(event.envelope.payload)
    ensures Explains(MetricsFor(rows, ids), order, ids, origins)
  {
    if order == [] {
      origins := [];
    } else {
      var n := |order| - 1;
      var event := order[n];
      assert order == order[..n] + [event];
      var before := MetricsForExplained(order[..n], rows[..n], ids);
      var paths := MetricsOfEvent(event.envelope);
      if event.envelope.eventId in ids {
        origins := ExplainsOneMore(MetricsFor(rows[..n], ids), order[..n], ids, before,
            MetricRows(rows[n].record), event, paths);
      } else {
        origins := ExplainsOneMore(MetricsFor(rows[..n], ids), order[..n], ids, before, [], event, []);
      }
    }
  }

  /** The ids of the events that the batch is to insert. */
  ghost function NewIds(t: Tables, epoch: int, events: seq<ConsumedEvent>): set<string> {
    set event | event in events && New(t, epoch, event) :: event.envelope.eventId
  }

  lemma InsertedIdsAreNew(t: Tables, epoch: int, events: seq<ConsumedEvent>)
    ensures EventIds(Inserted(t, epoch, RowsOf(events))) == NewIds(t, epoch, events)
  {
    var inserted := Inserted(t, epoch, RowsOf(events));
    forall id ensures id in EventIds(inserted) <==> id in NewIds(t, epoch, events) {
      if id in EventIds(inserted) {
        var row :| row in inserted && row.record.eventId == id;
        var k :| 0 <= k < |inserted| && inserted[k] == row;
        InsertedRowsAreNew(t, epoch, events, k);
      }
      if id in NewIds(t, epoch, events) {
        var event :| event in events && New(t, epoch, event) && event.envelope.eventId == id;
        var k := NewEventsAreInserted(t, epoch, events, event);
        assert inserted[k] in inserted;
      }
    }
  }

  /**
   * A batch appends a metric row for each scalar of each of its telemetry events whose id is that of a new event, under
   * that event's time, topic and id and the dotted path, with the value in the column for its kind, and no other.
   */
  lemma MetricsOfBatch(
      t: Tables, epoch: int, events: seq<ConsumedEvent>, maxMetricRows: nat) returns (origins: seq<Origin>)
    requires Persist(t, epoch, events, maxMetricRows).1.Ok?
    requires forall event :: event in events ==> UniqueFieldKeys(event.envelope.payload)
    ensures var metrics := Persist(t, epoch, events, maxMetricRows).0.metrics;
            && t.metrics <= metrics
            && Explains(metrics[|t.metrics|..], Sort(EventLe, events), NewIds(t, epoch, events), origins)
  {
    var order := Sort(EventLe, events);
    SortKeepsMembers(EventLe, events);
    origins := MetricsForExplained(order, RowsOf(events), NewIds(t, epoch, events));
    InsertedIdsAreNew(t, epoch, events);
  }

  lemma NewIdsOfDistinct(t: Tables, epoch: int, events: seq<ConsumedEvent>, event: ConsumedEvent)
    requires DistinctEventIds(events) && event in events
    ensures event.envelope.eventId in NewIds(t, epoch, events) <==> New(t, epoch, event)
  {
    if event.envelope.eventId in NewIds(t, epoch, events) {
      var other :| other in events && New(t, epoch, other) && other.envelope.eventId == event.envelope.eventId;
      assert other == event;
    }
  }

  /** The event at the place is new and has a scalar at the path. */
  ghost predicate IsNewScalar(t: Tables, epoch: int, order: seq<ConsumedEvent>, o: Origin) {
    o.place < |order| && New(t, epoch, order[o.place]) && HasScalar(order[o.place].envelope, o.path)
  }

  /** With pairwise distinct ids the rows are those of the new events alone. */
  lemma MetricsOfNewEvents(
      t: Tables, epoch: int, events: seq<ConsumedEvent>, maxMetricRows: nat) returns (origins: seq<Origin>)
    requires Persist(t, epoch, events, maxMetricRows).1.Ok? && DistinctEventIds(events)
    requires forall event :: event in events ==> UniqueFieldKeys(event.envelope.payload)
    ensures var metrics, order := Persist(t, epoch, events, maxMetricRows).0.metrics, Sort(EventLe, events);
            && t.metrics <= metrics && |metrics| == |t.metrics| + |origins| && multiset(order) == multiset(events)
            && (forall k :: 0 <= k < |origins| ==> ShownBy(metrics[|t.metrics| + k], order, origins[k]))
            && (forall o: Origin :: o in origins <==> IsNewScalar(t, epoch, order, o))
            && (forall k, l :: 0 <= k < l < |origins| ==> origins[k] != origins[l])
  {
    origins := MetricsOfBatch(t, epoch, events, maxMetricRows);
    var order, metrics := Sort(EventLe, events), Persist(t, epoch, events, maxMetricRows).0.metrics;
    SortPermutes(EventLe, events);
    SortKeepsMembers(EventLe, events);
    forall o: Origin ensures o in origins <==> IsNewScalar(t, epoch, order, o) {
      assert o in origins <==> Due(order, NewIds(t, epoch, events), o);
      if o.place < |order| {
        NewIdsOfDistinct(t, epoch, events, order[o.place]);
      }
    }
    forall k | 0 <= k < |origins| ensures ShownBy(metrics[|t.metrics| + k], order, origins[k]) {
      assert metrics[|t.metrics|..][k] == metrics[|t.metrics| + k];
    }
  }

  // ----------------------------------------------------------- whether a batch goes in

  predicate AllFloats(leaves: seq<Leaf>) {
    forall leaf :: leaf in leaves && leaf.value.Num? ==> FitsFloat(leaf.value.n)
  }

  /** The scalars of the payload are no more than the budget, and floats hold its numbers. */
  predicate MetricsFit(payload: Object, maxMetricRows: nat) {
    |Leaves(Obj(payload), [])| <= maxMetricRows && AllFloats(Leaves(Obj(payload), []))
  }

  /** Among the scalars up to the first one too many is a number that no float holds. */
  ghost predicate TooLarge(payload: Object, maxMetricRows: nat) {
    var leaves := Leaves(Obj(payload), []);
    exists i :: 0 <= i < |leaves| && i <= maxMetricRows && leaves[i].value.Num? && !FitsFloat(leaves[i].value.n)
  }

  /** The error of expanding a payload: for such a number, or else for a scalar too many. */
  ghost predicate FailsWith(payload: Object, maxMetricRows: nat, error: PersistError) {
    match error
    case FloatOverflow => TooLarge(payload, maxMetricRows)
    case MetricExpansionLimit => |Leaves(Obj(payload), [])| > maxMetricRows && !TooLarge(payload, maxMetricRows)
  }

  /** Rows carry the values of the leaves, so they fit floats alike. */
  lemma RowsFitLikeLeaves(record: StoredRow)
    requires record.eventKind.Telemetry?
    ensures var rows, leaves := MetricRows(record), Leaves(Obj(record.payload), []);
            && |rows| == |leaves|
            && forall i :: 0 <= i < |rows| ==>
                 (HeldByFloat(rows[i].valueDouble) <==> (leaves[i].value.Num? ==> FitsFloat(leaves[i].value.n)))
  {
    IterRootDescribes(record.payload);
  }

  lemma PulledHoldIff(record: StoredRow, maxMetricRows: nat)
    requires record.eventKind.Telemetry?
    ensures var rows := MetricRows(record);
            HoldFloats(if |rows| > maxMetricRows then rows[..maxMetricRows + 1] else rows)
            <==> !TooLarge(record.payload, maxMetricRows)
  {
    var rows, leaves := MetricRows(record), Leaves(Obj(record.payload), []);
    var pulled := if |rows| > maxMetricRows then rows[..maxMetricRows + 1] else rows;
    RowsFitLikeLeaves(record);
    if i :| 0 <= i < |pulled| && !HeldByFloat(pulled[i].valueDouble) {
      assert pulled[i] == rows[i] && pulled[i] in pulled && !FitsFloat(leaves[i].value.n);
    }
    if i :| 0 <= i < |leaves| && i <= maxMetricRows && leaves[i].value.Num? && !FitsFloat(leaves[i].value.n) {
      assert pulled[i] == rows[i] && pulled[i] in pulled;
    }
  }

  lemma ExpansionFitsIff(record: StoredRow, maxMetricRows: nat)
    requires record.eventKind.Telemetry?
    ensures Expansion(record, maxMetricRows).Ok? <==> MetricsFit(record.payload, maxMetricRows)
    ensures forall error ::
              Expansion(record, maxMetricRows) == Err(error) <==> FailsWith(record.payload, maxMetricRows, error)
  {
    RowsFitLikeLeaves(record);
    PulledHoldIff(record, maxMetricRows);
    var leaves := Leaves(Obj(record.payload), []);
    if |leaves| <= maxMetricRows && !TooLarge(record.payload, maxMetricRows) {
      forall leaf | leaf in leaves && leaf.value.Num? ensures FitsFloat(leaf.value.n) {
        var i :| 0 <= i < |leaves| && leaves[i] == leaf;
      }
    }
  }

  /** A batch goes in if and only if the metrics of each of its telemetry events fit; else no table changes. */
  lemma PersistsIff(t: Tables, epoch: int, events: seq<ConsumedEvent>, maxMetricRows: nat)
    ensures var (after, result) := Persist(t, epoch, events, maxMetricRows);
            && (result.Ok? <==> forall event :: event in events && event.envelope.eventKind.Telemetry? ==>
                                                  MetricsFit(event.envelope.payload, maxMetricRows))
            && (result.Err? ==> after == t)
  {
    var rows := RowsOf(events);
    RowsOfMembers(events);
    forall event | event in events
      ensures RawRowFromEvent(event) in rows
      ensures Expansion(RecordOf(event.envelope), maxMetricRows).Ok?
              <==> (event.envelope.eventKind.Telemetry? ==> MetricsFit(event.envelope.payload, maxMetricRows))
    {
      if event.envelope.eventKind.Telemetry? {
        ExpansionFitsIff(RecordOf(event.envelope), maxMetricRows);
      }
    }
  }

  lemma ExpandableFront(rows: seq<RawRow>, maxMetricRows: nat, k: nat)
    requires k <= |rows| && forall i :: 0 <= i < k ==> Expansion(rows[i].record, maxMetricRows).Ok?
    ensures ExpansionError(rows[..k], maxMetricRows) == None
  {
    forall row | row in rows[..k] ensures Expansion(row.record, maxMetricRows).Ok? {
      var i :| 0 <= i < k && rows[..k][i] == row;
      assert row == rows[i];
    }
    assert Expandable(rows[..k], maxMetricRows);
  }

  lemma {:induction false} FirstErrorRaises(rows: seq<RawRow>, maxMetricRows: nat, k: nat, error: PersistError)
    requires k < |rows| && Expansion(rows[k].record, maxMetricRows) == Err(error)
    requires ExpansionError(rows[..k], maxMetricRows) == None
    ensures ExpansionError(rows, maxMetricRows) == Some(error)
  {
    var front := rows[..|rows| - 1];
    if k < |front| {
      assert front[..k] == rows[..k];
      FirstErrorRaises(front, maxMetricRows, k, error);
    }
  }

  /** The first event in Kafka's order whose metrics do not fit decides the error. */
  lemma FirstMisfitRaises(t: Tables, epoch: int, events: seq<ConsumedEvent>, maxMetricRows: nat, k: nat)
    requires var order := Sort(EventLe, events);
             && k < |order| && order[k].envelope.eventKind.Telemetry?
             && !MetricsFit(order[k].envelope.payload, maxMetricRows)
             && forall i :: 0 <= i < k && order[i].envelope.eventKind.Telemetry? ==>
                              MetricsFit(order[i].envelope.payload, maxMetricRows)
    ensures var result := Persist(t, epoch, events, maxMetricRows).1;
            && result.Err?
            && FailsWith(Sort(EventLe, events)[k].envelope.payload, maxMetricRows, result.error)
  {
    var order, rows := Sort(EventLe, events), RowsOf(events);
    forall i | 0 <= i <= k ensures Expansion(rows[i].record, maxMetricRows).Ok? <==> i < k {
      if order[i].envelope.eventKind.Telemetry? {
        ExpansionFitsIff(RecordOf(order[i].envelope), maxMetricRows);
      }
    }
    ExpansionFitsIff(RecordOf(order[k].envelope), maxMetricRows);
    ExpandableFront(rows, maxMetricRows, k);
    FirstErrorRaises(rows, maxMetricRows, k, Expansion(rows[k].record, maxMetricRows).error);
  }

  // ------------------------------------------------------------------ what is reported

  /** What the table has under the event's identity is not the event's content. */
  ghost predicate Contradicts(t: Tables, epoch: int, event: ConsumedEvent) {
    && event.offset >= Checkpoint(t, epoch, event.key) && Known(t, event.envelope)
    && Lookup(t.raw, event.envelope.time, event.envelope.eventId) != Some(HashedContent(event.envelope))
  }

  /** The event is stored already, as it is. */
  ghost predicate Repeats(t: Tables, epoch: int, event: ConsumedEvent) {
    && event.offset >= Checkpoint(t, epoch, event.key)
    && Lookup(t.raw, event.envelope.time, event.envelope.eventId) == Some(HashedContent(event.envelope))
  }

  // The four kinds of events of a batch, as tests.

  ghost function IsStale(t: Tables, epoch: int): ConsumedEvent -> bool {
    (event: ConsumedEvent) => event.offset < Checkpoint(t, epoch, event.key)
  }

  ghost function IsContradiction(t: Tables, epoch: int): ConsumedEvent -> bool {
    (event: ConsumedEvent) => Contradicts(t, epoch, event)
  }

  ghost function IsRepetition(t: Tables, epoch: int): ConsumedEvent -> bool {
    (event: ConsumedEvent) => Repeats(t, epoch, event)
  }

  ghost function IsNew(t: Tables, epoch: int): ConsumedEvent -> bool {
    (event: ConsumedEvent) => New(t, epoch, event)
  }

  /** How many events of the batch a test holds for. */
  ghost function Among(p: ConsumedEvent -> bool, events: seq<ConsumedEvent>): nat {
    Count(p, Sort(EventLe, events))
  }

  lemma ClassOf(t: Tables, epoch: int, event: ConsumedEvent)
    ensures var class_ := Classify(t, epoch, RawRowFromEvent(event));
            && (class_ == Stale <==> event.offset < Checkpoint(t, epoch, event.key))
            && (class_ == Duplicate <==> Repeats(t, epoch, event))
            && (class_ == Conflict <==> Contradicts(t, epoch, event))
            && (class_ == Fresh <==> New(t, epoch, event))
  {
    KnownIsStored(t, event.envelope);
  }

  lemma {:induction false} SelectedCount(
      t: Tables, epoch: int, order: seq<ConsumedEvent>, rows: seq<RawRow>, class_: Class, p: ConsumedEvent -> bool)
    requires |rows| == |order| && forall i :: 0 <= i < |order| ==> rows[i] == RawRowFromEvent(order[i])
    requires forall event :: p(event) <==> Classify(t, epoch, RawRowFromEvent(event)) == class_
    ensures |Select(t, epoch, rows, class_)| == Count(p, order)
  {
    if order != [] {
      var n := |order| - 1;
      SelectedCount(t, epoch, order[..n], rows[..n], class_, p);
    }
  }

  /** A reported conflict is one of the batch: what is stored, and the content that contradicts it. */
  lemma {:induction false} ConflictsAreContradictions(
      t: Tables, epoch: int, order: seq<ConsumedEvent>, rows: seq<RawRow>, i: nat)
    requires |rows| == |order| && forall k :: 0 <= k < |order| ==> rows[k] == RawRowFromEvent(order[k])
    requires i < |Conflicts(t, epoch, rows)|
    ensures exists event ::
              && event in order && Contradicts(t, epoch, event)
              && var c := Conflicts(t, epoch, rows)[i];
                 && c.eventId == event.envelope.eventId && c.incoming == HashedContent(event.envelope)
                 && Lookup(t.raw, event.envelope.time, event.envelope.eventId) == Some(c.existing)
  {
    var n := |order| - 1;
    ClassOf(t, epoch, order[n]);
    assert order == order[..n] + [order[n]];
    if i < |Conflicts(t, epoch, rows[..n])| {
      ConflictsAreContradictions(t, epoch, order[..n], rows[..n], i);
    } else {
      assert order[n] in order;
    }
  }

  /**
   * The counts of a batch: events below their checkpoint, events that contradict what is stored, ids of new events, and
   * as duplicates the events stored already and the new events that lost to another of the batch.
   */
  lemma CountsOfBatch(t: Tables, epoch: int, events: seq<ConsumedEvent>, maxMetricRows: nat)
    requires Persist(t, epoch, events, maxMetricRows).1.Ok?
    ensures var (after, result) := Persist(t, epoch, events, maxMetricRows);
            && result.value.stale == Among(IsStale(t, epoch), events)
            && |result.value.quarantined| == Among(IsContradiction(t, epoch), events)
            && result.value.inserted == |NewIds(t, epoch, events)|
            && result.value.duplicates
               == Among(IsRepetition(t, epoch), events)
                  + Among(IsNew(t, epoch), events) - (|after.raw| - |t.raw|)
  {
    var order, rows := Sort(EventLe, events), RowsOf(events);
    forall event ensures
        var class_ := Classify(t, epoch, RawRowFromEvent(event));
        && (class_ == Stale <==> event.offset < Checkpoint(t, epoch, event.key))
        && (class_ == Duplicate <==> Repeats(t, epoch, event))
        && (class_ == Conflict <==> Contradicts(t, epoch, event))
        && (class_ == Fresh <==> New(t, epoch, event))
    {
      ClassOf(t, epoch, event);
    }
    SelectedCount(t, epoch, order, rows, Stale, IsStale(t, epoch));
    SelectedCount(t, epoch, order, rows, Duplicate, IsRepetition(t, epoch));
    SelectedCount(t, epoch, order, rows, Conflict, IsContradiction(t, epoch));
    SelectedCount(t, epoch, order, rows, Fresh, IsNew(t, epoch));
    ClassesPartition(t, epoch, rows);
    InsertedIdsAreNew(t, epoch, events);
    InsertableFromRows(t.raw, Select(t, epoch, rows, Fresh));
    if events == [] {
      assert NewIds(t, epoch, events) == {};
    }
  }

  lemma OffsetsOfOthers(cs: seq<Coordinate>, key: PartitionKey)
    ensures key !in Keys(cs) ==> Offsets(cs, key) == {}
  {
  }

  /** The offsets reported are the checkpoints that moved, where they are now. */
  lemma OffsetsOfBatch(t: Tables, epoch: int, events: seq<ConsumedEvent>, maxMetricRows: nat, key: PartitionKey)
    requires Persist(t, epoch, events, maxMetricRows).1.Ok?
    ensures var (after, result) := Persist(t, epoch, events, maxMetricRows);
            && (key in result.value.nextOffsets <==> Checkpoint(t, epoch, key) < Checkpoint(after, epoch, key))
            && (key in result.value.nextOffsets ==>
                  result.value.nextOffsets[key] == Checkpoint(after, epoch, key))
  {
    var rows := RowsOf(events);
    if events != [] {
      CheckpointAfter(t, epoch, rows, epoch, key);
      OffsetsOfOthers(Coordinates(rows), key);
    }
  }

  /** From one checkpoint to the next each offset is among those, and the next is not. */
  ghost predicate Reaches(from: nat, to: nat, offsets: set<nat>) {
    from <= to && to !in offsets && forall offset :: from <= offset < to ==> offset in offsets
  }

  ghost function OffsetsIn(events: seq<ConsumedEvent>, key: PartitionKey): set<nat> {
    set event | event in events && event.key == key :: event.offset
  }

  lemma OffsetsOfRows(events: seq<ConsumedEvent>, key: PartitionKey)
    ensures Offsets(Coordinates(RowsOf(events)), key) == OffsetsIn(events, key)
  {
    var rows := RowsOf(events);
    var cs := Coordinates(rows);
    RowsOfMembers(events);
    forall offset | offset in OffsetsIn(events, key) ensures offset in Offsets(cs, key) {
      var event :| event in events && event.key == key && event.offset == offset;
      assert RawRowFromEvent(event) in rows;
      var i :| 0 <= i < |rows| && rows[i] == RawRowFromEvent(event);
      assert cs[i] in cs;
    }
    forall offset | offset in Offsets(cs, key) ensures offset in OffsetsIn(events, key) {
      var i :| 0 <= i < |cs| && cs[i] == Coordinate(key, offset);
      assert rows[i] in rows;
    }
  }

  /** Checkpoints of the epoch move over the offsets of the batch that follow them without a gap; others stay. */
  lemma CheckpointsOfBatch(
      t: Tables, epoch: int, events: seq<ConsumedEvent>, maxMetricRows: nat, epoch': int, key: PartitionKey)
    requires Persist(t, epoch, events, maxMetricRows).1.Ok?
    ensures var after := Persist(t, epoch, events, maxMetricRows).0;
            if epoch' != epoch then Checkpoint(after, epoch', key) == Checkpoint(t, epoch', key)
            else Reaches(Checkpoint(t, epoch, key), Checkpoint(after, epoch, key), OffsetsIn(events, key))
  {
    if events != [] {
      CheckpointAfter(t, epoch, RowsOf(events), epoch', key);
      OffsetsOfRows(events, key);
      NextOffsetContiguous(Checkpoint(t, epoch, key), OffsetsIn(events, key));
    }
  }

  /** So do they over ignored records, and nothing else changes. */
  lemma CheckpointsOfIgnored(t: Tables, epoch: int, records: seq<Coordinate>, epoch': int, key: PartitionKey)
    ensures var (after, moved) := CheckpointIgnored(t, epoch, records);
            && after == t.(checkpoints := after.checkpoints)
            && (key in moved <==> Checkpoint(t, epoch, key) < Checkpoint(after, epoch, key))
            && (key in moved ==> moved[key] == Checkpoint(after, epoch, key))
            && (if epoch' != epoch then Checkpoint(after, epoch', key) == Checkpoint(t, epoch', key)
                else Reaches(Checkpoint(t, epoch, key), Checkpoint(after, epoch, key),
                    set at | at in records && at.key == key :: at.offset))
  {
    NextOffsetContiguous(Checkpoint(t, epoch, key), Offsets(records, key));
    if key !in Keys(records) {
      OffsetsOfOthers(records, key);
      assert Offsets(records, key) == {};
    }
  }

  /** As many ignored records are stale as lie below their checkpoint. */
  lemma {:induction false} StaleCountIs(m: map<PartitionKey, nat>, records: seq<Coordinate>)
    ensures StaleCount(m, records)
            == Count((at: Coordinate) => at.key in m && at.offset < m[at.key], records)
  {
    if records != [] {
      StaleCountIs(m, records[..|records| - 1]);
    }
  }

  // ------------------------------------------------------------------ late telemetry

  /** Late telemetry is telemetry marked historical, and its day is the one its time lies in. */
  lemma LateRowIff(row: StoredRow, e: Envelope, day: int)
    requires IsRowOf(row, e)
    ensures IsLate(row) && UtcDay(row.time) == day
            <==> && e.eventKind.Telemetry? && e.isHistorical
                 && day * 86400000000 <= e.time < (day + 1) * 86400000000
  {
  }
}
