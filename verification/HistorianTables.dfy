/** The historian's tables and what one projected batch does to them, as values. */
module HistorianTables {
  import opened Wrappers
  import opened Splitting
  import opened MetricFlattener
  import opened Events
  import opened Sorting
  import opened ContiguousOffsets

  datatype PartitionKey = PartitionKey(kafkaTopic: string, partition: int)

  /** Where a Kafka record sits. A record outside the projection is known by this alone. */
  datatype Coordinate = Coordinate(key: PartitionKey, offset: nat)

  datatype ConsumedEvent = ConsumedEvent(key: PartitionKey, offset: nat, envelope: Envelope, byteSize: nat)

  /** A row of the raw table. */
  datatype StoredRow = StoredRow(
    time: int, topic: string, clientId: Option<string>, payload: Object, eventId: string,
    identityQuality: Quality, receivedAt: int, eventKind: EventKind, isHistorical: bool, siteId: string,
    sourceId: string, sourceBootId: Option<string>, sourceSequence: Option<int>, timestampQuality: Quality,
    contentHash: Envelope)

  /** A row to insert, with the Kafka coordinates it came from. */
  datatype RawRow = RawRow(record: StoredRow, key: PartitionKey, offset: nat)

  datatype MetricRow = MetricRow(time: int, topic: string, name: string, valueDouble: Option<real>,
      valueText: Option<string>, eventId: string)

  datatype WorkItem = WorkItem(pending: nat, processed: nat)

  /** The tables. Raw and metric rows are listed in the order of their insertion, checkpoints by pipeline epoch. */
  datatype Tables = Tables(
    raw: seq<StoredRow>,
    metrics: seq<MetricRow>,
    checkpoints: map<int, map<PartitionKey, nat>>,
    worklist: map<int, WorkItem>)

  datatype ContentConflict = ContentConflict(eventId: string, existing: Envelope, incoming: Envelope)

  datatype BatchResult = BatchResult(
    inserted: nat, duplicates: nat, stale: nat, quarantined: seq<ContentConflict>, nextOffsets: map<PartitionKey, nat>)

  /** Raised before any table is touched: too many metrics, or an integer too large for a float. */
  datatype PersistError = MetricExpansionLimit | FloatOverflow

  function RecordOf(e: Envelope): StoredRow {
    StoredRow(e.time, e.topic, None, e.payload, e.eventId, e.identityQuality, e.receivedAt, e.eventKind, e.isHistorical,
              e.siteId, e.sourceId, e.sourceBootId, e.sourceSequence, e.timestampQuality, HashedContent(e))
  }

  function RawRowFromEvent(event: ConsumedEvent): RawRow {
    RawRow(RecordOf(event.envelope), event.key, event.offset)
  }

  // ------------------------------------------------------------- Kafka coordinates

  /** Code point order of strings. */
  predicate StringLe(a: string, b: string) {
    a == "" || (b != "" && (a[0] < b[0] || (a[0] == b[0] && StringLe(a[1..], b[1..]))))
  }

  /** Texts in order: a prefix of the other, or smaller where they first differ. */
  ghost predicate TextInOrder(a: string, b: string) {
    a <= b || exists k :: 0 <= k < |a| && k < |b| && a[..k] == b[..k] && a[k] < b[k]
  }

  lemma {:induction false} StringLeIff(a: string, b: string)
    ensures StringLe(a, b) <==> TextInOrder(a, b)
  {
    if a != "" && b != "" && a[0] == b[0] {
      StringLeIff(a[1..], b[1..]);
      if StringLe(a[1..], b[1..]) && !(a[1..] <= b[1..]) {
        var k :| 0 <= k < |a[1..]| && k < |b[1..]| && a[1..][..k] == b[1..][..k] && a[1..][k] < b[1..][k];
        assert a[..k + 1] == [a[0]] + a[1..][..k] && b[..k + 1] == [b[0]] + b[1..][..k];
        assert a[k + 1] < b[k + 1];
      }
      if !(a <= b) && TextInOrder(a, b) {
        var k :| 0 <= k < |a| && k < |b| && a[..k] == b[..k] && a[k] < b[k];
        assert a[1..][..k - 1] == a[..k][1..] && b[1..][..k - 1] == b[..k][1..];
        assert a[1..][k - 1] < b[1..][k - 1];
      }
    } else if a != "" && b != "" && a[0] < b[0] {
      assert a[..0] == b[..0];
    }
  }

  lemma {:induction false} StringLeTotal(a: string, b: string)
    ensures StringLe(a, b) || StringLe(b, a)
  {
    if a != "" && b != "" { StringLeTotal(a[1..], b[1..]); }
  }

  lemma {:induction false} StringLeTransitive(a: string, b: string, c: string)
    requires StringLe(a, b) && StringLe(b, c)
    ensures StringLe(a, c)
  {
    if a != "" && a[0] == b[0] == c[0] { StringLeTransitive(a[1..], b[1..], c[1..]); }
  }

  lemma {:induction false} StringLeAntisymmetric(a: string, b: string)
    requires StringLe(a, b) && StringLe(b, a)
    ensures a == b
  {
    if a != "" {
      StringLeAntisymmetric(a[1..], b[1..]);
      assert a == [a[0]] + a[1..] && b == [b[0]] + b[1..];
    }
  }

  predicate KeyLe(a: PartitionKey, b: PartitionKey) {
    if a.kafkaTopic == b.kafkaTopic then a.partition <= b.partition else StringLe(a.kafkaTopic, b.kafkaTopic)
  }

  ghost predicate InOrder(a: PartitionKey, b: PartitionKey) {
    if a.kafkaTopic == b.kafkaTopic then a.partition <= b.partition else TextInOrder(a.kafkaTopic, b.kafkaTopic)
  }

  lemma KeyLeIff(a: PartitionKey, b: PartitionKey)
    ensures KeyLe(a, b) <==> InOrder(a, b)
  {
    StringLeIff(a.kafkaTopic, b.kafkaTopic);
  }

  predicate EventLe(a: ConsumedEvent, b: ConsumedEvent) {
    if a.key == b.key then a.offset <= b.offset else KeyLe(a.key, b.key)
  }

  lemma KeyLeTransitive(a: PartitionKey, b: PartitionKey, c: PartitionKey)
    requires KeyLe(a, b) && KeyLe(b, c)
    ensures KeyLe(a, c)
  {
    if StringLe(a.kafkaTopic, b.kafkaTopic) && StringLe(b.kafkaTopic, c.kafkaTopic) {
      StringLeTransitive(a.kafkaTopic, b.kafkaTopic, c.kafkaTopic);
      if a.kafkaTopic == c.kafkaTopic { StringLeAntisymmetric(a.kafkaTopic, b.kafkaTopic); }
    }
  }

  lemma KeyLeIsTotalOrder()
    ensures TotalOrder(KeyLe)
  {
    forall a, b ensures KeyLe(a, b) || KeyLe(b, a) { StringLeTotal(a.kafkaTopic, b.kafkaTopic); }
    forall a, b, c | KeyLe(a, b) && KeyLe(b, c) ensures KeyLe(a, c) {
      KeyLeTransitive(a, b, c);
    }
  }

  lemma KeyLeAntisymmetric(a: PartitionKey, b: PartitionKey)
    requires KeyLe(a, b) && KeyLe(b, a)
    ensures a == b
  {
    if a.kafkaTopic != b.kafkaTopic { StringLeAntisymmetric(a.kafkaTopic, b.kafkaTopic); }
  }

  lemma EventLeIsTotalOrder()
    ensures TotalOrder(EventLe)
  {
    KeyLeIsTotalOrder();
    forall a, b ensures EventLe(a, b) || EventLe(b, a) { assert KeyLe(a.key, b.key) || KeyLe(b.key, a.key); }
    forall a, b, c | EventLe(a, b) && EventLe(b, c) ensures EventLe(a, c) {
      if a.key != b.key && b.key != c.key {
        KeyLeTransitive(a.key, b.key, c.key);
        if a.key == c.key { KeyLeAntisymmetric(a.key, b.key); }
      }
    }
  }

  /** The rows of a batch, in Kafka order. */
  function RowsOf(events: seq<ConsumedEvent>): (rows: seq<RawRow>)
    ensures |rows| == |Sort(EventLe, events)|
  {
    var sorted := Sort(EventLe, events);
    seq(|sorted|, i requires 0 <= i < |sorted| => RawRowFromEvent(sorted[i]))
  }

  lemma RowsOfMembers(events: seq<ConsumedEvent>)
    ensures forall row :: row in RowsOf(events) <==> exists event :: event in events && row == RawRowFromEvent(event)
    ensures |RowsOf(events)| == |events|
  {
    var sorted := Sort(EventLe, events);
    SortKeepsMembers(EventLe, events);
    forall row
      ensures row in RowsOf(events) <==> exists event :: event in events && row == RawRowFromEvent(event)
    {
      if event :| event in events && row == RawRowFromEvent(event) {
        assert event in sorted;
        var i :| 0 <= i < |sorted| && sorted[i] == event;
        assert RowsOf(events)[i] == row;
      }
      if row in RowsOf(events) {
        var i :| 0 <= i < |sorted| && RowsOf(events)[i] == row;
        assert sorted[i] in sorted;
      }
    }
  }

  /** Partition by partition, and by ascending offsets within each. */
  lemma RowsInKafkaOrder(events: seq<ConsumedEvent>)
    ensures var rows := RowsOf(events);
            forall i, j :: 0 <= i < j < |rows| ==>
                if rows[i].key == rows[j].key then rows[i].offset <= rows[j].offset
                else InOrder(rows[i].key, rows[j].key)
  {
    var sorted, rows := Sort(EventLe, events), RowsOf(events);
    EventLeIsTotalOrder();
    SortOrders(EventLe, events);
    forall i, j | 0 <= i < j < |rows|
      ensures if rows[i].key == rows[j].key then rows[i].offset <= rows[j].offset
              else InOrder(rows[i].key, rows[j].key)
    {
      assert EventLe(sorted[i], sorted[j]);
      KeyLeIff(rows[i].key, rows[j].key);
    }
  }

  function Coordinates(rows: seq<RawRow>): (cs: seq<Coordinate>)
    ensures |cs| == |rows|
  {
    seq(|rows|, i requires 0 <= i < |rows| => Coordinate(rows[i].key, rows[i].offset))
  }

  function Keys(cs: seq<Coordinate>): set<PartitionKey> {
    set c | c in cs :: c.key
  }

  function Offsets(cs: seq<Coordinate>, key: PartitionKey): set<nat> {
    set c | c in cs && c.key == key :: c.offset
  }

  lemma CoordinatesOfRows(rows: seq<RawRow>)
    ensures forall c :: c in Coordinates(rows) <==> exists row :: row in rows && c == Coordinate(row.key, row.offset)
  {
    forall c
      ensures c in Coordinates(rows) <==> exists row :: row in rows && c == Coordinate(row.key, row.offset)
    {
      if row :| row in rows && c == Coordinate(row.key, row.offset) {
        var i :| 0 <= i < |rows| && rows[i] == row;
        assert Coordinates(rows)[i] == c;
      }
      if c in Coordinates(rows) {
        var i :| 0 <= i < |rows| && Coordinates(rows)[i] == c;
        assert rows[i] in rows;
      }
    }
  }

  // ---------------------------------------------------------------- raw rows

  predicate HasIdentity(record: StoredRow, time: int, eventId: string) {
    record.time == time && record.eventId == eventId
  }

  /** The content hash under the raw table's unique key `(time, event_id)`. */
  function Lookup(raw: seq<StoredRow>, time: int, eventId: string): Option<Envelope> {
    if raw == [] then None
    else if HasIdentity(raw[0], time, eventId) then Some(raw[0].contentHash)
    else Lookup(raw[1..], time, eventId)
  }

  predicate Stored(raw: seq<StoredRow>, record: StoredRow) {
    Lookup(raw, record.time, record.eventId).Some?
  }

  ghost predicate UniqueIdentities(raw: seq<StoredRow>) {
    forall i, j :: 0 <= i < j < |raw| ==> !HasIdentity(raw[i], raw[j].time, raw[j].eventId)
  }

  lemma {:induction false} LookupConcat(raw: seq<StoredRow>, more: seq<StoredRow>, time: int, eventId: string)
    ensures Lookup(raw + more, time, eventId)
            == if Lookup(raw, time, eventId).Some? then Lookup(raw, time, eventId) else Lookup(more, time, eventId)
  {
    if raw == [] {
      assert raw + more == more;
    } else {
      LookupConcat(raw[1..], more, time, eventId);
      assert (raw + more)[1..] == raw[1..] + more;
    }
  }

  lemma {:induction false} LookupFinds(raw: seq<StoredRow>, time: int, eventId: string)
    ensures Lookup(raw, time, eventId).Some? <==> exists i :: 0 <= i < |raw| && HasIdentity(raw[i], time, eventId)
  {
    if raw != [] && !HasIdentity(raw[0], time, eventId) {
      LookupFinds(raw[1..], time, eventId);
      if i :| 0 <= i < |raw| && HasIdentity(raw[i], time, eventId) {
        assert raw[1..][i - 1] == raw[i];
      }
    }
  }

  function Records(rows: seq<RawRow>): seq<StoredRow> {
    seq(|rows|, i requires 0 <= i < |rows| => rows[i].record)
  }

  lemma RecordsSnoc(rows: seq<RawRow>, row: RawRow)
    ensures Records(rows + [row]) == Records(rows) + [row.record]
  {
  }

  // --------------------------------------------------------- classifying a batch

  datatype Class = Stale | Duplicate | Conflict | Fresh

  /** The checkpoint rows of one pipeline epoch. */
  function OfEpoch(checkpoints: map<int, map<PartitionKey, nat>>, epoch: int): map<PartitionKey, nat> {
    if epoch in checkpoints then checkpoints[epoch] else map[]
  }

  /** A partition without a checkpoint row is at offset zero. */
  function Read(m: map<PartitionKey, nat>, key: PartitionKey): nat {
    if key in m then m[key] else 0
  }

  function Checkpoint(t: Tables, epoch: int, key: PartitionKey): nat {
    Read(OfEpoch(t.checkpoints, epoch), key)
  }

  function Classify(t: Tables, epoch: int, row: RawRow): Class {
    if row.offset < Checkpoint(t, epoch, row.key) then Stale
    else
      match Lookup(t.raw, row.record.time, row.record.eventId)
      case None => Fresh
      case Some(existing) => if existing == row.record.contentHash then Duplicate else Conflict
  }

  function Select(t: Tables, epoch: int, rows: seq<RawRow>, class_: Class): seq<RawRow> {
    if rows == [] then []
    else
      var last := rows[|rows| - 1];
      Select(t, epoch, rows[..|rows| - 1], class_) + if Classify(t, epoch, last) == class_ then [last] else []
  }

  function Conflicts(t: Tables, epoch: int, rows: seq<RawRow>): seq<ContentConflict> {
    if rows == [] then []
    else
      var last := rows[|rows| - 1];
      Conflicts(t, epoch, rows[..|rows| - 1]) +
      if Classify(t, epoch, last) == Conflict then
        [ContentConflict(last.record.eventId, Lookup(t.raw, last.record.time, last.record.eventId).value,
            last.record.contentHash)]
      else []
  }

  /** `INSERT ... ON CONFLICT DO NOTHING RETURNING`: the rows that do go in, one after the other. */
  function Insertable(raw: seq<StoredRow>, rows: seq<RawRow>): seq<RawRow> {
    if rows == [] then []
    else
      var before := Insertable(raw, rows[..|rows| - 1]);
      var last := rows[|rows| - 1];
      if Stored(raw + Records(before), last.record) then before else before + [last]
  }

  function Inserted(t: Tables, epoch: int, rows: seq<RawRow>): seq<RawRow> {
    Insertable(t.raw, Select(t, epoch, rows, Fresh))
  }

  function EventIds(rows: seq<RawRow>): set<string> {
    set row | row in rows :: row.record.eventId
  }

  // ------------------------------------------------------------------- metrics

  function MetricRowOf(record: StoredRow, metric: Metric): MetricRow {
    MetricRow(record.time, record.topic, metric.name, metric.valueDouble, metric.valueText, record.eventId)
  }

  /** The metric rows of one raw row; only telemetry has any. */
  function MetricRows(record: StoredRow): seq<MetricRow> {
    if !record.eventKind.Telemetry? then []
    else
      var metrics := IterMetrics(record.payload);
      seq(|metrics|, i requires 0 <= i < |metrics| => MetricRowOf(record, metrics[i]))
  }

  /** The metric rows of every raw row of a table, in its order. */
  function MetricsOf(raw: seq<StoredRow>): seq<MetricRow> {
    FlatMap(MetricRows, raw)
  }

  /** What a batch adds to the metrics table: the rows of every event whose id was inserted. */
  function MetricsFor(rows: seq<RawRow>, ids: set<string>): seq<MetricRow> {
    if rows == [] then []
    else
      var last := rows[|rows| - 1].record;
      MetricsFor(rows[..|rows| - 1], ids) + if last.eventId in ids then MetricRows(last) else []
  }

  predicate HoldFloats(metrics: seq<MetricRow>) {
    forall metric :: metric in metrics ==> HeldByFloat(metric.valueDouble)
  }

  /** Expanding a row. One metric more than the budget is looked at, and each one looked at must fit a float. */
  function Expansion(record: StoredRow, maxMetricRows: nat): Result<seq<MetricRow>, PersistError> {
    var metrics := MetricRows(record);
    if !HoldFloats(if |metrics| > maxMetricRows then metrics[..maxMetricRows + 1] else metrics) then Err(FloatOverflow)
    else if |metrics| > maxMetricRows then Err(MetricExpansionLimit)
    else Ok(metrics)
  }

  predicate Expandable(rows: seq<RawRow>, maxMetricRows: nat) {
    forall row :: row in rows ==> Expansion(row.record, maxMetricRows).Ok?
  }

  /** What expanding the rows in turn raises, if anything. */
  function ExpansionError(rows: seq<RawRow>, maxMetricRows: nat): (error: Option<PersistError>)
    ensures error.None? <==> Expandable(rows, maxMetricRows)
  {
    if rows == [] then None
    else
      var before, last := rows[..|rows| - 1], Expansion(rows[|rows| - 1].record, maxMetricRows);
      assert rows == before + [rows[|rows| - 1]];
      var error := ExpansionError(before, maxMetricRows);
      if error.Some? then error else if last.Err? then Some(last.error) else None
  }

  // ----------------------------------------------------- checkpoints and worklist

  const MICROS_PER_DAY := 86400000000

  function UtcDay(time: int): int {
    time / MICROS_PER_DAY
  }

  predicate IsLate(record: StoredRow) {
    record.eventKind.Telemetry? && record.isHistorical
  }

  function BumpDay(worklist: map<int, WorkItem>, day: int): map<int, WorkItem> {
    worklist[day := if day in worklist then worklist[day].(pending := worklist[day].pending + 1) else WorkItem(1, 0)]
  }

  function BumpLate(worklist: map<int, WorkItem>, rows: seq<RawRow>): map<int, WorkItem> {
    if rows == [] then worklist
    else
      var before := BumpLate(worklist, rows[..|rows| - 1]);
      var last := rows[|rows| - 1].record;
      if IsLate(last) then BumpDay(before, UtcDay(last.time)) else before
  }

  /** Every partition of the batch gets a checkpoint row, at zero unless it has one. */
  function Ensured(m: map<PartitionKey, nat>, keys: set<PartitionKey>): map<PartitionKey, nat> {
    map key | key in m.Keys + keys :: Read(m, key)
  }

  /** Each checkpoint advances over the handled offsets contiguous from it. */
  function AdvancedBy(m: map<PartitionKey, nat>, cs: seq<Coordinate>): map<PartitionKey, nat> {
    map key | key in m.Keys + Keys(cs) :: NextOffset(Read(m, key), Offsets(cs, key))
  }

  /** The partitions whose checkpoint moves, with where it moves to. */
  function MovedBy(m: map<PartitionKey, nat>, cs: seq<Coordinate>): map<PartitionKey, nat> {
    map key | key in Keys(cs) && NextOffset(Read(m, key), Offsets(cs, key)) > Read(m, key) ::
      NextOffset(Read(m, key), Offsets(cs, key))
  }

  // --------------------------------------------------------------- the projection

  function Projected(t: Tables, epoch: int, rows: seq<RawRow>): Tables {
    var inserted := Inserted(t, epoch, rows);
    Tables(t.raw + Records(inserted),
           t.metrics + MetricsFor(rows, EventIds(inserted)),
           t.checkpoints[epoch := AdvancedBy(OfEpoch(t.checkpoints, epoch), Coordinates(rows))],
           BumpLate(t.worklist, inserted))
  }

  lemma {:induction false} NoIdsNoMetrics(rows: seq<RawRow>)
    ensures MetricsFor(rows, {}) == []
  {
    if rows != [] { NoIdsNoMetrics(rows[..|rows| - 1]); }
  }

  lemma {:induction false} SelectSound(t: Tables, epoch: int, rows: seq<RawRow>, class_: Class)
    ensures forall row :: row in Select(t, epoch, rows, class_) <==> row in rows && Classify(t, epoch, row) == class_
  {
    if rows != [] {
      SelectSound(t, epoch, rows[..|rows| - 1], class_);
      assert rows == rows[..|rows| - 1] + [rows[|rows| - 1]];
    }
  }

  lemma {:induction false} InsertableFromRows(raw: seq<StoredRow>, rows: seq<RawRow>)
    ensures forall row :: row in Insertable(raw, rows) ==> row in rows
    ensures |Insertable(raw, rows)| <= |rows|
  {
    if rows != [] {
      InsertableFromRows(raw, rows[..|rows| - 1]);
    }
  }

  function Summary(t: Tables, epoch: int, rows: seq<RawRow>): BatchResult {
    var accepted, inserted := Select(t, epoch, rows, Fresh), Inserted(t, epoch, rows);
    InsertableFromRows(t.raw, accepted);
    BatchResult(|EventIds(inserted)|,
                |Select(t, epoch, rows, Duplicate)| + |accepted| - |inserted|,
                |Select(t, epoch, rows, Stale)|,
                Conflicts(t, epoch, rows),
                MovedBy(OfEpoch(t.checkpoints, epoch), Coordinates(rows)))
  }

  const NOTHING_PERSISTED := BatchResult(0, 0, 0, [], map[])

  /** The transaction of `persist_batch`: the tables it leaves and what it reports. */
  function Persist(
      t: Tables, epoch: int, events: seq<ConsumedEvent>, maxMetricRows: nat)
    : (Tables, Result<BatchResult, PersistError>)
  {
    var rows := RowsOf(events);
    if events == [] then (t, Ok(NOTHING_PERSISTED))
    else
      match ExpansionError(rows, maxMetricRows)
      case Some(error) => (t, Err(error))
      case None => (Projected(t, epoch, rows), Ok(Summary(t, epoch, rows)))
  }

  function StaleCount(m: map<PartitionKey, nat>, records: seq<Coordinate>): nat {
    if records == [] then 0
    else
      var last := records[|records| - 1];
      StaleCount(m, records[..|records| - 1]) + if last.offset < Read(m, last.key) then 1 else 0
  }

  /** The transaction of `checkpoint_ignored_records`: only checkpoints move. */
  function CheckpointIgnored(t: Tables, epoch: int, records: seq<Coordinate>): (Tables, map<PartitionKey, nat>) {
    var m := OfEpoch(t.checkpoints, epoch);
    if records == [] then (t, map[])
    else (t.(checkpoints := t.checkpoints[epoch := AdvancedBy(m, records)]), MovedBy(m, records))
  }
}
