/** The consumer side of the historian: the batch collector, the mapper's ownership state and offset reconciliation. */
module HistorianConsumer {
  import opened Wrappers
  import opened Events
  import opened HistorianTables

  // ------------------------------------------------------------ offset reconciliation

  datatype ReconcileError = KafkaAheadOfSql | RetentionGap

  /** SQL decides where a partition resumes; Kafka's own offset may only trail it. */
  function Reconcile(
      sqlCheckpoint: nat, kafkaCommitted: Option<nat>, retainedLow: Option<nat>): Result<nat, ReconcileError>
  {
    if kafkaCommitted.Some? && kafkaCommitted.value > sqlCheckpoint then Err(KafkaAheadOfSql)
    else if retainedLow.Some? && sqlCheckpoint < retainedLow.value then Err(RetentionGap)
    else Ok(sqlCheckpoint)
  }

  /** When a partition resumes, and why it does not. */
  lemma ReconcileIff(sql: nat, kafka: Option<nat>, low: Option<nat>)
    ensures Reconcile(sql, kafka, low) == Err(KafkaAheadOfSql) <==> exists n :: kafka == Some(n) && sql < n
    ensures Reconcile(sql, kafka, low) == Err(RetentionGap)
            <==> (forall n :: kafka == Some(n) ==> n <= sql) && exists n :: low == Some(n) && sql < n
    ensures Reconcile(sql, kafka, low).Ok? ==> Reconcile(sql, kafka, low).value == sql
  {
    assert kafka.Some? ==> kafka == Some(kafka.value);
    assert low.Some? ==> low == Some(low.value);
  }

  predicate MayCommitKafka(active: bool, revoked: bool) {
    active && !revoked
  }

  // -------------------------------------------------------------------- collector

  datatype Limits = Limits(maxEvents: int, maxBytes: int, maxAge: real)

  datatype Collector = Collector(events: seq<ConsumedEvent>, byteTotal: int, startedAt: Option<real>)

  const EMPTY_COLLECTOR := Collector([], 0, None)

  predicate IsFull(c: Collector, limits: Limits, now: real) {
    && c.events != []
    && (|| |c.events| >= limits.maxEvents
        || c.byteTotal >= limits.maxBytes
        || (c.startedAt.Some? && now - c.startedAt.value >= limits.maxAge))
  }

  /** The clock starts with the first attempt, even one that is turned away. */
  function Started(c: Collector, now: real): Collector {
    if c.startedAt.None? then c.(startedAt := Some(now)) else c
  }

  function Accepts(c: Collector, limits: Limits, event: ConsumedEvent, now: real): bool {
    && !IsFull(Started(c, now), limits, now)
    && |c.events| + 1 <= limits.maxEvents
    && c.byteTotal + event.byteSize <= limits.maxBytes
  }

  function TryAdd(c: Collector, limits: Limits, event: ConsumedEvent, now: real): Collector {
    var started := Started(c, now);
    if Accepts(c, limits, event, now) then
      started.(events := c.events + [event], byteTotal := c.byteTotal + event.byteSize)
    else started
  }

  function TotalBytes(events: seq<ConsumedEvent>): nat {
    if events == [] then 0 else TotalBytes(events[..|events| - 1]) + events[|events| - 1].byteSize
  }

  /** The running byte count is the size of the collected events, and neither limit is exceeded. */
  ghost predicate WithinLimits(c: Collector, limits: Limits) {
    && c.byteTotal == TotalBytes(c.events)
    && (c.events != [] ==> |c.events| <= limits.maxEvents && c.byteTotal <= limits.maxBytes && c.startedAt.Some?)
  }

  lemma TryAddKeepsLimits(c: Collector, limits: Limits, event: ConsumedEvent, now: real)
    requires WithinLimits(c, limits)
    ensures WithinLimits(TryAdd(c, limits, event, now), limits)
    ensures TryAdd(c, limits, event, now).events
            == if Accepts(c, limits, event, now) then c.events + [event] else c.events
  {
  }

  /**
   * An event is taken if and only if with it the batch keeps both limits, and what is collected already has not used
   * up its bytes or its time, which runs from the first event offered.
   */
  lemma TryAddEffect(c: Collector, limits: Limits, event: ConsumedEvent, now: real)
    requires WithinLimits(c, limits)
    ensures var accepted :=
              && |c.events| + 1 <= limits.maxEvents && c.byteTotal + event.byteSize <= limits.maxBytes
              && (c.events != [] ==> c.byteTotal < limits.maxBytes && now - c.startedAt.value < limits.maxAge);
            && Accepts(c, limits, event, now) == accepted
            && TryAdd(c, limits, event, now).events == c.events + (if accepted then [event] else [])
    ensures TryAdd(c, limits, event, now).startedAt == if c.startedAt.Some? then c.startedAt else Some(now)
  {
  }

  class BatchCollector {
    const limits: Limits
    var events: seq<ConsumedEvent>
    var byteTotal: int
    var startedAt: Option<real>

    function View(): Collector
      reads this
    {
      Collector(events, byteTotal, startedAt)
    }

    ghost predicate Valid()
      reads this
    {
      WithinLimits(View(), limits)
    }

    constructor (limits: Limits)
      ensures View() == EMPTY_COLLECTOR && Valid() && this.limits == limits
    {
      this.limits := limits;
      events, byteTotal, startedAt := [], 0, None;
    }

    method Full(now: real) returns (full: bool)
      requires Valid()
      ensures full == IsFull(View(), limits, now)
    {
      if events == [] {
        return false;
      }
      if |events| >= limits.maxEvents || byteTotal >= limits.maxBytes {
        return true;
      }
      full := now - startedAt.value >= limits.maxAge;
    }

    method Add(event: ConsumedEvent, now: real) returns (added: bool)
      requires Valid()
      modifies this
      ensures Valid()
      ensures View() == TryAdd(old(View()), limits, event, now)
      ensures added == Accepts(old(View()), limits, event, now)
      ensures events == old(events) + (if added then [event] else [])
      ensures added ==> |events| <= limits.maxEvents && byteTotal == TotalBytes(events) <= limits.maxBytes
    {
      TryAddKeepsLimits(View(), limits, event, now);
      if startedAt.None? {
        startedAt := Some(now);
      }
      var full := Full(now);
      if full {
        return false;
      }
      if |events| + 1 > limits.maxEvents || byteTotal + event.byteSize > limits.maxBytes {
        return false;
      }
      events, byteTotal := events + [event], byteTotal + event.byteSize;
      added := true;
    }
  }

  // ------------------------------------------------------------------------ mapper

  /** A record of the log: what its bytes decode to, and how long they are. */
  datatype LogRecord = LogRecord(decoded: Result<Envelope, Reason>, size: nat)

  datatype Interpretation = Rejected | Ignored | Event(envelope: Envelope)

  /**
   * Undecodable records are rejected, business events and snapshots ignored, the rest projected. An overflow is no
   * envelope error and ends the handling of its record by itself, with the same effect.
   */
  function Interpret(record: LogRecord): Interpretation {
    match record.decoded
    case Err(_) => Rejected
    case Ok(e) =>
      match AsLegacyTelemetry(e)
      case Err(_) => Rejected
      case Ok(None) => Ignored
      case Ok(Some(legacy)) => Event(legacy)
  }

  /** An event that has no metrics to project. */
  predicate NotMetricInput(e: Envelope) {
    e.eventKind.BusinessEvent? || e.eventKind.StateSnapshot?
  }

  /** An event of unknown kind, or of version 2 with a time or timestamp that version 1 has no place for. */
  predicate HasNoView(e: Envelope) {
    || e.eventKind.OtherKind?
    || (&& e.schemaVersion != 1
        && (|| !InCalendar(e.time) || !InCalendar(e.receivedAt)
            || (StoredTimestamp(e.payload).Some? && !Normalizable(StoredTimestamp(e.payload).value))))
  }

  /** A record that no projection passes: not decoded, or without a view. */
  predicate Unreadable(record: LogRecord) {
    record.decoded.Err? || (!NotMetricInput(record.decoded.value) && HasNoView(record.decoded.value))
  }

  /** The view of an event on which it is projected: the event itself, or in version 1 what is common to both. */
  ghost predicate ViewOf(view: Envelope, e: Envelope) {
    && view.schemaVersion == 1
    && view.time == e.time && view.eventId == e.eventId && view.topic == e.topic && view.eventKind == e.eventKind
    && view.siteId == e.siteId && view.sourceId == e.sourceId
    && view.sourceBootId == e.sourceBootId && view.sourceSequence == e.sourceSequence
    && view.identityQuality == e.identityQuality && view.timestampQuality == e.timestampQuality
    && view.receivedAt == e.receivedAt && view.isHistorical == e.isHistorical
    && SameButTimestamp(e.payload, view.payload)
    && (e.schemaVersion == 1 ==> view == e)
  }

  lemma ViewIsOf(e: Envelope)
    requires AsLegacyTelemetry(e).Ok? && AsLegacyTelemetry(e).value.Some?
    ensures ViewOf(AsLegacyTelemetry(e).value.value, e)
  {
    if e.schemaVersion != 1 {
      NormalizingKeepsTheRest(e.payload);
      NormalizingKeepsTheRest(NormalizePayload(e.payload).value);
    }
  }

  lemma ViewExistsIff(e: Envelope)
    requires !NotMetricInput(e)
    ensures AsLegacyTelemetry(e).Ok? <==> !HasNoView(e)
  {
    NormalizePayloadEffect(e.payload);
    if NormalizePayload(e.payload).Ok? {
      NormalizePayloadEffect(NormalizePayload(e.payload).value);
      if StoredTimestamp(e.payload).Some? {
        NormalizedFitsFloat(StoredTimestamp(e.payload).value.n);
      }
    }
  }

  /** What a record is taken for, in terms of what its bytes decode to. */
  lemma InterpretationIff(record: LogRecord)
    ensures Interpret(record) == Ignored <==> record.decoded.Ok? && NotMetricInput(record.decoded.value)
    ensures Interpret(record) == Rejected <==> Unreadable(record)
    ensures Interpret(record).Event? ==> record.decoded.Ok? && ViewOf(Interpret(record).envelope, record.decoded.value)
  {
    if record.decoded.Ok? && !NotMetricInput(record.decoded.value) {
      ViewExistsIff(record.decoded.value);
      if !HasNoView(record.decoded.value) {
        ViewIsOf(record.decoded.value);
      }
    }
  }

  /** A consumer: its fields, the batch in flight, and the results its coroutines have not committed yet. */
  datatype Consumer = Consumer(
    collector: Collector,
    inFlight: Option<seq<ConsumedEvent>>,
    settled: seq<map<PartitionKey, nat>>,
    owned: set<PartitionKey>,
    revoked: bool,
    active: bool)

  const FRESH_CONSUMER := Consumer(EMPTY_COLLECTOR, None, [], {}, false, false)

  function Buffered(c: Consumer, limits: Limits, at: Coordinate, record: LogRecord, now: real): Consumer {
    match Interpret(record)
    case Event(e) => c.(collector := TryAdd(c.collector, limits, ConsumedEvent(at.key, at.offset, e, record.size), now))
    case _ => c
  }

  /** Assignment replaces the owned partitions. It leaves the collector alone. */
  function Assigned(c: Consumer, keys: set<PartitionKey>): Consumer {
    c.(revoked := false, active := true, owned := keys)
  }

  function Revoked(c: Consumer, keys: set<PartitionKey>): Consumer {
    c.(owned := c.owned - keys, active := c.active && c.owned - keys != {}, revoked := true)
  }

  function BatchTaken(c: Consumer): Consumer {
    if c.collector.events == [] || c.inFlight.Some? then c
    else c.(collector := EMPTY_COLLECTOR, inFlight := Some(c.collector.events))
  }

  /** The transaction of the batch in flight is over; a successful one leaves offsets that may be committed. */
  function BatchSettled(c: Consumer, moved: Option<map<PartitionKey, nat>>): Consumer {
    c.(inFlight := None, settled := if moved.Some? then c.settled + [moved.value] else c.settled)
  }

  function Retired(c: Consumer, i: nat): Consumer
    requires i < |c.settled|
  {
    c.(settled := c.settled[..i] + c.settled[i + 1..])
  }

  datatype BufferResult = NotBuffered | IgnoredAt(at: Coordinate) | Consumed(event: ConsumedEvent, needsFlush: bool)

  class Mapper {
    const limits: Limits
    var collector: BatchCollector
    var ownedPartitions: set<PartitionKey>
    var revoked: bool
    var ownershipActive: bool
    var inFlight: Option<seq<ConsumedEvent>>
    var pendingKafkaCommits: map<PartitionKey, nat>
    ghost var settled: seq<map<PartitionKey, nat>>  // held by the coroutines, not by a field

    ghost function View(): Consumer
      reads this, collector
    {
      Consumer(collector.View(), inFlight, settled, ownedPartitions, revoked, ownershipActive)
    }

    ghost predicate Valid()
      reads this, collector
    {
      collector.limits == limits && collector.Valid()
    }

    constructor (limits: Limits)
      ensures Valid() && View() == FRESH_CONSUMER && fresh(collector)
    {
      this.limits := limits;
      collector := new BatchCollector(limits);
      ownedPartitions, revoked, ownershipActive, inFlight, pendingKafkaCommits, settled :=
          {}, false, false, None, map[], [];
    }

    method OnAssign(keys: set<PartitionKey>)
      requires Valid()
      modifies `revoked, `ownershipActive, `ownedPartitions
      ensures Valid() && View() == Assigned(old(View()), keys)
      ensures ownershipActive && !revoked && ownedPartitions == keys
    {
      revoked := false;
      ownershipActive := true;
      ownedPartitions := keys;
    }

    method OnRevoke(keys: set<PartitionKey>)
      requires Valid()
      modifies `revoked, `ownershipActive, `ownedPartitions
      ensures Valid() && View() == Revoked(old(View()), keys)
      ensures revoked && ownedPartitions == old(ownedPartitions) - keys
      ensures ownershipActive <==> old(ownershipActive) && old(ownedPartitions) - keys != {}
    {
      ownedPartitions := ownedPartitions - keys;
      if ownedPartitions == {} {
        ownershipActive := false;
      }
      revoked := true;
    }

    method TryBufferMessage(at: Coordinate, record: LogRecord, now: real) returns (r: BufferResult)
      requires Valid()
      modifies collector
      ensures Valid() && collector == old(collector)
      ensures View() == Buffered(old(View()), limits, at, record, now)
      ensures r == match Interpret(record)
                   case Rejected => NotBuffered
                   case Ignored => IgnoredAt(at)
                   case Event(e) =>
                     var event := ConsumedEvent(at.key, at.offset, e, record.size);
                     Consumed(event, !Accepts(old(collector.View()), limits, event, now))
      ensures r == NotBuffered <==> Unreadable(record)
      ensures r == IgnoredAt(at) <==> record.decoded.Ok? && NotMetricInput(record.decoded.value)
      ensures r.Consumed? ==>
                && r.event.key == at.key && r.event.offset == at.offset && r.event.byteSize == record.size
                && record.decoded.Ok? && ViewOf(r.event.envelope, record.decoded.value)
      ensures collector.events == old(collector.events) + if r.Consumed? && !r.needsFlush then [r.event] else []
    {
      InterpretationIff(record);
      match Interpret(record) {
        case Rejected => r := NotBuffered;
        case Ignored => r := IgnoredAt(at);
        case Event(e) =>
          var event := ConsumedEvent(at.key, at.offset, e, record.size);
          var added := collector.Add(event, now);
          r := Consumed(event, !added);
      }
    }

    /** The first half of a flush, up to the transaction: the collected events leave the collector. */
    method TakeBatch() returns (batch: Option<seq<ConsumedEvent>>)
      requires Valid()
      modifies this
      ensures Valid() && View() == BatchTaken(old(View()))
      ensures batch == if old(collector.events) == [] || old(inFlight).Some? then None else Some(old(collector.events))
      ensures inFlight == if batch.Some? then batch else old(inFlight)
      ensures batch.Some? ==> collector.View() == EMPTY_COLLECTOR
    {
      if collector.events == [] || inFlight.Some? {
        return None;
      }
      inFlight := Some(collector.events);
      collector := new BatchCollector(limits);
      batch := inFlight;
    }

    /** The second half of a flush, once the transaction returned or raised. */
    method EndBatch(ghost moved: Option<map<PartitionKey, nat>>)
      requires Valid()
      modifies `inFlight, `settled
      ensures Valid() && View() == BatchSettled(old(View()), moved)
    {
      inFlight := None;
      settled := if moved.Some? then settled + [moved.value] else settled;
    }

    /** After a transaction: which of its offsets may be committed to Kafka by now. */
    method RecordSqlSuccess(nextOffsets: map<PartitionKey, nat>, ghost i: nat) returns (commits: map<PartitionKey, nat>)
      requires Valid() && i < |settled| && settled[i] == nextOffsets
      modifies `pendingKafkaCommits, `settled
      ensures Valid() && View() == Retired(old(View()), i)
      ensures settled == old(settled)[..i] + old(settled)[i + 1..]
      ensures commits == if ownershipActive && !revoked then nextOffsets else map[]
      ensures pendingKafkaCommits == old(pendingKafkaCommits) + commits
    {
      settled := settled[..i] + settled[i + 1..];
      if !MayCommitKafka(ownershipActive, revoked) {
        return map[];
      }
      pendingKafkaCommits := pendingKafkaCommits + nextOffsets;
      commits := nextOffsets;
    }
  }
}
