/** Any number of historian consumers on one Kafka log and one database: every step, and what every run keeps. */
module HistorianProtocol {
  import opened Wrappers
  import opened ContiguousOffsets
  import opened HistorianTables
  import opened HistorianConsumer
  import opened PersistLaws

  datatype Config = Config(epoch: int, limits: Limits, maxMetricRows: nat)

  /** Durable: the log, the tables, Kafka's committed offsets. Volatile: the consumers. */
  datatype Cluster = Cluster(
    log: map<PartitionKey, seq<LogRecord>>,
    tables: Tables,
    committed: map<PartitionKey, nat>,
    consumers: map<int, Consumer>)

  const START := Cluster(map[], Tables([], [], map[], map[]), map[], map[])

  /**
   * One atomic step. Consumers are scheduled, revoked, crashed and restarted at will, and may receive any record of
   * the log at any time and any number of times; a record that is dropped is one that is never received again.
   */
  datatype Step =
    | Produce(key: PartitionKey, record: LogRecord)
    | Assign(consumer: int, keys: set<PartitionKey>, lows: map<PartitionKey, nat>)
    | Revoke(consumer: int, keys: set<PartitionKey>)
    | Receive(consumer: int, at: Coordinate, now: real)
    | TakeBatch(consumer: int)
    | PersistBatch(consumer: int)
    | AbortBatch(consumer: int)
    | CheckpointIgnoredRecord(consumer: int, at: Coordinate)
    | CommitKafka(consumer: int, i: nat)
    | Crash(consumer: int)

  function LogOf(log: map<PartitionKey, seq<LogRecord>>, key: PartitionKey): seq<LogRecord> {
    if key in log then log[key] else []
  }

  predicate InLog(log: map<PartitionKey, seq<LogRecord>>, at: Coordinate) {
    at.offset < |LogOf(log, at.key)|
  }

  function RecordAt(log: map<PartitionKey, seq<LogRecord>>, at: Coordinate): LogRecord
    requires InLog(log, at)
  {
    log[at.key][at.offset]
  }

  function ConsumerOf(s: Cluster, id: int): Consumer {
    if id in s.consumers then s.consumers[id] else FRESH_CONSUMER
  }

  function WithConsumer(s: Cluster, id: int, c: Consumer): Cluster {
    s.(consumers := s.consumers[id := c])
  }

  /** Reading the checkpoints of an assignment creates the missing rows at zero. */
  function ReadForAssignment(t: Tables, epoch: int, keys: set<PartitionKey>): Tables {
    if keys == {} then t else t.(checkpoints := t.checkpoints[epoch := Ensured(OfEpoch(t.checkpoints, epoch), keys)])
  }

  function CommittedOffset(s: Cluster, key: PartitionKey): Option<nat> {
    if key in s.committed then Some(s.committed[key]) else None
  }

  function LowWatermark(lows: map<PartitionKey, nat>, key: PartitionKey): Option<nat> {
    if key in lows then Some(lows[key]) else None
  }

  function ReconcileFor(
      cfg: Config, s: Cluster, lows: map<PartitionKey, nat>, key: PartitionKey): Result<nat, ReconcileError>
  {
    Reconcile(Checkpoint(s.tables, cfg.epoch, key), CommittedOffset(s, key), LowWatermark(lows, key))
  }

  /** A step that is not enabled leaves the cluster as it is. */
  function Next(cfg: Config, s: Cluster, step: Step): Cluster {
    match step
    case Produce(key, record) => s.(log := s.log[key := LogOf(s.log, key) + [record]])
    case Assign(id, keys, lows) =>
      var read := s.(tables := ReadForAssignment(s.tables, cfg.epoch, keys));
      if forall key :: key in keys ==> ReconcileFor(cfg, s, lows, key).Ok? then
        WithConsumer(read, id, Assigned(ConsumerOf(s, id), keys))
      else read
    case Revoke(id, keys) => WithConsumer(s, id, Revoked(ConsumerOf(s, id), keys))
    case Receive(id, at, now) =>
      if InLog(s.log, at) then
        WithConsumer(s, id, Buffered(ConsumerOf(s, id), cfg.limits, at, RecordAt(s.log, at), now))
      else s
    case TakeBatch(id) => WithConsumer(s, id, BatchTaken(ConsumerOf(s, id)))
    case PersistBatch(id) =>
      var c := ConsumerOf(s, id);
      if c.inFlight.None? then s
      else
        var (tables, result) := Persist(s.tables, cfg.epoch, c.inFlight.value, cfg.maxMetricRows);
        var moved := match result case Ok(r) => Some(r.nextOffsets) case Err(_) => None;
        WithConsumer(s.(tables := tables), id, BatchSettled(c, moved))
    case AbortBatch(id) => WithConsumer(s, id, BatchSettled(ConsumerOf(s, id), None))
    case CheckpointIgnoredRecord(id, at) =>
      if InLog(s.log, at) && Interpret(RecordAt(s.log, at)) == Ignored then
        var (tables, moved) := CheckpointIgnored(s.tables, cfg.epoch, [at]);
        var c := ConsumerOf(s, id);
        WithConsumer(s.(tables := tables), id, c.(settled := c.settled + [moved]))
      else s
    case CommitKafka(id, i) =>
      var c := ConsumerOf(s, id);
      if i < |c.settled| then
        var offsets := if MayCommitKafka(c.active, c.revoked) then c.settled[i] else map[];
        WithConsumer(s.(committed := s.committed + offsets), id, Retired(c, i))
      else s
    case Crash(id) => s.(consumers := s.consumers - {id})
  }

  function Run(cfg: Config, steps: seq<Step>): Cluster {
    if steps == [] then START else Next(cfg, Run(cfg, steps[..|steps| - 1]), steps[|steps| - 1])
  }

  // -------------------------------------------------------------------- invariants

  /** An offset is handled when its record is ignored or its event's identity is in the raw table. */
  predicate Handled(s: Cluster, at: Coordinate) {
    && InLog(s.log, at)
    && match Interpret(RecordAt(s.log, at))
       case Rejected => false
       case Ignored => true
       case Event(e) => Stored(s.tables.raw, RecordOf(e))
  }

  /** Every offset below a checkpoint is handled. */
  ghost predicate CheckpointsSafe(cfg: Config, s: Cluster) {
    forall at: Coordinate :: at.offset < Checkpoint(s.tables, cfg.epoch, at.key) ==> Handled(s, at)
  }

  /** An event a consumer holds is what the log has at its coordinates. */
  predicate Backed(log: map<PartitionKey, seq<LogRecord>>, event: ConsumedEvent) {
    var at := Coordinate(event.key, event.offset);
    InLog(log, at) && Interpret(RecordAt(log, at)) == Event(event.envelope)
  }

  ghost predicate ConsumerBacked(log: map<PartitionKey, seq<LogRecord>>, c: Consumer) {
    && (forall event :: event in c.collector.events ==> Backed(log, event))
    && (c.inFlight.Some? ==> forall event :: event in c.inFlight.value ==> Backed(log, event))
  }

  ghost predicate AllBacked(s: Cluster) {
    forall id :: id in s.consumers ==> ConsumerBacked(s.log, s.consumers[id])
  }

  ghost predicate Behind(cfg: Config, t: Tables, offsets: map<PartitionKey, nat>) {
    forall key :: key in offsets ==> offsets[key] <= Checkpoint(t, cfg.epoch, key)
  }

  ghost predicate ConsumerBehind(cfg: Config, t: Tables, c: Consumer) {
    forall i :: 0 <= i < |c.settled| ==> Behind(cfg, t, c.settled[i])
  }

  /** Kafka's offsets, committed or about to be, trail the SQL checkpoints. */
  ghost predicate KafkaBehindSql(cfg: Config, s: Cluster) {
    && Behind(cfg, s.tables, s.committed)
    && forall id :: id in s.consumers ==> ConsumerBehind(cfg, s.tables, s.consumers[id])
  }

  ghost predicate Inv(cfg: Config, s: Cluster) {
    && CheckpointsSafe(cfg, s)
    && AllBacked(s)
    && KafkaBehindSql(cfg, s)
    && UniqueIdentities(s.tables.raw)
    && GenerationsCountLateRows(s.tables)
  }

  // ------------------------------------------------------------------ preservation

  /** Log and raw table only grow and no checkpoint of the epoch falls. */
  ghost predicate Grows(cfg: Config, s: Cluster, s': Cluster) {
    && (forall at: Coordinate :: InLog(s.log, at) ==> InLog(s'.log, at) && RecordAt(s'.log, at) == RecordAt(s.log, at))
    && s.tables.raw <= s'.tables.raw
    && forall key :: Checkpoint(s.tables, cfg.epoch, key) <= Checkpoint(s'.tables, cfg.epoch, key)
  }

  lemma HandledStays(cfg: Config, s: Cluster, s': Cluster, at: Coordinate)
    requires Grows(cfg, s, s') && Handled(s, at)
    ensures Handled(s', at)
  {
    match Interpret(RecordAt(s.log, at))
    case Event(e) => StoredStaysStored(s.tables.raw, s'.tables.raw, RecordOf(e));
    case _ =>
  }

  /** What a step must show besides growth: the offsets a checkpoint newly passes are handled. */
  lemma SafeAfterGrowth(cfg: Config, s: Cluster, s': Cluster)
    requires CheckpointsSafe(cfg, s) && Grows(cfg, s, s')
    requires forall at: Coordinate ::
               Checkpoint(s.tables, cfg.epoch, at.key) <= at.offset < Checkpoint(s'.tables, cfg.epoch, at.key) ==>
                   Handled(s', at)
    ensures CheckpointsSafe(cfg, s')
  {
    forall at: Coordinate | at.offset < Checkpoint(s'.tables, cfg.epoch, at.key)
      ensures Handled(s', at)
    {
      if at.offset < Checkpoint(s.tables, cfg.epoch, at.key) {
        HandledStays(cfg, s, s', at);
      }
    }
  }

  lemma EnsureKeepsCheckpoints(t: Tables, epoch: int, keys: set<PartitionKey>)
    ensures forall key :: Checkpoint(ReadForAssignment(t, epoch, keys), epoch, key) == Checkpoint(t, epoch, key)
  {
  }

  lemma PersistGrows(cfg: Config, s: Cluster, events: seq<ConsumedEvent>)
    requires Inv(cfg, s)
    requires forall event :: event in events ==> Backed(s.log, event)
    ensures var s' := s.(tables := Persist(s.tables, cfg.epoch, events, cfg.maxMetricRows).0);
            && Grows(cfg, s, s') && Inv(cfg, s')
  {
    var rows := RowsOf(events);
    var s' := s.(tables := Persist(s.tables, cfg.epoch, events, cfg.maxMetricRows).0);
    if s'.tables == Projected(s.tables, cfg.epoch, rows) {
      RawTableAppendOnly(s.tables, cfg.epoch, rows);
      BatchKeepsGenerations(s.tables, cfg.epoch, rows);
      forall key ensures Checkpoint(s.tables, cfg.epoch, key) <= Checkpoint(s'.tables, cfg.epoch, key) {
        CheckpointAfter(s.tables, cfg.epoch, rows, cfg.epoch, key);
        NextOffsetContiguous(Checkpoint(s.tables, cfg.epoch, key), Offsets(Coordinates(rows), key));
      }
      assert Grows(cfg, s, s');
      forall at: Coordinate
        | Checkpoint(s.tables, cfg.epoch, at.key) <= at.offset < Checkpoint(s'.tables, cfg.epoch, at.key)
        ensures Handled(s', at)
      {
        CheckpointPassesOnlyHandled(s.tables, cfg.epoch, rows, at.key, at.offset);
        var row :| row in rows && row.key == at.key && row.offset == at.offset && Stored(s'.tables.raw, row.record);
        RowsOfMembers(events);
        var event :| event in events && row == RawRowFromEvent(event);
        assert Backed(s.log, event);
      }
      SafeAfterGrowth(cfg, s, s');
    }
  }

  lemma MovedIsBehind(cfg: Config, t: Tables, events: seq<ConsumedEvent>)
    requires Persist(t, cfg.epoch, events, cfg.maxMetricRows).1.Ok?
    ensures Behind(cfg, Persist(t, cfg.epoch, events, cfg.maxMetricRows).0,
            Persist(t, cfg.epoch, events, cfg.maxMetricRows).1.value.nextOffsets)
  {
  }

  /** Checkpointing one ignored record passes no other offset, and lowers no checkpoint. */
  lemma IgnoredPassesItself(cfg: Config, t: Tables, at: Coordinate, other: Coordinate)
    ensures var after := CheckpointIgnored(t, cfg.epoch, [at]).0;
            && Checkpoint(t, cfg.epoch, other.key) <= Checkpoint(after, cfg.epoch, other.key)
            && (Checkpoint(t, cfg.epoch, other.key) <= other.offset < Checkpoint(after, cfg.epoch, other.key) ==>
                other == at)
  {
    var m := OfEpoch(t.checkpoints, cfg.epoch);
    ReadAfterAdvance(m, [at], other.key);
    NextOffsetContiguous(Read(m, other.key), Offsets([at], other.key));
  }

  lemma IgnoredMovesBehind(cfg: Config, t: Tables, at: Coordinate)
    ensures var (after, moved) := CheckpointIgnored(t, cfg.epoch, [at]); Behind(cfg, after, moved)
  {
    var m := OfEpoch(t.checkpoints, cfg.epoch);
    forall key ensures Read(AdvancedBy(m, [at]), key) == NextOffset(Read(m, key), Offsets([at], key)) {
      ReadAfterAdvance(m, [at], key);
    }
  }

  lemma IgnoredGrows(cfg: Config, s: Cluster, at: Coordinate)
    requires Inv(cfg, s)
    requires InLog(s.log, at) && Interpret(RecordAt(s.log, at)) == Ignored
    ensures var (tables, moved) := CheckpointIgnored(s.tables, cfg.epoch, [at]);
            && Grows(cfg, s, s.(tables := tables)) && Inv(cfg, s.(tables := tables)) && Behind(cfg, tables, moved)
  {
    var s' := s.(tables := CheckpointIgnored(s.tables, cfg.epoch, [at]).0);
    IgnoredMovesBehind(cfg, s.tables, at);
    forall key ensures Checkpoint(s.tables, cfg.epoch, key) <= Checkpoint(s'.tables, cfg.epoch, key) {
      IgnoredPassesItself(cfg, s.tables, at, Coordinate(key, 0));
    }
    assert Grows(cfg, s, s');
    forall other: Coordinate
      | Checkpoint(s.tables, cfg.epoch, other.key) <= other.offset < Checkpoint(s'.tables, cfg.epoch, other.key)
      ensures Handled(s', other)
    {
      IgnoredPassesItself(cfg, s.tables, at, other);
    }
    SafeAfterGrowth(cfg, s, s');
  }

  /** Replacing a consumer by one that is backed and behind keeps the invariant. */
  lemma ReplaceConsumer(cfg: Config, s: Cluster, id: int, c: Consumer)
    requires Inv(cfg, s) && ConsumerBacked(s.log, c) && ConsumerBehind(cfg, s.tables, c)
    ensures Inv(cfg, WithConsumer(s, id, c))
  {
  }

  lemma ConsumerInvariant(cfg: Config, s: Cluster, id: int)
    requires Inv(cfg, s)
    ensures ConsumerBacked(s.log, ConsumerOf(s, id)) && ConsumerBehind(cfg, s.tables, ConsumerOf(s, id))
  {
  }

  lemma RetiredIsBehind(cfg: Config, t: Tables, c: Consumer, i: nat)
    requires ConsumerBehind(cfg, t, c) && i < |c.settled|
    ensures ConsumerBehind(cfg, t, Retired(c, i))
  {
  }

  lemma ProduceKeepsInvariant(cfg: Config, s: Cluster, key: PartitionKey, record: LogRecord)
    requires Inv(cfg, s)
    ensures var s' := Next(cfg, s, Produce(key, record)); Inv(cfg, s') && Grows(cfg, s, s')
  {
    SafeAfterGrowth(cfg, s, Next(cfg, s, Produce(key, record)));
  }

  lemma ReadingKeepsInvariant(cfg: Config, s: Cluster, keys: set<PartitionKey>)
    requires Inv(cfg, s)
    ensures var read := s.(tables := ReadForAssignment(s.tables, cfg.epoch, keys));
            Inv(cfg, read) && Grows(cfg, s, read)
  {
    EnsureKeepsCheckpoints(s.tables, cfg.epoch, keys);
    SafeAfterGrowth(cfg, s, s.(tables := ReadForAssignment(s.tables, cfg.epoch, keys)));
  }

  lemma AssignKeepsInvariant(cfg: Config, s: Cluster, id: int, keys: set<PartitionKey>, lows: map<PartitionKey, nat>)
    requires Inv(cfg, s)
    ensures var s' := Next(cfg, s, Assign(id, keys, lows)); Inv(cfg, s') && Grows(cfg, s, s')
  {
    var read := s.(tables := ReadForAssignment(s.tables, cfg.epoch, keys));
    ReadingKeepsInvariant(cfg, s, keys);
    ConsumerInvariant(cfg, read, id);
    ReplaceConsumer(cfg, read, id, Assigned(ConsumerOf(read, id), keys));
  }

  /** Steps that touch one consumer and nothing else. */
  lemma LocalStepKeepsInvariant(cfg: Config, s: Cluster, step: Step)
    requires Inv(cfg, s) && (step.Revoke? || step.Receive? || step.TakeBatch? || step.AbortBatch?)
    ensures Inv(cfg, Next(cfg, s, step)) && Grows(cfg, s, Next(cfg, s, step))
  {
    ConsumerInvariant(cfg, s, step.consumer);
    if Next(cfg, s, step) != s {
      ReplaceConsumer(cfg, s, step.consumer, Next(cfg, s, step).consumers[step.consumer]);
    }
  }

  lemma PersistKeepsInvariant(cfg: Config, s: Cluster, id: int)
    requires Inv(cfg, s)
    ensures var s' := Next(cfg, s, PersistBatch(id)); Inv(cfg, s') && Grows(cfg, s, s')
  {
    var c := ConsumerOf(s, id);
    ConsumerInvariant(cfg, s, id);
    if c.inFlight.Some? {
      PersistGrows(cfg, s, c.inFlight.value);
      var (tables, result) := Persist(s.tables, cfg.epoch, c.inFlight.value, cfg.maxMetricRows);
      if result.Ok? {
        MovedIsBehind(cfg, s.tables, c.inFlight.value);
      }
      ConsumerInvariant(cfg, s.(tables := tables), id);
      ReplaceConsumer(cfg, s.(tables := tables), id,
          BatchSettled(c, match result case Ok(r) => Some(r.nextOffsets) case Err(_) => None));
    }
  }

  lemma IgnoredRecordKeepsInvariant(cfg: Config, s: Cluster, id: int, at: Coordinate)
    requires Inv(cfg, s)
    ensures var s' := Next(cfg, s, CheckpointIgnoredRecord(id, at)); Inv(cfg, s') && Grows(cfg, s, s')
  {
    if InLog(s.log, at) && Interpret(RecordAt(s.log, at)) == Ignored {
      IgnoredGrows(cfg, s, at);
      var (tables, moved) := CheckpointIgnored(s.tables, cfg.epoch, [at]);
      var c := ConsumerOf(s, id);
      ConsumerInvariant(cfg, s.(tables := tables), id);
      ReplaceConsumer(cfg, s.(tables := tables), id, c.(settled := c.settled + [moved]));
    }
  }

  lemma CommitKeepsInvariant(cfg: Config, s: Cluster, id: int, i: nat)
    requires Inv(cfg, s)
    ensures var s' := Next(cfg, s, CommitKafka(id, i)); Inv(cfg, s') && Grows(cfg, s, s')
  {
    var c := ConsumerOf(s, id);
    ConsumerInvariant(cfg, s, id);
    if i < |c.settled| {
      RetiredIsBehind(cfg, s.tables, c, i);
      var offsets := if MayCommitKafka(c.active, c.revoked) then c.settled[i] else map[];
      var committing := s.(committed := s.committed + offsets);
      assert forall at :: Handled(s, at) <==> Handled(committing, at);
      ReplaceConsumer(cfg, committing, id, Retired(c, i));
    }
  }

  /** Every step keeps the invariant, and the log, the raw table and the checkpoints only grow. */
  lemma StepKeepsInvariant(cfg: Config, s: Cluster, step: Step)
    requires Inv(cfg, s)
    ensures Inv(cfg, Next(cfg, s, step)) && Grows(cfg, s, Next(cfg, s, step))
  {
    match step
    case Produce(key, record) => ProduceKeepsInvariant(cfg, s, key, record);
    case Assign(id, keys, lows) => AssignKeepsInvariant(cfg, s, id, keys, lows);
    case PersistBatch(id) => PersistKeepsInvariant(cfg, s, id);
    case CheckpointIgnoredRecord(id, at) => IgnoredRecordKeepsInvariant(cfg, s, id, at);
    case CommitKafka(id, i) => CommitKeepsInvariant(cfg, s, id, i);
    case Crash(id) => assert forall at :: Handled(s, at) <==> Handled(Next(cfg, s, step), at);
    case _ => LocalStepKeepsInvariant(cfg, s, step);
  }

  lemma {:induction false} RunKeepsInvariant(cfg: Config, steps: seq<Step>)
    ensures Inv(cfg, Run(cfg, steps))
  {
    if steps != [] {
      RunKeepsInvariant(cfg, steps[..|steps| - 1]);
      StepKeepsInvariant(cfg, Run(cfg, steps[..|steps| - 1]), steps[|steps| - 1]);
    }
  }

  // ------------------------------------------------------------------ whole runs

  /** The record can be read, as an event that is not for the tables or whose time and id the raw table has. */
  ghost predicate Settled(s: Cluster, at: Coordinate) {
    && InLog(s.log, at) && !Unreadable(RecordAt(s.log, at))
    && var e := RecordAt(s.log, at).decoded.value;
       NotMetricInput(e) || exists row :: row in s.tables.raw && row.time == e.time && row.eventId == e.eventId
  }

  lemma HandledIsSettled(s: Cluster, at: Coordinate)
    requires Handled(s, at)
    ensures Settled(s, at)
  {
    var record := RecordAt(s.log, at);
    InterpretationIff(record);
    if Interpret(record).Event? {
      var view := Interpret(record).envelope;
      LookupFinds(s.tables.raw, view.time, view.eventId);
      var i :| 0 <= i < |s.tables.raw| && HasIdentity(s.tables.raw[i], view.time, view.eventId);
      assert s.tables.raw[i] in s.tables.raw;
    }
  }

  /**
   * In every run, the record at every offset below a SQL checkpoint can be read, and it is a business event or a state
   * snapshot, or its time and id are in the raw table.
   */
  lemma {:induction false} EveryRunPassesOnlyHandledOffsets(cfg: Config, steps: seq<Step>, at: Coordinate)
    requires at.offset < Checkpoint(Run(cfg, steps).tables, cfg.epoch, at.key)
    ensures Settled(Run(cfg, steps), at)
  {
    RunKeepsInvariant(cfg, steps);
    HandledIsSettled(Run(cfg, steps), at);
  }

  /**
   * In every run, whatever low watermarks the broker reports, an assignment never finds Kafka ahead of SQL. It fails
   * only on a retention gap, and otherwise resumes at the checkpoint: all offsets below are handled, and those Kafka
   * has committed are among them.
   */
  lemma {:induction false} EveryRunReconciles(
      cfg: Config, steps: seq<Step>, lows: map<PartitionKey, nat>, key: PartitionKey)
    ensures var s := Run(cfg, steps);
            var checkpoint := Checkpoint(s.tables, cfg.epoch, key);
            && (key in s.committed ==> s.committed[key] <= checkpoint)
            && ReconcileFor(cfg, s, lows, key)
               == (if key in lows && checkpoint < lows[key] then Err(RetentionGap) else Ok(checkpoint))
            && forall offset :: 0 <= offset < checkpoint ==> Settled(s, Coordinate(key, offset))
  {
    RunKeepsInvariant(cfg, steps);
    var s := Run(cfg, steps);
    forall offset | 0 <= offset < Checkpoint(s.tables, cfg.epoch, key) ensures Settled(s, Coordinate(key, offset)) {
      EveryRunPassesOnlyHandledOffsets(cfg, steps, Coordinate(key, offset));
    }
  }

  /** Kafka is not ahead of the partition's checkpoint, and what comes from there on is retained. */
  ghost predicate CanResume(cfg: Config, s: Cluster, lows: map<PartitionKey, nat>, key: PartitionKey) {
    var checkpoint := Checkpoint(s.tables, cfg.epoch, key);
    (key in s.committed ==> s.committed[key] <= checkpoint) && (key in lows ==> lows[key] <= checkpoint)
  }

  lemma ResumesIff(cfg: Config, s: Cluster, lows: map<PartitionKey, nat>, key: PartitionKey)
    ensures ReconcileFor(cfg, s, lows, key).Ok? <==> CanResume(cfg, s, lows, key)
  {
  }

  /**
   * An assignment makes sure of a checkpoint row for each partition, at zero if it was missing, and is taken up exactly
   * when all of them can resume; it leaves the batch that is collected alone.
   */
  lemma AssignmentEffect(cfg: Config, s: Cluster, id: int, keys: set<PartitionKey>, lows: map<PartitionKey, nat>)
    ensures var s' := Next(cfg, s, Assign(id, keys, lows));
            && (forall key :: key in keys ==> key in OfEpoch(s'.tables.checkpoints, cfg.epoch))
            && (forall key :: Checkpoint(s'.tables, cfg.epoch, key) == Checkpoint(s.tables, cfg.epoch, key))
            && s'.tables == s.tables.(checkpoints := s'.tables.checkpoints)
    ensures Next(cfg, s, Assign(id, keys, lows)).consumers
            == if forall key :: key in keys ==> CanResume(cfg, s, lows, key)
               then s.consumers[id := ConsumerOf(s, id).(owned := keys, active := true, revoked := false)]
               else s.consumers
  {
    forall key ensures ReconcileFor(cfg, s, lows, key).Ok? <==> CanResume(cfg, s, lows, key) {
      ResumesIff(cfg, s, lows, key);
    }
  }

  /** Offsets go to Kafka only for a consumer with ownership that was not revoked; then they are no longer due. */
  lemma CommitEffect(cfg: Config, s: Cluster, id: int, i: nat)
    requires i < |ConsumerOf(s, id).settled|
    ensures var s' := Next(cfg, s, CommitKafka(id, i));
            var c, c' := ConsumerOf(s, id), ConsumerOf(s', id);
            && s'.committed == (if c.active && !c.revoked then s.committed + c.settled[i] else s.committed)
            && c' == c.(settled := c.settled[..i] + c.settled[i + 1..])
            && s'.tables == s.tables && s'.log == s.log
  {
    assert s.committed + map[] == s.committed;
  }

  /** A batch whose transaction is rolled back is dropped, and with a crash all of its consumer; the tables stay. */
  lemma AbortEffect(cfg: Config, s: Cluster, id: int)
    ensures var aborted := Next(cfg, s, AbortBatch(id));
            && ConsumerOf(aborted, id) == ConsumerOf(s, id).(inFlight := None)
            && aborted.tables == s.tables && aborted.committed == s.committed && aborted.log == s.log
    ensures Next(cfg, s, Crash(id)) == s.(consumers := s.consumers - {id})
    ensures ConsumerOf(Next(cfg, s, Crash(id)), id) == FRESH_CONSUMER
  {
  }

  lemma RunSnoc(cfg: Config, steps: seq<Step>, step: Step)
    ensures Run(cfg, steps + [step]) == Next(cfg, Run(cfg, steps), step)
  {
    assert (steps + [step])[..|steps|] == steps;
  }

  lemma GrowsTransitive(cfg: Config, s: Cluster, s': Cluster, s'': Cluster)
    requires Grows(cfg, s, s') && Grows(cfg, s', s'')
    ensures Grows(cfg, s, s'')
  {
  }

  lemma {:induction false} RunGrows(cfg: Config, steps: seq<Step>, more: seq<Step>)
    ensures Grows(cfg, Run(cfg, steps), Run(cfg, steps + more))
  {
    if more == [] {
      assert steps + more == steps;
    } else {
      var before, step := more[..|more| - 1], more[|more| - 1];
      RunGrows(cfg, steps, before);
      RunKeepsInvariant(cfg, steps + before);
      StepKeepsInvariant(cfg, Run(cfg, steps + before), step);
      RunSnoc(cfg, steps + before, step);
      assert steps + before + [step] == steps + more;
      GrowsTransitive(cfg, Run(cfg, steps), Run(cfg, steps + before), Run(cfg, steps + more));
    }
  }

  /** However a run goes on, no stored row is changed or removed, no identity is stored twice, no checkpoint falls. */
  lemma StoredRowsAndCheckpointsLast(cfg: Config, steps: seq<Step>, more: seq<Step>, key: PartitionKey)
    ensures var now, later := Run(cfg, steps).tables, Run(cfg, steps + more).tables;
            && now.raw <= later.raw && UniqueIdentities(later.raw)
            && Checkpoint(now, cfg.epoch, key) <= Checkpoint(later, cfg.epoch, key)
  {
    RunGrows(cfg, steps, more);
    RunKeepsInvariant(cfg, steps + more);
  }

  /** A record that cannot be decoded, or has no view, holds its partition's checkpoint for good: safe, but not live. */
  lemma RejectedRecordHoldsCheckpoint(cfg: Config, steps: seq<Step>, more: seq<Step>, at: Coordinate)
    requires InLog(Run(cfg, steps).log, at) && Unreadable(RecordAt(Run(cfg, steps).log, at))
    ensures Checkpoint(Run(cfg, steps + more).tables, cfg.epoch, at.key) <= at.offset
  {
    RunGrows(cfg, steps, more);
    if at.offset < Checkpoint(Run(cfg, steps + more).tables, cfg.epoch, at.key) {
      EveryRunPassesOnlyHandledOffsets(cfg, steps + more, at);
      assert false;
    }
  }

  // ------------------------------------------------------------- metrics over a run

  /** Whether a step persists a batch in which an event left out of the raw table echoes an inserted one. */
  ghost predicate Echoes(cfg: Config, s: Cluster, step: Step) {
    && step.PersistBatch?
    && ConsumerOf(s, step.consumer).inFlight.Some?
    && var events := ConsumerOf(s, step.consumer).inFlight.value;
    && Persist(s.tables, cfg.epoch, events, cfg.maxMetricRows).1.Ok?
    && !NoEchoes(s.tables, cfg.epoch, RowsOf(events))
  }

  lemma OnlyPersistWritesMetrics(cfg: Config, s: Cluster, step: Step)
    requires !step.PersistBatch?
    ensures Next(cfg, s, step).tables.metrics == s.tables.metrics && Next(cfg, s, step).tables.raw == s.tables.raw
  {
  }

  lemma PersistAddsSurplus(cfg: Config, t: Tables, events: seq<ConsumedEvent>)
    ensures var (after, result) := Persist(t, cfg.epoch, events, cfg.maxMetricRows);
            var echoes := result.Ok? && !NoEchoes(t, cfg.epoch, RowsOf(events));
            && (if echoes then Surplus(after) > Surplus(t) else Surplus(after) == Surplus(t))
            && (!echoes && MetricsExact(t) ==> MetricsExact(after))
  {
    RowsOfMembers(events);
    EchoesAddUp(t, cfg.epoch, RowsOf(events));
  }

  /** A step that echoes leaves metric rows too many for good; any other keeps the metrics exact if they were. */
  lemma StepAddsSurplus(cfg: Config, s: Cluster, step: Step)
    ensures var t, after := s.tables, Next(cfg, s, step).tables;
            && (if Echoes(cfg, s, step) then Surplus(after) > Surplus(t) else Surplus(after) == Surplus(t))
            && (!Echoes(cfg, s, step) && MetricsExact(t) ==> MetricsExact(after))
  {
    if !step.PersistBatch? {
      OnlyPersistWritesMetrics(cfg, s, step);
    } else if ConsumerOf(s, step.consumer).inFlight.Some? {
      PersistAddsSurplus(cfg, s.tables, ConsumerOf(s, step.consumer).inFlight.value);
    }
  }

  lemma StepKeepsMetricsExactIff(cfg: Config, s: Cluster, step: Step)
    requires MetricsExact(s.tables)
    ensures MetricsExact(Next(cfg, s, step).tables) <==> !Echoes(cfg, s, step)
  {
    StepAddsSurplus(cfg, s, step);
  }

  /** No step of the run echoes. */
  ghost predicate EchoFree(cfg: Config, steps: seq<Step>) {
    steps == [] ||
    var n := |steps| - 1;
    EchoFree(cfg, steps[..n]) && !Echoes(cfg, Run(cfg, steps[..n]), steps[n])
  }

  /** Metric rows once too many are never taken back. */
  lemma {:induction false} RunSurplus(cfg: Config, steps: seq<Step>)
    ensures var t := Run(cfg, steps).tables;
            if EchoFree(cfg, steps) then MetricsExact(t) && Surplus(t) == 0 else Surplus(t) > 0
  {
    if steps != [] {
      var n := |steps| - 1;
      RunSurplus(cfg, steps[..n]);
      StepAddsSurplus(cfg, Run(cfg, steps[..n]), steps[n]);
    }
  }

  /** At the end of a run the metrics are those of the stored rows, each exactly once, if and only if no step echoed. */
  lemma {:induction false} RunKeepsMetricsExactIff(cfg: Config, steps: seq<Step>)
    ensures MetricsExact(Run(cfg, steps).tables) <==> EchoFree(cfg, steps)
  {
    RunSurplus(cfg, steps);
  }

  ghost predicate BatchOfDistinctIds(s: Cluster, step: Step) {
    step.PersistBatch? && ConsumerOf(s, step.consumer).inFlight.Some?
    ==> DistinctIds(RowsOf(ConsumerOf(s, step.consumer).inFlight.value))
  }

  /** Every batch the run persists holds pairwise distinct event ids. */
  ghost predicate PersistsDistinctIds(cfg: Config, steps: seq<Step>) {
    steps == [] ||
    var n := |steps| - 1;
    PersistsDistinctIds(cfg, steps[..n]) && BatchOfDistinctIds(Run(cfg, steps[..n]), steps[n])
  }

  lemma DistinctIdsDoNotEcho(cfg: Config, s: Cluster, step: Step)
    requires BatchOfDistinctIds(s, step)
    ensures !Echoes(cfg, s, step)
  {
    if step.PersistBatch? && ConsumerOf(s, step.consumer).inFlight.Some? {
      DistinctIdsHaveNoEchoes(s.tables, cfg.epoch, RowsOf(ConsumerOf(s, step.consumer).inFlight.value));
    }
  }

  /** In particular no run of such batches echoes, so it keeps the metrics exact. */
  lemma {:induction false} DistinctIdsKeepRunsExact(cfg: Config, steps: seq<Step>)
    requires PersistsDistinctIds(cfg, steps)
    ensures EchoFree(cfg, steps) && MetricsExact(Run(cfg, steps).tables)
  {
    if steps != [] {
      var n := |steps| - 1;
      DistinctIdsKeepRunsExact(cfg, steps[..n]);
      DistinctIdsDoNotEcho(cfg, Run(cfg, steps[..n]), steps[n]);
    }
    RunKeepsMetricsExactIff(cfg, steps);
  }

  /** A partition is assigned again while its record is still collected, so the record comes a second time. */
  function Redelivery(key: PartitionKey, record: LogRecord, now: real): seq<Step> {
    [Produce(key, record),
     Assign(0, {key}, map[]), Receive(0, Coordinate(key, 0), now),
     Assign(0, {key}, map[]), Receive(0, Coordinate(key, 0), now),
     TakeBatch(0), PersistBatch(0)]
  }

  /** The end of the redelivery up to a batch of two is a matter of the consumer alone. */
  lemma TwiceCollected(limits: Limits, at: Coordinate, record: LogRecord, now: real)
    requires Interpret(record).Event?
    requires limits.maxEvents > 1 && limits.maxBytes >= 2 * record.size && limits.maxBytes > record.size
    requires limits.maxAge > 0.0
    ensures var event := ConsumedEvent(at.key, at.offset, Interpret(record).envelope, record.size);
            var once := Buffered(Assigned(FRESH_CONSUMER, {at.key}), limits, at, record, now);
            var twice := Buffered(Assigned(once, {at.key}), limits, at, record, now);
            twice.collector.events == [event, event] && twice.inFlight == None
  {
  }

  lemma AssignSucceeds(cfg: Config, s: Cluster, key: PartitionKey)
    requires s.committed == map[]
    ensures ReconcileFor(cfg, s, map[], key).Ok?
    ensures Next(cfg, s, Assign(0, {key}, map[]))
            == WithConsumer(s.(tables := ReadForAssignment(s.tables, cfg.epoch, {key})), 0,
                Assigned(ConsumerOf(s, 0), {key}))
  {
    assert forall k :: k in {key} ==> ReconcileFor(cfg, s, map[], k).Ok?;
  }

  ghost predicate Untouched(cfg: Config, s: Cluster, key: PartitionKey, record: LogRecord) {
    && s.committed == map[] && s.tables.raw == [] && s.tables.metrics == [] && Checkpoint(s.tables, cfg.epoch, key) == 0
    && key in s.log && s.log[key] == [record]
  }

  lemma AssignThenReceive(cfg: Config, s: Cluster, key: PartitionKey, record: LogRecord, now: real)
    requires Untouched(cfg, s, key, record)
    ensures var s' := Next(cfg, Next(cfg, s, Assign(0, {key}, map[])), Receive(0, Coordinate(key, 0), now));
            && Untouched(cfg, s', key, record)
            && ConsumerOf(s', 0)
               == Buffered(Assigned(ConsumerOf(s, 0), {key}), cfg.limits, Coordinate(key, 0), record, now)
  {
    AssignSucceeds(cfg, s, key);
    EnsureKeepsCheckpoints(s.tables, cfg.epoch, {key});
  }

  lemma RunOfSix(cfg: Config, steps: seq<Step>)
    requires |steps| >= 6
    ensures Run(cfg, steps[..6])
            == (var halfway := Next(cfg, Next(cfg, Next(cfg, START, steps[0]), steps[1]), steps[2]);
                Next(cfg, Next(cfg, Next(cfg, halfway, steps[3]), steps[4]), steps[5]))
  {
    forall i | 0 <= i < 6 ensures Run(cfg, steps[..i + 1]) == Next(cfg, Run(cfg, steps[..i]), steps[i]) {
      RunSnoc(cfg, steps[..i], steps[i]);
      assert steps[..i + 1] == steps[..i] + [steps[i]];
    }
    assert steps[..0] == [];
  }

  lemma TakingKeepsTables(cfg: Config, s: Cluster, key: PartitionKey, record: LogRecord)
    requires Untouched(cfg, s, key, record) && ConsumerOf(s, 0).collector.events != []
    requires ConsumerOf(s, 0).inFlight == None
    ensures var s' := Next(cfg, s, TakeBatch(0));
            && Untouched(cfg, s', key, record) && MetricsExact(s'.tables)
            && ConsumerOf(s', 0).inFlight == Some(ConsumerOf(s, 0).collector.events)
  {
  }

  lemma RedeliveryBuffersTwice(cfg: Config, key: PartitionKey, record: LogRecord, now: real)
    requires Interpret(record).Event?
    requires cfg.limits.maxEvents > 1 && cfg.limits.maxBytes >= 2 * record.size && cfg.limits.maxBytes > record.size
    requires cfg.limits.maxAge > 0.0
    ensures var s, event := Run(cfg, Redelivery(key, record, now)[..6]),
            ConsumedEvent(key, 0, Interpret(record).envelope, record.size);
            && Untouched(cfg, s, key, record) && MetricsExact(s.tables)
            && ConsumerOf(s, 0).inFlight == Some([event, event])
  {
    var steps := Redelivery(key, record, now);
    var s1 := Next(cfg, START, steps[0]);
    var s3 := Next(cfg, Next(cfg, s1, steps[1]), steps[2]);
    var s5 := Next(cfg, Next(cfg, s3, steps[3]), steps[4]);
    AssignThenReceive(cfg, s1, key, record, now);
    AssignThenReceive(cfg, s3, key, record, now);
    TwiceCollected(cfg.limits, Coordinate(key, 0), record, now);
    RunOfSix(cfg, steps);
    TakingKeepsTables(cfg, s5, key, record);
  }

  lemma RowsOfTwice(event: ConsumedEvent)
    ensures RowsOf([event, event]) == [RawRowFromEvent(event), RawRowFromEvent(event)]
  {
    RowsOfMembers([event, event]);
    var rows := RowsOf([event, event]);
    assert rows[0] in rows && rows[1] in rows;
  }

  lemma TwiceInABatchEchoes(cfg: Config, t: Tables, event: ConsumedEvent)
    requires t.raw == [] && Checkpoint(t, cfg.epoch, event.key) <= event.offset
    requires Expansion(RecordOf(event.envelope), cfg.maxMetricRows).Ok? && MetricRows(RecordOf(event.envelope)) != []
    ensures Persist(t, cfg.epoch, [event, event], cfg.maxMetricRows).1.Ok?
    ensures !NoEchoes(t, cfg.epoch, RowsOf([event, event]))
  {
    RowsOfTwice(event);
    RepeatedRowEchoes(t, cfg.epoch, RowsOf([event, event]), 0, 1);
  }

  lemma EchoingPersistBreaksMetrics(cfg: Config, s: Cluster, event: ConsumedEvent)
    requires s.tables.raw == [] && MetricsExact(s.tables) && Checkpoint(s.tables, cfg.epoch, event.key) <= event.offset
    requires Expansion(RecordOf(event.envelope), cfg.maxMetricRows).Ok? && MetricRows(RecordOf(event.envelope)) != []
    requires ConsumerOf(s, 0).inFlight == Some([event, event])
    ensures !MetricsExact(Next(cfg, s, PersistBatch(0)).tables)
  {
    TwiceInABatchEchoes(cfg, s.tables, event);
    StepKeepsMetricsExactIff(cfg, s, PersistBatch(0));
  }

  /** Reassignment does not empty the collector, so not every run keeps the metrics exact. */
  lemma RedeliveryDuplicatesMetrics(cfg: Config, key: PartitionKey, record: LogRecord, now: real)
    requires Interpret(record).Event?
    requires var row := RecordOf(Interpret(record).envelope);
             Expansion(row, cfg.maxMetricRows).Ok? && MetricRows(row) != []
    requires cfg.limits.maxEvents > 1 && cfg.limits.maxBytes >= 2 * record.size && cfg.limits.maxBytes > record.size
    requires cfg.limits.maxAge > 0.0
    ensures !MetricsExact(Run(cfg, Redelivery(key, record, now)).tables)
  {
    var steps := Redelivery(key, record, now);
    RedeliveryBuffersTwice(cfg, key, record, now);
    EchoingPersistBreaksMetrics(cfg, Run(cfg, steps[..6]),
        ConsumedEvent(key, 0, Interpret(record).envelope, record.size));
    RunSnoc(cfg, steps[..6], PersistBatch(0));
    assert steps == steps[..6] + [PersistBatch(0)];
  }
}
