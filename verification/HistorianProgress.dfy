/** When checkpoints can still reach the ends of their logs. */
module HistorianProgress {
  import opened Wrappers
  import opened MetricFlattener
  import opened Events
  import opened ContiguousOffsets
  import opened HistorianTables
  import opened HistorianConsumer
  import opened PersistLaws
  import opened BatchContents
  import opened HistorianProtocol

  /**
   * A record a checkpoint can pass: one to ignore, or an event that fits a batch and whose metrics fit the budget and
   * are floats, as far as they are looked at.
   */
  predicate Processable(cfg: Config, record: LogRecord) {
    match Interpret(record)
    case Rejected => false
    case Ignored => true
    case Event(e) =>
      && cfg.limits.maxEvents >= 1 && record.size <= cfg.limits.maxBytes
      && Expansion(RecordOf(e), cfg.maxMetricRows).Ok?
  }

  /** In terms of what the record decodes to: which records a checkpoint can pass. */
  predicate Passes(cfg: Config, record: LogRecord) {
    && !Unreadable(record)
    && var e := record.decoded.value;
       || NotMetricInput(e)
       || (&& cfg.limits.maxEvents >= 1 && record.size <= cfg.limits.maxBytes
           && (e.eventKind.Telemetry? ==> MetricsFit(e.payload, cfg.maxMetricRows)))
  }

  lemma FloatsConcat(a: seq<Leaf>, b: seq<Leaf>)
    ensures AllFloats(a + b) <==> AllFloats(a) && AllFloats(b)
  {
    assert forall leaf :: leaf in a + b <==> leaf in a || leaf in b;
  }

  lemma {:induction false} NormalizedLeaves(payload: Object)
    requires NormalizePayload(payload).Ok?
    ensures var leaves, normalized := FieldLeaves(payload, []), FieldLeaves(NormalizePayload(payload).value, []);
            |leaves| == |normalized| && (AllFloats(leaves) <==> AllFloats(normalized))
  {
    if payload != [] {
      var normalized := NormalizePayload(payload).value;
      var rest := FieldLeaves(payload[1..], []);
      var first, first' := Leaves(payload[0].value, [payload[0].key]), Leaves(normalized[0].value, [payload[0].key]);
      assert [] + [payload[0].key] == [payload[0].key];
      if payload[0].key == "timestamp" {
        NormalizedFitsFloat(payload[0].value.n);
        assert normalized[1..] == payload[1..];
        FloatsConcat(first, rest);
        FloatsConcat(first', rest);
      } else {
        NormalizedLeaves(payload[1..]);
        assert normalized[1..] == NormalizePayload(payload[1..]).value;
        FloatsConcat(first, rest);
        FloatsConcat(first, FieldLeaves(normalized[1..], []));
      }
    }
  }

  lemma ViewLeaves(e: Envelope)
    requires AsLegacyTelemetry(e).Ok? && AsLegacyTelemetry(e).value.Some?
    ensures var view := AsLegacyTelemetry(e).value.value;
            forall max: nat :: MetricsFit(view.payload, max) <==> MetricsFit(e.payload, max)
  {
    if e.schemaVersion != 1 {
      NormalizedLeaves(e.payload);
      NormalizedLeaves(NormalizePayload(e.payload).value);
    }
  }

  lemma ProcessableIff(cfg: Config, record: LogRecord)
    ensures Processable(cfg, record) <==> Passes(cfg, record)
  {
    InterpretationIff(record);
    if Interpret(record).Event? {
      var view := Interpret(record).envelope;
      ViewLeaves(record.decoded.value);
      if view.eventKind.Telemetry? {
        ExpansionFitsIff(RecordOf(view), cfg.maxMetricRows);
      }
    }
  }

  // --------------------------------------------------------- what a checkpoint has passed

  /** An event a consumer holds got past the collector's limits. */
  ghost predicate Fits(cfg: Config, log: map<PartitionKey, seq<LogRecord>>, event: ConsumedEvent) {
    && Backed(log, event)
    && event.byteSize == RecordAt(log, Coordinate(event.key, event.offset)).size
    && cfg.limits.maxEvents >= 1 && event.byteSize <= cfg.limits.maxBytes
  }

  ghost predicate AllFit(cfg: Config, log: map<PartitionKey, seq<LogRecord>>, events: seq<ConsumedEvent>) {
    forall event :: event in events ==> Fits(cfg, log, event)
  }

  ghost predicate ConsumerFits(cfg: Config, log: map<PartitionKey, seq<LogRecord>>, c: Consumer) {
    && c.collector.byteTotal >= 0 && AllFit(cfg, log, c.collector.events)
    && (c.inFlight.Some? ==> AllFit(cfg, log, c.inFlight.value))
  }

  ghost predicate ConsumersFit(cfg: Config, s: Cluster) {
    forall id :: id in s.consumers ==> ConsumerFits(cfg, s.log, s.consumers[id])
  }

  ghost predicate Passable(cfg: Config, s: Cluster, at: Coordinate) {
    InLog(s.log, at) && Processable(cfg, RecordAt(s.log, at))
  }

  ghost predicate PassedAreProcessable(cfg: Config, s: Cluster) {
    forall at: Coordinate :: at.offset < Checkpoint(s.tables, cfg.epoch, at.key) ==> Passable(cfg, s, at)
  }

  ghost predicate Sound(cfg: Config, s: Cluster) {
    Inv(cfg, s) && ConsumersFit(cfg, s) && PassedAreProcessable(cfg, s)
  }

  lemma FitsStays(cfg: Config, s: Cluster, s': Cluster, events: seq<ConsumedEvent>)
    requires Grows(cfg, s, s') && AllFit(cfg, s.log, events)
    ensures AllFit(cfg, s'.log, events)
  {
    forall event | event in events ensures Fits(cfg, s'.log, event) {
      assert Fits(cfg, s.log, event);
    }
  }

  lemma ConsumersFitStays(cfg: Config, s: Cluster, s': Cluster)
    requires Grows(cfg, s, s') && ConsumersFit(cfg, s)
    requires forall id :: id in s'.consumers ==> id in s.consumers && s'.consumers[id] == s.consumers[id]
    ensures ConsumersFit(cfg, s')
  {
    forall id | id in s'.consumers ensures ConsumerFits(cfg, s'.log, s'.consumers[id]) {
      var c := s.consumers[id];
      FitsStays(cfg, s, s', c.collector.events);
      if c.inFlight.Some? {
        FitsStays(cfg, s, s', c.inFlight.value);
      }
    }
  }

  lemma PassedStay(cfg: Config, s: Cluster, s': Cluster)
    requires Grows(cfg, s, s') && PassedAreProcessable(cfg, s)
    requires forall at: Coordinate ::
               Checkpoint(s.tables, cfg.epoch, at.key) <= at.offset < Checkpoint(s'.tables, cfg.epoch, at.key) ==>
                   Passable(cfg, s', at)
    ensures PassedAreProcessable(cfg, s')
  {
    forall at: Coordinate | at.offset < Checkpoint(s'.tables, cfg.epoch, at.key) ensures Passable(cfg, s', at) {
      if at.offset < Checkpoint(s.tables, cfg.epoch, at.key) {
        assert Passable(cfg, s, at);
      }
    }
  }

  lemma BufferingFits(cfg: Config, log: map<PartitionKey, seq<LogRecord>>, c: Consumer, at: Coordinate, now: real)
    requires ConsumerFits(cfg, log, c) && InLog(log, at)
    ensures ConsumerFits(cfg, log, Buffered(c, cfg.limits, at, RecordAt(log, at), now))
  {
  }

  lemma LocalStepFits(cfg: Config, s: Cluster, step: Step)
    requires ConsumersFit(cfg, s)
    requires step.Assign? || step.Revoke? || step.Receive? || step.TakeBatch? || step.AbortBatch? || step.CommitKafka?
             || step.Crash?
    ensures ConsumersFit(cfg, Next(cfg, s, step))
  {
    assert ConsumerFits(cfg, s.log, ConsumerOf(s, step.consumer));
    if step.Receive? && InLog(s.log, step.at) {
      BufferingFits(cfg, s.log, ConsumerOf(s, step.consumer), step.at, step.now);
    }
  }

  /** Every offset a batch lets a checkpoint pass has an event of the batch, all of which are within the budget. */
  lemma PersistPassesProcessable(cfg: Config, s: Cluster, events: seq<ConsumedEvent>, at: Coordinate)
    ensures var (after, result) := Persist(s.tables, cfg.epoch, events, cfg.maxMetricRows);
            AllFit(cfg, s.log, events) && result.Ok?
            && Checkpoint(s.tables, cfg.epoch, at.key) <= at.offset < Checkpoint(after, cfg.epoch, at.key)
            ==> Passable(cfg, s, at)
  {
    var (after, result) := Persist(s.tables, cfg.epoch, events, cfg.maxMetricRows);
    if AllFit(cfg, s.log, events) && result.Ok?
       && Checkpoint(s.tables, cfg.epoch, at.key) <= at.offset < Checkpoint(after, cfg.epoch, at.key)
    {
      var rows := RowsOf(events);
      CheckpointPassesOnlyHandled(s.tables, cfg.epoch, rows, at.key, at.offset);
      var row :| row in rows && row.key == at.key && row.offset == at.offset;
      RowsOfMembers(events);
      var event :| event in events && row == RawRowFromEvent(event);
      assert Fits(cfg, s.log, event);
      assert Expansion(row.record, cfg.maxMetricRows).Ok?;
    }
  }

  lemma PersistKeepsSound(cfg: Config, s: Cluster, id: int)
    requires Sound(cfg, s)
    ensures Sound(cfg, Next(cfg, s, PersistBatch(id)))
  {
    var s' := Next(cfg, s, PersistBatch(id));
    StepKeepsInvariant(cfg, s, PersistBatch(id));
    var c := ConsumerOf(s, id);
    assert ConsumerFits(cfg, s.log, c);
    if c.inFlight.Some? {
      forall at: Coordinate
        | Checkpoint(s.tables, cfg.epoch, at.key) <= at.offset < Checkpoint(s'.tables, cfg.epoch, at.key)
        ensures Passable(cfg, s', at)
      {
        PersistPassesProcessable(cfg, s, c.inFlight.value, at);
      }
    }
    PassedStay(cfg, s, s');
  }

  lemma IgnoredKeepsSound(cfg: Config, s: Cluster, id: int, at: Coordinate)
    requires Sound(cfg, s)
    ensures Sound(cfg, Next(cfg, s, CheckpointIgnoredRecord(id, at)))
  {
    var s' := Next(cfg, s, CheckpointIgnoredRecord(id, at));
    StepKeepsInvariant(cfg, s, CheckpointIgnoredRecord(id, at));
    assert ConsumerFits(cfg, s.log, ConsumerOf(s, id));
    if InLog(s.log, at) && Interpret(RecordAt(s.log, at)) == Ignored {
      forall other: Coordinate
        | Checkpoint(s.tables, cfg.epoch, other.key) <= other.offset < Checkpoint(s'.tables, cfg.epoch, other.key)
        ensures Passable(cfg, s', other)
      {
        IgnoredPassesItself(cfg, s.tables, at, other);
      }
    }
    PassedStay(cfg, s, s');
  }

  lemma OnlyTablesMoveCheckpoints(cfg: Config, s: Cluster, step: Step)
    requires !step.PersistBatch? && !step.CheckpointIgnoredRecord?
    ensures forall key :: Checkpoint(Next(cfg, s, step).tables, cfg.epoch, key) == Checkpoint(s.tables, cfg.epoch, key)
  {
    if step.Assign? {
      EnsureKeepsCheckpoints(s.tables, cfg.epoch, step.keys);
    }
  }

  lemma StepKeepsSound(cfg: Config, s: Cluster, step: Step)
    requires Sound(cfg, s)
    ensures Sound(cfg, Next(cfg, s, step))
  {
    var s' := Next(cfg, s, step);
    match step
    case PersistBatch(id) => PersistKeepsSound(cfg, s, id);
    case CheckpointIgnoredRecord(id, at) => IgnoredKeepsSound(cfg, s, id, at);
    case Produce(_, _) =>
      StepKeepsInvariant(cfg, s, step);
      ConsumersFitStays(cfg, s, s');
      PassedStay(cfg, s, s');
    case _ =>
      StepKeepsInvariant(cfg, s, step);
      LocalStepFits(cfg, s, step);
      OnlyTablesMoveCheckpoints(cfg, s, step);
      PassedStay(cfg, s, s');
  }

  lemma {:induction false} EveryRunIsSound(cfg: Config, steps: seq<Step>)
    ensures Sound(cfg, Run(cfg, steps))
  {
    if steps != [] {
      EveryRunIsSound(cfg, steps[..|steps| - 1]);
      StepKeepsSound(cfg, Run(cfg, steps[..|steps| - 1]), steps[|steps| - 1]);
    }
  }

  /** In every run, the records below a checkpoint are of the log, and such as a checkpoint can pass. */
  lemma {:induction false} EveryRunPassesSuch(cfg: Config, steps: seq<Step>, at: Coordinate)
    requires at.offset < Checkpoint(Run(cfg, steps).tables, cfg.epoch, at.key)
    ensures InLog(Run(cfg, steps).log, at) && Passes(cfg, RecordAt(Run(cfg, steps).log, at))
  {
    EveryRunIsSound(cfg, steps);
    assert Passable(cfg, Run(cfg, steps), at);
    ProcessableIff(cfg, RecordAt(Run(cfg, steps).log, at));
  }

  // ------------------------------------------------------------------- going on from here

  lemma {:induction false} UnusedId(ids: set<int>) returns (id: int)
    ensures id !in ids && forall other :: other in ids ==> other < id
  {
    if ids == {} {
      id := 0;
    } else {
      assert (forall other :: other !in ids) ==> ids == {};
      var some :| some in ids;
      var rest := UnusedId(ids - {some});
      id := if rest > some then rest else some + 1;
      forall other | other in ids ensures other < id {
        assert other == some || other in ids - {some};
      }
    }
  }

  /** What a new consumer does from its assignment on, with the whole log retained, to get past one record. */
  function Visit(id: int, at: Coordinate, record: LogRecord): seq<Step> {
    var settle :=
      if Interpret(record) == Ignored then [CheckpointIgnoredRecord(id, at)]
      else [Receive(id, at, 0.0), TakeBatch(id)] + [PersistBatch(id)];
    [Assign(id, {at.key}, map[at.key := 0])] + (settle + [CommitKafka(id, 0), Crash(id)])
  }

  /** The cluster once the record is checkpointed or its batch persisted. */
  function AfterSettling(cfg: Config, s: Cluster, id: int, at: Coordinate, record: LogRecord): Cluster {
    if Interpret(record) == Ignored then Next(cfg, s, CheckpointIgnoredRecord(id, at))
    else Next(cfg, Next(cfg, Next(cfg, s, Receive(id, at, 0.0)), TakeBatch(id)), PersistBatch(id))
  }

  const NEWCOMER := FRESH_CONSUMER.(active := true)

  /** A consumer id is free, and Kafka is not ahead of SQL. */
  ghost predicate Ready(cfg: Config, s: Cluster, id: int) {
    id !in s.consumers && Behind(cfg, s.tables, s.committed)
  }

  ghost predicate NextAt(cfg: Config, s: Cluster, at: Coordinate) {
    Passable(cfg, s, at) && at.offset == Checkpoint(s.tables, cfg.epoch, at.key)
  }

  ghost predicate SameCheckpoints(cfg: Config, t: Tables, t': Tables) {
    forall key :: Checkpoint(t', cfg.epoch, key) == Checkpoint(t, cfg.epoch, key)
  }

  /** One checkpoint has moved past the record at it, and no other has moved. */
  ghost predicate Advanced(cfg: Config, t: Tables, t': Tables, at: Coordinate) {
    forall key ::
      Checkpoint(t', cfg.epoch, key) == if key == at.key then at.offset + 1 else Checkpoint(t, cfg.epoch, key)
  }

  /** The visitor has moved the checkpoint and has the new offset to commit. */
  ghost predicate HasSettled(cfg: Config, s: Cluster, s': Cluster, id: int, at: Coordinate) {
    && s'.log == s.log && s'.committed == s.committed && Advanced(cfg, s.tables, s'.tables, at)
    && ConsumerOf(s', id).settled == [map[at.key := at.offset + 1]]
    && ConsumerOf(s', id).active && !ConsumerOf(s', id).revoked
  }

  /** The visitor has committed the offset to Kafka, and has left no other trace. */
  ghost predicate MovedOn(cfg: Config, s: Cluster, s': Cluster, id: int, at: Coordinate) {
    && s'.log == s.log && s'.committed == s.committed[at.key := at.offset + 1] && id !in s'.consumers
    && Advanced(cfg, s.tables, s'.tables, at)
  }

  lemma Joins(cfg: Config, s: Cluster, id: int, at: Coordinate)
    requires Ready(cfg, s, id) && NextAt(cfg, s, at)
    ensures var s' := Next(cfg, s, Assign(id, {at.key}, map[at.key := 0]));
            && s'.log == s.log && s'.committed == s.committed && SameCheckpoints(cfg, s.tables, s'.tables)
            && NextAt(cfg, s', at) && ConsumerOf(s', id) == NEWCOMER.(owned := {at.key})
  {
    EnsureKeepsCheckpoints(s.tables, cfg.epoch, {at.key});
    assert ReconcileFor(cfg, s, map[at.key := 0], at.key).Ok?;
  }

  lemma NextOfAt(n: nat, cs: seq<Coordinate>, at: Coordinate, key: PartitionKey)
    requires cs == [at] && (key == at.key ==> n == at.offset)
    ensures NextOffset(n, Offsets(cs, key)) == if key == at.key then n + 1 else n
  {
    assert Offsets(cs, key) == if key == at.key then {at.offset} else {};
    NextOffsetUnique(n, Offsets(cs, key), if key == at.key then n + 1 else n);
  }

  lemma IgnoredAdvances(cfg: Config, t: Tables, at: Coordinate)
    requires at.offset == Checkpoint(t, cfg.epoch, at.key)
    ensures Advanced(cfg, t, CheckpointIgnored(t, cfg.epoch, [at]).0, at)
  {
    forall key
      ensures Checkpoint(CheckpointIgnored(t, cfg.epoch, [at]).0, cfg.epoch, key)
              == if key == at.key then at.offset + 1 else Checkpoint(t, cfg.epoch, key)
    {
      ReadAfterAdvance(OfEpoch(t.checkpoints, cfg.epoch), [at], key);
      NextOfAt(Checkpoint(t, cfg.epoch, key), [at], at, key);
    }
  }

  lemma MovedOfOne(m: map<PartitionKey, nat>, cs: seq<Coordinate>, at: Coordinate)
    requires cs == [at] && at.offset == Read(m, at.key)
    ensures MovedBy(m, cs) == map[at.key := at.offset + 1]
  {
    NextOfAt(at.offset, cs, at, at.key);
    assert Keys(cs) == {at.key};
  }

  lemma SettlesIgnored(cfg: Config, s: Cluster, id: int, at: Coordinate)
    requires NextAt(cfg, s, at) && Interpret(RecordAt(s.log, at)) == Ignored
    requires ConsumerOf(s, id) == NEWCOMER.(owned := {at.key})
    ensures HasSettled(cfg, s, Next(cfg, s, CheckpointIgnoredRecord(id, at)), id, at)
  {
    IgnoredAdvances(cfg, s.tables, at);
    MovedOfOne(OfEpoch(s.tables.checkpoints, cfg.epoch), [at], at);
  }

  /** A consumer with an empty collector takes the one event into a batch. */
  lemma VisitCollects(cfg: Config, s: Cluster, id: int, at: Coordinate, e: ConsumedEvent)
    requires NextAt(cfg, s, at) && Interpret(RecordAt(s.log, at)).Event?
    requires ConsumerOf(s, id) == NEWCOMER.(owned := {at.key})
    requires e == ConsumedEvent(at.key, at.offset, Interpret(RecordAt(s.log, at)).envelope, RecordAt(s.log, at).size)
    ensures var s' := Next(cfg, Next(cfg, s, Receive(id, at, 0.0)), TakeBatch(id));
            && s'.log == s.log && s'.tables == s.tables && s'.committed == s.committed
            && ConsumerOf(s', id) == NEWCOMER.(owned := {at.key}, inFlight := Some([e]))
  {
    assert Buffered(ConsumerOf(s, id), cfg.limits, at, RecordAt(s.log, at), 0.0).collector.events == [e];
  }

  lemma RowsOfOne(e: ConsumedEvent)
    ensures RowsOf([e]) == [RawRowFromEvent(e)] && Coordinates(RowsOf([e])) == [Coordinate(e.key, e.offset)]
  {
    RowsOfMembers([e]);
    assert RowsOf([e])[0] in RowsOf([e]);
  }

  lemma BatchOfOneAdvances(cfg: Config, t: Tables, e: ConsumedEvent)
    requires e.offset == Checkpoint(t, cfg.epoch, e.key) && Expansion(RecordOf(e.envelope), cfg.maxMetricRows).Ok?
    ensures Persist(t, cfg.epoch, [e], cfg.maxMetricRows).1.Ok?
    ensures Persist(t, cfg.epoch, [e], cfg.maxMetricRows).1.value.nextOffsets == map[e.key := e.offset + 1]
    ensures Advanced(cfg, t, Persist(t, cfg.epoch, [e], cfg.maxMetricRows).0, Coordinate(e.key, e.offset))
  {
    var rows, at := RowsOf([e]), Coordinate(e.key, e.offset);
    RowsOfOne(e);
    assert Expandable(rows, cfg.maxMetricRows);
    MovedOfOne(OfEpoch(t.checkpoints, cfg.epoch), Coordinates(rows), at);
    forall key
      ensures Checkpoint(Projected(t, cfg.epoch, rows), cfg.epoch, key)
              == if key == at.key then at.offset + 1 else Checkpoint(t, cfg.epoch, key)
    {
      CheckpointAfter(t, cfg.epoch, rows, cfg.epoch, key);
      NextOfAt(Checkpoint(t, cfg.epoch, key), Coordinates(rows), at, key);
    }
  }

  lemma PersistsInFlight(cfg: Config, s: Cluster, id: int, e: ConsumedEvent)
    requires ConsumerOf(s, id) == NEWCOMER.(owned := {e.key}, inFlight := Some([e]))
    requires Persist(s.tables, cfg.epoch, [e], cfg.maxMetricRows).1.Ok?
    ensures var s' := Next(cfg, s, PersistBatch(id));
            var (tables, result) := Persist(s.tables, cfg.epoch, [e], cfg.maxMetricRows);
            && s'.log == s.log && s'.committed == s.committed && s'.tables == tables
            && ConsumerOf(s', id) == NEWCOMER.(owned := {e.key}, settled := [result.value.nextOffsets])
  {
  }

  lemma SettlesBatch(cfg: Config, s: Cluster, taken: Cluster, id: int, e: ConsumedEvent)
    requires e.offset == Checkpoint(s.tables, cfg.epoch, e.key)
    requires Expansion(RecordOf(e.envelope), cfg.maxMetricRows).Ok?
    requires taken.log == s.log && taken.tables == s.tables && taken.committed == s.committed
    requires ConsumerOf(taken, id) == NEWCOMER.(owned := {e.key}, inFlight := Some([e]))
    ensures HasSettled(cfg, s, Next(cfg, taken, PersistBatch(id)), id, Coordinate(e.key, e.offset))
  {
    BatchOfOneAdvances(cfg, s.tables, e);
    PersistsInFlight(cfg, taken, id, e);
  }

  lemma SettlesEvent(cfg: Config, s: Cluster, id: int, at: Coordinate)
    requires NextAt(cfg, s, at) && Interpret(RecordAt(s.log, at)).Event?
    requires ConsumerOf(s, id) == NEWCOMER.(owned := {at.key})
    ensures var taken := Next(cfg, Next(cfg, s, Receive(id, at, 0.0)), TakeBatch(id));
            HasSettled(cfg, s, Next(cfg, taken, PersistBatch(id)), id, at)
  {
    var e := ConsumedEvent(at.key, at.offset, Interpret(RecordAt(s.log, at)).envelope, RecordAt(s.log, at).size);
    VisitCollects(cfg, s, id, at, e);
    SettlesBatch(cfg, s, Next(cfg, Next(cfg, s, Receive(id, at, 0.0)), TakeBatch(id)), id, e);
  }

  lemma CommitsAndLeaves(cfg: Config, s: Cluster, s': Cluster, id: int, at: Coordinate)
    requires HasSettled(cfg, s, s', id, at)
    ensures MovedOn(cfg, s, Next(cfg, Next(cfg, s', CommitKafka(id, 0)), Crash(id)), id, at)
  {
    assert s'.committed + map[at.key := at.offset + 1] == s.committed[at.key := at.offset + 1];
  }

  /** A function applied once for each item. */
  function Iterate<S, T>(f: (S, T) -> S, s: S, items: seq<T>): S {
    if items == [] then s else f(Iterate(f, s, items[..|items| - 1]), items[|items| - 1])
  }

  lemma IterateSnoc<S, T>(f: (S, T) -> S, s: S, items: seq<T>, item: T)
    ensures Iterate(f, s, items + [item]) == f(Iterate(f, s, items), item)
  {
    assert (items + [item])[..|items|] == items;
  }

  lemma {:induction false} IterateConcat<S, T>(f: (S, T) -> S, s: S, items: seq<T>, more: seq<T>)
    ensures Iterate(f, s, items + more) == Iterate(f, Iterate(f, s, items), more)
  {
    if more == [] {
      assert items + more == items;
    } else {
      var front, last := more[..|more| - 1], more[|more| - 1];
      IterateConcat(f, s, items, front);
      IterateSnoc(f, s, items + front, last);
      IterateSnoc(f, Iterate(f, s, items), front, last);
      assert items + front + [last] == items + more && front + [last] == more;
    }
  }

  function StepOf(cfg: Config): (Cluster, Step) -> Cluster {
    (s: Cluster, step: Step) => Next(cfg, s, step)
  }

  /** Some steps from a state on. */
  function Continue(cfg: Config, s: Cluster, more: seq<Step>): Cluster {
    Iterate(StepOf(cfg), s, more)
  }

  lemma {:induction false} RunIterates(cfg: Config, steps: seq<Step>)
    ensures Run(cfg, steps) == Continue(cfg, START, steps)
  {
    if steps != [] { RunIterates(cfg, steps[..|steps| - 1]); }
  }

  lemma RunContinues(cfg: Config, steps: seq<Step>, more: seq<Step>)
    ensures Run(cfg, steps + more) == Continue(cfg, Run(cfg, steps), more)
  {
    RunIterates(cfg, steps);
    RunIterates(cfg, steps + more);
    IterateConcat(StepOf(cfg), START, steps, more);
  }

  lemma ContinueOne(cfg: Config, s: Cluster, step: Step)
    ensures Continue(cfg, s, [step]) == Next(cfg, s, step)
  {
    IterateSnoc(StepOf(cfg), s, [], step);
    assert [] + [step] == [step];
  }

  lemma ContinueTwo(cfg: Config, s: Cluster, a: Step, b: Step)
    ensures Continue(cfg, s, [a, b]) == Next(cfg, Next(cfg, s, a), b)
  {
    IterateSnoc(StepOf(cfg), s, [], a);
    IterateSnoc(StepOf(cfg), s, [a], b);
    assert [] + [a] == [a] && [a] + [b] == [a, b];
  }

  lemma ContinueSettling(cfg: Config, s: Cluster, id: int, at: Coordinate, record: LogRecord, settle: seq<Step>)
    requires settle == if Interpret(record) == Ignored then [CheckpointIgnoredRecord(id, at)]
                       else [Receive(id, at, 0.0), TakeBatch(id)] + [PersistBatch(id)]
    ensures Continue(cfg, s, settle) == AfterSettling(cfg, s, id, at, record)
  {
    if Interpret(record) == Ignored {
      ContinueOne(cfg, s, CheckpointIgnoredRecord(id, at));
    } else {
      IterateConcat(StepOf(cfg), s, [Receive(id, at, 0.0), TakeBatch(id)], [PersistBatch(id)]);
      ContinueTwo(cfg, s, Receive(id, at, 0.0), TakeBatch(id));
      ContinueOne(cfg, Next(cfg, Next(cfg, s, Receive(id, at, 0.0)), TakeBatch(id)), PersistBatch(id));
    }
  }

  lemma ContinueVisit(cfg: Config, s: Cluster, id: int, at: Coordinate, record: LogRecord)
    ensures var joined := Next(cfg, s, Assign(id, {at.key}, map[at.key := 0]));
            var settled := AfterSettling(cfg, joined, id, at, record);
            Continue(cfg, s, Visit(id, at, record))
            == Next(cfg, Next(cfg, settled, CommitKafka(id, 0)), Crash(id))
  {
    var join := Assign(id, {at.key}, map[at.key := 0]);
    var joined := Next(cfg, s, join);
    var settle :=
      if Interpret(record) == Ignored then [CheckpointIgnoredRecord(id, at)]
      else [Receive(id, at, 0.0), TakeBatch(id)] + [PersistBatch(id)];
    var leave := [CommitKafka(id, 0), Crash(id)];
    ContinueOne(cfg, s, join);
    IterateConcat(StepOf(cfg), s, [join], settle + leave);
    IterateConcat(StepOf(cfg), joined, settle, leave);
    ContinueSettling(cfg, joined, id, at, record, settle);
    ContinueTwo(cfg, AfterSettling(cfg, joined, id, at, record), CommitKafka(id, 0), Crash(id));
  }

  lemma VisitMovesOn(cfg: Config, s: Cluster, id: int, at: Coordinate)
    requires Ready(cfg, s, id) && NextAt(cfg, s, at)
    ensures MovedOn(cfg, s, Continue(cfg, s, Visit(id, at, RecordAt(s.log, at))), id, at)
  {
    var record := RecordAt(s.log, at);
    var joined := Next(cfg, s, Assign(id, {at.key}, map[at.key := 0]));
    Joins(cfg, s, id, at);
    ContinueVisit(cfg, s, id, at, record);
    if Interpret(record) == Ignored {
      SettlesIgnored(cfg, joined, id, at);
    } else {
      SettlesEvent(cfg, joined, id, at);
    }
    CommitsAndLeaves(cfg, joined, AfterSettling(cfg, joined, id, at, record), id, at);
  }

  // ------------------------------------------------------------------ roads to the ends

  /** The records from the checkpoint up to an offset can all be passed. */
  ghost predicate ClearUpTo(cfg: Config, s: Cluster, key: PartitionKey, end: nat) {
    && Checkpoint(s.tables, cfg.epoch, key) <= end
    && forall offset :: Checkpoint(s.tables, cfg.epoch, key) <= offset < end ==>
        Passable(cfg, s, Coordinate(key, offset))
  }

  /** Something of the partition's log is left beyond its checkpoint. */
  ghost predicate HasMore(cfg: Config, s: Cluster, key: PartitionKey) {
    Checkpoint(s.tables, cfg.epoch, key) < |LogOf(s.log, key)|
  }

  /**
   * Some checkpoints have come to the ends of their logs, with Kafka's offsets where they had to move, and nothing else
   * has happened.
   */
  ghost predicate Arrived(cfg: Config, s: Cluster, s': Cluster, id: int, keys: set<PartitionKey>) {
    && s'.log == s.log && Ready(cfg, s', id)
    && (forall key :: Checkpoint(s'.tables, cfg.epoch, key)
                      == if key in keys then |LogOf(s.log, key)| else Checkpoint(s.tables, cfg.epoch, key))
    && (forall key :: CommittedOffset(s', key)
                      == if key in keys && HasMore(cfg, s, key) then Some(|LogOf(s.log, key)|)
                         else CommittedOffset(s, key))
  }

  lemma ClearBehind(cfg: Config, s: Cluster, s': Cluster, id: int, key: PartitionKey, end: nat)
    requires Ready(cfg, s, id) && ClearUpTo(cfg, s, key, end) && Checkpoint(s.tables, cfg.epoch, key) < end
    requires MovedOn(cfg, s, s', id, Coordinate(key, Checkpoint(s.tables, cfg.epoch, key)))
    ensures Ready(cfg, s', id) && ClearUpTo(cfg, s', key, end)
  {
    forall offset | Checkpoint(s'.tables, cfg.epoch, key) <= offset < end
      ensures Passable(cfg, s', Coordinate(key, offset))
    {
      assert Passable(cfg, s, Coordinate(key, offset));
    }
  }

  lemma ArrivesAfterVisit(cfg: Config, s: Cluster, s': Cluster, s'': Cluster, id: int, key: PartitionKey)
    requires HasMore(cfg, s, key) && MovedOn(cfg, s, s', id, Coordinate(key, Checkpoint(s.tables, cfg.epoch, key)))
    requires Arrived(cfg, s', s'', id, {key})
    ensures Arrived(cfg, s, s'', id, {key})
  {
    if !HasMore(cfg, s', key) {
      assert CommittedOffset(s'', key) == CommittedOffset(s', key) == Some(|LogOf(s.log, key)|);
    }
  }

  lemma ArrivesOneByOne(
      cfg: Config, s: Cluster, s': Cluster, s'': Cluster, id: int, key: PartitionKey, rest: set<PartitionKey>)
    requires key !in rest && Arrived(cfg, s, s', id, {key}) && Arrived(cfg, s', s'', id, rest)
    ensures Arrived(cfg, s, s'', id, rest + {key})
  {
  }

  /** Visit after visit takes one checkpoint to the end of its log. */
  lemma {:induction false} OneRoad(cfg: Config, s: Cluster, id: int, key: PartitionKey) returns (more: seq<Step>)
    requires Ready(cfg, s, id) && ClearUpTo(cfg, s, key, |LogOf(s.log, key)|)
    ensures Arrived(cfg, s, Continue(cfg, s, more), id, {key})
    decreases |LogOf(s.log, key)| - Checkpoint(s.tables, cfg.epoch, key)
  {
    var from, end := Checkpoint(s.tables, cfg.epoch, key), |LogOf(s.log, key)|;
    if from == end {
      more := [];
    } else {
      var at := Coordinate(key, from);
      assert Passable(cfg, s, at);
      var visit := Visit(id, at, RecordAt(s.log, at));
      var s' := Continue(cfg, s, visit);
      VisitMovesOn(cfg, s, id, at);
      ClearBehind(cfg, s, s', id, key, end);
      var rest := OneRoad(cfg, s', id, key);
      more := visit + rest;
      IterateConcat(StepOf(cfg), s, visit, rest);
      ArrivesAfterVisit(cfg, s, s', Continue(cfg, s', rest), id, key);
    }
  }

  lemma StillClear(cfg: Config, s: Cluster, s': Cluster, id: int, done: PartitionKey, key: PartitionKey)
    requires Arrived(cfg, s, s', id, {done}) && key != done && ClearUpTo(cfg, s, key, |LogOf(s.log, key)|)
    ensures ClearUpTo(cfg, s', key, |LogOf(s'.log, key)|)
  {
    forall offset | Checkpoint(s'.tables, cfg.epoch, key) <= offset < |LogOf(s'.log, key)|
      ensures Passable(cfg, s', Coordinate(key, offset))
    {
      assert Passable(cfg, s, Coordinate(key, offset));
    }
  }

  /** Partition after partition. */
  lemma {:induction false} AllRoads(
      cfg: Config, s: Cluster, id: int, keys: set<PartitionKey>) returns (more: seq<Step>)
    requires Ready(cfg, s, id) && forall key :: key in keys ==> ClearUpTo(cfg, s, key, |LogOf(s.log, key)|)
    ensures Arrived(cfg, s, Continue(cfg, s, more), id, keys)
    decreases keys
  {
    if keys == {} {
      more := [];
    } else {
      var key :| key in keys;
      var road := OneRoad(cfg, s, id, key);
      var s' := Continue(cfg, s, road);
      forall other | other in keys - {key} ensures ClearUpTo(cfg, s', other, |LogOf(s'.log, other)|) {
        StillClear(cfg, s, s', id, key, other);
      }
      var rest := AllRoads(cfg, s', id, keys - {key});
      more := road + rest;
      IterateConcat(StepOf(cfg), s, road, rest);
      ArrivesOneByOne(cfg, s, s', Continue(cfg, s', rest), id, key, keys - {key});
      assert keys - {key} + {key} == keys;
    }
  }

  lemma {:induction false} PassedRecordsWereProcessable(cfg: Config, steps: seq<Step>, more: seq<Step>, at: Coordinate)
    requires InLog(Run(cfg, steps).log, at) && at.offset < Checkpoint(Run(cfg, steps + more).tables, cfg.epoch, at.key)
    ensures Passable(cfg, Run(cfg, steps), at)
  {
    RunGrows(cfg, steps, more);
    EveryRunIsSound(cfg, steps + more);
    assert Passable(cfg, Run(cfg, steps + more), at);
  }

  /** The checkpoint has reached the end its log had, and Kafka's offset with it if it had to move. */
  ghost predicate AtEnd(cfg: Config, s: Cluster, later: Cluster, key: PartitionKey) {
    var end := |LogOf(s.log, key)|;
    && end <= Checkpoint(later.tables, cfg.epoch, key)
    && (HasMore(cfg, s, key) ==> key in later.committed && end <= later.committed[key])
  }

  /** Some continuation takes the checkpoints of these partitions to the ends their logs have now. */
  ghost predicate CanReachEnds(cfg: Config, steps: seq<Step>, keys: set<PartitionKey>) {
    exists more :: forall key :: key in keys ==> AtEnd(cfg, Run(cfg, steps), Run(cfg, steps + more), key)
  }

  /** Every record of these partitions from the checkpoint on can be passed. */
  ghost predicate AllPass(cfg: Config, s: Cluster, keys: set<PartitionKey>) {
    forall at: Coordinate ::
      at.key in keys && InLog(s.log, at) && Checkpoint(s.tables, cfg.epoch, at.key) <= at.offset ==>
          Passes(cfg, RecordAt(s.log, at))
  }

  lemma {:induction false} RoadsLeadToEnds(cfg: Config, steps: seq<Step>, keys: set<PartitionKey>)
    requires AllPass(cfg, Run(cfg, steps), keys)
    ensures CanReachEnds(cfg, steps, keys)
  {
    var s := Run(cfg, steps);
    var id := UnusedId(s.consumers.Keys);
    EveryRunIsSound(cfg, steps);
    forall key | key in keys ensures ClearUpTo(cfg, s, key, |LogOf(s.log, key)|) {
      var from := Checkpoint(s.tables, cfg.epoch, key);
      assert from > 0 ==> Passable(cfg, s, Coordinate(key, from - 1));
      forall offset | from <= offset < |LogOf(s.log, key)| ensures Passable(cfg, s, Coordinate(key, offset)) {
        assert InLog(s.log, Coordinate(key, offset));
        ProcessableIff(cfg, RecordAt(s.log, Coordinate(key, offset)));
      }
    }
    var more := AllRoads(cfg, s, id, keys);
    RunContinues(cfg, steps, more);
  }

  /**
   * From a reachable state some continuation brings the checkpoints of any partitions to the ends of their logs, all
   * at once, if and only if each record from the checkpoints on is to be ignored, or is an event that fits a batch and
   * whose metrics fit the budget and are floats.
   */
  lemma {:induction false} CanReachEndsIff(cfg: Config, steps: seq<Step>, keys: set<PartitionKey>)
    ensures CanReachEnds(cfg, steps, keys) <==> AllPass(cfg, Run(cfg, steps), keys)
  {
    var s := Run(cfg, steps);
    if CanReachEnds(cfg, steps, keys) {
      var more :| forall key :: key in keys ==> AtEnd(cfg, s, Run(cfg, steps + more), key);
      forall at: Coordinate
        | at.key in keys && InLog(s.log, at) && Checkpoint(s.tables, cfg.epoch, at.key) <= at.offset
        ensures Passes(cfg, RecordAt(s.log, at))
      {
        assert AtEnd(cfg, s, Run(cfg, steps + more), at.key);
        PassedRecordsWereProcessable(cfg, steps, more, at);
        ProcessableIff(cfg, RecordAt(s.log, at));
      }
    }
    if AllPass(cfg, s, keys) {
      RoadsLeadToEnds(cfg, steps, keys);
    }
  }
}
