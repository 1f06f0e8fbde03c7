# Verification of the Unified Namespace pipeline

A Dafny model of the parts of the repository that move events between MQTT, Kafka and SQL, with proofs of what they
promise. `dafny verify dfyconfig.toml` checks the whole project.

The historian reads Kafka partitions, projects telemetry into raw and metric tables and lets its SQL checkpoints, not
Kafka's offsets, say where to resume. `HistorianTables` and `HistorianDatabase` hold the batch transaction, as a value
function and as the imperative method proved equal to it; `PersistLaws` what one batch keeps; `BatchContents` what it
writes and reports, in terms of the envelopes alone; `HistorianConsumer` the consumer's own state; `HistorianProtocol`
all runs of any number of consumers over one log, with drops, rejections, crashes, rebalances and replays;
`HistorianProgress` when checkpoints can still move on; `LateRefresh` the workers that refresh aggregates of days with
late telemetry. A step is one callback or one transaction. Row locks keep transactions over a common partition apart.
Transactions over different partitions leave the tables as one after the other would, but not always the counters: of
two that both read no row for an identity, the one that inserts later counts its row as a duplicate, even under
different content. The reported counts and quarantined conflicts are those of transactions one after the other.

The ingestion owner takes MQTT messages to Kafka and acknowledges them by hand. `PublicationRoutes` and `Ingress`
decide what becomes of a message, `Ingestion` is the bounded owner with its counters, `IngestionAcks` states over
whole runs which acknowledgements it may send, callbacks that re-enter it while it publishes included, and
`IngestionAnswers` that those that are due do come.

`SparkplugCodecs` and `SparkplugFold` are the value codecs and the fold of metrics into topic messages,
`SparkplugSessions` what aliases stand for over sequences of messages. `Events` is the event envelope,
`MetricFlattener` and `MetricStream` the flattening of payloads, `TopicPaths`, `AssetModel` and `TopicCaches` the
binding of topics to assets, `Hierarchy` the authored tree. `ContiguousOffsets`, `Splitting`, `Sorting`, `Lru` and
`Wrappers` are shared.

Where the source updates fields, the model has a class whose methods are proved to compute a function of the old
state; the theorems are about those functions.

What the source does not keep is stated as such, with the exact condition under which it does:

- Metrics are filtered by event id alone, and assignment does not empty the collector. The metrics at the end of a run are
  exact if and only if no batch of it holds an event left out of the raw table that shares the id of an inserted one and
  has metrics of its own.
- The batch counters add up to the batch size if and only if no two new events of a batch share an id at different times.
- Content is compared before the batch's own rows go in: a row that loses against another is quarantined in every case if
  and only if no two new rows share an identity under different content.
- Checkpoints can reach the ends of their logs if and only if every record left is to be ignored, or is an event that fits
  a batch and whose metrics fit the budget and are floats. An undecodable record holds its checkpoint for good, and so does
  one too large, or one with an integer of 2^1024 - 2^970 or more among the metrics looked at.
- The envelope round trip holds if and only if a version 1 payload timestamp, as stored, is below 10^11; the version 1
  view of a version 2 event normalises its timestamp twice.
- The overlap check refuses some pairs of filters that no topic matches: exactly the near misses.
- A tag that is not the only one of its Sparkplug topic can have an older reading, or a placeholder, at its head, and a
  reading tagged `timestamp` makes the fold fail if and only if it is neither the first nor the last of its topic.
- A device with the id `None` shares the alias cache of its edge node.
- Binder and loader of an asset differ on inactive assets and on empty segments.
- The ingestion owner lets exceptions out. Most come before anything is reserved and leave counters and pending deliveries
  alone: another QoS than 1; outside the routes, a payload timestamp that is no number, no float or no date; on a route, a
  publication whose decoding ends in another exception than an envelope error, a boot id without a UTF-8 form, a payload
  that breaks the parser, a time that has no date in UTC; on both, an envelope that JSON or UTF-8 cannot write, a Sparkplug
  topic too short for a partition key, a rejection too long to encode. A publication that fails otherwise than by a full
  buffer raises after the reservation, which then lasts until a callback reports the delivery.

## Model

| member | source | states |
|---|---|---|
| HistorianProtocol.EveryRunPassesOnlyHandledOffsets | 04_uns_historian/src/uns_historian/kafka_consumer.py:144-338 | in every run of any number of consumers, the record at every offset below a SQL checkpoint decodes, and it is a business event or a state snapshot, or the raw table has the time and event id of its envelope |
| HistorianProtocol.EveryRunReconciles | 04_uns_historian/src/uns_historian/kafka_consumer.py:221-242 | in every run an assignment never finds Kafka ahead of SQL, fails only on a retention gap, and otherwise resumes at a checkpoint below which every record is settled in that sense |
| HistorianProtocol.CommitEffect | 04_uns_historian/src/uns_historian/kafka_consumer.py:124-129 | offsets of a finished transaction reach Kafka exactly while the consumer has ownership that was not revoked |
| HistorianProtocol.AbortEffect | 04_uns_historian/src/uns_historian/kafka_consumer.py:131-142 | a transaction that fails drops its batch, and a crash all that its consumer held, with tables and Kafka offsets as they were |
| HistorianProtocol.AssignmentEffect | 04_uns_historian/src/uns_historian/kafka_consumer.py:221-242 | an assignment makes sure of a checkpoint row for each partition, is taken up exactly when Kafka is ahead of none and each checkpoint is retained, and leaves the collected batch alone |
| HistorianProtocol.StoredRowsAndCheckpointsLast | 04_uns_historian/src/uns_historian/historian_handler.py:260-413 | however a run goes on, stored raw rows stay as they are, no identity is stored twice, no checkpoint falls |
| HistorianProtocol.RejectedRecordHoldsCheckpoint | 04_uns_historian/src/uns_historian/kafka_consumer.py:144-177 | a record that does not decode, has an unknown kind or a version 2 timestamp without a number keeps its partition's checkpoint at or below it in every continuation: safe, not live |
| HistorianConsumer.InterpretationIff | 04_uns_historian/src/uns_historian/kafka_consumer.py:144-177 | a record is rejected exactly when it does not decode, its kind is unknown or its version 2 timestamp is no number, ignored exactly when it decodes to a business event or a state snapshot, and otherwise taken for an event with the time, event id, topic, kind and site of its envelope |
| HistorianConsumer.ViewExistsIff | 04_uns_historian/src/uns_historian/kafka_consumer.py:144-177 | an envelope of another kind has such a view exactly when its kind is known and, in version 2, its times are in the calendar and its payload timestamp is missing or a number that a float holds |
| HistorianProtocol.StepKeepsInvariant | 04_uns_historian/src/uns_historian/kafka_consumer.py:200-338 | each step (produce, assign, revoke, receive, take, persist, abort, ignore, commit, crash) keeps checkpoints safe, Kafka behind SQL and held events backed by the log |
| HistorianProtocol.RunKeepsInvariant | 04_uns_historian/src/uns_historian/kafka_consumer.py:200-338 | the whole invariant holds in every reachable state |
| HistorianProtocol.StepKeepsMetricsExactIff | 04_uns_historian/src/uns_historian/historian_handler.py:368-389 | a step keeps the metrics table exact if and only if it persists no batch with an echo of an inserted event id |
| HistorianProtocol.RunKeepsMetricsExactIff | 04_uns_historian/src/uns_historian/historian_handler.py:368-389 | at the end of a run the metrics are those of the stored rows, each exactly once, if and only if no step of the run echoed |
| HistorianProtocol.StepAddsSurplus | 04_uns_historian/src/uns_historian/historian_handler.py:368-389 | a step that echoes leaves metric rows too many for good, any other leaves their number beyond the stored rows alone |
| HistorianProtocol.DistinctIdsKeepRunsExact | 04_uns_historian/src/uns_historian/historian_handler.py:381-382 | runs whose batches hold pairwise distinct event ids never echo, so their metrics stay exact |
| HistorianProtocol.RedeliveryDuplicatesMetrics | 04_uns_historian/src/uns_historian/kafka_consumer.py:108-112 | reassignment leaves the collector alone, so a redelivered record enters one batch twice and its metrics are stored twice |
| HistorianProgress.CanReachEndsIff | 04_uns_historian/src/uns_historian/kafka_consumer.py:144-338 | from every reachable state one continuation, of newly assigned consumers, brings the checkpoints and Kafka's offsets of any partitions to the ends of their logs if and only if each of their records from the checkpoints on decodes and is a business event or a state snapshot, or an event that fits a batch and whose metrics fit the budget and are floats |
| HistorianProgress.OneRoad | 04_uns_historian/src/uns_historian/kafka_consumer.py:221-338 | visits by a consumer that is assigned the partition, takes the record at the checkpoint, settles it and commits move that one partition to its end and no other |
| HistorianProgress.EveryRunPassesSuch | 04_uns_historian/src/uns_historian/kafka_consumer.py:144-338 | in every run each record below a checkpoint is in the log, decodes, and is a business event or a state snapshot, or an event whose metrics fit the budget and are floats |
| HistorianTables.RowsInKafkaOrder | 04_uns_historian/src/uns_historian/historian_handler.py:276-277 | the rows of a batch go in partition by partition and by ascending offsets |
| PersistLaws.PersistIdempotent | 04_uns_historian/src/uns_historian/historian_handler.py:307-413 | a second run of a batch inserts nothing, moves no checkpoint or generation and returns no offsets |
| PersistLaws.RawTableAppendOnly | 04_uns_historian/src/uns_historian/historian_handler.py:344-367 | a batch only appends raw rows and keeps identities unique |
| PersistLaws.HandledRowsAreStored | 04_uns_historian/src/uns_historian/historian_handler.py:313-342 | after a batch the identity of every row that was not stale is in the raw table |
| PersistLaws.CheckpointPassesOnlyHandled | 04_uns_historian/src/uns_historian/historian_handler.py:391-405 | every offset a checkpoint newly passes belongs to a row of the batch whose identity is stored |
| PersistLaws.MetricsExactIff | 04_uns_historian/src/uns_historian/historian_handler.py:381-382 | a batch keeps the metrics exact if and only if it has no echo |
| PersistLaws.EchoesAddUp | 04_uns_historian/src/uns_historian/historian_handler.py:381-382 | from any tables, the metric rows beyond the stored rows grow by those of the batch's echoes |
| PersistLaws.RepeatedRowEchoes | 04_uns_historian/src/uns_historian/historian_handler.py:313-389 | a new telemetry event whose identity a batch repeats is an echo, whatever else the batch holds |
| PersistLaws.DistinctIdsKeepMetricsExact | 04_uns_historian/src/uns_historian/historian_handler.py:381-389 | pairwise distinct event ids rule echoes out |
| PersistLaws.CountersAddUpIff | 04_uns_historian/src/uns_historian/historian_handler.py:363-366 | inserted, duplicate, stale and quarantined add up to the batch size if and only if no two new events share an id at different times |
| PersistLaws.OneIdAtTwoTimesMiscounts | 04_uns_historian/src/uns_historian/historian_handler.py:363-366 | two new events of one id at two times are counted short |
| PersistLaws.LostContentIsQuarantinedIff | 04_uns_historian/src/uns_historian/historian_handler.py:314-336 | every handled row whose content is not the one stored is quarantined if and only if no two new rows share an identity under different content |
| PersistLaws.LostContentUnnoticed | 04_uns_historian/src/uns_historian/historian_handler.py:314-336 | of two new events with one identity and different content one is lost and nothing quarantined |
| PersistLaws.BatchKeepsGenerations | 04_uns_historian/src/uns_historian/historian_handler.py:387-389 | each day's pending generation stays the number of stored late telemetry rows of that day |
| BatchContents.RawRowsOfBatch | 04_uns_historian/src/uns_historian/batch.py:160-181 | a batch appends raw rows of its new events only, column by column what their envelopes hold; each new event has a row of its time and id, which with distinct ids is its own |
| BatchContents.MetricsOfEvent | 04_uns_historian/src/uns_historian/batch.py:205-227 | the metric rows of a telemetry event are one for each non-null scalar of its payload, under the time, topic and id of the envelope and the dotted path, with a number, a text or `true`/`false` in its column; other kinds have none |
| BatchContents.MetricsOfBatch | 04_uns_historian/src/uns_historian/historian_handler.py:368-389 | a batch appends those rows for its events whose id is that of a new one, each once for each such event, and no other |
| BatchContents.MetricsOfNewEvents | 04_uns_historian/src/uns_historian/historian_handler.py:368-389 | with pairwise distinct ids it appends exactly the rows of the new events |
| BatchContents.PersistsIff | 04_uns_historian/src/uns_historian/historian_handler.py:276-281 | a batch goes in exactly when each telemetry payload has no more scalars than the budget and numbers that floats hold; else no table changes |
| BatchContents.FirstMisfitRaises | 04_uns_historian/src/uns_historian/batch.py:205-227 | otherwise the first event in Kafka's order that does not fit decides whether it is for a number no float holds or for the budget |
| BatchContents.CheckpointsOfBatch | 04_uns_historian/src/uns_historian/historian_handler.py:391-405 | checkpoints of the epoch move over the offsets of the batch that follow them without a gap, and stop at the first that is not there |
| BatchContents.CheckpointsOfIgnored | 04_uns_historian/src/uns_historian/historian_handler.py:415-486 | ignored records move them alike and change nothing else |
| BatchContents.StaleCountIs | 04_uns_historian/src/uns_historian/historian_handler.py:415-486 | the ignored records counted as stale are those below their checkpoint |
| BatchContents.CountsOfBatch | 04_uns_historian/src/uns_historian/historian_handler.py:307-366 | stale, quarantined, inserted and duplicate are counts of the events below their checkpoint, of those that contradict what is stored, of new ids, and of events stored already or lost to another of the batch |
| BatchContents.ConflictsAreContradictions | 04_uns_historian/src/uns_historian/historian_handler.py:314-336 | a quarantined conflict names an event of the batch, its content and the other content stored under its identity |
| BatchContents.OffsetsOfBatch | 04_uns_historian/src/uns_historian/historian_handler.py:391-413 | the offsets returned are the checkpoints that moved, where they are now |
| BatchContents.LateRowIff | 04_uns_historian/src/uns_historian/historian_handler.py:384-389 | late telemetry is telemetry marked historical, on the UTC day its time lies in |
| HistorianDatabase.Database.PersistBatch | 04_uns_historian/src/uns_historian/historian_handler.py:260-413 | the imperative transaction computes exactly the specified projection of the batch, or raises before touching a table; what the projection writes and reports is stated from the envelopes in BatchContents |
| HistorianDatabase.Database.PersistRows | 04_uns_historian/src/uns_historian/historian_handler.py:284-413 | the part inside the transaction: locks, classification, inserts, metrics, bumps, checkpoints |
| HistorianDatabase.Database.ClassifyBatch | 04_uns_historian/src/uns_historian/historian_handler.py:307-342 | the classifying loop splits the rows into new, duplicate, stale and quarantined and lists the handled offsets |
| HistorianDatabase.Database.LockCheckpoints | 04_uns_historian/src/uns_historian/historian_handler.py:285-305 | each partition's checkpoint row is created at zero if missing, locked and read |
| HistorianDatabase.LockOrderIsStrict | 04_uns_historian/src/uns_historian/batch.py:201-202 | locks are taken in one strict order without repetition |
| HistorianDatabase.Database.CheckpointIgnoredRecords | 04_uns_historian/src/uns_historian/historian_handler.py:415-486 | ignored records advance the checkpoints over their contiguous offsets and touch nothing else |
| HistorianDatabase.Database.BuildMetricRows | 04_uns_historian/src/uns_historian/batch.py:205-227 | fails at the first metric beyond the budget, or at one up to there that is too large for a float, whichever is first; the generator is pulled one metric at a time and the rest stays unexpanded; BatchContents.MetricsOfEvent says what the rows hold |
| HistorianDatabase.Database.ExpandBatch | 04_uns_historian/src/uns_historian/historian_handler.py:279-281 | the whole batch is expanded before any table is touched, and raises what the first row that cannot be expanded raises |
| ContiguousOffsets.NextOffsetUnique | 04_uns_historian/src/uns_historian/batch.py:184-194 | the result is the unique bound with everything from the checkpoint up to it handled and itself not |
| ContiguousOffsets.ComputeNextOffset | 04_uns_historian/src/uns_historian/batch.py:184-194 | the sorted scan computes that bound, so it depends on the set of offsets only |
| ContiguousOffsets.NextOffsetMonotone | 04_uns_historian/src/uns_historian/batch.py:184-194 | a higher checkpoint or more handled offsets never lower the result |
| ContiguousOffsets.TwoBatchesDoNotOvertake | 04_uns_historian/src/uns_historian/batch.py:184-194 | two batches one after the other never pass what both at once would |
| HistorianConsumer.BatchCollector.Add | 04_uns_historian/src/uns_historian/batch.py:124-136 | an event is taken exactly when neither count, bytes nor age is exhausted, and the running byte total stays right |
| HistorianConsumer.Mapper.TryBufferMessage | 04_uns_historian/src/uns_historian/kafka_consumer.py:144-177 | not buffered exactly when the bytes do not decode, the kind is unknown or the version 2 timestamp is no number; ignored exactly when they decode to a business event or state snapshot; otherwise the event read from them, as its version 1 view, is buffered or handed back for a flush |
| HistorianConsumer.Mapper.RecordSqlSuccess | 04_uns_historian/src/uns_historian/kafka_consumer.py:124-129 | offsets are offered to Kafka only while ownership is active and not revoked |
| HistorianConsumer.Mapper.TakeBatch | 04_uns_historian/src/uns_historian/kafka_consumer.py:131-142 | the collected events leave the collector before their transaction, if there are any and none are in flight |
| HistorianConsumer.TryAddEffect | 04_uns_historian/src/uns_historian/batch.py:124-147 | an event is taken exactly when with it the batch keeps its limits and what is there has not used up bytes or time, which runs from the first event offered |
| HistorianConsumer.ReconcileIff | 04_uns_historian/src/uns_historian/kafka_consumer.py:56-72 | a partition does not resume exactly when Kafka is ahead of SQL, or the checkpoint is below what is retained |
| HistorianConsumer.Mapper.OnRevoke | 04_uns_historian/src/uns_historian/kafka_consumer.py:114-122 | ownership ends exactly when nothing owned is left |
| MetricFlattener.OneRowPerLeaf | 04_uns_historian/src/uns_historian/metric_flattener.py:24-81 | flattening emits exactly one row per non-null scalar leaf, for numbers floats hold |
| MetricFlattener.RowsCountLeaves | 04_uns_historian/src/uns_historian/metric_flattener.py:24-81 | there are as many rows as non-null scalars, for numbers floats hold |
| MetricStream.Pull | 04_uns_historian/src/uns_historian/metric_flattener.py:24-65 | each pull yields the next metric in order and leaves exactly the later ones to come, or raises because no float holds it |
| MetricFlattener.DotFreeNamesDistinct | 04_uns_historian/src/uns_historian/metric_flattener.py:34-65 | with dot-free keys no two rows share a metric name |
| MetricFlattener.DottedKeysCollide | 04_uns_historian/src/uns_historian/metric_flattener.py:34-65 | a dotted key can collide with a nested one |
| LateRefresh.EveryLateRowIsCovered | 04_uns_historian/src/uns_historian/aggregate_refresh.py:58-94 | in every run, when a day is not outdated each of its late rows was there for both views in its last committed refresh |
| LateRefresh.ClaimsCommitOnce | 04_uns_historian/src/uns_historian/aggregate_refresh.py:27-32 | in every run no claim is committed twice and processed never exceeds pending |
| LateRefresh.SupersededExactlyByNewerClaim | 04_uns_historian/src/uns_historian/aggregate_refresh.py:65-82 | the guarded update misses exactly when that generation or a later one was committed |
| LateRefresh.ClaimIff | 04_uns_historian/src/uns_historian/aggregate_refresh.py:20-57 | a claim is of the earliest outdated day whose row no one has locked, at its pending generation, and there is none exactly when all are locked or none is outdated |
| LateRefresh.StepKeepsInvariant | 04_uns_historian/src/uns_historian/aggregate_refresh.py:20-94 | writes, claims, view refreshes, marks and aborts in any order keep the invariant |
| LateRefresh.AggregateRefreshWorker.RefreshOnce | 04_uns_historian/src/uns_historian/aggregate_refresh.py:65-82 | both views are refreshed, then the generation is marked, exactly when the day still has that generation pending and none as late processed, or everything rolls back |
| LateRefresh.AggregateRefreshWorker.RunOnce | 04_uns_historian/src/uns_historian/aggregate_refresh.py:89-94 | undisturbed, it brings exactly the earliest outdated day up to date |
| LateRefresh.RoundsCatchUp | 04_uns_historian/src/uns_historian/aggregate_refresh.py:89-94 | from every reachable state, each undisturbed run of one worker leaves one outdated day fewer, and as many as there are such days leave none |
| LateRefresh.EveryLateRowGetsCovered | 04_uns_historian/src/uns_historian/aggregate_refresh.py:58-94 | so from every reachable state that many runs leave every late row covered by both views |
| Events.EnvelopeRoundTripIff | 00_uns_config/src/uns_config/events.py:203-404 | a valid envelope comes back from the wire if and only if a version 1 stored timestamp is below 10^11; otherwise the content hash changes too |
| Events.LateTimestampIsLost | 00_uns_config/src/uns_config/events.py:134-142 | a payload timestamp of 10^14 is stored as 10^11 and read back as 10^8 |
| Events.NormalizeIdempotentIff | 00_uns_config/src/uns_config/events.py:134-142 | normalising twice is normalising once if and only if the input is below 10^14 |
| Events.NormalizePayloadEffect | 00_uns_config/src/uns_config/events.py:126-131 | normalisation fails on a timestamp that is no number or too large for a float, each with its own error, and otherwise changes only it |
| Events.LegacyViewIsValid | 00_uns_config/src/uns_config/event_compatibility.py:29-61 | the version 1 view of a valid event validates and keeps event id and partition key; it normalises twice, which shows from 10^14 on |
| Events.NormalizedIs | 00_uns_config/src/uns_config/events.py:134-142 | a timestamp is stored as its whole part, from 10^11 up as that of its thousandth |
| Events.BuildIff | 00_uns_config/src/uns_config/events.py:117-123 | an envelope can be built exactly when its times are in the calendar and, in version 1, its timestamp is missing or a number that a float holds |
| Events.ValidIff | 00_uns_config/src/uns_config/events.py:362-459 | what passes validation, field by field: identity with the digest of its parts or of a receipt, quality and kind, fields of its version only |
| Events.SourceIdIff | 00_uns_config/src/uns_config/events.py:50 | a source id is the word and 64 lower-case hexadecimal digits |
| Events.IngressIdIs | 00_uns_config/src/uns_config/events.py:51-54 | an ingress id is the word and five groups of hexadecimal digits of the lengths of a UUID |
| Events.Base64Iff | 00_uns_config/src/uns_config/events.py:407-412 | the raw payload is text of the base64 alphabet in groups of four, with padding at its end |
| Events.ReadIff | 00_uns_config/src/uns_config/events.py:258-359 | a dictionary passes the decoder's checks exactly when it carries the fields of an envelope under their keys, and then those are read |
| Events.DecodesIff | 00_uns_config/src/uns_config/events.py:212-223 | what is decoded carries the fields of an envelope that can be built and is valid, and all such is decoded; exactly valid envelopes are encoded |
| Events.WireProblemIff | 00_uns_config/src/uns_config/events.py:258-313 | which dictionaries are refused for their version, or for a missing key |
| Events.WireFieldsReadBack | 00_uns_config/src/uns_config/events.py:226-359 | what the encoder writes is read back field by field |
| Events.KeyByLevels | 00_uns_config/src/uns_config/events.py:188-200 | the partition key has the site and the topic, or its Sparkplug group and edge node, or its state host; a shorter Sparkplug topic has none |
| Events.SameKeyIff | 00_uns_config/src/uns_config/events.py:188-200 | two events share a partition key exactly when they are of one site and one topic, edge node or state host |
| Events.SameContentIff | 00_uns_config/src/uns_config/events.py:145-185 | two valid events have equal content exactly when they differ in no more than when they were received |
| Events.NormalizingKeepsTheRest | 00_uns_config/src/uns_config/events.py:126-131 | normalisation leaves every entry but the timestamp |
| PublicationRoutes.ParseAcceptsIff | 00_uns_config/src/uns_config/publication_routes.py:136-157 | a filter is accepted exactly when well formed and starting with a literal that is no `$` root, and nothing is lost in parsing |
| PublicationRoutes.ParseFilter | 00_uns_config/src/uns_config/publication_routes.py:136-157 | the scan reports the first problem of the filter |
| PublicationRoutes.MatchesIff | 00_uns_config/src/uns_config/publication_routes.py:166-200 | matching is level by level, `+` for any one and a last `#` for the parent and all below |
| PublicationRoutes.TopicMatchesIff | 00_uns_config/src/uns_config/publication_routes.py:160-200 | a topic matches a filter that parses exactly when it meets it level by level; one that does not parse fails with its problem |
| PublicationRoutes.OverlapIff | 00_uns_config/src/uns_config/publication_routes.py:203-235 | the overlap check fires exactly when a publishable topic matches both filters or one is a near miss of the other |
| PublicationRoutes.OverlapSymmetric | 00_uns_config/src/uns_config/publication_routes.py:207-235 | overlap is symmetric |
| PublicationRoutes.OverlapReflexive | 00_uns_config/src/uns_config/publication_routes.py:73-75 | equal filters overlap, so comparing the texts first adds nothing |
| PublicationRoutes.CheckIsConservative | 00_uns_config/src/uns_config/publication_routes.py:217-221 | `a` beside `a/b/#` is refused although no topic matches both |
| PublicationRoutes.RouteErrorIff | 00_uns_config/src/uns_config/publication_routes.py:87-133 | a route passes on its own exactly when all its fields are valid |
| PublicationRoutes.ValidateRoutes | 00_uns_config/src/uns_config/publication_routes.py:64-75 | accepts exactly the lists of valid routes without overlaps; else reports the first invalid route or an overlapping pair |
| PublicationRoutes.AcceptedWithoutConflicts | 00_uns_config/src/uns_config/publication_routes.py:64-75 | routes are accepted exactly when each is valid, no publishable topic meets two of their filters, and no filter stops short of the `#` of another |
| PublicationRoutes.AcceptedRoutesResolve | 00_uns_config/src/uns_config/publication_routes.py:78-84 | with accepted routes a topic resolves to the one route whose filter it meets level by level, or is unknown when there is none, never ambiguous |
| PublicationRoutes.ResolutionIff | 00_uns_config/src/uns_config/publication_routes.py:78-84 | over any routes that parse, a topic resolves to a route exactly when it meets the filter of that one alone, is unknown exactly when it meets none, and ambiguous exactly when it meets several |
| PublicationRoutes.BadFilterFails | 00_uns_config/src/uns_config/publication_routes.py:160-163 | one route with a filter that does not parse fails every resolution |
| PublicationRoutes.ResolutionIgnoresOrder | 00_uns_config/src/uns_config/publication_routes.py:78-84 | the answer does not depend on the order of the routes |
| Ingress.OwnerIsFirstLongest | 06_uns_kafka/src/uns_kafka/ingest.py:540-547 | the owner is the first mapping among those with the longest prefix of the topic |
| Ingress.OwnershipIgnoresOrder | 06_uns_kafka/src/uns_kafka/ingest.py:540-556 | with unique prefixes the order of the mappings does not matter |
| Ingress.ArchivedIsValid | 06_uns_kafka/src/uns_kafka/ingest.py:321-475 | what is archived validates, fits, and reads back exactly under the envelope round trip's condition |
| Ingress.UnusablePartIff | 06_uns_kafka/src/uns_kafka/ingest.py:276-475 | an exception comes out of the resolution of a message exactly for a payload timestamp without float or date outside the routes, for a routed publication with an undecodable part or a time without a date in UTC, and for an envelope that cannot be written |
| Ingress.YearOneEastOfGreenwichRaises | 00_uns_config/src/uns_config/events.py:119-121 | a publication dated one hour before the first instant of UTC raises |
| Ingress.RawPublicationsAreArchived | 00_uns_config/src/uns_config/publications.py:85-119 | on accepted routes a raw publication on a topic that meets the filter of an archive-eligible route level by level is archived byte for byte, unless its envelope is too long or some part of it cannot be read or written, and it raises exactly in that last case |
| Ingress.ArchivedMeans | 06_uns_kafka/src/uns_kafka/ingest.py:321-446 | what is archived has the site, source and kind of the route, or of the owner and the topic; the time of the message or of its receipt, with that quality; an identity of source and sequence or of the receipt; and the payload |
| Ingress.KindOfSparkplug | 00_uns_config/src/uns_config/uns_ingest.py:43-56 | the levels of a Sparkplug topic decide: host states by the second, commands, births, deaths and states by the third, and everything else is raw |
| Ingress.KindOfOthers | 00_uns_config/src/uns_config/uns_ingest.py:43-56 | everything outside Sparkplug is telemetry |
| Ingress.RoutedMessagesAreArchived | 06_uns_kafka/src/uns_kafka/ingest.py:321-387 | so is any message that fits its route: archived with its bytes, unless its envelope is longer than 2^20 bytes or some part of it cannot be read or written |
| Ingress.OwnedMessagesAreArchived | 06_uns_kafka/src/uns_kafka/ingest.py:389-475 | outside the routes the message of an owner with a site and a source is archived under the same conditions, and that of another owner rejected |
| Ingress.RouteForIff | 06_uns_kafka/src/uns_kafka/ingest.py:285-319 | on accepted routes the route of a topic is the one whose filter it meets, when routes are enabled |
| Ingress.UnroutedOutcomes | 06_uns_kafka/src/uns_kafka/ingest.py:274-313 | outside the routes a message halts the owner exactly when it is too long for a rejection, and is rejected for want of an owner or of JSON exactly when it has none |
| Ingress.RefusalsOnRoute | 00_uns_config/src/uns_config/publications.py:85-119 | why a decoded publication is refused on its route |
| Ingress.ExcludedIff | 06_uns_kafka/src/uns_kafka/ingest.py:321-331 | a message is excluded exactly when its route is not for the archive |
| Ingestion.EveryRunIsAccounted | 06_uns_kafka/src/uns_kafka/ingest.py:191-260 | in every run, re-entrant callbacks, rollbacks and exceptions included, the counters are the size and bytes of the pending map, within the limits |
| Ingestion.NotReadyIsForGood | 06_uns_kafka/src/uns_kafka/ingest.py:155-207 | once not ready the owner never is again and its pending deliveries only get fewer |
| Ingestion.StepAccounts | 06_uns_kafka/src/uns_kafka/ingest.py:119-260 | every call keeps the accounts; without readiness nothing is admitted |
| Ingestion.Qos1RaisesIff | 06_uns_kafka/src/uns_kafka/ingest.py:155-260 | a call raises early exactly for another QoS, a message with an unusable part, a Sparkplug topic too short for a key or a rejection too long, and after the reservation exactly when publishing fails otherwise than by a full buffer |
| Ingestion.EarlyRaiseLeavesOwner | 06_uns_kafka/src/uns_kafka/ingest.py:162-233 | a call that raises early leaves counters, pending deliveries and flags as they were and acknowledges nothing |
| Ingestion.FailedPublishStaysReserved | 06_uns_kafka/src/uns_kafka/ingest.py:250-260 | a publication that raises leaves one more record, its bytes and its pending delivery |
| Ingestion.Qos0RaisesIff | 06_uns_kafka/src/uns_kafka/ingest.py:126-153 | at QoS 0 any failure to publish comes out, a rejection too long does not, and a call that raises changes nothing |
| Ingestion.ReservationLasts | 06_uns_kafka/src/uns_kafka/ingest.py:191-260 | in every run a pending delivery holds its reservation until a callback reports it, for good if none does |
| Ingestion.BackoffIsBounded | 06_uns_kafka/src/uns_kafka/ingest.py:119-124 | the backoff is zero until the first reconnect and then between half a second and a minute |
| IngestionAcks.AcksAreSafe | 06_uns_kafka/src/uns_kafka/ingest.py:191-207 | in every run an ack carries the current generation and its call's token, and comes straight after a successful delivery of what that call admitted or after its exclusion |
| IngestionAcks.OneAckPerCall | 06_uns_kafka/src/uns_kafka/ingest.py:155-207 | in every run each call is acknowledged at most once |
| IngestionAcks.ExclusionsFollowRoutes | 06_uns_kafka/src/uns_kafka/ingest.py:494-497 | in every run an exclusion belongs to a received message whose route is archive-ineligible |
| IngestionAcks.EveryFactIsJustified | 06_uns_kafka/src/uns_kafka/ingest.py:155-260 | every recorded fact has what it needs before it, and no delivery completes twice |
| IngestionAnswers.DueAcksCome | 06_uns_kafka/src/uns_kafka/ingest.py:191-207 | in every run the delivery of what a call admitted is followed at once by the acknowledgement of the call's token if and only if it succeeded on the connection of the token |
| IngestionAnswers.ExclusionsAreAcked | 06_uns_kafka/src/uns_kafka/ingest.py:494-497 | in every run an exclusion is followed at once by the acknowledgement of its call |
| IngestionAnswers.FailureDisconnects | 06_uns_kafka/src/uns_kafka/ingest.py:197-200 | in every run a failed delivery leaves the owner not ready, with a disconnect asked for |
| IngestionAnswers.PolledCallbackReports | 06_uns_kafka/src/uns_kafka/ingest.py:191-207 | in every run a callback for a pending delivery records it and the acknowledgement that is due, and frees its record and bytes |
| IngestionAnswers.CallbacksReport | 06_uns_kafka/src/uns_kafka/ingest.py:250-251 | callbacks that run inside a publication record the deliveries they name |
| IngestionAnswers.RecordIsAdmittedIff | 06_uns_kafka/src/uns_kafka/ingest.py:217-260 | a message with something to publish is admitted exactly when there is room, and then pending under a new id until its callback, unless the buffer is full |
| IngestionAnswers.ExcludedMessageIsAcked | 06_uns_kafka/src/uns_kafka/ingest.py:494-497 | an excluded message is acknowledged at once and nothing else changes |
| IngestionAnswers.OverlongMessageHalts | 06_uns_kafka/src/uns_kafka/ingest.py:182-187 | a message too long to be rejected halts the owner |
| IngestionAnswers.UntakenMessages | 06_uns_kafka/src/uns_kafka/ingest.py:162-172 | a call of another connection, on a platform topic or to a halted owner changes nothing; one without readiness asks for a disconnect |
| IngestionAnswers.UntrackedMessages | 06_uns_kafka/src/uns_kafka/ingest.py:126-153 | at QoS 0 a message is published without being pending, and an archived one is counted |
| Ingestion.BackoffFormula | 06_uns_kafka/src/uns_kafka/ingest.py:119-124 | the backoff doubles, from one second on, times half to one and a half by the jitter, up to a minute |
| Ingestion.BackoffDoubles | 06_uns_kafka/src/uns_kafka/ingest.py:119-124 | without jitter the backoff doubles from one second up to a minute |
| Ingestion.IngestionOwner.Qos1 | 06_uns_kafka/src/uns_kafka/ingest.py:155-189 | the imperative method has exactly the specified effect and exit |
| Ingestion.IngestionOwner.Qos0 | 06_uns_kafka/src/uns_kafka/ingest.py:126-153 | the imperative method has exactly the specified effect and exit |
| Ingestion.IngestionOwner.Complete | 06_uns_kafka/src/uns_kafka/ingest.py:191-207 | the delivery callback removes its delivery once; it acknowledges the token exactly when the delivery was pending, succeeded and its connection is still there, and a failure ends readiness |
| Ingestion.IngestionOwner.Deliver | 06_uns_kafka/src/uns_kafka/ingest.py:217-260 | reserve, admit and publish, with a rollback only on a full buffer and any other failure coming out |
| Ingestion.IngestionOwner.PollCallbacks | 06_uns_kafka/src/uns_kafka/kafka_handler.py:67-88 | callbacks run one after the other inside the publication |
| Ingestion.IngestionOwner.ReservePending | 06_uns_kafka/src/uns_kafka/ingest.py:499-506 | reserves exactly when both limits allow it |
| Ingestion.IngestionOwner.Reconnected | 06_uns_kafka/src/uns_kafka/ingest.py:119-124 | a new generation and the next backoff |
| SparkplugCodecs.BooleansRoundTrip | 02_mqtt-cluster/src/uns_sparkplugb/uns_spb_enums.py:202-237 | boolean arrays of every length below 2^32 come back, longer ones are refused |
| SparkplugCodecs.BooleansLayout | 02_mqtt-cluster/src/uns_sparkplugb/uns_spb_enums.py:202-222 | four little-endian count bytes, then one bit per value in 4 + ceil(n/8) bytes, zero padded |
| SparkplugCodecs.BitIsDigit | 02_mqtt-cluster/src/uns_sparkplugb/uns_spb_enums.py:214-217 | bit k of a byte is the digit of 2^(7-k) |
| SparkplugCodecs.EncodingRestoresBytesIff | 02_mqtt-cluster/src/uns_sparkplugb/uns_spb_enums.py:202-237 | decoded bytes are encoded back exactly when they have no surplus bytes and zero padding |
| SparkplugCodecs.StringsRoundTrip | 02_mqtt-cluster/src/uns_sparkplugb/uns_spb_enums.py:239-258 | every list of strings comes back, empty ones and embedded zero bytes included |
| SparkplugCodecs.EncodingRestoresStringsIff | 02_mqtt-cluster/src/uns_sparkplugb/uns_spb_enums.py:239-258 | decoded bytes are encoded back exactly when they are lower-case digits and zeros ending in a zero |
| SparkplugCodecs.SignedRoundTripIff | 02_mqtt-cluster/src/uns_sparkplugb/uns_spb_enums.py:161-200 | an integer is read back exactly when it is in the range of Int8, Int16, Int32 or Int64, and a field is restored by what was read exactly when it is within the width |
| SparkplugCodecs.StoredIff | 02_mqtt-cluster/src/uns_sparkplugb/uns_spb_enums.py:161-186 | the values a field accepts, by type, and that those not negative are held as they are |
| SparkplugCodecs.DigitsIff | 02_mqtt-cluster/src/uns_sparkplugb/uns_spb_enums.py:239-258 | hexadecimal digits are read in either case for their place, and white space is that of ASCII |
| SparkplugCodecs.SpbObject.SetBooleans | 02_mqtt-cluster/src/uns_sparkplugb/uns_spb_enums.py:202-222 | the bit-setting loop over a buffer of zeros produces that encoding |
| SparkplugCodecs.SpbObject.SetSigned | 02_mqtt-cluster/src/uns_sparkplugb/uns_spb_enums.py:161-186 | negative values move up by the modulus; the field refuses what it cannot hold |
| SparkplugCodecs.SpbObject.GetSigned | 02_mqtt-cluster/src/uns_sparkplugb/uns_spb_enums.py:188-200 | values from half the modulus on are read as negative |
| SparkplugFold.OnePassIsGrouping | 05_sparkplugb/src/uns_spb_mapper/spb2unspublisher.py:179-213 | the one pass equals grouping by topic and folding each group: the same failures, the same messages |
| SparkplugFold.EveryTopicFolds | 05_sparkplugb/src/uns_spb_mapper/spb2unspublisher.py:271-335 | under unreserved tags nothing fails, and each topic has the newest timestamp, the context and one list per tag |
| SparkplugFold.PayloadTopicsFold | 05_sparkplugb/src/uns_spb_mapper/spb2unspublisher.py:179-213 | so it is for the context of every Sparkplug topic |
| SparkplugFold.FoldFailsIff | 05_sparkplugb/src/uns_spb_mapper/spb2unspublisher.py:298-332 | a payload's readings fail to fold exactly when some topic has a reading tagged `timestamp` that is neither its first nor its last |
| SparkplugFold.NothingLostOrRepeated | 05_sparkplugb/src/uns_spb_mapper/spb2unspublisher.py:298-332 | a tag's list holds each of its readings once, plus one placeholder unless it is the topic's first tag |
| SparkplugFold.LatestIsMaximum | 05_sparkplugb/src/uns_spb_mapper/spb2unspublisher.py:307-331 | the topic timestamp is the maximum folded |
| SparkplugFold.HeadIsLastRecord | 05_sparkplugb/src/uns_spb_mapper/spb2unspublisher.py:307-332 | a tag's head is its last reading that was a record of the whole topic, or the placeholder |
| SparkplugFold.NewestFirstIff | 05_sparkplugb/src/uns_spb_mapper/spb2unspublisher.py:307-332 | a tag's newest reading comes first exactly when a newest one was a record of the whole topic |
| SparkplugFold.SingleTagKeepsNewestFirst | 05_sparkplugb/src/uns_spb_mapper/spb2unspublisher.py:307-332 | a single-tag topic keeps its newest reading first |
| SparkplugFold.SecondTagBehindPlaceholder | 05_sparkplugb/src/uns_spb_mapper/spb2unspublisher.py:299-320 | an older reading of a second tag lands behind a placeholder |
| SparkplugFold.OlderReadingAtHead | 05_sparkplugb/src/uns_spb_mapper/spb2unspublisher.py:307-332 | an older reading stays at its tag's head when another tag's newer one came between |
| SparkplugFold.HandlingIsFolding | 05_sparkplugb/src/uns_spb_mapper/spb2unspublisher.py:163-239 | a payload yields what one pass over its readings folds to, each read under its own name or the name its alias was last taught |
| SparkplugFold.AliasesAreLastTaught | 05_sparkplugb/src/uns_spb_mapper/spb2unspublisher.py:81-92 | whether or not a payload raises, an alias stands for the last name it came with among the metrics begun |
| SparkplugFold.LastBegunRaises | 05_sparkplugb/src/uns_spb_mapper/spb2unspublisher.py:183-210 | when a metric raises it is the last one begun |
| SparkplugFold.NextRaisesIff | 05_sparkplugb/src/uns_spb_mapper/spb2unspublisher.py:183-210 | the next metric raises for its name exactly when it has none, by itself or by its alias, or one without a separator, and otherwise for its type exactly when that is unknown |
| SparkplugFold.SplitLastJoins | 05_sparkplugb/src/uns_spb_mapper/spb2unspublisher.py:186-188 | topic and tag make up the name again and the tag has no separator |
| SparkplugFold.Spb2UnsPublisher.HandleSpbMessages | 05_sparkplugb/src/uns_spb_mapper/spb2unspublisher.py:163-213 | the loop has exactly the specified effect; an exception loses the messages but not the aliases |
| SparkplugFold.Spb2UnsPublisher.GetMetricName | 05_sparkplugb/src/uns_spb_mapper/spb2unspublisher.py:215-239 | a named metric teaches its alias, a nameless one is looked up |
| SparkplugFold.Spb2UnsPublisher.TransformSpb | 05_sparkplugb/src/uns_spb_mapper/spb2unspublisher.py:94-161 | births and deaths clear the aliases first, messages with metrics are handled, the others publish nothing, and an unknown type raises |
| SparkplugSessions.NamesAreOfThisSession | 05_sparkplugb/src/uns_spb_mapper/spb2unspublisher.py:70-92 | after any messages, a name that an alias stands for was taught by a message of its device, with no birth or death of the device after it |
| SparkplugSessions.TaughtNamesAreKnown | 05_sparkplugb/src/uns_spb_mapper/spb2unspublisher.py:215-239 | a name taught by a message that raises nothing is known after it |
| SparkplugSessions.OthersKeepNames | 05_sparkplugb/src/uns_spb_mapper/spb2unspublisher.py:70-92 | messages of one device leave the names of another alone |
| SparkplugSessions.UnknownTypesIff | 05_sparkplugb/src/uns_spb_mapper/spb2unspublisher.py:122-159 | which message types are refused, and which publish nothing |
| SparkplugSessions.KeysCollideIff | 05_sparkplugb/src/uns_spb_mapper/spb2unspublisher.py:120-121 | two devices share an alias cache exactly when group, edge node and the text of the device id agree |
| TopicPaths.BestIff | 09_uns_model/src/uns_model/repositories.py:58-65 | the longest-prefix query has at most one answer, and this is it |
| TopicPaths.ResolveDecomposes | 09_uns_model/src/uns_model/repositories.py:67-85 | asset path, separator and metric path make up the topic, or the path is the topic |
| TopicPaths.AncestorsAreCovering | 09_uns_model/src/uns_model/topic_path.py:64-67 | the ancestor paths are exactly the paths that cover the topic |
| TopicPaths.WalkFindsBest | 09_uns_model/src/uns_model/topic_path.py:78-91 | walking the ancestors deepest first finds what the query finds |
| TopicPaths.LoadAgreesIff | 09_uns_model/src/uns_model/asset_context.py:172-190 | loader and binder agree exactly when the deepest asset is active and no empty segment follows it |
| TopicPaths.InactiveAssetDiffers | 09_uns_model/src/uns_model/asset_context.py:172-180 | an inactive asset is found by the loader and not by the binder |
| TopicPaths.EmptySegmentDiffers | 09_uns_model/src/uns_model/asset_context.py:179 | an empty segment after the asset is dropped by the loader and kept by the binder |
| TopicPaths.LoadAgreesOnPlainTopics | 09_uns_model/src/uns_model/asset_context.py:172-190 | they agree when all assets are active and the topic has no empty segment |
| TopicPaths.LoadMeans | 09_uns_model/src/uns_model/asset_context.py:172-190 | the loader finds the deepest asset that covers the topic, active or not, and what follows it past any separators |
| AssetModel.RunsKeepBindingsDerived | 09_uns_model/src/uns_model/repositories.py:128-289 | in every run of branch writes, deletions, binds and rebinds the assets form a tree and, once rebound, every row is the longest active match |
| AssetModel.SecondRebindMovesNothing | 09_uns_model/src/uns_model/repositories.py:89-114 | after a rebind a second one moves nothing, and rows already right are not written |
| AssetModel.EnsureBranchIdempotent | 09_uns_model/src/uns_model/repositories.py:128-191 | writing a branch a second time is a no-op |
| AssetModel.BranchIsWritten | 09_uns_model/src/uns_model/repositories.py:154-187 | each level of an accepted branch has its row with its level, under the row before it |
| AssetModel.OtherRowsStay | 09_uns_model/src/uns_model/repositories.py:160-184 | rows keep their ids and no row off the branch is touched |
| AssetModel.RowsOfBranch | 09_uns_model/src/uns_model/repositories.py:154-187 | a path of an accepted branch without a row gets an active one with the segment of its spec, and one with a row keeps its segment and whether it is active |
| AssetModel.ActiveAssetBinds | 09_uns_model/src/uns_model/repositories.py:58-114 | with derived rows every known topic that an active asset covers is bound to it or deeper |
| AssetModel.NewBranchBinds | 09_uns_model/src/uns_model/repositories.py:128-191 | after a branch with a new leaf and its rebind, every known topic at or below the leaf is bound to an active asset there, and path and metric path make up the topic |
| AssetModel.RunBindsNewBranch | 09_uns_model/src/uns_model/repositories.py:128-289 | so it is after any run of branch writes, deletions, binds and rebinds |
| AssetModel.LevelsPassIff | 09_uns_model/src/uns_model/repositories.py:135-152 | the levels of a branch pass exactly when it is not empty and they are known and descend; the error says which is not so |
| AssetModel.BranchAcceptedIff | 09_uns_model/src/uns_model/repositories.py:128-187 | on a tree whose paths are made of its segments, a branch of segments without separators is accepted exactly when its levels pass and none is empty |
| AssetModel.RefusalHasCause | 09_uns_model/src/uns_model/repositories.py:154-187 | on any tree, a branch whose levels pass is refused only at an empty segment, or where its row would be the second of its segment under one parent |
| AssetModel.RunsStayCanonical | 09_uns_model/src/uns_model/repositories.py:128-260 | runs whose branches have no separator within a segment keep the tree like that |
| AssetModel.DeletionEffect | 09_uns_model/src/uns_model/repositories.py:250-260 | exactly the assets at or under the path go, and exactly the bindings to them lose their asset |
| AssetModel.DeletionKeepsOthers | 09_uns_model/src/uns_model/repositories.py:250-260 | a topic bound to an asset that is left stays bound as it was |
| AssetModel.DeletionUnbinds | 09_uns_model/src/uns_model/repositories.py:250-260 | after a deletion and its rebind nothing at or under the path is left, and no topic is bound to what went |
| AssetModel.AssetModelRepository.WriteBranch | 09_uns_model/src/uns_model/repositories.py:128-187 | the loop over the levels writes all of the branch or nothing; AssetModel.RowsOfBranch says what the rows hold |
| AssetModel.AssetModelRepository.EnsureBranchAndRebind | 09_uns_model/src/uns_model/repositories.py:128-191 | with the default rebind every row is derived afterwards, and when the leaf is new every known topic at or below it is bound to an active asset there |
| AssetModel.AssetModelRepository.DeleteAndRebind | 09_uns_model/src/uns_model/repositories.py:250-260 | removes the subtree, counts it, and leaves every row derived |
| AssetModel.AssetModelRepository.Bind | 09_uns_model/src/uns_model/repositories.py:264-274 | the row becomes the longest active match and what follows it, no other row is written |
| AssetModel.AssetModelRepository.Rebind | 09_uns_model/src/uns_model/repositories.py:276-289 | row by row, exactly those that moved are written and counted, none is stale afterwards, and none moved exactly when none was stale |
| TopicCaches.RememberedTopicsAreBound | 09_uns_model/src/uns_model/topic_binder.py:64-114 | whatever happens, a remembered topic has a row, and no more than the capacity are remembered, none twice, none also in flight |
| TopicCaches.AsksIff | 09_uns_model/src/uns_model/topic_binder.py:72-81 | a topic is asked for exactly when it is neither remembered nor in flight |
| TopicCaches.SeenTopicsGetBound | 09_uns_model/src/uns_model/topic_binder.py:64-90 | after any history a topic that is seen and then bound has a row and is the most recent one remembered |
| TopicCaches.SeenMovesToEnd | 09_uns_model/src/uns_model/topic_binder.py:72-76 | a remembered topic that is seen becomes the most recent one |
| TopicCaches.BoundTopicIsLast | 09_uns_model/src/uns_model/topic_binder.py:82-90 | a bound topic comes last, and the oldest are dropped beyond the capacity |
| TopicCaches.FailedBindIsRetried | 09_uns_model/src/uns_model/topic_binder.py:82-90 | a topic whose bind failed is asked for again when it is next seen |
| TopicCaches.FailureIsNotRemembered | 09_uns_model/src/uns_model/topic_binder.py:82-90 | a failed bind leaves the model alone; one reported failed after its commit leaves a row that is not remembered |
| TopicCaches.ForgottenIsAskedFor | 09_uns_model/src/uns_model/topic_binder.py:104-115 | a topic that is forgotten, alone or with all, is asked for again, and others are not |
| TopicCaches.TopicBinder.BeginObserve | 09_uns_model/src/uns_model/topic_binder.py:72-81 | asks for a bind exactly when the topic is neither remembered nor asked for |
| TopicCaches.TopicBinder.EndObserve | 09_uns_model/src/uns_model/topic_binder.py:82-90 | remembers a bound topic, evicting the oldest, and not a failed one |
| TopicCaches.TopicContextResolver.Resolve | 09_uns_model/src/uns_model/asset_context.py:154-166 | an answer was loaded for its topic now or within the time to live |
| TopicCaches.TopicContextResolver.GetCached | 09_uns_model/src/uns_model/asset_context.py:210-218 | a cached answer is given exactly while its time to live lasts |
| TopicCaches.TopicContextResolver.PutCached | 09_uns_model/src/uns_model/asset_context.py:220-224 | what is kept are the most recent entries, the new one last, as many as there is room for |
| Hierarchy.ValidTreesHaveDistinctPaths | 09_uns_model/src/uns_model/hierarchy.py:186-239 | an accepted hierarchy has as many paths as nodes |
| Hierarchy.ValidateTree | 09_uns_model/src/uns_model/hierarchy.py:186-219 | accepts exactly the trees with legal, distinct sibling names at every level and a kind for each area |
| Hierarchy.ValidTreeIff | 09_uns_model/src/uns_model/hierarchy.py:186-219 | the accepted trees, level by level down to the cells |
| Hierarchy.RequireUnique | 09_uns_model/src/uns_model/hierarchy.py:177-183 | reports the first name that is not legal or has come before |
| Hierarchy.CollectPrefixes | 09_uns_model/src/uns_model/hierarchy.py:222-239 | the nested loops collect the path of every node |
| Hierarchy.PrefixesIff | 09_uns_model/src/uns_model/hierarchy.py:222-239 | a text is a prefix of the tree exactly when it joins the names from the enterprise down to one of its nodes |
| Hierarchy.MappingRoundTripIff | 09_uns_model/src/uns_model/hierarchy.py:136-174 | a tree comes back from its mapping exactly when every area has a kind |
| Hierarchy.ShapesReadAlike | 09_uns_model/src/uns_model/hierarchy.py:95-133 | a dictionary of children reads like the list of the same children |
| Hierarchy.DefaultsWhenMissing | 09_uns_model/src/uns_model/hierarchy.py:95-133 | a cell may be its name alone, an area without a kind is for production, missing children are none |
| Hierarchy.MachinesOfShapes | 09_uns_model/src/uns_model/hierarchy.py:80-82 | machines given as a dictionary are its keys, and given as a text its characters |
| Hierarchy.ChildrenOfText | 09_uns_model/src/uns_model/hierarchy.py:95-133 | children given as an empty text are none, and as another text fail |
| Hierarchy.NamelessChildFails | 09_uns_model/src/uns_model/hierarchy.py:95-133 | one child without a name fails its whole list |
| Hierarchy.ValidateRenames | 09_uns_model/src/uns_model/hierarchy.py:247-279 | accepts exactly the batches whose old prefixes exist before and new ones now, with no old one left unless it stays, and none above another; otherwise the error names a rename with that fault |
| Hierarchy.AtMostOneRenameApplies | 09_uns_model/src/uns_model/hierarchy.py:242-279 | in an accepted batch at most one distinct old prefix covers a path |

## Left out

- Kafka, MQTT, Postgres and asyncio: steps of a run, chosen at will. A transaction is one step; one that fails in the database is the step that drops the batch in flight.
- SHA-256: the content hash is modelled as the hashed content itself, and the source identity digest is a parameter.
- UUIDs: delivery ids are counted, receipt ids are part of a receipt.
- JSON text, UTF-8 and base64 text: instants and bytes are read back exactly, encoded sizes are parameters, a wire field of a wrong type is an invalid field. A string array is a list of UTF-8 byte strings, so text that is not UTF-8 is not refused.
- Unsigned integer fields: stored and read as they are.
- Floating point: timestamps and metric values are integers or reals, not rounded; an integer too large for a float raises, and infinities and NaN do not occur.
- Texts: sequences of Unicode scalar values. One with an unpaired surrogate, which JSON escapes can carry and UTF-8 cannot write, is known to the ingestion owner's parameters alone; an event that has one, or a NUL that the database refuses, would hold its checkpoint like one too large.
- The limits of the interpreter, such as recursion depth, other than in reading and writing JSON.
- Clocks and jitter: parameters; a clock is within the calendar.
- Exceptions of the MQTT client and of observers: an acknowledgement and a callback return.
- `persist_mqtt_msg`: the legacy path beside the projection, and raw rows without a content hash.
- Backpressure pausing, polling, shutdown draining and metrics observers: a paused or dropped record is one that is not received.
- Checkpoint rows: within a transaction those of one epoch are worked on as a value and written back at its end.
- Raw and metric tables: sequences in the order of insertion.
- `decode_publication`: a parameter that gives a message, an envelope error or another exception; the checks on the message are modelled.
- Route fields of a wrong JSON type: the route has typed fields, and its schema pairs are listed in the order the set is iterated in.
- `struct` arrays, DataSet, Template and PropertySet values: library conversions; a metric value is opaque here, or of an unknown type.
- Publishing the folded messages, and MQTT topic aliases.
- Definitions, attributes and display names of assets, Metric Definitions and notifications.
- Hierarchy values that are Python objects other than dictionaries, lists and text.
- Frontend, GraphQL, connectivity, access groups, alert rules, OEE, migrations and command lines.
