/** What becomes of one MQTT message: a historic event, a rejection, an exclusion, or the end of ingestion. */
module Ingress {
  import opened Wrappers
  import opened Splitting
  import opened MetricFlattener
  import opened Events
  import PublicationRoutes

  const MAX_REJECTION_BYTES := 65536
  const MAX_ENVELOPE_BYTES := 1048576
  const MICROS := 1000000

  // ----------------------------------------------------------------------- ownership

  datatype OwnershipMapping = OwnershipMapping(siteId: string, sourceId: string, topicPrefix: string)

  predicate Owns(topic: string, mapping: OwnershipMapping) {
    mapping.topicPrefix <= topic
  }

  /** The mapping with the longest prefix of the topic; of several, the first. */
  function ResolveOwnership(topic: string, mappings: seq<OwnershipMapping>): Option<OwnershipMapping> {
    if mappings == [] then None
    else
      var last := mappings[|mappings| - 1];
      match ResolveOwnership(topic, mappings[..|mappings| - 1])
      case None => if Owns(topic, last) then Some(last) else None
      case Some(best) => Some(if Owns(topic, last) && |last.topicPrefix| > |best.topicPrefix| then last else best)
  }

  /** The mapping at `i` owns the topic, none with a longer prefix does, and none as long before it. */
  ghost predicate FirstLongest(topic: string, mappings: seq<OwnershipMapping>, i: nat)
    requires i < |mappings|
  {
    && mappings[i].topicPrefix <= topic
    && forall j :: 0 <= j < |mappings| && mappings[j].topicPrefix <= topic ==>
                     |mappings[j].topicPrefix| < |mappings[i].topicPrefix| + if j < i then 0 else 1
  }

  lemma {:induction false} UnownedIff(topic: string, mappings: seq<OwnershipMapping>)
    ensures ResolveOwnership(topic, mappings).None? <==> forall i :: 0 <= i < |mappings| ==> !Owns(topic, mappings[i])
  {
    if mappings != [] {
      UnownedIff(topic, mappings[..|mappings| - 1]);
    }
  }

  lemma {:induction false} OwnerIsFirstLongest(topic: string, mappings: seq<OwnershipMapping>) returns (i: nat)
    requires ResolveOwnership(topic, mappings).Some?
    ensures i < |mappings| && mappings[i] == ResolveOwnership(topic, mappings).value && FirstLongest(topic, mappings, i)
  {
    var n := |mappings| - 1;
    var front := mappings[..n];
    if ResolveOwnership(topic, front).None? {
      UnownedIff(topic, front);
      assert forall j :: 0 <= j < n ==> !Owns(topic, front[j]);
      i := n;
    } else {
      i := OwnerIsFirstLongest(topic, front);
      assert forall j :: 0 <= j < n ==> mappings[j] == front[j];
      if mappings[n] == ResolveOwnership(topic, mappings).value && mappings[n] != front[i] {
        i := n;
      }
    }
  }

  lemma FirstLongestOwns(topic: string, mappings: seq<OwnershipMapping>, i: nat)
    requires i < |mappings| && FirstLongest(topic, mappings, i)
    ensures ResolveOwnership(topic, mappings) == Some(mappings[i])
  {
    UnownedIff(topic, mappings);
    assert Owns(topic, mappings[i]);
    var k := OwnerIsFirstLongest(topic, mappings);
    assert i == k;
  }

  ghost predicate UniquePrefixes(mappings: seq<OwnershipMapping>) {
    forall i, j :: 0 <= i < |mappings| && 0 <= j < |mappings| && mappings[i].topicPrefix == mappings[j].topicPrefix ==>
        i == j
  }

  /** Prefixes of one topic are told apart by their length, so with unique prefixes the order does not matter. */
  lemma OwnershipIgnoresOrder(topic: string, mappings: seq<OwnershipMapping>, others: seq<OwnershipMapping>)
    requires UniquePrefixes(mappings)
    requires forall mapping :: mapping in mappings <==> mapping in others
    ensures ResolveOwnership(topic, mappings) == ResolveOwnership(topic, others)
  {
    UnownedIff(topic, mappings);
    UnownedIff(topic, others);
    if ResolveOwnership(topic, mappings).Some? {
      var i := OwnerIsFirstLongest(topic, mappings);
      assert mappings[i] in others;
      var k :| 0 <= k < |others| && others[k] == mappings[i];
      var j := OwnerIsFirstLongest(topic, others);
      assert others[j] in mappings;
      var l :| 0 <= l < |mappings| && mappings[l] == others[j];
      assert |mappings[i].topicPrefix| == |mappings[l].topicPrefix|;
      assert mappings[i].topicPrefix == topic[..|mappings[i].topicPrefix|] == mappings[l].topicPrefix;
    } else {
      forall j | 0 <= j < |others| ensures !Owns(topic, others[j]) {
        assert others[j] in mappings;
      }
    }
  }

  // --------------------------------------------------------------------- publications

  /** The instant it occurred at is that of a local time and an offset, which may lie outside the calendar of UTC. */
  datatype PublisherMessage = PublisherMessage(
    sourceApplication: string, siteId: string, schema: PublicationRoutes.SchemaPair, contentType: string,
    originalPayload: Bytes, occurredAt: Option<int>, sourceBootId: Option<string>, sourceSequence: Option<int>)

  datatype RejectReason =
    | UnknownOwnership | InvalidJson | Oversize
    | ForgedApplication | ForgedSite | SchemaPairMismatch
    | Undecodable(text: string)
    | Because(reason: Events.Reason)

  /** What a call comes to: a value, a failure its caller handles, or an exception nobody handles. */
  datatype Attempt<T> = Got(value: T) | Refused(reason: RejectReason) | Escaped

  /** What lies outside: JSON, base64 and text sizes, the identity digest. */
  datatype Outside = Outside(
    decodePublication: Bytes -> Attempt<PublisherMessage>,
    parseJson: Bytes -> Attempt<Json>,
    base64: Bytes -> string,
    hasUtf8: string -> bool,                  // false: a text with an unpaired surrogate
    identity: SourceIdentity,
    encodedSize: WireDict -> Option<nat>,     // none: a value that JSON or UTF-8 cannot write
    rejectionSize: (RejectReason, string, Bytes) -> nat)

  datatype Config = Config(
    mappings: seq<OwnershipMapping>,
    routes: seq<PublicationRoutes.PublicationRoute>,
    v2Enabled: bool,
    pendingRecordLimit: int,
    pendingByteLimit: int,
    timestampAttribute: string)

  /** A received message, with the instant and the fresh UUID of its receipt. */
  datatype Receipt = Receipt(
    topic: string, payload: Bytes, decoded: Option<Object>, receivedAt: Instant, receiptId: string)

  datatype Outcome =
    | Exclude
    | Reject(reason: RejectReason)
    | Unarchivable(reason: RejectReason)
    | Archive(envelope: Envelope)
    | Raise                                   // an exception the caller does not handle

  function MessageProblem(message: PublisherMessage, route: PublicationRoutes.PublicationRoute): Option<RejectReason> {
    if !PublicationRoutes.RouteId(message.sourceApplication) || !PublicationRoutes.RouteId(message.siteId)
       || !PublicationRoutes.RouteId(message.schema.id) || !PublicationRoutes.RouteId(message.schema.version)
       || message.contentType == "" then Some(Because(InvalidField))
    else if message.sourceApplication != route.sourceApplication then Some(ForgedApplication)
    else if message.siteId != route.siteId then Some(ForgedSite)
    else if message.schema !in route.allowedSchemaPairs then Some(SchemaPairMismatch)
    else None
  }

  function ResolvePublisherMessage(
      out: Outside, payload: Bytes, route: PublicationRoutes.PublicationRoute): Attempt<PublisherMessage>
  {
    if route.wireFormat == "raw" && route.defaultSchemaPair.None? then Refused(Because(MissingField))
    else
      var decoded :=
        if route.wireFormat == "raw" then
          Got(PublisherMessage(route.sourceApplication, route.siteId, route.defaultSchemaPair.value, route.contentType,
              payload, None, None, None))
        else out.decodePublication(payload);
      if decoded.Got? && MessageProblem(decoded.value, route).Some? then
        Refused(MessageProblem(decoded.value, route).value)
      else decoded
  }

  /** The payload is parsed for consumers of telemetry. */
  predicate IsParsed(message: PublisherMessage, kind: EventKind) {
    !kind.BusinessEvent? && !kind.StateSnapshot? && !kind.OtherKind? && message.contentType == "application/json"
  }

  function CompatibilityPayload(out: Outside, message: PublisherMessage, kind: EventKind): Object {
    if !IsParsed(message, kind) then []
    else
      match out.parseJson(message.originalPayload)
      case Got(Obj(fields)) => fields
      case _ => []
  }

  /** Encoding decides: what does not validate or is too long becomes a rejection. */
  function Finalize(out: Outside, e: Envelope): Outcome {
    match EncodeEvent(e, out.identity)
    case Err(reason) => Reject(Because(reason))
    case Ok(wire) =>
      match out.encodedSize(wire)
      case None => Raise
      case Some(size) => if size > MAX_ENVELOPE_BYTES then Reject(Oversize) else Archive(e)
  }

  /** The arguments of the envelope of a routed message. */
  function BuildV2(out: Outside, r: Receipt, route: PublicationRoutes.PublicationRoute, m: PublisherMessage): Envelope {
    var fromSource := m.sourceBootId.Some? && m.sourceSequence.Some?;
    Envelope(
      2,
      if fromSource then out.identity(route.siteId, route.sourceId, m.sourceBootId.value, m.sourceSequence.value)
      else r.receiptId,
      if fromSource then Source else Quality.Ingress,
      route.sourceId, m.sourceBootId, m.sourceSequence, route.siteId,
      if m.occurredAt.Some? then m.occurredAt.value else r.receivedAt,
      r.receivedAt,
      if m.occurredAt.Some? then Source else Quality.Ingress,
      r.topic, route.eventKind, false, CompatibilityPayload(out, m, route.eventKind), None,
      Some(m.sourceApplication), Some(m.schema.id), Some(m.schema.version), Some(m.contentType),
      Some(m.originalPayload),
      Some(route.archiveEligible))
  }

  /** The envelope of a routed message, unless the identity digest, the payload or the constructor raises. */
  function EnvelopeV2(
      out: Outside, r: Receipt, route: PublicationRoutes.PublicationRoute, m: PublisherMessage): Option<Envelope>
  {
    if m.sourceBootId.Some? && m.sourceSequence.Some? && !out.hasUtf8(m.sourceBootId.value) then None
    else if IsParsed(m, route.eventKind) && out.parseJson(m.originalPayload).Escaped? then None
    else
      match Build(BuildV2(out, r, route, m))
      case Err(_) => None
      case Ok(e) => Some(e)
  }

  function IngressV2(out: Outside, r: Receipt, route: PublicationRoutes.PublicationRoute): Outcome {
    if !route.archiveEligible then Exclude
    else
      match ResolvePublisherMessage(out, r.payload, route)
      case Refused(reason) => Reject(reason)
      case Escaped => Raise
      case Got(message) =>
        match EnvelopeV2(out, r, route, message)
        case None => Raise
        case Some(e) => Finalize(out, e)
  }

  function ClassifyKind(topic: string): EventKind {
    var parts := Split(topic, '/');
    if !("spBv1.0/" <= topic) then Telemetry
    else if "spBv1.0/STATE/" <= topic then Lifecycle
    else if |parts| >= 3 && parts[2] in {"NCMD", "DCMD"} then Command
    else if |parts| >= 3 && parts[2] in {"NBIRTH", "DBIRTH", "NDEATH", "DDEATH", "STATE"} then Lifecycle
    else SparkplugRaw
  }

  function Member(payload: Object, key: string): Option<Json> {
    if payload == [] then None else if payload[0].key == key then Some(payload[0].value) else Member(payload[1..], key)
  }

  /** The event's time and where it comes from; none when the number has no float or its seconds no date. */
  function EventTime(attribute: string, payload: Object, receivedAt: Instant): Option<(Instant, Quality)> {
    match Member(payload, attribute)
    case None => Some((receivedAt, Quality.Ingress))
    case Some(value) =>
      match NormalizeTimestamp(value)
      case Err(reason) => if reason == Overflow then None else Some((receivedAt, Quality.Ingress))
      case Ok(seconds) => if InCalendar(seconds * MICROS) then Some((seconds * MICROS, Source)) else None
  }

  function PayloadOf(r: Receipt): Object {
    if r.decoded.Some? then r.decoded.value else []
  }

  /** The envelope of a message outside the routes, unless its time or the constructor raises. */
  function EnvelopeV1(out: Outside, cfg: Config, r: Receipt, owner: OwnershipMapping): Option<Envelope> {
    match EventTime(cfg.timestampAttribute, PayloadOf(r), r.receivedAt)
    case None => None
    case Some((time, quality)) =>
      match Build(Envelope(
        1, r.receiptId, Quality.Ingress, owner.sourceId, None, None, owner.siteId, time, r.receivedAt, quality,
        r.topic, ClassifyKind(r.topic), false, PayloadOf(r),
        if "spBv1.0/" <= r.topic then Some(out.base64(r.payload)) else None,
        None, None, None, None, None, None))
      case Err(_) => None
      case Ok(e) => Some(e)
  }

  function IngressV1(out: Outside, cfg: Config, r: Receipt, owner: OwnershipMapping): Outcome {
    if !("spBv1.0/" <= r.topic) && r.decoded.None? then Reject(InvalidJson)
    else
      match EnvelopeV1(out, cfg, r, owner)
      case None => Raise
      case Some(e) => Finalize(out, e)
  }

  function RouteFor(cfg: Config, topic: string): Option<PublicationRoutes.PublicationRoute> {
    if cfg.v2Enabled && cfg.routes != [] then
      match PublicationRoutes.ResolveRoute(topic, cfg.routes)
      case Ok(route) => Some(route)
      case Err(_) => None
    else None
  }

  function ResolveIngress(out: Outside, cfg: Config, r: Receipt): Outcome {
    if |r.payload| > MAX_REJECTION_BYTES then Unarchivable(Oversize)
    else
      match RouteFor(cfg, r.topic)
      case Some(route) => IngressV2(out, r, route)
      case None =>
        match ResolveOwnership(r.topic, cfg.mappings)
        case None => Reject(UnknownOwnership)
        case Some(owner) => IngressV1(out, cfg, r, owner)
  }

  // ------------------------------------------------------------- what cannot be built

  /** The timestamp that dates the event has no float, or seconds outside the calendar. */
  predicate Undatable(value: Json) {
    value.Num? && (!FitsFloat(value.n) || !InCalendar(NormalizeNumber(value.n) * MICROS))
  }

  /** The payload of a message outside the routes has a timestamp that raises where it is read or stored. */
  predicate HasUnusableTimestamp(cfg: Config, payload: Object) {
    var dating, stored := Member(payload, cfg.timestampAttribute), StoredTimestamp(payload);
    (dating.Some? && Undatable(dating.value)) || (stored.Some? && !Normalizable(stored.value))
  }

  /** A routed message has a boot id without digest, a payload that breaks the parser, or a time out of the calendar. */
  predicate HasUnusableField(out: Outside, route: PublicationRoutes.PublicationRoute, m: PublisherMessage) {
    || (m.sourceBootId.Some? && m.sourceSequence.Some? && !out.hasUtf8(m.sourceBootId.value))
    || (IsParsed(m, route.eventKind) && out.parseJson(m.originalPayload).Escaped?)
    || (m.occurredAt.Some? && !InCalendar(m.occurredAt.value))
  }

  /** The envelope is valid and yet JSON or UTF-8 cannot write it. */
  predicate Unwritable(out: Outside, e: Option<Envelope>) {
    e.Some? && Validate(e.value, out.identity) == None && out.encodedSize(ToWire(e.value)).None?
  }

  predicate RaisesV2(out: Outside, r: Receipt, route: PublicationRoutes.PublicationRoute) {
    var message := ResolvePublisherMessage(out, r.payload, route);
    && route.archiveEligible
    && (|| (route.wireFormat != "raw" && out.decodePublication(r.payload).Escaped?)
        || (message.Got? && (|| HasUnusableField(out, route, message.value)
                             || Unwritable(out, EnvelopeV2(out, r, route, message.value)))))
  }

  predicate RaisesV1(out: Outside, cfg: Config, r: Receipt, owner: OwnershipMapping) {
    && ("spBv1.0/" <= r.topic || r.decoded.Some?)
    && (HasUnusableTimestamp(cfg, PayloadOf(r)) || Unwritable(out, EnvelopeV1(out, cfg, r, owner)))
  }

  /** The message has a part that no envelope takes or that cannot be written. */
  predicate HasUnusablePart(out: Outside, cfg: Config, r: Receipt) {
    && |r.payload| <= MAX_REJECTION_BYTES
    && match RouteFor(cfg, r.topic)
       case Some(route) => RaisesV2(out, r, route)
       case None =>
         match ResolveOwnership(r.topic, cfg.mappings)
         case Some(owner) => RaisesV1(out, cfg, r, owner)
         case None => false
  }

  lemma NoEnvelopeV2Iff(out: Outside, r: Receipt, route: PublicationRoutes.PublicationRoute, m: PublisherMessage)
    ensures EnvelopeV2(out, r, route, m).None? <==> HasUnusableField(out, route, m)
  {
  }

  lemma NoEnvelopeV1Iff(out: Outside, cfg: Config, r: Receipt, owner: OwnershipMapping)
    ensures EnvelopeV1(out, cfg, r, owner).None? <==> HasUnusableTimestamp(cfg, PayloadOf(r))
  {
    NormalizePayloadEffect(PayloadOf(r));
  }

  /** An exception comes out of the resolution of a message exactly when the message has such a part. */
  lemma UnusablePartIff(out: Outside, cfg: Config, r: Receipt)
    ensures ResolveIngress(out, cfg, r).Raise? <==> HasUnusablePart(out, cfg, r)
  {
    if RouteFor(cfg, r.topic).Some? {
      var route := RouteFor(cfg, r.topic).value;
      var message := ResolvePublisherMessage(out, r.payload, route);
      if message.Got? {
        NoEnvelopeV2Iff(out, r, route, message.value);
      }
    } else if ResolveOwnership(r.topic, cfg.mappings).Some? {
      NoEnvelopeV1Iff(out, cfg, r, ResolveOwnership(r.topic, cfg.mappings).value);
    }
  }

  /** The first hour of year 1, an hour east of Greenwich, is a date no UTC instant has. */
  lemma YearOneEastOfGreenwichRaises(
      out: Outside, cfg: Config, r: Receipt, route: PublicationRoutes.PublicationRoute, m: PublisherMessage)
    requires |r.payload| <= MAX_REJECTION_BYTES && RouteFor(cfg, r.topic) == Some(route) && route.archiveEligible
    requires route.wireFormat == "uns-publication-v1" && out.decodePublication(r.payload) == Got(m)
    requires MessageProblem(m, route) == None && m.occurredAt == Some(FIRST_INSTANT - 3600 * MICROS)
    ensures ResolveIngress(out, cfg, r) == Raise
  {
    NoEnvelopeV2Iff(out, r, route, m);
  }

  /** A message is left out of the archive without a publication exactly when its route says so. */
  lemma ExcludedIff(out: Outside, cfg: Config, r: Receipt)
    ensures ResolveIngress(out, cfg, r).Exclude?
            <==> && |r.payload| <= MAX_REJECTION_BYTES && cfg.v2Enabled && cfg.routes != []
                 && PublicationRoutes.ResolveRoute(r.topic, cfg.routes).Ok?
                 && !PublicationRoutes.ResolveRoute(r.topic, cfg.routes).value.archiveEligible
  {
  }

  /** What is archived came out of the constructor and passed the encoder. */
  lemma ArchivedWasBuilt(out: Outside, cfg: Config, r: Receipt) returns (input: Envelope)
    requires ResolveIngress(out, cfg, r).Archive?
    ensures var e := ResolveIngress(out, cfg, r).envelope;
            && Build(input) == Ok(e) && Finalize(out, e) == Archive(e)
            && e.topic == r.topic && e.receivedAt == r.receivedAt
  {
    match RouteFor(cfg, r.topic)
    case Some(route) =>
      input := BuildV2(out, r, route, ResolvePublisherMessage(out, r.payload, route).value);
    case None =>
      var owner := ResolveOwnership(r.topic, cfg.mappings).value;
      var e := EnvelopeV1(out, cfg, r, owner).value;
      input := e.(payload := PayloadOf(r));
  }

  /** Whatever is archived is a valid envelope for its topic that fits and was built, so it can be read back. */
  lemma ArchivedIsValid(out: Outside, cfg: Config, r: Receipt)
    requires ResolveIngress(out, cfg, r).Archive?
    ensures var e := ResolveIngress(out, cfg, r).envelope;
            && Validate(e, out.identity) == None
            && out.encodedSize(ToWire(e)).Some? && out.encodedSize(ToWire(e)).value <= MAX_ENVELOPE_BYTES
            && e.topic == r.topic && e.receivedAt == r.receivedAt
            && exists input :: Build(input) == Ok(e)
    ensures var e := ResolveIngress(out, cfg, r).envelope;
            DecodeEvent(ToWire(e), out.identity) == Ok(e)
            <==> (e.schemaVersion == 1 ==> TimestampBelow(e.payload, LEGACY_SECONDS_THRESHOLD))
  {
    var e := ResolveIngress(out, cfg, r).envelope;
    var input := ArchivedWasBuilt(out, cfg, r);
    EnvelopeRoundTripIff(input, e, out.identity);
  }

  /** The two grammars for route ids are one. */
  lemma RouteIdsAgree(s: string)
    ensures PublicationRoutes.RouteId(s) == IsRouteId(s)
  {
  }

  // --------------------------------------------------- outcomes in terms of the message

  lemma StateLevels(topic: string)
    requires "spBv1.0/STATE/" <= topic
    ensures Split(topic, '/') == ["spBv1.0", "STATE"] + Split(topic[14..], '/')
  {
    var rest := topic[14..];
    assert topic == "spBv1.0" + ['/'] + ("STATE" + ['/'] + rest);
    SplitAtFirst("spBv1.0", '/', "STATE" + ['/'] + rest);
    SplitAtFirst("STATE", '/', rest);
  }

  lemma LevelsOfState(topic: string)
    requires "spBv1.0/" <= topic
    ensures var levels := Split(topic, '/');
            && |levels| >= 2 && levels[0] == "spBv1.0"
            && ("spBv1.0/STATE/" <= topic <==> |levels| >= 3 && levels[1] == "STATE")
  {
    var below, levels := topic[8..], Split(topic, '/');
    assert topic == "spBv1.0" + ['/'] + below;
    SplitAtFirst("spBv1.0", '/', below);
    assert levels == ["spBv1.0"] + Split(below, '/');
    JoinOfSplit(below, '/');
    if "spBv1.0/STATE/" <= topic {
      StateLevels(topic);
    }
    if |levels| >= 3 && levels[1] == "STATE" {
      assert Split(below, '/')[0] == "STATE";
      assert below == "STATE" + ['/'] + Join(Split(below, '/')[1..], '/');
      assert topic[..14] == "spBv1.0/STATE/";
    }
  }

  /** The kind of a message by the levels of its Sparkplug topic; the message type is the third. */
  lemma KindOfSparkplug(topic: string, levels: seq<string>)
    requires "spBv1.0/" <= topic && Split(topic, '/') == levels
    ensures |levels| >= 2 && levels[0] == "spBv1.0"
    ensures ClassifyKind(topic) == if |levels| == 2 then SparkplugRaw
                                   else if levels[1] == "STATE" then Lifecycle
                                   else if levels[2] == "NCMD" || levels[2] == "DCMD" then Command
                                   else if levels[2] in {"NBIRTH", "DBIRTH", "NDEATH", "DDEATH", "STATE"} then Lifecycle
                                   else SparkplugRaw
  {
    LevelsOfState(topic);
  }

  /** In an object that repeats no key, as no Python dict does, a member is an entry. */
  lemma {:induction false} MemberIff(payload: Object, key: string, value: Json)
    requires UniqueFieldKeys(payload)
    ensures Member(payload, key) == Some(value) <==> Field(key, value) in payload
  {
    if payload != [] {
      MemberIff(payload[1..], key, value);
      assert payload == [payload[0]] + payload[1..];
    }
  }

  lemma {:induction false} StoredTimestampIsMember(payload: Object)
    ensures StoredTimestamp(payload) == Member(payload, "timestamp")
  {
    if payload != [] {
      StoredTimestampIsMember(payload[1..]);
    }
  }

  lemma KindOfOthers(topic: string)
    requires !("spBv1.0/" <= topic)
    ensures ClassifyKind(topic) == Telemetry
  {
  }

  /** The envelope of a message outside the routes: whose it is, when it was, and what it says. */
  ghost predicate IsEnvelopeV1(e: Envelope, out: Outside, cfg: Config, r: Receipt, owner: OwnershipMapping) {
    && e.schemaVersion == 1 && e.eventId == r.receiptId && e.identityQuality == Quality.Ingress
    && e.siteId == owner.siteId && e.sourceId == owner.sourceId && e.sourceBootId == None && e.sourceSequence == None
    && e.topic == r.topic && e.eventKind == ClassifyKind(r.topic) && e.receivedAt == r.receivedAt && !e.isHistorical
    && SameButTimestamp(PayloadOf(r), e.payload)
    && e.rawPayloadBase64 == (if "spBv1.0/" <= r.topic then Some(out.base64(r.payload)) else None)
    && (match Member(PayloadOf(r), cfg.timestampAttribute)
        case Some(Num(n)) => e.time == NormalizeNumber(n) * 1000000 && e.timestampQuality == Source
        case _ => e.time == r.receivedAt && e.timestampQuality == Quality.Ingress)
  }

  predicate HoldsTelemetry(kind: EventKind) {
    kind.Telemetry? || kind.SparkplugRaw? || kind.Lifecycle? || kind.Command?
  }

  /** The envelope of a message on a route: the route says whose it is, the message what it is. */
  ghost predicate IsEnvelopeV2(
      e: Envelope, out: Outside, r: Receipt, route: PublicationRoutes.PublicationRoute, m: PublisherMessage)
  {
    && e.schemaVersion == 2 && e.topic == r.topic && e.receivedAt == r.receivedAt && !e.isHistorical
    && e.siteId == route.siteId == m.siteId && e.sourceId == route.sourceId && e.eventKind == route.eventKind
    && e.sourceApplication == Some(route.sourceApplication) && m.sourceApplication == route.sourceApplication
    && e.payloadSchemaId == Some(m.schema.id) && e.payloadSchemaVersion == Some(m.schema.version)
    && m.schema in route.allowedSchemaPairs
    && e.contentType == Some(m.contentType) && e.originalPayload == Some(m.originalPayload)
    && e.archiveEligible == Some(true) && e.rawPayloadBase64 == None
    && e.sourceBootId == m.sourceBootId && e.sourceSequence == m.sourceSequence
    && (if m.sourceBootId.Some? && m.sourceSequence.Some?
        then e.identityQuality == Source
             && e.eventId == out.identity(route.siteId, route.sourceId, m.sourceBootId.value, m.sourceSequence.value)
        else e.identityQuality == Quality.Ingress && e.eventId == r.receiptId)
    && (if m.occurredAt.Some? then e.time == m.occurredAt.value && e.timestampQuality == Source
        else e.time == r.receivedAt && e.timestampQuality == Quality.Ingress)
    && (if m.contentType == "application/json" && HoldsTelemetry(route.eventKind)
           && out.parseJson(m.originalPayload).Got? && out.parseJson(m.originalPayload).value.Obj?
        then out.parseJson(m.originalPayload) == Got(Obj(e.payload)) else e.payload == [])
  }

  lemma EnvelopeV1Is(out: Outside, cfg: Config, r: Receipt, owner: OwnershipMapping)
    requires EnvelopeV1(out, cfg, r, owner).Some?
    ensures IsEnvelopeV1(EnvelopeV1(out, cfg, r, owner).value, out, cfg, r, owner)
  {
    NormalizingKeepsTheRest(PayloadOf(r));
  }

  /** The message as it was published: raw bytes under the route's defaults, or what the decoder makes of them. */
  ghost predicate IsMessage(
      out: Outside, r: Receipt, route: PublicationRoutes.PublicationRoute, m: PublisherMessage)
  {
    if route.wireFormat == "raw" then
      && route.defaultSchemaPair == Some(m.schema) && m.contentType == route.contentType
      && m.originalPayload == r.payload && m.occurredAt == None && m.sourceBootId == None && m.sourceSequence == None
    else out.decodePublication(r.payload) == Got(m)
  }

  lemma EnvelopeV2Is(out: Outside, r: Receipt, route: PublicationRoutes.PublicationRoute, m: PublisherMessage)
    requires route.archiveEligible && ResolvePublisherMessage(out, r.payload, route) == Got(m)
    requires EnvelopeV2(out, r, route, m).Some?
    ensures IsEnvelopeV2(EnvelopeV2(out, r, route, m).value, out, r, route, m) && IsMessage(out, r, route, m)
  {
  }

  /** What is archived is the envelope of the message on its route, or of its owner when it has none. */
  lemma ArchivedMeans(out: Outside, cfg: Config, r: Receipt)
    requires ResolveIngress(out, cfg, r).Archive?
    ensures |r.payload| <= 65536
    ensures var e := ResolveIngress(out, cfg, r).envelope;
            match RouteFor(cfg, r.topic)
            case Some(route) =>
              && route.archiveEligible
              && exists m :: IsMessage(out, r, route, m) && IsEnvelopeV2(e, out, r, route, m)
            case None =>
              && ResolveOwnership(r.topic, cfg.mappings).Some?
              && IsEnvelopeV1(e, out, cfg, r, ResolveOwnership(r.topic, cfg.mappings).value)
              && ("spBv1.0/" <= r.topic || r.decoded.Some?)
  {
    match RouteFor(cfg, r.topic)
    case Some(route) => EnvelopeV2Is(out, r, route, ResolvePublisherMessage(out, r.payload, route).value);
    case None => EnvelopeV1Is(out, cfg, r, ResolveOwnership(r.topic, cfg.mappings).value);
  }

  /** The reasons of a rejection outside the routes, and what is too long to be rejected. */
  lemma UnroutedOutcomes(out: Outside, cfg: Config, r: Receipt)
    requires RouteFor(cfg, r.topic) == None
    ensures ResolveIngress(out, cfg, r) == Unarchivable(Oversize) <==> |r.payload| > 65536
    ensures ResolveIngress(out, cfg, r) == Reject(UnknownOwnership)
            <==> && |r.payload| <= 65536
                 && forall i :: 0 <= i < |cfg.mappings| ==> !(cfg.mappings[i].topicPrefix <= r.topic)
    ensures ResolveIngress(out, cfg, r) == Reject(InvalidJson)
            <==> && |r.payload| <= 65536
                 && (exists i :: 0 <= i < |cfg.mappings| && cfg.mappings[i].topicPrefix <= r.topic)
                 && !("spBv1.0/" <= r.topic) && r.decoded.None?
  {
    UnownedIff(r.topic, cfg.mappings);
    forall i | 0 <= i < |cfg.mappings|
      ensures Owns(r.topic, cfg.mappings[i]) <==> cfg.mappings[i].topicPrefix <= r.topic
    {
    }
  }

  /** Why a message is refused on its route, once it is decoded. */
  lemma RefusalsOnRoute(out: Outside, payload: Bytes, route: PublicationRoutes.PublicationRoute, m: PublisherMessage)
    requires route.wireFormat != "raw" && out.decodePublication(payload) == Got(m)
    ensures var refused := ResolvePublisherMessage(out, payload, route);
            && (refused == Refused(ForgedApplication) ==> m.sourceApplication != route.sourceApplication)
            && (refused == Refused(ForgedSite) ==>
                  m.sourceApplication == route.sourceApplication && m.siteId != route.siteId)
            && (refused == Refused(SchemaPairMismatch) ==>
                  && m.sourceApplication == route.sourceApplication && m.siteId == route.siteId
                  && m.schema !in route.allowedSchemaPairs)
            && (refused == Got(m)
                <==> && m.sourceApplication == route.sourceApplication && m.siteId == route.siteId
                     && m.schema in route.allowedSchemaPairs && m.contentType != ""
                     && IsRouteId(m.sourceApplication) && IsRouteId(m.siteId)
                     && IsRouteId(m.schema.id) && IsRouteId(m.schema.version))
  {
    RouteIdsAgree(m.sourceApplication);
    RouteIdsAgree(m.siteId);
    RouteIdsAgree(m.schema.id);
    RouteIdsAgree(m.schema.version);
  }

  // ---------------------------------------------------------------- what gets through

  /** The route of a message, when the configuration is accepted. */
  lemma RouteForIff(cfg: Config, topic: string, i: nat)
    requires PublicationRoutes.Accepted(cfg.routes)
    requires i < |cfg.routes| && PublicationRoutes.For(topic, cfg.routes[i])
    ensures RouteFor(cfg, topic) == if cfg.v2Enabled then Some(cfg.routes[i]) else None
  {
    PublicationRoutes.AcceptedRoutesResolve(topic, cfg.routes);
  }

  lemma NoRouteFor(cfg: Config, topic: string)
    requires cfg.v2Enabled ==> PublicationRoutes.Accepted(cfg.routes)
    requires cfg.v2Enabled ==> forall i :: 0 <= i < |cfg.routes| ==> !PublicationRoutes.For(topic, cfg.routes[i])
    ensures RouteFor(cfg, topic) == None
  {
    if cfg.v2Enabled {
      PublicationRoutes.AcceptedRoutesResolve(topic, cfg.routes);
    }
  }

  /** The envelope's encoding exceeds 2^20 bytes. */
  ghost predicate TooLong(out: Outside, e: Envelope) {
    out.encodedSize(ToWire(e)).Some? && out.encodedSize(ToWire(e)).value > 0x10_0000
  }

  /** What the route demands of a message, and a boot id and a sequence both or neither. */
  ghost predicate Fits(out: Outside, route: PublicationRoutes.PublicationRoute, m: PublisherMessage) {
    && m.sourceApplication == route.sourceApplication && m.siteId == route.siteId
    && m.schema in route.allowedSchemaPairs && m.contentType != ""
    && (if m.sourceBootId.Some? && m.sourceSequence.Some?
        then IsSourceId(out.identity(route.siteId, route.sourceId, m.sourceBootId.value, m.sourceSequence.value))
        else m.sourceBootId == None && m.sourceSequence == None)
  }

  lemma FittingMessageResolves(
      out: Outside, r: Receipt, route: PublicationRoutes.PublicationRoute, m: PublisherMessage)
    requires PublicationRoutes.ValidRoute(route) && IsMessage(out, r, route, m) && Fits(out, route, m)
    ensures ResolvePublisherMessage(out, r.payload, route) == Got(m)
    ensures IsRouteId(m.sourceApplication) && IsRouteId(m.siteId)
    ensures IsRouteId(m.schema.id) && IsRouteId(m.schema.version)
  {
    RouteIdsAgree(m.sourceApplication);
    RouteIdsAgree(m.siteId);
    RouteIdsAgree(m.schema.id);
    RouteIdsAgree(m.schema.version);
  }

  /**
   * On an accepted list of routes, a message that fits its archive-eligible route is archived unless its envelope is
   * too long or some part of it cannot be read or written.
   */
  lemma RoutedMessagesAreArchived(out: Outside, cfg: Config, r: Receipt, i: nat, m: PublisherMessage)
    requires cfg.v2Enabled && PublicationRoutes.Accepted(cfg.routes)
    requires i < |cfg.routes| && PublicationRoutes.For(r.topic, cfg.routes[i]) && cfg.routes[i].archiveEligible
    requires IsMessage(out, r, cfg.routes[i], m) && Fits(out, cfg.routes[i], m)
    requires |r.payload| <= 65536 && IsHistoricEventTopic(r.topic) && IsIngressId(r.receiptId)
    ensures var outcome := ResolveIngress(out, cfg, r);
            && (outcome == Raise <==> HasUnusablePart(out, cfg, r))
            && (outcome == Raise || outcome == Reject(Oversize) || outcome.Archive?)
            && (outcome.Archive? ==> outcome.envelope.originalPayload == Some(m.originalPayload))
            && (outcome == Reject(Oversize) ==>
                  exists e :: IsEnvelopeV2(e, out, r, cfg.routes[i], m) && TooLong(out, e))
  {
    var route := cfg.routes[i];
    RouteForIff(cfg, r.topic, i);
    FittingMessageResolves(out, r, route, m);
    UnusablePartIff(out, cfg, r);
    if EnvelopeV2(out, r, route, m).Some? {
      var e := EnvelopeV2(out, r, route, m).value;
      EnvelopeV2Is(out, r, route, m);
      ValidIff(e, out.identity);
    }
  }

  /** So a raw publication is archived byte for byte. */
  lemma RawPublicationsAreArchived(out: Outside, cfg: Config, r: Receipt, i: nat)
    requires cfg.v2Enabled && PublicationRoutes.Accepted(cfg.routes)
    requires i < |cfg.routes| && PublicationRoutes.For(r.topic, cfg.routes[i])
    requires cfg.routes[i].wireFormat == "raw" && cfg.routes[i].archiveEligible
    requires |r.payload| <= 65536 && IsHistoricEventTopic(r.topic) && IsIngressId(r.receiptId)
    ensures var outcome := ResolveIngress(out, cfg, r);
            && (outcome == Raise <==> HasUnusablePart(out, cfg, r))
            && (|| outcome == Raise || outcome == Reject(Oversize)
                || (outcome.Archive? && outcome.envelope.originalPayload == Some(r.payload)))
            && (outcome == Reject(Oversize) ==>
                  exists e, m :: && IsMessage(out, r, cfg.routes[i], m) && IsEnvelopeV2(e, out, r, cfg.routes[i], m)
                                 && TooLong(out, e))
  {
    var route := cfg.routes[i];
    assert PublicationRoutes.ValidRoute(route);
    var message := PublisherMessage(route.sourceApplication, route.siteId, route.defaultSchemaPair.value,
        route.contentType, r.payload, None, None, None);
    RoutedMessagesAreArchived(out, cfg, r, i, message);
  }

  /**
   * Outside the routes, a message of an owner with a site and a source is archived unless its envelope is too long or
   * some part of it cannot be read or written.
   */
  lemma OwnedMessagesAreArchived(out: Outside, cfg: Config, r: Receipt, i: nat)
    requires cfg.v2Enabled ==> PublicationRoutes.Accepted(cfg.routes)
    requires cfg.v2Enabled ==> forall j :: 0 <= j < |cfg.routes| ==> !PublicationRoutes.For(r.topic, cfg.routes[j])
    requires i < |cfg.mappings| && FirstLongest(r.topic, cfg.mappings, i)
    requires if "spBv1.0/" <= r.topic then IsBase64(out.base64(r.payload)) else r.decoded.Some?
    requires |r.payload| <= 65536 && IsHistoricEventTopic(r.topic) && IsIngressId(r.receiptId)
    ensures var outcome, owner := ResolveIngress(out, cfg, r), cfg.mappings[i];
            && (outcome == Raise <==> HasUnusablePart(out, cfg, r))
            && (outcome != Raise ==>
                  if owner.siteId == "" || owner.sourceId == "" then outcome == Reject(Because(InvalidField))
                  else outcome.Archive? || outcome == Reject(Oversize))
            && (outcome == Reject(Oversize) ==> exists e :: IsEnvelopeV1(e, out, cfg, r, owner) && TooLong(out, e))
  {
    NoRouteFor(cfg, r.topic);
    FirstLongestOwns(r.topic, cfg.mappings, i);
    UnusablePartIff(out, cfg, r);
    var owner := cfg.mappings[i];
    if EnvelopeV1(out, cfg, r, owner).Some? {
      var e := EnvelopeV1(out, cfg, r, owner).value;
      EnvelopeV1Is(out, cfg, r, owner);
      if owner.siteId != "" && owner.sourceId != "" {
        ValidIff(e, out.identity);
      }
    }
  }
}
