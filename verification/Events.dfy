/** The canonical historic event envelope: normalisation, wire dictionary, validation and the legacy view. */
module Events {
  import opened Wrappers
  import opened MetricFlattener
  import opened Splitting

  /** Why an envelope is refused. The last is an OverflowError, which nobody takes for an envelope error. */
  datatype Reason =
    | UnsupportedSchema | MissingField | InvalidField | InvalidTimestamp
    | PlatformTopic | InvalidIdentity
    | Overflow

  datatype Quality = Source | Ingress | OtherQuality(text: string)

  datatype EventKind =
    | Telemetry | SparkplugRaw | Lifecycle | Command | BusinessEvent | StateSnapshot
    | OtherKind(text: string)

  /** Instants are microseconds since the epoch, in UTC. */
  datatype Envelope = Envelope(
    schemaVersion: int,
    eventId: string,
    identityQuality: Quality,
    sourceId: string,
    sourceBootId: Option<string>,
    sourceSequence: Option<int>,
    siteId: string,
    time: int,
    receivedAt: int,
    timestampQuality: Quality,
    topic: string,
    eventKind: EventKind,
    isHistorical: bool,
    payload: Object,
    rawPayloadBase64: Option<string>,
    sourceApplication: Option<string>,
    payloadSchemaId: Option<string>,
    payloadSchemaVersion: Option<string>,
    contentType: Option<string>,
    originalPayload: Option<Bytes>,
    archiveEligible: Option<bool>)

  /** The digest behind a source event identity: site, source, boot and sequence to an event id. */
  type SourceIdentity = (string, string, string, int) -> string

  // ------------------------------------------------------ timestamp normalisation

  const LEGACY_SECONDS_THRESHOLD := 100000000000.0

  function Abs(x: real): real {
    if x < 0.0 then -x else x
  }

  /** Python's `int(x)`: towards zero. */
  function Truncate(x: real): int {
    if x < 0.0 then -((-x).Floor) else x.Floor
  }

  /** Magnitudes from 10^11 up are taken for milliseconds and scaled to seconds. */
  function NormalizeNumber(x: real): int {
    Truncate(if Abs(x) >= LEGACY_SECONDS_THRESHOLD then x / 1000.0 else x)
  }

  predicate Normalizable(value: Json) {
    value.Num? && FitsFloat(value.n)
  }

  function NormalizeTimestamp(value: Json): Result<int, Reason> {
    if !value.Num? then Err(InvalidTimestamp)
    else if !FitsFloat(value.n) then Err(Overflow)
    else Ok(NormalizeNumber(value.n))
  }

  function NormalizePayload(payload: Object): Result<Object, Reason> {
    if payload == [] then Ok([])
    else if payload[0].key == "timestamp" then
      match NormalizeTimestamp(payload[0].value)
      case Ok(seconds) => Ok([Field("timestamp", Num(seconds as real))] + payload[1..])
      case Err(reason) => Err(reason)
    else
      match NormalizePayload(payload[1..])
      case Ok(rest) => Ok([payload[0]] + rest)
      case Err(reason) => Err(reason)
  }

  /** The value stored under `timestamp`, when there is one. */
  function StoredTimestamp(payload: Object): Option<Json> {
    if payload == [] then None
    else if payload[0].key == "timestamp" then Some(payload[0].value)
    else StoredTimestamp(payload[1..])
  }

  /** The payload has no numeric timestamp of that magnitude or more. */
  predicate TimestampBelow(payload: Object, bound: real) {
    match StoredTimestamp(payload)
    case Some(Num(n)) => Abs(n) < bound
    case _ => true
  }

  // The years 1 to 9999 of UTC, in microseconds.
  const FIRST_INSTANT := -62135596800000000
  const LAST_INSTANT := 253402300799999999

  predicate InCalendar(instant: int) {
    FIRST_INSTANT <= instant <= LAST_INSTANT
  }

  type Instant = instant: int | InCalendar(instant)

  /**
   * The constructor: both times are converted to UTC, which overflows where an offset leads out of the calendar, and
   * version 1 envelopes store a normalised payload.
   */
  function Build(e: Envelope): Result<Envelope, Reason> {
    if !InCalendar(e.time) || !InCalendar(e.receivedAt) then Err(Overflow)
    else if e.schemaVersion == 1 then
      match NormalizePayload(e.payload)
      case Ok(payload) => Ok(e.(payload := payload))
      case Err(reason) => Err(reason)
    else Ok(e)
  }

  /** What is stored is the number, or from 10^11 up its thousandth, without its fraction. */
  lemma NormalizedIs(x: real)
    ensures var scaled := if -100000000000.0 < x < 100000000000.0 then x else x / 1000.0;
            var stored := NormalizeNumber(x);
            if scaled >= 0.0 then stored as real <= scaled < (stored + 1) as real
            else (stored - 1) as real < scaled <= stored as real
  {
  }

  /** Normalising twice is normalising once exactly below 10^14. */
  lemma NormalizeIdempotentIff(x: real)
    ensures NormalizeNumber(NormalizeNumber(x) as real) == NormalizeNumber(x) <==> Abs(x) < 100000000000000.0
  {
  }

  lemma NormalizedFitsFloat(x: real)
    requires FitsFloat(x)
    ensures FitsFloat(NormalizeNumber(x) as real)
  {
  }

  lemma NormalizeFixpointIff(n: int)
    ensures NormalizeNumber(n as real) == n <==> Abs(n as real) < LEGACY_SECONDS_THRESHOLD
  {
  }

  /** The same keys in the same order, with the same values but for a timestamp. */
  ghost predicate SameButTimestamp(payload: Object, other: Object) {
    && |payload| == |other|
    && forall i :: 0 <= i < |payload| ==>
        payload[i].key == other[i].key && (payload[i].key != "timestamp" ==> payload[i].value == other[i].value)
  }

  lemma {:induction false} NormalizingKeepsTheRest(payload: Object)
    requires NormalizePayload(payload).Ok?
    ensures SameButTimestamp(payload, NormalizePayload(payload).value)
  {
    if payload != [] && payload[0].key != "timestamp" {
      NormalizingKeepsTheRest(payload[1..]);
    }
  }

  /** What normalisation does to a payload, in terms of its `timestamp` entry alone. */
  lemma {:induction false} NormalizePayloadEffect(payload: Object)
    ensures StoredTimestamp(payload) == None ==> NormalizePayload(payload) == Ok(payload)
    ensures StoredTimestamp(payload).Some? && !Normalizable(StoredTimestamp(payload).value) ==>
              NormalizePayload(payload)
              == Err(if StoredTimestamp(payload).value.Num? then Overflow else InvalidTimestamp)
    ensures StoredTimestamp(payload).Some? && Normalizable(StoredTimestamp(payload).value) ==>
              && NormalizePayload(payload).Ok?
              && StoredTimestamp(NormalizePayload(payload).value)
                  == Some(Num(NormalizeNumber(StoredTimestamp(payload).value.n) as real))
              && (NormalizePayload(payload) == Ok(payload)
                  <==> NormalizeNumber(StoredTimestamp(payload).value.n) as real == StoredTimestamp(payload).value.n)
  {
    if payload != [] {
      NormalizePayloadEffect(payload[1..]);
      assert payload == [payload[0]] + payload[1..];
      if payload[0].key == "timestamp" && Normalizable(payload[0].value) {
        var replaced := [Field("timestamp", Num(NormalizeNumber(payload[0].value.n) as real))] + payload[1..];
        assert replaced[0].value == Num(NormalizeNumber(payload[0].value.n) as real);
      } else if payload[0].key != "timestamp" && NormalizePayload(payload[1..]).Ok? {
        var whole := [payload[0]] + NormalizePayload(payload[1..]).value;
        assert whole[1..] == NormalizePayload(payload[1..]).value;
        assert whole == payload <==> whole[1..] == payload[1..];
      }
    }
  }

  /** What can be built: times in the calendar, and in version 1 no timestamp, or one that is a float. */
  lemma BuildIff(e: Envelope)
    ensures Build(e).Ok?
            <==> && InCalendar(e.time) && InCalendar(e.receivedAt)
                 && (e.schemaVersion == 1 && StoredTimestamp(e.payload).Some? ==>
                      Normalizable(StoredTimestamp(e.payload).value))
    ensures Build(e).Ok? && e.schemaVersion != 1 ==> Build(e) == Ok(e)
    ensures Build(e).Ok? && e.schemaVersion == 1 ==>
              && Build(e).value == e.(payload := Build(e).value.payload)
              && SameButTimestamp(e.payload, Build(e).value.payload)
              && (StoredTimestamp(e.payload).Some? ==>
                    StoredTimestamp(Build(e).value.payload)
                    == Some(Num(NormalizeNumber(StoredTimestamp(e.payload).value.n) as real)))
  {
    NormalizePayloadEffect(e.payload);
    if e.schemaVersion == 1 && NormalizePayload(e.payload).Ok? {
      NormalizingKeepsTheRest(e.payload);
    }
  }

  // ------------------------------------------------------------- wire dictionary

  /** JSON values by what their text stands for: formatted instants and base64 text are read back exactly. */
  datatype Wire =
    | WNull
    | WBool(flag: bool)
    | WInt(number: int)
    | WText(text: string)
    | WQuality(quality: Quality)
    | WKind(kind: EventKind)
    | WInstant(instant: int)
    | WBase64(bytes: Bytes)
    | WObject(object_: Object)

  /** The JSON object on the wire, one entry per key the decoder looks at; `None` is a missing key. */
  datatype WireDict = WireDict(
    schemaVersion: Option<Wire>, eventId: Option<Wire>, identityQuality: Option<Wire>, sourceId: Option<Wire>,
    sourceBootId: Option<Wire>, sourceSequence: Option<Wire>, siteId: Option<Wire>, time: Option<Wire>,
    receivedAt: Option<Wire>, timestampQuality: Option<Wire>, topic: Option<Wire>, eventKind: Option<Wire>,
    isHistorical: Option<Wire>, payload: Option<Wire>, rawPayloadBase64: Option<Wire>,
    sourceApplication: Option<Wire>, payloadSchemaId: Option<Wire>, payloadSchemaVersion: Option<Wire>,
    contentType: Option<Wire>, originalPayload: Option<Wire>, archiveEligible: Option<Wire>)

  function NullableText(value: Option<string>): Option<Wire> {
    Some(if value.Some? then WText(value.value) else WNull)
  }

  function ToWire(e: Envelope): WireDict {
    var version2 := e.schemaVersion == 2;
    WireDict(
      Some(WInt(e.schemaVersion)), Some(WText(e.eventId)), Some(WQuality(e.identityQuality)), Some(WText(e.sourceId)),
      NullableText(e.sourceBootId), Some(if e.sourceSequence.Some? then WInt(e.sourceSequence.value) else WNull),
      Some(WText(e.siteId)), Some(WInstant(e.time)), Some(WInstant(e.receivedAt)), Some(WQuality(e.timestampQuality)),
      Some(WText(e.topic)), Some(WKind(e.eventKind)), Some(WBool(e.isHistorical)), Some(WObject(e.payload)),
      NullableText(e.rawPayloadBase64),
      if version2 then NullableText(e.sourceApplication) else None,
      if version2 then NullableText(e.payloadSchemaId) else None,
      if version2 then NullableText(e.payloadSchemaVersion) else None,
      if version2 then NullableText(e.contentType) else None,
      if version2 then Some(if e.originalPayload.Some? then WBase64(e.originalPayload.value) else WNull) else None,
      if version2 then Some(if e.archiveEligible.Some? then WBool(e.archiveEligible.value) else WNull) else None)
  }

  predicate HasRequired(d: WireDict) {
    && d.eventId.Some? && d.identityQuality.Some? && d.sourceId.Some? && d.siteId.Some? && d.time.Some?
    && d.receivedAt.Some? && d.timestampQuality.Some? && d.topic.Some? && d.eventKind.Some?
    && d.isHistorical.Some? && d.payload.Some?
  }

  predicate HasRequiredV2(d: WireDict) {
    && d.sourceApplication.Some? && d.payloadSchemaId.Some? && d.payloadSchemaVersion.Some?
    && d.contentType.Some? && d.originalPayload.Some? && d.archiveEligible.Some?
  }

  /** The decoder leaves the JSON types of these fields unchecked; a wrong type is read as an invalid field here. */
  predicate WellTypedCommon(d: WireDict)
    requires HasRequired(d)
  {
    && d.eventId.value.WText? && d.identityQuality.value.WQuality? && d.sourceId.value.WText?
    && d.siteId.value.WText? && d.timestampQuality.value.WQuality? && d.topic.value.WText?
    && d.eventKind.value.WKind? && d.isHistorical.value.WBool?
    && (d.sourceBootId.Some? ==> d.sourceBootId.value.WNull? || d.sourceBootId.value.WText?)
    && (d.sourceSequence.Some? ==> d.sourceSequence.value.WNull? || d.sourceSequence.value.WInt?)
  }

  predicate WellTypedV2(d: WireDict)
    requires HasRequiredV2(d)
  {
    && d.sourceApplication.value.WText? && d.payloadSchemaId.value.WText? && d.payloadSchemaVersion.value.WText?
    && d.contentType.value.WText? && d.originalPayload.value.WBase64? && d.archiveEligible.value.WBool?
  }

  /** The structural checks of the decoder, in its order. */
  function CheckWire(d: WireDict): Option<Reason> {
    if d.schemaVersion != Some(WInt(1)) && d.schemaVersion != Some(WInt(2)) then Some(UnsupportedSchema)
    else if !HasRequired(d) then Some(MissingField)
    else if d.rawPayloadBase64.Some? && !d.rawPayloadBase64.value.WNull? && !d.rawPayloadBase64.value.WText?
        then Some(InvalidField)
    else if !d.payload.value.WObject? || !WellTypedCommon(d) then Some(InvalidField)
    else if d.schemaVersion == Some(WInt(2)) && !HasRequiredV2(d) then Some(MissingField)
    else if d.schemaVersion == Some(WInt(2)) && !WellTypedV2(d) then Some(InvalidField)
    else if !d.time.value.WInstant? || !d.receivedAt.value.WInstant? then Some(InvalidField)
    else None
  }

  function OptionalText(entry: Option<Wire>): Option<string> {
    if entry.Some? && entry.value.WText? then Some(entry.value.text) else None
  }

  /** The constructor arguments read from a dictionary that passed the checks. */
  function ReadArguments(d: WireDict): Envelope
    requires CheckWire(d) == None
  {
    var version2 := d.schemaVersion == Some(WInt(2));
    Envelope(
      d.schemaVersion.value.number, d.eventId.value.text, d.identityQuality.value.quality, d.sourceId.value.text,
      OptionalText(d.sourceBootId),
      if d.sourceSequence.Some? && d.sourceSequence.value.WInt? then Some(d.sourceSequence.value.number) else None,
      d.siteId.value.text, d.time.value.instant, d.receivedAt.value.instant, d.timestampQuality.value.quality,
      d.topic.value.text, d.eventKind.value.kind, d.isHistorical.value.flag, d.payload.value.object_,
      OptionalText(d.rawPayloadBase64),
      if version2 then OptionalText(d.sourceApplication) else None,
      if version2 then OptionalText(d.payloadSchemaId) else None,
      if version2 then OptionalText(d.payloadSchemaVersion) else None,
      if version2 then OptionalText(d.contentType) else None,
      if version2 then Some(d.originalPayload.value.bytes) else None,
      if version2 then Some(d.archiveEligible.value.flag) else None)
  }

  /** The version-dependent fields are present exactly in version 2, and the raw payload only in version 1. */
  predicate VersionFieldsMatch(e: Envelope) {
    if e.schemaVersion == 1 then
      && e.sourceApplication.None? && e.payloadSchemaId.None? && e.payloadSchemaVersion.None?
      && e.contentType.None? && e.originalPayload.None? && e.archiveEligible.None?
    else
      && e.schemaVersion == 2 && e.sourceApplication.Some? && e.payloadSchemaId.Some? && e.payloadSchemaVersion.Some?
      && e.contentType.Some? && e.originalPayload.Some? && e.archiveEligible.Some?
  }

  ghost predicate CarriesText(entry: Option<Wire>, value: Option<string>) {
    if value.Some? then entry == Some(WText(value.value)) else entry == None || entry == Some(WNull)
  }

  /** The dictionary has the envelope's fields, each under its own key; nullable ones may be missing. */
  ghost predicate Carries(d: WireDict, e: Envelope) {
    && d.schemaVersion == Some(WInt(e.schemaVersion)) && e.schemaVersion in {1, 2}
    && d.eventId == Some(WText(e.eventId)) && d.identityQuality == Some(WQuality(e.identityQuality))
    && d.sourceId == Some(WText(e.sourceId)) && d.siteId == Some(WText(e.siteId))
    && CarriesText(d.sourceBootId, e.sourceBootId)
    && (if e.sourceSequence.Some? then d.sourceSequence == Some(WInt(e.sourceSequence.value))
        else d.sourceSequence == None || d.sourceSequence == Some(WNull))
    && d.time == Some(WInstant(e.time)) && d.receivedAt == Some(WInstant(e.receivedAt))
    && d.timestampQuality == Some(WQuality(e.timestampQuality)) && d.topic == Some(WText(e.topic))
    && d.eventKind == Some(WKind(e.eventKind)) && d.isHistorical == Some(WBool(e.isHistorical))
    && d.payload == Some(WObject(e.payload)) && CarriesText(d.rawPayloadBase64, e.rawPayloadBase64)
    && VersionFieldsMatch(e)
    && (e.schemaVersion == 2 ==>
          && d.sourceApplication == Some(WText(e.sourceApplication.value))
          && d.payloadSchemaId == Some(WText(e.payloadSchemaId.value))
          && d.payloadSchemaVersion == Some(WText(e.payloadSchemaVersion.value))
          && d.contentType == Some(WText(e.contentType.value))
          && d.originalPayload == Some(WBase64(e.originalPayload.value))
          && d.archiveEligible == Some(WBool(e.archiveEligible.value)))
  }

  function FromWire(d: WireDict): Result<Envelope, Reason> {
    match CheckWire(d)
    case Some(reason) => Err(reason)
    case None => Build(ReadArguments(d))
  }

  /** What is read from a dictionary is what it carries; one that carries nothing is refused. */
  lemma ReadIff(d: WireDict, e: Envelope)
    ensures CheckWire(d) == None && ReadArguments(d) == e <==> Carries(d, e)
    ensures Carries(d, e) ==> FromWire(d) == Build(e)
  {
  }

  /** Whether the decoder refuses a dictionary for its version, or for a key that is not there. */
  lemma WireProblemIff(d: WireDict)
    ensures CheckWire(d) == Some(UnsupportedSchema) <==> d.schemaVersion !in {Some(WInt(1)), Some(WInt(2))}
    ensures CheckWire(d) == Some(MissingField) ==>
              || d.eventId.None? || d.identityQuality.None? || d.sourceId.None? || d.siteId.None? || d.time.None?
              || d.receivedAt.None? || d.timestampQuality.None? || d.topic.None? || d.eventKind.None?
              || d.isHistorical.None? || d.payload.None?
              || (&& d.schemaVersion == Some(WInt(2))
                  && (|| d.sourceApplication.None? || d.payloadSchemaId.None? || d.payloadSchemaVersion.None?
                      || d.contentType.None? || d.originalPayload.None? || d.archiveEligible.None?))
    ensures CheckWire(d) in {None, Some(UnsupportedSchema), Some(MissingField), Some(InvalidField)}
  {
  }

  // ------------------------------------------------------------------ validation

  predicate IsHistoricEventTopic(topic: string) {
    topic != "" && !("uns/platform/" <= topic)
  }

  predicate IsLowerHex(c: char) {
    '0' <= c <= '9' || 'a' <= c <= 'f'
  }

  predicate IsHex(c: char) {
    IsLowerHex(c) || 'A' <= c <= 'F'
  }

  predicate IsSourceId(id: string) {
    "source:" <= id && |id| == 71 && forall i :: 7 <= i < 71 ==> IsLowerHex(id[i])
  }

  /** A letter in any case, as the regular expressions of Python see it: `i` and `s` have more forms than two. */
  predicate IsLetter(c: char, lower: char, upper: char) {
    || c == lower || c == upper
    || (lower == 'i' && (c == '\U{130}' || c == '\U{131}')) || (lower == 's' && c == '\U{17F}')
  }

  /** `ingress:` in any case, then a hyphenated UUID. */
  predicate IsIngressId(id: string) {
    && |id| == 44
    && (forall i :: 0 <= i < 7 ==> IsLetter(id[i], "ingress"[i], "INGRESS"[i]))
    && id[7] == ':'
    && forall i :: 8 <= i < 44 ==> if i in {16, 21, 26, 31} then id[i] == '-' else IsHex(id[i])
  }

  predicate IsRouteId(id: string) {
    1 <= |id| <= 128 &&
    forall i :: 0 <= i < |id| ==>
                  || 'A' <= id[i] <= 'Z' || 'a' <= id[i] <= 'z' || '0' <= id[i] <= '9'
                  || id[i] == '_' || id[i] == '-'
  }

  predicate IsBase64Char(c: char) {
    'A' <= c <= 'Z' || 'a' <= c <= 'z' || '0' <= c <= '9' || c == '+' || c == '/'
  }

  /** Section 4 of RFC 4648: groups of four, padded at the end only. */
  predicate IsBase64(text: string) {
    && |text| % 4 == 0
    && forall i :: 0 <= i < |text| ==>
         || IsBase64Char(text[i])
         || (text[i] == '=' && (i == |text| - 1 || (i == |text| - 2 && text[|text| - 1] == '=')))
  }

  function ValidateV1(e: Envelope): Option<Reason> {
    if e.rawPayloadBase64.Some? && !IsBase64(e.rawPayloadBase64.value) then Some(InvalidField)
    else if e.sourceApplication.Some? || e.payloadSchemaId.Some? || e.payloadSchemaVersion.Some?
            || e.contentType.Some? || e.originalPayload.Some? || e.archiveEligible.Some? then Some(InvalidField)
    else None
  }

  function ValidateV2(e: Envelope): Option<Reason> {
    if e.rawPayloadBase64.Some? then Some(InvalidField)
    else if e.sourceApplication.None? || e.payloadSchemaId.None? || e.payloadSchemaVersion.None?
            || e.contentType.None? || e.originalPayload.None? || e.archiveEligible.None? then Some(MissingField)
    else if e.contentType.value == "" then Some(InvalidField)
    else if !IsRouteId(e.sourceApplication.value) || !IsRouteId(e.payloadSchemaId.value)
            || !IsRouteId(e.payloadSchemaVersion.value) || !IsRouteId(e.siteId) then Some(InvalidField)
    else None
  }

  /** `None` when the envelope is valid, else the reason of the first check that fails. */
  function Validate(e: Envelope, identity: SourceIdentity): Option<Reason> {
    if e.schemaVersion != 1 && e.schemaVersion != 2 then Some(UnsupportedSchema)
    else if e.identityQuality.OtherQuality? || e.timestampQuality.OtherQuality? || e.eventKind.OtherKind?
        then Some(InvalidField)
    else if e.siteId == "" || e.sourceId == "" || e.topic == "" then Some(InvalidField)
    else if !IsHistoricEventTopic(e.topic) then Some(PlatformTopic)
    else if e.identityQuality.Source? &&
            (|| e.sourceBootId.None? || e.sourceSequence.None? || !IsSourceId(e.eventId)
             || e.eventId != identity(e.siteId, e.sourceId, e.sourceBootId.value, e.sourceSequence.value)) then
      Some(InvalidIdentity)
    else if e.identityQuality.Ingress?
        && (e.sourceBootId.Some? || e.sourceSequence.Some? || !IsIngressId(e.eventId)) then
      Some(InvalidIdentity)
    else if e.schemaVersion == 1 then ValidateV1(e)
    else ValidateV2(e)
  }

  predicate AllHex(s: string) {
    forall i :: 0 <= i < |s| ==> IsHex(s[i])
  }

  /** A source id is the word, a colon and 64 lower-case hexadecimal digits. */
  lemma SourceIdIff(id: string)
    ensures IsSourceId(id)
            <==> exists digest: string :: |digest| == 64 && id == "source:" + digest
                                          && forall c :: c in digest ==> '0' <= c <= '9' || 'a' <= c <= 'f'
  {
    if IsSourceId(id) {
      var digest := id[7..];
      assert id == "source:" + digest;
      forall c | c in digest ensures '0' <= c <= '9' || 'a' <= c <= 'f' {
        var i :| 0 <= i < |digest| && digest[i] == c;
        assert id[i + 7] == c;
      }
    }
    if digest: string :| |digest| == 64 && id == "source:" + digest
                         && forall c :: c in digest ==> '0' <= c <= '9' || 'a' <= c <= 'f' {
      forall i | 7 <= i < 71 ensures IsLowerHex(id[i]) {
        assert id[i] == digest[i - 7] && digest[i - 7] in digest;
      }
    }
  }

  /** An ingress id of five groups of hexadecimal digits, of the lengths a UUID has. */
  lemma IngressIdIs(a: string, b: string, c: string, d: string, e: string)
    requires |a| == 8 && |b| == 4 && |c| == 4 && |d| == 4 && |e| == 12
    ensures var id := "ingress:" + a + "-" + b + "-" + c + "-" + d + "-" + e;
            IsIngressId(id) <==> AllHex(a) && AllHex(b) && AllHex(c) && AllHex(d) && AllHex(e)
  {
    var id := "ingress:" + a + "-" + b + "-" + c + "-" + d + "-" + e;
    assert id[8..16] == a && id[17..21] == b && id[22..26] == c && id[27..31] == d && id[32..] == e;
    if IsIngressId(id) {
      assert forall i :: 0 <= i < 8 ==> a[i] == id[8 + i];
      assert forall i :: 0 <= i < 4 ==> b[i] == id[17 + i] && c[i] == id[22 + i] && d[i] == id[27 + i];
      assert forall i :: 0 <= i < 12 ==> e[i] == id[32 + i];
    }
  }

  ghost predicate PaddedAs(text: string, body: string, pad: string) {
    && text == body + pad && (pad == "" || pad == "=" || pad == "==")
    && forall i :: 0 <= i < |body| ==> IsBase64Char(body[i])
  }

  /** The texts of base64: its characters, then at most two signs of padding, in groups of four. */
  lemma Base64Iff(text: string)
    ensures IsBase64(text) <==> |text| % 4 == 0 && exists body, pad :: PaddedAs(text, body, pad)
  {
    if IsBase64(text) {
      var n := if text == "" || text[|text| - 1] != '=' then 0 else if text[|text| - 2] != '=' then 1 else 2;
      var body, pad := text[..|text| - n], text[|text| - n..];
      assert text == body + pad && forall i :: 0 <= i < |pad| ==> pad[i] == text[|body| + i];
      assert PaddedAs(text, body, pad);
    }
  }

  /** What a valid envelope is, field by field. */
  lemma ValidIff(e: Envelope, identity: SourceIdentity)
    ensures Validate(e, identity) == None
            <==> && (e.schemaVersion == 1 || e.schemaVersion == 2)
                 && !e.identityQuality.OtherQuality? && !e.timestampQuality.OtherQuality? && !e.eventKind.OtherKind?
                 && e.siteId != "" && e.sourceId != "" && e.topic != "" && !("uns/platform/" <= e.topic)
                 && (if e.identityQuality.Source?
                     then && e.sourceBootId.Some? && e.sourceSequence.Some? && IsSourceId(e.eventId)
                          && e.eventId == identity(e.siteId, e.sourceId, e.sourceBootId.value, e.sourceSequence.value)
                     else e.sourceBootId == None && e.sourceSequence == None && IsIngressId(e.eventId))
                 && (if e.schemaVersion == 1
                     then && e.sourceApplication == None && e.payloadSchemaId == None && e.payloadSchemaVersion == None
                          && e.contentType == None && e.originalPayload == None && e.archiveEligible == None
                          && (e.rawPayloadBase64.Some? ==> IsBase64(e.rawPayloadBase64.value))
                     else && e.rawPayloadBase64 == None && e.originalPayload.Some? && e.archiveEligible.Some?
                          && e.contentType.Some? && e.contentType.value != ""
                          && e.sourceApplication.Some? && IsRouteId(e.sourceApplication.value)
                          && e.payloadSchemaId.Some? && IsRouteId(e.payloadSchemaId.value)
                          && e.payloadSchemaVersion.Some? && IsRouteId(e.payloadSchemaVersion.value)
                          && IsRouteId(e.siteId))
    ensures Validate(e, identity) == Some(PlatformTopic) ==> e.topic == "" || "uns/platform/" <= e.topic
    ensures Validate(e, identity) == Some(UnsupportedSchema) <==> e.schemaVersion != 1 && e.schemaVersion != 2
  {
  }

  function EncodeEvent(e: Envelope, identity: SourceIdentity): Result<WireDict, Reason> {
    match Validate(e, identity)
    case Some(reason) => Err(reason)
    case None => Ok(ToWire(e))
  }

  function DecodeEvent(d: WireDict, identity: SourceIdentity): Result<Envelope, Reason> {
    match FromWire(d)
    case Err(reason) => Err(reason)
    case Ok(e) =>
      match Validate(e, identity)
      case Some(reason) => Err(reason)
      case None => Ok(e)
  }

  /** What the encoder writes passes the decoder's checks and is read back field by field. */
  lemma WireFieldsReadBack(e: Envelope)
    requires VersionFieldsMatch(e)
    ensures Carries(ToWire(e), e)
    ensures CheckWire(ToWire(e)) == None
    ensures ReadArguments(ToWire(e)) == e
  {
    ReadIff(ToWire(e), e);
  }

  /** What is decoded carries the fields of an envelope that can be built and is valid; what is encoded is valid. */
  lemma DecodesIff(d: WireDict, e: Envelope, identity: SourceIdentity)
    ensures DecodeEvent(d, identity) == Ok(e)
            <==> Validate(e, identity) == None && exists input :: Carries(d, input) && Build(input) == Ok(e)
    ensures EncodeEvent(e, identity).Ok? <==> Validate(e, identity) == None
  {
    if CheckWire(d) == None {
      ReadIff(d, ReadArguments(d));
    }
    if input :| Carries(d, input) && Build(input) == Ok(e) {
      ReadIff(d, input);
    }
  }

  /** The parts of an envelope under its content hash; SHA-256 is taken to be injective on them. */
  function HashedContent(e: Envelope): Envelope {
    if e.schemaVersion == 1 then
      e.(receivedAt := 0, sourceApplication := None, payloadSchemaId := None, payloadSchemaVersion := None,
      contentType := None, originalPayload := None, archiveEligible := None)
    else e.(receivedAt := 0, rawPayloadBase64 := None)
  }

  /**
   * The envelope round trip. A built, valid envelope comes back from the wire unchanged except when it is a
   * version 1 envelope whose stored timestamp still has a magnitude of 10^11 or more, and then neither the envelope
   * nor its content hash does.
   */
  lemma EnvelopeRoundTripIff(input: Envelope, e: Envelope, identity: SourceIdentity)
    requires Build(input) == Ok(e)
    requires Validate(e, identity) == None
    ensures EncodeEvent(e, identity).Ok?
    ensures DecodeEvent(EncodeEvent(e, identity).value, identity) == Ok(e)
            <==> (e.schemaVersion == 1 ==> TimestampBelow(e.payload, LEGACY_SECONDS_THRESHOLD))
    ensures var decoded := DecodeEvent(EncodeEvent(e, identity).value, identity);
            decoded.Ok? && (HashedContent(decoded.value) == HashedContent(e) <==> decoded.value == e)
  {
    WireFieldsReadBack(e);
    if e.schemaVersion == 1 {
      NormalizePayloadEffect(input.payload);
      NormalizePayloadEffect(e.payload);
      if StoredTimestamp(e.payload).Some? {
        NormalizedFitsFloat(StoredTimestamp(input.payload).value.n);
        NormalizeFixpointIff(NormalizeNumber(StoredTimestamp(input.payload).value.n));
      }
    }
  }

  // --------------------------------------------------------- identity and content

  function EventKey(e: Envelope): Result<seq<string>, Reason> {
    var parts := Split(e.topic, '/');
    if "spBv1.0/STATE/" <= e.topic && |parts| > 2 then Ok([e.siteId, "sparkplug", "STATE", parts[2]])
    else if "spBv1.0/" <= e.topic then
      if |parts| < 4 then Err(InvalidField) else Ok([e.siteId, "sparkplug", parts[1], parts[3]])
    else Ok([e.siteId, "mqtt", e.topic])
  }

  /** The partition key of a topic by its levels: group and edge node, host of a state, or the topic itself. */
  lemma KeyByLevels(e: Envelope, levels: seq<string>)
    requires Split(e.topic, '/') == levels
    ensures !("spBv1.0/" <= e.topic) ==> EventKey(e) == Ok([e.siteId, "mqtt", e.topic])
    ensures "spBv1.0/" <= e.topic && !("spBv1.0/STATE/" <= e.topic) ==>
              EventKey(e) == if |levels| >= 4 then Ok([e.siteId, "sparkplug", levels[1], levels[3]])
                             else Err(InvalidField)
    ensures "spBv1.0/STATE/" <= e.topic && |levels| > 2 ==>
              EventKey(e) == Ok([e.siteId, "sparkplug", "STATE", levels[2]])
  {
  }

  /** Where two events go to the same partition: same site, and same topic, or same Sparkplug group and edge node. */
  lemma SameKeyIff(a: Envelope, b: Envelope)
    requires EventKey(a).Ok? && EventKey(b).Ok?
    requires !("spBv1.0/STATE/" <= a.topic) && !("spBv1.0/STATE/" <= b.topic)
    ensures EventKey(a) == EventKey(b)
            <==> && a.siteId == b.siteId
                 && (if "spBv1.0/" <= a.topic
                     then && "spBv1.0/" <= b.topic && Split(a.topic, '/')[1] == Split(b.topic, '/')[1]
                          && Split(a.topic, '/')[3] == Split(b.topic, '/')[3]
                     else a.topic == b.topic)
  {
    if EventKey(a) == EventKey(b) {
      assert EventKey(a).value[0] == EventKey(b).value[0] && EventKey(a).value[1] == EventKey(b).value[1];
      assert EventKey(a).value[2] == EventKey(b).value[2];
      assert "spBv1.0/" <= a.topic ==> EventKey(a).value[3] == EventKey(b).value[3];
    }
  }

  /** Two valid events have the same content exactly when they differ in no more than when they were received. */
  lemma SameContentIff(a: Envelope, b: Envelope, identity: SourceIdentity)
    requires Validate(a, identity) == None && Validate(b, identity) == None
    ensures HashedContent(a) == HashedContent(b) <==> a.(receivedAt := b.receivedAt) == b
  {
    var unread := a.(receivedAt := 0);
    assert HashedContent(a) == unread && HashedContent(b) == b.(receivedAt := 0);
    assert unread.(receivedAt := b.receivedAt) == a.(receivedAt := b.receivedAt);
  }

  /** The version 1 view a telemetry consumer works on; `None` for business events and state snapshots. */
  function AsLegacyTelemetry(e: Envelope): Result<Option<Envelope>, Reason> {
    if e.eventKind.BusinessEvent? || e.eventKind.StateSnapshot? then Ok(None)
    else if e.eventKind.OtherKind? then Err(InvalidField)
    else if e.schemaVersion == 1 then Ok(Some(e))
    else
      match NormalizePayload(e.payload)
      case Err(reason) => Err(reason)
      case Ok(payload) =>
        match Build(e.(schemaVersion := 1, payload := payload, rawPayloadBase64 := None, sourceApplication := None,
                    payloadSchemaId := None, payloadSchemaVersion := None, contentType := None,
                    originalPayload := None, archiveEligible := None))
        case Err(reason) => Err(reason)
        case Ok(legacy) => Ok(Some(legacy))
  }

  /**
   * A valid event with a legacy view keeps its identity and partition key and stays valid. The payload timestamp
   * is normalised twice on the way, which differs from once exactly from a magnitude of 10^14 on.
   */
  lemma LegacyViewIsValid(e: Envelope, identity: SourceIdentity)
    requires Validate(e, identity) == None
    requires AsLegacyTelemetry(e).Ok? && AsLegacyTelemetry(e).value.Some?
    ensures var legacy := AsLegacyTelemetry(e).value.value;
            && legacy.schemaVersion == 1
            && Validate(legacy, identity) == None
            && legacy.eventId == e.eventId && EventKey(legacy) == EventKey(e)
            && (e.schemaVersion == 2 ==>
                  (Ok(legacy.payload) == NormalizePayload(e.payload) <==> TimestampBelow(e.payload, 100000000000000.0)))
  {
    NormalizePayloadEffect(e.payload);
    if e.schemaVersion == 2 {
      var once := NormalizePayload(e.payload).value;
      NormalizePayloadEffect(once);
      if StoredTimestamp(e.payload).Some? {
        NormalizedFitsFloat(StoredTimestamp(e.payload).value.n);
        NormalizeIdempotentIff(StoredTimestamp(e.payload).value.n);
      }
    }
  }

  // ------------------------------------------------------------------- an example

  const SAMPLE_ID := "ingress:00000000-0000-0000-0000-000000000000"

  /** A telemetry event without a source identity, with a given payload. */
  function Sample(payload: Object): Envelope {
    Envelope(1, SAMPLE_ID, Ingress, "plc", None, None, "site", 0, 0, Ingress, "a/b", Telemetry, false, payload,
             None, None, None, None, None, None, None)
  }

  lemma SampleIdIsIngress()
    ensures IsIngressId(SAMPLE_ID)
  {
  }

  lemma SampleIsValid(payload: Object, identity: SourceIdentity)
    ensures Validate(Sample(payload), identity) == None
  {
    SampleIdIsIngress();
  }

  lemma StampPayload(x: real)
    requires FitsFloat(x)
    ensures NormalizePayload([Field("timestamp", Num(x))]) == Ok([Field("timestamp", Num(NormalizeNumber(x) as real))])
  {
    var stored := [Field("timestamp", Num(NormalizeNumber(x) as real))];
    assert [Field("timestamp", Num(x))][1..] == [] && stored + [] == stored;
  }

  /** A payload timestamp of 10^14 is stored as 10^11, and read from the wire as 10^8. */
  lemma LateTimestampIsLost(identity: SourceIdentity)
    ensures var stored := Sample([Field("timestamp", Num(100000000000.0))]);
            && Build(Sample([Field("timestamp", Num(100000000000000.0))])) == Ok(stored)
            && Validate(stored, identity) == None
            && DecodeEvent(ToWire(stored), identity) == Ok(Sample([Field("timestamp", Num(100000000.0))]))
  {
    var stored := Sample([Field("timestamp", Num(100000000000.0))]);
    SampleIsValid([Field("timestamp", Num(100000000000.0))], identity);
    SampleIsValid([Field("timestamp", Num(100000000.0))], identity);
    WireFieldsReadBack(stored);
    assert NormalizeNumber(100000000000000.0) == 100000000000 && NormalizeNumber(100000000000.0) == 100000000;
    StampPayload(100000000000000.0);
    StampPayload(100000000000.0);
  }
}
