/** Registered MQTT publication routes: topic filters, matching, and the static check that no topic is ambiguous. */
module PublicationRoutes {
  import opened Wrappers
  import opened Splitting
  import opened Events

  datatype SchemaPair = SchemaPair(id: string, version: string)

  /** The allowed schema pairs are a set; here they are listed in the order of its iteration. */
  datatype PublicationRoute = PublicationRoute(
    topicFilter: string,
    sourceId: string,
    sourceApplication: string,
    siteId: string,
    wireFormat: string,
    allowedSchemaPairs: seq<SchemaPair>,
    defaultSchemaPair: Option<SchemaPair>,
    contentType: string,
    eventKind: EventKind,
    archiveEligible: bool)

  datatype RouteError =
    | BadTopicFilter(problem: string)
    | BadField(name: string)
    | NoField(name: string)
    | AmbiguousRoutes(left: string, right: string)
    | AmbiguousRoute(topic: string)
    | UnknownRoute(topic: string)

  // ------------------------------------------------------------------ topic filters

  function SegmentProblem(segment: string, isLast: bool): Option<string> {
    if segment == "" then Some("empty_segment")
    else if '+' in segment && segment != "+" then Some("embedded_plus")
    else if '#' in segment && segment != "#" then Some("embedded_hash")
    else if segment == "#" && !isLast then Some("embedded_hash")
    else None
  }

  function FirstProblem(segments: seq<string>): Option<string> {
    if segments == [] then None
    else if SegmentProblem(segments[0], |segments| == 1).Some? then SegmentProblem(segments[0], |segments| == 1)
    else FirstProblem(segments[1..])
  }

  function ParseTopicFilter(filter: string): Result<seq<string>, RouteError> {
    if filter == "" then Err(BadTopicFilter("empty"))
    else if filter[0] == '$' then Err(BadTopicFilter("dollar_root"))
    else
      var segments := Split(filter, '/');
      if FirstProblem(segments).Some? then Err(BadTopicFilter(FirstProblem(segments).value))
      else if segments[0] == "+" || segments[0] == "#" then Err(BadTopicFilter("dollar_root_wildcard"))
      else Ok(segments)
  }

  method ParseFilter(filter: string) returns (r: Result<seq<string>, RouteError>)
    ensures r == ParseTopicFilter(filter)
  {
    if filter == "" {
      return Err(BadTopicFilter("empty"));
    }
    if filter[0] == '$' {
      return Err(BadTopicFilter("dollar_root"));
    }
    var segments := Split(filter, '/');
    for i := 0 to |segments|
      invariant FirstProblem(segments) == FirstProblem(segments[i..])
    {
      var problem := SegmentProblem(segments[i], i == |segments| - 1);
      if problem.Some? {
        return Err(BadTopicFilter(problem.value));
      }
    }
    if segments[0] == "+" || segments[0] == "#" {
      return Err(BadTopicFilter("dollar_root_wildcard"));
    }
    r := Ok(segments);
  }

  /** A literal segment: not empty, without wildcard characters. */
  predicate Literal(segment: string) {
    segment != "" && '+' !in segment && '#' !in segment
  }

  /** Literals and `+`, with `#` at most in the last place. */
  ghost predicate WellFormed(segments: seq<string>) {
    && segments != []
    && forall i :: 0 <= i < |segments| ==>
        Literal(segments[i]) || segments[i] == "+" || (segments[i] == "#" && i == |segments| - 1)
  }

  lemma {:induction false} NoProblemIff(segments: seq<string>)
    requires segments != []
    ensures FirstProblem(segments).None? <==> WellFormed(segments)
  {
    assert SegmentProblem(segments[0], |segments| == 1).None?
           <==> Literal(segments[0]) || segments[0] == "+" || (segments[0] == "#" && |segments| == 1);
    if |segments| > 1 {
      NoProblemIff(segments[1..]);
      assert forall i :: 0 < i < |segments| ==> segments[i] == segments[1..][i - 1];
      if WellFormed(segments) {
        assert forall i :: 0 <= i < |segments| - 1 ==> segments[1..][i] == segments[i + 1];
      }
    }
  }

  /** The accepted filters: well formed, beginning with a literal that is not a `$` root; nothing is lost in parsing. */
  lemma ParseAcceptsIff(filter: string)
    ensures ParseTopicFilter(filter).Ok?
            <==> WellFormed(Split(filter, '/')) && Literal(Split(filter, '/')[0]) && filter[..1] != "$"
    ensures ParseTopicFilter(filter).Ok? ==> Join(ParseTopicFilter(filter).value, '/') == filter
  {
    NoProblemIff(Split(filter, '/'));
    JoinOfSplit(filter, '/');
    if filter != "" {
      assert filter[..1] == [filter[0]];
    }
  }

  // ----------------------------------------------------------------------- matching

  function SegmentsMatch(topic: seq<string>, filter: seq<string>): bool {
    if filter == [] then topic == []
    else if filter[0] == "#" then true
    else if topic == [] then false
    else if filter[0] == "+" then SegmentsMatch(topic[1..], filter[1..])
    else if filter[0] != topic[0] then false
    else SegmentsMatch(topic[1..], filter[1..])
  }

  predicate Hashed(filter: seq<string>) {
    filter != [] && filter[|filter| - 1] == "#"
  }

  /** The levels of a filter before a closing `#`. */
  function Levels(filter: seq<string>): nat {
    if Hashed(filter) then |filter| - 1 else |filter|
  }

  /** Section 4.7.1 of MQTT 5.0: level by level, `+` stands for any one, a last `#` for the parent and all below. */
  ghost predicate LevelsMatch(topic: seq<string>, filter: seq<string>) {
    && (if filter != [] && filter[|filter| - 1] == "#" then |topic| >= |filter| - 1 else |topic| == |filter|)
    && forall i :: 0 <= i < |filter| ==>
        filter[i] == "+" || (filter[i] == "#" && i == |filter| - 1) || (i < |topic| && filter[i] == topic[i])
  }

  lemma {:induction false} MatchesIff(topic: seq<string>, filter: seq<string>)
    requires filter == [] || WellFormed(filter)
    ensures SegmentsMatch(topic, filter)
            <==> && (if Hashed(filter) then |topic| >= Levels(filter) else |topic| == Levels(filter))
                 && forall i :: 0 <= i < Levels(filter) ==> filter[i] == "+" || filter[i] == topic[i]
  {
    if filter != [] && filter[0] != "#" && topic != [] {
      MatchesIff(topic[1..], filter[1..]);
      assert forall i :: 0 < i < Levels(filter) ==> filter[i] == filter[1..][i - 1];
      assert forall i :: 0 < i < |topic| ==> topic[i] == topic[1..][i - 1];
      assert forall i :: 0 <= i < Levels(filter) - 1 ==> filter[1..][i] == filter[i + 1];
      assert forall i :: 0 <= i < |topic| - 1 ==> topic[1..][i] == topic[i + 1];
    }
  }

  function TopicMatchesFilter(topic: string, filter: string): Result<bool, RouteError> {
    match ParseTopicFilter(filter)
    case Err(e) => Err(e)
    case Ok(segments) => Ok(SegmentsMatch(Split(topic, '/'), segments))
  }

  /** A filter that parses is compared with the topic level by level; one that does not fails as it is tried. */
  lemma TopicMatchesIff(topic: string, filter: string)
    ensures match ParseTopicFilter(filter)
            case Ok(_) => TopicMatchesFilter(topic, filter) == Ok(LevelsMatch(Split(topic, '/'), Split(filter, '/')))
            case Err(error) => TopicMatchesFilter(topic, filter) == Err(error)
  {
    if ParseTopicFilter(filter).Ok? {
      ParseAcceptsIff(filter);
      var levels := Split(filter, '/');
      MatchesIff(Split(topic, '/'), levels);
      assert Hashed(levels) ==> levels[Levels(levels)] == "#";
    }
  }

  // ------------------------------------------------------------------------ overlap

  function SegmentsOverlap(left: seq<string>, right: seq<string>): bool {
    if left == [] && right == [] then true
    else if left == [] then right[|right| - 1] == "#"
    else if right == [] then left[|left| - 1] == "#"
    else if left[0] == "#" || right[0] == "#" then true
    else if left[0] == "+" || right[0] == "+" then SegmentsOverlap(left[1..], right[1..])
    else if left[0] != right[0] then false
    else SegmentsOverlap(left[1..], right[1..])
  }

  lemma {:induction false} OverlapSymmetric(left: seq<string>, right: seq<string>)
    ensures SegmentsOverlap(left, right) == SegmentsOverlap(right, left)
  {
    if left != [] && right != [] { OverlapSymmetric(left[1..], right[1..]); }
  }

  lemma {:induction false} OverlapReflexive(filter: seq<string>)
    ensures SegmentsOverlap(filter, filter)
  {
    if filter != [] { OverlapReflexive(filter[1..]); }
  }

  predicate Compatible(a: string, b: string) {
    a == "+" || b == "+" || a == b
  }

  function Min(a: nat, b: nat): nat {
    if a < b then a else b
  }

  /** The two filters agree on every level both have. */
  ghost predicate Agree(left: seq<string>, right: seq<string>) {
    forall i :: 0 <= i < Min(Levels(left), Levels(right)) ==> Compatible(left[i], right[i])
  }

  /** One filter without `#` ends at least a level above where the other one has its `#`. */
  ghost predicate NearMiss(short: seq<string>, long: seq<string>) {
    !Hashed(short) && Hashed(long) && |long| >= |short| + 2 && Agree(short, long)
  }

  ghost predicate Meet(left: seq<string>, right: seq<string>) {
    && Agree(left, right)
    && (if Hashed(left) then Hashed(right) || |right| >= Levels(left)
        else if Hashed(right) then |left| >= Levels(right) else |left| == |right|)
  }

  lemma AgreeTail(left: seq<string>, right: seq<string>)
    requires WellFormed(left) && WellFormed(right) && left[0] != "#" && right[0] != "#"
    ensures Agree(left, right) <==> Compatible(left[0], right[0]) && Agree(left[1..], right[1..])
  {
  }

  lemma {:induction false} OverlapIsMeetOrNearMiss(left: seq<string>, right: seq<string>)
    requires (left == [] || WellFormed(left)) && (right == [] || WellFormed(right))
    ensures SegmentsOverlap(left, right) <==> Meet(left, right) || NearMiss(left, right) || NearMiss(right, left)
  {
    if left != [] && right != [] && left[0] != "#" && right[0] != "#" {
      OverlapIsMeetOrNearMiss(left[1..], right[1..]);
      AgreeTail(left, right);
      AgreeTail(right, left);
    }
  }

  /** A topic that can be published: literal levels only, none of them broken by a separator. */
  ghost predicate Publishable(topic: seq<string>) {
    topic != [] && (forall i :: 0 <= i < |topic| ==> Literal(topic[i])) && SeparatorFree(topic, '/')
  }

  ghost predicate BothMatch(topic: seq<string>, left: seq<string>, right: seq<string>) {
    Publishable(topic) && SegmentsMatch(topic, left) && SegmentsMatch(topic, right)
  }

  /** A level both filters allow: the literal of either, or any other. */
  function WitnessLevel(left: seq<string>, right: seq<string>, i: nat): string {
    if i < Levels(left) && left[i] != "+" then left[i]
    else if i < Levels(right) && right[i] != "+" then right[i]
    else "x"
  }

  function Witness(left: seq<string>, right: seq<string>): seq<string> {
    var n := if Levels(left) > Levels(right) then Levels(left) else Levels(right);
    seq(n, i requires 0 <= i < n => WitnessLevel(left, right, i))
  }

  lemma WitnessLevels(left: seq<string>, right: seq<string>, i: nat)
    requires WellFormed(left) && WellFormed(right) && SeparatorFree(left, '/') && SeparatorFree(right, '/')
    requires Agree(left, right) && i < |Witness(left, right)|
    ensures var level := Witness(left, right)[i];
            && Literal(level) && '/' !in level
            && (i < Levels(left) ==> left[i] == "+" || left[i] == level)
            && (i < Levels(right) ==> right[i] == "+" || right[i] == level)
  {
    if i < Levels(left) && i < Levels(right) {
      assert Compatible(left[i], right[i]);
    }
  }

  lemma MeetHasWitness(left: seq<string>, right: seq<string>)
    requires WellFormed(left) && WellFormed(right) && left[0] != "#"
    requires SeparatorFree(left, '/') && SeparatorFree(right, '/') && Meet(left, right)
    ensures BothMatch(Witness(left, right), left, right)
  {
    var topic := Witness(left, right);
    MatchesIff(topic, left);
    MatchesIff(topic, right);
    forall i | 0 <= i < |topic|
      ensures Literal(topic[i]) && '/' !in topic[i]
      ensures i < Levels(left) ==> left[i] == "+" || left[i] == topic[i]
      ensures i < Levels(right) ==> right[i] == "+" || right[i] == topic[i]
    {
      WitnessLevels(left, right, i);
    }
  }

  lemma {:induction false} CommonTopicMeets(topic: seq<string>, left: seq<string>, right: seq<string>)
    requires WellFormed(left) && WellFormed(right) && SegmentsMatch(topic, left) && SegmentsMatch(topic, right)
    ensures Meet(left, right)
  {
    MatchesIff(topic, left);
    MatchesIff(topic, right);
  }

  /** For accepted filters: the check fires exactly on those with a publishable topic in common and on near misses. */
  lemma OverlapIff(left: string, right: string)
    requires ParseTopicFilter(left).Ok? && ParseTopicFilter(right).Ok?
    ensures var l, r := ParseTopicFilter(left).value, ParseTopicFilter(right).value;
            SegmentsOverlap(l, r)
            <==> (exists topic: string :: BothMatch(Split(topic, '/'), l, r)) || NearMiss(l, r) || NearMiss(r, l)
  {
    var l, r := ParseTopicFilter(left).value, ParseTopicFilter(right).value;
    ParseAcceptsIff(left);
    ParseAcceptsIff(right);
    SplitIsSeparatorFree(left, '/');
    SplitIsSeparatorFree(right, '/');
    OverlapIsMeetOrNearMiss(l, r);
    if Meet(l, r) {
      MeetHasWitness(l, r);
      SplitOfJoin(Witness(l, r), '/');
      assert BothMatch(Split(Join(Witness(l, r), '/'), '/'), l, r);
    }
    if topic: string :| BothMatch(Split(topic, '/'), l, r) {
      CommonTopicMeets(Split(topic, '/'), l, r);
    }
  }

  /** On a near miss the check is wrong to fire: no topic at all matches both filters. */
  lemma NearMissHasNoTopic(short: seq<string>, long: seq<string>, topic: seq<string>)
    requires WellFormed(short) && WellFormed(long) && NearMiss(short, long)
    ensures !(SegmentsMatch(topic, short) && SegmentsMatch(topic, long))
  {
  }

  // --------------------------------------------------------------------- validation

  predicate IdChar(c: char) {
    'A' <= c <= 'Z' || 'a' <= c <= 'z' || '0' <= c <= '9' || c == '_' || c == '-'
  }

  predicate RouteId(s: string) {
    1 <= |s| <= 128 && forall i :: 0 <= i < |s| ==> IdChar(s[i])
  }

  function PairsError(pairs: seq<SchemaPair>): Option<RouteError> {
    if pairs == [] then None
    else if !RouteId(pairs[0].id) then Some(BadField("payload_schema_id"))
    else if !RouteId(pairs[0].version) then Some(BadField("payload_schema_version"))
    else PairsError(pairs[1..])
  }

  function RouteErrorOf(r: PublicationRoute): Option<RouteError> {
    if ParseTopicFilter(r.topicFilter).Err? then Some(ParseTopicFilter(r.topicFilter).error)
    else if r.sourceId == "" then Some(BadField("source_id"))
    else if !RouteId(r.sourceApplication) then Some(BadField("source_application"))
    else if !RouteId(r.siteId) then Some(BadField("site_id"))
    else if r.wireFormat != "raw" && r.wireFormat != "uns-publication-v1" then Some(BadField("wire_format"))
    else if r.allowedSchemaPairs == [] then Some(BadField("allowed_schema_pairs"))
    else if PairsError(r.allowedSchemaPairs).Some? then PairsError(r.allowedSchemaPairs)
    else if r.wireFormat == "raw" && r.defaultSchemaPair.None? then Some(NoField("default_schema_pair"))
    else if r.defaultSchemaPair.Some? && r.defaultSchemaPair.value !in r.allowedSchemaPairs
        then Some(BadField("default_schema_pair"))
    else if r.contentType == "" then Some(BadField("content_type"))
    else if r.eventKind.OtherKind? then Some(BadField("event_kind"))
    else None
  }

  /** A route that passes on its own. */
  ghost predicate ValidRoute(r: PublicationRoute) {
    && ParseTopicFilter(r.topicFilter).Ok?
    && r.sourceId != "" && RouteId(r.sourceApplication) && RouteId(r.siteId) && r.contentType != ""
    && r.allowedSchemaPairs != []
    && (forall pair :: pair in r.allowedSchemaPairs ==> RouteId(pair.id) && RouteId(pair.version))
    && (if r.defaultSchemaPair.Some?
        then r.defaultSchemaPair.value in r.allowedSchemaPairs && r.wireFormat in {"raw", "uns-publication-v1"}
        else r.wireFormat == "uns-publication-v1")
    && !r.eventKind.OtherKind?
  }

  lemma {:induction false} PairsErrorIff(pairs: seq<SchemaPair>)
    ensures PairsError(pairs).None? <==> forall pair :: pair in pairs ==> RouteId(pair.id) && RouteId(pair.version)
  {
    if pairs != [] {
      PairsErrorIff(pairs[1..]);
      assert forall pair :: pair in pairs <==> pair == pairs[0] || pair in pairs[1..];
    }
  }

  lemma RouteErrorIff(r: PublicationRoute)
    ensures RouteErrorOf(r).None? <==> ValidRoute(r)
  {
    PairsErrorIff(r.allowedSchemaPairs);
  }

  predicate Overlapping(left: string, right: string)
    requires ParseTopicFilter(left).Ok? && ParseTopicFilter(right).Ok?
  {
    left == right || SegmentsOverlap(ParseTopicFilter(left).value, ParseTopicFilter(right).value)
  }

  ghost predicate AllValid(routes: seq<PublicationRoute>) {
    forall i :: 0 <= i < |routes| ==> ValidRoute(routes[i])
  }

  /** Every route passes alone, and no two filters overlap. */
  ghost predicate Accepted(routes: seq<PublicationRoute>) {
    && AllValid(routes)
    && forall i, j :: 0 <= i < j < |routes| ==> !Overlapping(routes[i].topicFilter, routes[j].topicFilter)
  }

  lemma {:induction false} PairsErrorsAreNotAmbiguity(pairs: seq<SchemaPair>)
    ensures PairsError(pairs).Some? ==> !PairsError(pairs).value.AmbiguousRoutes?
  {
    if pairs != [] { PairsErrorsAreNotAmbiguity(pairs[1..]); }
  }

  lemma RouteErrorsAreNotAmbiguity(r: PublicationRoute)
    ensures RouteErrorOf(r).Some? ==> !RouteErrorOf(r).value.AmbiguousRoutes?
  {
    PairsErrorsAreNotAmbiguity(r.allowedSchemaPairs);
  }

  ghost predicate FirstInvalid(routes: seq<PublicationRoute>, i: int, error: Option<RouteError>) {
    0 <= i < |routes| && error == RouteErrorOf(routes[i]) && forall k :: 0 <= k < i ==> ValidRoute(routes[k])
  }

  ghost predicate Clash(routes: seq<PublicationRoute>, i: int, j: int)
    requires AllValid(routes)
  {
    0 <= i < j < |routes| && Overlapping(routes[i].topicFilter, routes[j].topicFilter)
  }

  ghost predicate ReportsInvalid(routes: seq<PublicationRoute>, error: Option<RouteError>) {
    exists i :: FirstInvalid(routes, i, error)
  }

  ghost predicate ReportsClash(routes: seq<PublicationRoute>, error: Option<RouteError>) {
    && AllValid(routes)
    && exists i, j :: Clash(routes, i, j)
        && error == Some(AmbiguousRoutes(routes[i].topicFilter, routes[j].topicFilter))
  }

  method ParseAll(routes: seq<PublicationRoute>) returns (error: Option<RouteError>, parsed: seq<(string, seq<string>)>)
    ensures error.None? <==> AllValid(routes)
    ensures error.Some? ==> !error.value.AmbiguousRoutes? && ReportsInvalid(routes, error)
    ensures error.None? ==>
              && |parsed| == |routes|
              && forall i :: 0 <= i < |routes| ==>
                  parsed[i] == (routes[i].topicFilter, ParseTopicFilter(routes[i].topicFilter).value)
  {
    parsed := [];
    for i := 0 to |routes|
      invariant |parsed| == i
      invariant forall k :: 0 <= k < i ==> ValidRoute(routes[k])
      invariant forall k :: 0 <= k < i ==>
                parsed[k] == (routes[k].topicFilter, ParseTopicFilter(routes[k].topicFilter).value)
    {
      RouteErrorIff(routes[i]);
      RouteErrorsAreNotAmbiguity(routes[i]);
      error := RouteErrorOf(routes[i]);
      if error.Some? {
        assert FirstInvalid(routes, i, error);
        return;
      }
      var segments := ParseFilter(routes[i].topicFilter);
      parsed := parsed + [(routes[i].topicFilter, segments.value)];
    }
    error := None;
  }

  method FindClash(
      ghost routes: seq<PublicationRoute>, parsed: seq<(string, seq<string>)>) returns (error: Option<RouteError>)
    requires AllValid(routes) && |parsed| == |routes|
    requires forall i :: 0 <= i < |routes| ==>
             parsed[i] == (routes[i].topicFilter, ParseTopicFilter(routes[i].topicFilter).value)
    ensures error.None? ==> forall i, j :: !Clash(routes, i, j)
    ensures error.Some? ==> error.value.AmbiguousRoutes? && ReportsClash(routes, error)
  {
    for i := 0 to |parsed|
      invariant forall k, l :: k < i ==> !Clash(routes, k, l)
    {
      for j := i + 1 to |parsed|
        invariant forall l :: l < j ==> !Clash(routes, i, l)
      {
        if parsed[i].0 == parsed[j].0 || SegmentsOverlap(parsed[i].1, parsed[j].1) {
          assert Clash(routes, i, j);
          return Some(AmbiguousRoutes(parsed[i].0, parsed[j].0));
        }
      }
    }
    error := None;
  }

  lemma AcceptedIff(routes: seq<PublicationRoute>)
    requires AllValid(routes)
    ensures Accepted(routes) <==> forall i, j :: !Clash(routes, i, j)
  {
    if forall i, j :: !Clash(routes, i, j) {
      forall i, j | 0 <= i < j < |routes| ensures !Overlapping(routes[i].topicFilter, routes[j].topicFilter) {
        assert !Clash(routes, i, j);
      }
    }
  }

  /** The routes pass, or the first one that fails alone is reported, or two that overlap. */
  method ValidateRoutes(routes: seq<PublicationRoute>) returns (error: Option<RouteError>)
    ensures error.None? <==> Accepted(routes)
    ensures error.Some? && error.value.AmbiguousRoutes? ==> ReportsClash(routes, error)
    ensures error.Some? && !error.value.AmbiguousRoutes? ==> ReportsInvalid(routes, error)
  {
    var parsed;
    error, parsed := ParseAll(routes);
    if error.Some? {
      return;
    }
    AcceptedIff(routes);
    error := FindClash(routes, parsed);
  }

  // -------------------------------------------------------------------- resolution

  predicate Matches(topic: string, route: PublicationRoute) {
    TopicMatchesFilter(topic, route.topicFilter) == Ok(true)
  }

  /** Filters are parsed as they are tried; one that cannot be parsed fails the search. */
  function MatchingRoutes(topic: string, routes: seq<PublicationRoute>): Result<seq<PublicationRoute>, RouteError> {
    if routes == [] then Ok([])
    else
      match TopicMatchesFilter(topic, routes[0].topicFilter)
      case Err(e) => Err(e)
      case Ok(matched) =>
        match MatchingRoutes(topic, routes[1..])
        case Err(e) => Err(e)
        case Ok(rest) => Ok((if matched then [routes[0]] else []) + rest)
  }

  function ResolveRoute(topic: string, routes: seq<PublicationRoute>): Result<PublicationRoute, RouteError> {
    match MatchingRoutes(topic, routes)
    case Err(e) => Err(e)
    case Ok(matches) =>
      if matches == [] then Err(UnknownRoute(topic))
      else if |matches| > 1 then Err(AmbiguousRoute(topic))
      else Ok(matches[0])
  }

  ghost predicate AllParse(routes: seq<PublicationRoute>) {
    forall i :: 0 <= i < |routes| ==> ParseTopicFilter(routes[i].topicFilter).Ok?
  }

  lemma {:induction false} MatchingIsFiltering(topic: string, routes: seq<PublicationRoute>)
    requires AllParse(routes)
    ensures MatchingRoutes(topic, routes).Ok?
    ensures forall route :: multiset(MatchingRoutes(topic, routes).value)[route]
                            == if Matches(topic, route) then multiset(routes)[route] else 0
  {
    if routes != [] {
      MatchingIsFiltering(topic, routes[1..]);
      assert routes == [routes[0]] + routes[1..];
    }
  }

  lemma SameUpToOrder<T>(a: seq<T>, b: seq<T>)
    requires forall x :: multiset(a)[x] == multiset(b)[x]
    ensures |a| == |b| && (|a| == 1 ==> a == b)
  {
    assert multiset(a) == multiset(b);
    assert |a| == |multiset(a)| == |multiset(b)| == |b|;
    if |a| == 1 {
      assert a[0] in multiset(b);
    }
  }

  /** The answer does not depend on the order of the routes. */
  lemma ResolutionIgnoresOrder(topic: string, routes: seq<PublicationRoute>, others: seq<PublicationRoute>)
    requires AllParse(routes) && multiset(routes) == multiset(others)
    ensures ResolveRoute(topic, routes) == ResolveRoute(topic, others)
  {
    forall i | 0 <= i < |others| ensures ParseTopicFilter(others[i].topicFilter).Ok? {
      assert others[i] in multiset(routes);
    }
    MatchingIsFiltering(topic, routes);
    MatchingIsFiltering(topic, others);
    SameUpToOrder(MatchingRoutes(topic, routes).value, MatchingRoutes(topic, others).value);
  }

  /** Two routes a topic matches would overlap. */
  lemma AtMostOneMatches(topic: string, routes: seq<PublicationRoute>, i: nat, j: nat)
    requires Accepted(routes) && i < |routes| && j < |routes|
    requires Matches(topic, routes[i]) && Matches(topic, routes[j])
    ensures i == j
  {
    if i != j {
      var l, r := routes[if i < j then i else j].topicFilter, routes[if i < j then j else i].topicFilter;
      ParseAcceptsIff(l);
      ParseAcceptsIff(r);
      CommonTopicMeets(Split(topic, '/'), ParseTopicFilter(l).value, ParseTopicFilter(r).value);
      OverlapIsMeetOrNearMiss(ParseTopicFilter(l).value, ParseTopicFilter(r).value);
      assert false;
    }
  }

  lemma {:induction false} NoMatchIsUnknown(topic: string, routes: seq<PublicationRoute>)
    requires AllParse(routes) && forall j :: 0 <= j < |routes| ==> !Matches(topic, routes[j])
    ensures MatchingRoutes(topic, routes) == Ok([])
  {
    if routes != [] {
      assert !Matches(topic, routes[0]);
      NoMatchIsUnknown(topic, routes[1..]);
      assert [] + MatchingRoutes(topic, routes[1..]).value == [];
    }
  }

  /** A route resolves when the topic matches it alone, at whatever place. */
  lemma {:induction false} OnlyMatchResolves(topic: string, routes: seq<PublicationRoute>, i: nat)
    requires AllParse(routes) && i < |routes| && Matches(topic, routes[i])
    requires forall j :: 0 <= j < |routes| && Matches(topic, routes[j]) ==> j == i
    ensures MatchingRoutes(topic, routes) == Ok([routes[i]])
  {
    var rest := routes[1..];
    assert forall j :: 0 <= j < |rest| ==> rest[j] == routes[j + 1];
    assert Matches(topic, routes[0]) <==> i == 0;
    if i == 0 {
      NoMatchIsUnknown(topic, rest);
      assert [routes[0]] + [] == [routes[0]];
    } else {
      OnlyMatchResolves(topic, rest, i - 1);
      assert [] + [routes[i]] == [routes[i]];
    }
  }

  /** The topic is one the route's filter is for. */
  ghost predicate For(topic: string, route: PublicationRoute) {
    LevelsMatch(Split(topic, '/'), Split(route.topicFilter, '/'))
  }

  /** Some publishable topic is for both routes, or one filter stops short of the other's `#`. */
  ghost predicate Conflict(a: PublicationRoute, b: PublicationRoute) {
    || (exists topic: string :: Publishable(Split(topic, '/')) && For(topic, a) && For(topic, b))
    || NearMiss(Split(a.topicFilter, '/'), Split(b.topicFilter, '/'))
    || NearMiss(Split(b.topicFilter, '/'), Split(a.topicFilter, '/'))
  }

  lemma BothMatchIff(topic: seq<string>, left: seq<string>, right: seq<string>)
    requires WellFormed(left) && WellFormed(right)
    ensures BothMatch(topic, left, right)
            <==> Publishable(topic) && LevelsMatch(topic, left) && LevelsMatch(topic, right)
  {
    MatchesIff(topic, left);
    MatchesIff(topic, right);
  }

  lemma ParsedIsSplit(filter: string)
    requires ParseTopicFilter(filter).Ok?
    ensures ParseTopicFilter(filter).value == Split(filter, '/') && WellFormed(Split(filter, '/'))
  {
    ParseAcceptsIff(filter);
  }

  lemma OverlappingIff(a: PublicationRoute, b: PublicationRoute)
    requires ParseTopicFilter(a.topicFilter).Ok? && ParseTopicFilter(b.topicFilter).Ok?
    ensures Overlapping(a.topicFilter, b.topicFilter) <==> Conflict(a, b)
  {
    var left, right := Split(a.topicFilter, '/'), Split(b.topicFilter, '/');
    ParsedIsSplit(a.topicFilter);
    ParsedIsSplit(b.topicFilter);
    OverlapIff(a.topicFilter, b.topicFilter);
    if topic: string :| BothMatch(Split(topic, '/'), left, right) {
      BothMatchIff(Split(topic, '/'), left, right);
      assert For(topic, a) && For(topic, b);
    }
    if topic: string :| Publishable(Split(topic, '/')) && For(topic, a) && For(topic, b) {
      BothMatchIff(Split(topic, '/'), left, right);
    }
    if left == right {
      OverlapReflexive(left);
    }
  }

  /** What a list of routes is accepted for: each is valid, and no two are in conflict. */
  lemma AcceptedWithoutConflicts(routes: seq<PublicationRoute>)
    ensures Accepted(routes)
            <==> AllValid(routes) && forall i, j :: 0 <= i < j < |routes| ==> !Conflict(routes[i], routes[j])
  {
    if AllValid(routes) {
      forall i, j | 0 <= i < j < |routes|
        ensures Overlapping(routes[i].topicFilter, routes[j].topicFilter) <==> Conflict(routes[i], routes[j])
      {
        OverlappingIff(routes[i], routes[j]);
      }
    }
  }

  /** With accepted routes, every topic resolves to the one route it is for, or is unknown; it is never ambiguous. */
  lemma AcceptedRoutesResolve(topic: string, routes: seq<PublicationRoute>)
    requires Accepted(routes)
    ensures forall i :: 0 <= i < |routes| && For(topic, routes[i]) ==> ResolveRoute(topic, routes) == Ok(routes[i])
    ensures (forall i :: 0 <= i < |routes| ==> !For(topic, routes[i])) ==>
            ResolveRoute(topic, routes) == Err(UnknownRoute(topic))
  {
    forall i | 0 <= i < |routes| ensures Matches(topic, routes[i]) <==> For(topic, routes[i]) {
      TopicMatchesIff(topic, routes[i].topicFilter);
    }
    if i :| 0 <= i < |routes| && Matches(topic, routes[i]) {
      forall j | 0 <= j < |routes| && Matches(topic, routes[j]) ensures j == i {
        AtMostOneMatches(topic, routes, i, j);
      }
      OnlyMatchResolves(topic, routes, i);
    } else {
      NoMatchIsUnknown(topic, routes);
    }
  }

  lemma MatchingIsOk(topic: string, routes: seq<PublicationRoute>)
    requires AllParse(routes)
    ensures MatchingRoutes(topic, routes).Ok?
  {
    MatchingIsFiltering(topic, routes);
  }

  lemma {:induction false} MatchIsFound(topic: string, routes: seq<PublicationRoute>, i: nat)
    requires AllParse(routes) && i < |routes| && Matches(topic, routes[i])
    ensures MatchingRoutes(topic, routes).Ok? && |MatchingRoutes(topic, routes).value| >= 1
  {
    assert forall k :: 0 <= k < |routes| - 1 ==> routes[1..][k] == routes[k + 1];
    MatchingIsOk(topic, routes[1..]);
    if i > 0 {
      MatchIsFound(topic, routes[1..], i - 1);
    }
  }

  lemma {:induction false} BothMatchesAreFound(topic: string, routes: seq<PublicationRoute>, i: nat, j: nat)
    requires AllParse(routes) && i < j < |routes| && Matches(topic, routes[i]) && Matches(topic, routes[j])
    ensures MatchingRoutes(topic, routes).Ok? && |MatchingRoutes(topic, routes).value| >= 2
  {
    assert forall k :: 0 <= k < |routes| - 1 ==> routes[1..][k] == routes[k + 1];
    if i > 0 {
      BothMatchesAreFound(topic, routes[1..], i - 1, j - 1);
    } else {
      MatchIsFound(topic, routes[1..], j - 1);
    }
  }

  ghost predicate OnlyFor(topic: string, routes: seq<PublicationRoute>, i: int) {
    0 <= i < |routes| && For(topic, routes[i]) && forall j :: 0 <= j < |routes| && For(topic, routes[j]) ==> j == i
  }

  lemma {:induction false} BadFilterFailsMatching(topic: string, routes: seq<PublicationRoute>, i: nat)
    requires i < |routes| && ParseTopicFilter(routes[i].topicFilter).Err?
    requires forall j :: 0 <= j < i ==> ParseTopicFilter(routes[j].topicFilter).Ok?
    ensures MatchingRoutes(topic, routes) == Err(ParseTopicFilter(routes[i].topicFilter).error)
  {
    TopicMatchesIff(topic, routes[0].topicFilter);
    if i > 0 {
      assert forall k :: 0 <= k < |routes| - 1 ==> routes[1..][k] == routes[k + 1];
      BadFilterFailsMatching(topic, routes[1..], i - 1);
    }
  }

  /** Over any routes that parse: one for the topic is the answer, none is unknown, two are ambiguous. */
  lemma ResolutionIff(topic: string, routes: seq<PublicationRoute>)
    requires AllParse(routes)
    ensures forall i :: OnlyFor(topic, routes, i) ==> ResolveRoute(topic, routes) == Ok(routes[i])
    ensures (forall i :: 0 <= i < |routes| ==> !For(topic, routes[i])) ==>
              ResolveRoute(topic, routes) == Err(UnknownRoute(topic))
    ensures forall i, j :: 0 <= i < j < |routes| && For(topic, routes[i]) && For(topic, routes[j]) ==>
                             ResolveRoute(topic, routes) == Err(AmbiguousRoute(topic))
  {
    forall i | 0 <= i < |routes| ensures Matches(topic, routes[i]) <==> For(topic, routes[i]) {
      TopicMatchesIff(topic, routes[i].topicFilter);
    }
    if i :| OnlyFor(topic, routes, i) {
      OnlyMatchResolves(topic, routes, i);
    }
    if forall i :: 0 <= i < |routes| ==> !For(topic, routes[i]) {
      NoMatchIsUnknown(topic, routes);
    }
    if i, j :| 0 <= i < j < |routes| && For(topic, routes[i]) && For(topic, routes[j]) {
      BothMatchesAreFound(topic, routes, i, j);
    }
  }

  /** A filter that does not parse fails the resolution of every topic, whatever the other routes match. */
  lemma {:induction false} BadFilterFails(topic: string, routes: seq<PublicationRoute>, i: nat)
    requires i < |routes| && ParseTopicFilter(routes[i].topicFilter).Err?
    requires forall j :: 0 <= j < i ==> ParseTopicFilter(routes[j].topicFilter).Ok?
    ensures ResolveRoute(topic, routes) == Err(ParseTopicFilter(routes[i].topicFilter).error)
  {
    BadFilterFailsMatching(topic, routes, i);
  }

  lemma ParsesSegments(segments: seq<string>)
    requires WellFormed(segments) && Literal(segments[0]) && segments[0][0] != '$' && SeparatorFree(segments, '/')
    ensures ParseTopicFilter(Join(segments, '/')) == Ok(segments)
  {
    SplitOfJoin(segments, '/');
    ParseAcceptsIff(Join(segments, '/'));
    assert Join(segments, '/')[0] == segments[0][0];
  }

  const SHORT := ["a"]
  const LONG := ["a", "b", "#"]

  lemma ExampleSegments()
    ensures WellFormed(SHORT) && WellFormed(LONG) && SeparatorFree(SHORT, '/') && SeparatorFree(LONG, '/')
    ensures NearMiss(SHORT, LONG)
    ensures Join(SHORT, '/') == "a" && Join(LONG, '/') == "a/b/#"
  {
    assert LONG[1..] == ["b", "#"] && Join(["b", "#"], '/') == "b/#";
  }

  lemma ExampleParses()
    ensures ParseTopicFilter("a") == Ok(SHORT) && ParseTopicFilter("a/b/#") == Ok(LONG)
  {
    ExampleSegments();
    ParsesSegments(SHORT);
    ParsesSegments(LONG);
  }

  /** The static check refuses some lists no topic is ambiguous for: `a` beside `a/b/#`. */
  lemma CheckIsConservative(topic: string)
    ensures ParseTopicFilter("a").Ok? && ParseTopicFilter("a/b/#").Ok? && Overlapping("a", "a/b/#")
    ensures !(TopicMatchesFilter(topic, "a") == Ok(true) && TopicMatchesFilter(topic, "a/b/#") == Ok(true))
  {
    ExampleParses();
    ExampleSegments();
    OverlapIsMeetOrNearMiss(SHORT, LONG);
    NearMissHasNoTopic(SHORT, LONG, Split(topic, '/'));
  }
}
