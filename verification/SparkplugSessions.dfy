/** Sequences of Sparkplug messages: what an alias stands for between births and deaths. */
module SparkplugSessions {
  import opened Wrappers
  import opened Splitting
  import opened SparkplugFold

  /** The aliases after some messages. One that raises keeps the aliases learnt until then. */
  function Run(arrivals: seq<Arrival>): Aliases {
    if arrivals == [] then map[] else Transform(Run(arrivals[..|arrivals| - 1]), arrivals[|arrivals| - 1]).0
  }

  /** The messages that begin or end a session, and those that carry metrics. */
  const SESSION_TYPES: set<string> := {"NBIRTH", "NDEATH", "DBIRTH", "DDEATH"}
  const METRIC_TYPES: set<string> := {"NBIRTH", "NDEATH", "DBIRTH", "NDATA", "NCMD", "DDATA", "DCMD"}

  /** A message of the device teaches the name for the alias. */
  ghost predicate Teaches(a: Arrival, key: string, alias: nat, name: string) {
    && KeyOf(a) == key && a.messageType in METRIC_TYPES
    && exists metric :: metric in a.metrics && metric.alias == alias && metric.name == name != ""
  }

  /** The `i`-th message teaches the name, and no message after it clears the names of the device. */
  ghost predicate TaughtAt(arrivals: seq<Arrival>, key: string, alias: nat, name: string, i: int) {
    && 0 <= i < |arrivals| && Teaches(arrivals[i], key, alias, name)
    && forall j :: i < j < |arrivals| && KeyOf(arrivals[j]) == key ==> arrivals[j].messageType !in SESSION_TYPES
  }

  lemma {:induction false} LastTaughtIsThere(metrics: seq<Metric>, alias: nat, before: Option<string>)
    requires LastTaught(metrics, alias, before).Some?
    ensures LastTaught(metrics, alias, before) == before
            || exists metric :: metric in metrics && metric.alias == alias && metric.name != ""
                                && LastTaught(metrics, alias, before) == Some(metric.name)
  {
    if metrics != [] {
      var front, last := metrics[..|metrics| - 1], metrics[|metrics| - 1];
      assert metrics == front + [last];
      if last.name != "" && last.alias == alias {
        assert last in metrics;
      } else {
        LastTaughtIsThere(front, alias, before);
      }
    }
  }

  predicate SameNames(aliases: Aliases, known: Aliases, key: string) {
    (key in known <==> key in aliases) && (key in aliases ==> known[key] == aliases[key])
  }

  lemma OneLeavesOthers(
      known: Aliases, key: string, context: map<string, string>, messages: map<string, Message>, metric: Metric,
      other: string)
    requires other != key
    ensures SameNames(known, HandleOne(known, key, context, messages, metric).0, other)
  {
  }

  lemma {:induction false} HandlingLeavesOthers(
      aliases: Aliases, key: string, context: map<string, string>, metrics: seq<Metric>, other: string)
    requires other != key
    ensures SameNames(aliases, Handle(aliases, key, context, metrics).0, other)
  {
    if metrics != [] {
      var (known, folded) := Handle(aliases, key, context, metrics[..|metrics| - 1]);
      HandlingLeavesOthers(aliases, key, context, metrics[..|metrics| - 1], other);
      if folded.Ok? {
        OneLeavesOthers(known, key, context, folded.value, metrics[|metrics| - 1], other);
      }
    }
  }

  /** Messages of one device leave the names of another alone. */
  lemma OthersKeepNames(aliases: Aliases, a: Arrival, key: string, alias: nat)
    requires KeyOf(a) != key
    ensures NameFor(Transform(aliases, a).0, key, alias) == NameFor(aliases, key, alias)
  {
    var known := if Clears(a.messageType) then aliases - {KeyOf(a)} else aliases;
    HandlingLeavesOthers(known, KeyOf(a), Context(a.groupId, a.messageType, a.edgeNodeId, a.deviceId), a.metrics, key);
  }

  /** A name known after a message is taught by it, or was known before it and the message does not clear it. */
  lemma {:induction false} NameAfter(aliases: Aliases, a: Arrival, alias: nat)
    requires NameFor(Transform(aliases, a).0, KeyOf(a), alias).Some?
    ensures var name := NameFor(Transform(aliases, a).0, KeyOf(a), alias);
            || Teaches(a, KeyOf(a), alias, name.value)
            || (NameFor(aliases, KeyOf(a), alias) == name && a.messageType !in SESSION_TYPES)
  {
    var key := KeyOf(a);
    var known := if Clears(a.messageType) then aliases - {key} else aliases;
    if CarriesMetrics(a.messageType) {
      var context := Context(a.groupId, a.messageType, a.edgeNodeId, a.deviceId);
      var n := Begun(known, key, context, a.metrics);
      AliasesAreLastTaught(known, key, context, a.metrics, alias);
      LastTaughtIsThere(a.metrics[..n], alias, NameFor(known, key, alias));
      assert forall metric :: metric in a.metrics[..n] ==> metric in a.metrics;
    }
  }

  /** After any messages, a name that an alias stands for was taught since the last birth or death of its device. */
  lemma {:induction false} NamesAreOfThisSession(arrivals: seq<Arrival>, key: string, alias: nat)
    requires NameFor(Run(arrivals), key, alias).Some?
    ensures exists i :: TaughtAt(arrivals, key, alias, NameFor(Run(arrivals), key, alias).value, i)
  {
    if arrivals != [] {
      var front, last := arrivals[..|arrivals| - 1], arrivals[|arrivals| - 1];
      var name := NameFor(Run(arrivals), key, alias).value;
      if KeyOf(last) == key {
        NameAfter(Run(front), last, alias);
      } else {
        OthersKeepNames(Run(front), last, key, alias);
      }
      if KeyOf(last) == key && Teaches(last, key, alias, name) {
        assert TaughtAt(arrivals, key, alias, name, |front|);
      } else {
        NamesAreOfThisSession(front, key, alias);
        var i :| TaughtAt(front, key, alias, name, i);
        assert TaughtAt(arrivals, key, alias, name, i);
      }
    }
  }

  lemma {:induction false} SomethingTaught(metrics: seq<Metric>, alias: nat, before: Option<string>)
    requires exists metric :: metric in metrics && metric.alias == alias && metric.name != ""
    ensures LastTaught(metrics, alias, before).Some?
  {
    var front, last := metrics[..|metrics| - 1], metrics[|metrics| - 1];
    assert metrics == front + [last];
    if !(last.name != "" && last.alias == alias) {
      SomethingTaught(front, alias, before);
    }
  }

  /** A name taught by a message that raises nothing is known after it. */
  lemma {:induction false} TaughtNamesAreKnown(aliases: Aliases, a: Arrival, alias: nat)
    requires a.messageType in METRIC_TYPES && Transform(aliases, a).1.Ok?
    requires exists metric :: metric in a.metrics && metric.alias == alias && metric.name != ""
    ensures NameFor(Transform(aliases, a).0, KeyOf(a), alias).Some?
  {
    var known := if Clears(a.messageType) then aliases - {KeyOf(a)} else aliases;
    var context := Context(a.groupId, a.messageType, a.edgeNodeId, a.deviceId);
    AliasesOfSurvivors(known, KeyOf(a), context, a.metrics, alias);
    SomethingTaught(a.metrics, alias, NameFor(known, KeyOf(a), alias));
  }

  lemma {:induction false} HandlingKnowsTypes(
      aliases: Aliases, key: string, context: map<string, string>, metrics: seq<Metric>)
    ensures Handle(aliases, key, context, metrics).1 != Err(UnknownMessageType)
  {
    if metrics != [] {
      HandlingKnowsTypes(aliases, key, context, metrics[..|metrics| - 1]);
    }
  }

  /** Which messages publish at all, and which are refused for their type. */
  lemma UnknownTypesIff(aliases: Aliases, a: Arrival)
    ensures Transform(aliases, a).1 == Err(UnknownMessageType)
            <==> a.messageType !in {"NBIRTH", "NDEATH", "DBIRTH", "DDEATH", "NDATA", "NCMD", "DDATA", "DCMD", "STATE"}
    ensures a.messageType in {"DDEATH", "STATE"} ==> Transform(aliases, a).1 == Ok(map[])
  {
    var known := if Clears(a.messageType) then aliases - {KeyOf(a)} else aliases;
    HandlingKnowsTypes(known, KeyOf(a), Context(a.groupId, a.messageType, a.edgeNodeId, a.deviceId), a.metrics);
  }

  /** The text a device id has in the key. */
  function IdText(deviceId: Option<string>): string {
    if deviceId.Some? then deviceId.value else "None"
  }

  /** The key of a device has its group, its edge node and its own id. */
  lemma KeyParts(a: Arrival)
    requires '/' !in a.groupId && '/' !in a.edgeNodeId && '/' !in IdText(a.deviceId)
    ensures Split(KeyOf(a), '/') == [a.groupId, a.edgeNodeId, IdText(a.deviceId)]
  {
    assert KeyOf(a) == a.groupId + ['/'] + (a.edgeNodeId + ['/'] + IdText(a.deviceId));
    SplitAtFirst(a.groupId, '/', a.edgeNodeId + ['/'] + IdText(a.deviceId));
    SplitAtFirst(a.edgeNodeId, '/', IdText(a.deviceId));
    SplitWithoutSeparator(IdText(a.deviceId), '/');
  }

  /** Two devices share a cache exactly when they are one, but for a device named `None` and its edge node itself. */
  lemma KeysCollideIff(a: Arrival, b: Arrival)
    requires '/' !in a.groupId && '/' !in a.edgeNodeId && '/' !in IdText(a.deviceId)
    requires '/' !in b.groupId && '/' !in b.edgeNodeId && '/' !in IdText(b.deviceId)
    ensures KeyOf(a) == KeyOf(b)
            <==> a.groupId == b.groupId && a.edgeNodeId == b.edgeNodeId && IdText(a.deviceId) == IdText(b.deviceId)
  {
    KeyParts(a);
    KeyParts(b);
  }
}
