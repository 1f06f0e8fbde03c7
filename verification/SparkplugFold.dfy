/** Folding the metrics of a Sparkplug payload into one message per Unified Namespace topic. */
module SparkplugFold {
  import opened Wrappers
  import opened MetricFlattener

  // ---------------------------------------------------------------------- readings

  datatype Item = Item(value: Option<Json>, timestamp: int, isHistorical: bool)

  /** A metric whose name has been resolved to a topic and a tag. */
  datatype Reading = Reading(topic: string, tag: string, item: Item)

  /** What a message dictionary holds: a placeholder, the topic's timestamp, context, one reading, or a list. */
  datatype Entry = Nothing | Stamp(time: int) | Text(text: string) | One(item: Item) | Many(entries: seq<Entry>)

  type Message = map<string, Entry>

  datatype FoldError = TypeError | NameError | ValueError | UnknownMessageType

  const STAMP := "timestamp"

  function Context(
      groupId: string, messageType: string, edgeNodeId: string, deviceId: Option<string>): map<string, string>
  {
    map["spBv1.0_group_id" := groupId, "spBv1.0_message_type" := messageType, "spBv1.0_edge_node_id" := edgeNodeId]
    + if deviceId.Some? then map["spBv1.0_device_id" := deviceId.value] else map[]
  }

  // --------------------------------------------------------------------- the fold

  function FirstMessage(context: map<string, string>, r: Reading): Message {
    map[r.tag := One(r.item)][STAMP := Stamp(r.item.timestamp)] + map key | key in context :: Text(context[key])
  }

  /** What is stored under a tag, as the list to put the next reading in. */
  function Listed(m: Message, tag: string): seq<Entry> {
    if tag !in m then [Nothing] else if m[tag].Many? then m[tag].entries else [m[tag]]
  }

  /** The next reading of a topic. The comparison is with the timestamp of the topic, not of the tag. */
  function Extend(m: Message, r: Reading): Result<Message, FoldError> {
    if STAMP !in m || !m[STAMP].Stamp? then Err(TypeError)
    else if m[STAMP].time > r.item.timestamp then Ok(m[r.tag := Many(Listed(m, r.tag) + [One(r.item)])])
    else Ok(m[STAMP := Stamp(r.item.timestamp)][r.tag := Many([One(r.item)] + Listed(m, r.tag))])
  }

  function FoldOne(context: map<string, string>, m: Option<Message>, r: Reading): Result<Message, FoldError> {
    match m
    case None => Ok(FirstMessage(context, r))
    case Some(message) => Extend(message, r)
  }

  function Continue(
      context: map<string, string>, folded: Result<Option<Message>, FoldError>, r: Reading)
    : Result<Option<Message>, FoldError>
  {
    if folded.Err? then folded
    else
      match FoldOne(context, folded.value, r)
      case Err(e) => Err(e)
      case Ok(message) => Ok(Some(message))
  }

  /** The readings of one topic, folded by themselves. */
  function FoldGroup(context: map<string, string>, rs: seq<Reading>): Result<Option<Message>, FoldError> {
    if rs == [] then Ok(None) else Continue(context, FoldGroup(context, rs[..|rs| - 1]), rs[|rs| - 1])
  }

  function Lookup(messages: map<string, Message>, topic: string): Option<Message> {
    if topic in messages then Some(messages[topic]) else None
  }

  /** All readings in one pass. */
  function FoldAll(context: map<string, string>, rs: seq<Reading>): Result<map<string, Message>, FoldError> {
    if rs == [] then Ok(map[])
    else
      match FoldAll(context, rs[..|rs| - 1])
      case Err(e) => Err(e)
      case Ok(messages) =>
        var last := rs[|rs| - 1];
        match FoldOne(context, Lookup(messages, last.topic), last)
        case Err(e) => Err(e)
        case Ok(message) => Ok(messages[last.topic := message])
  }

  function OfTopic(rs: seq<Reading>, topic: string): seq<Reading> {
    if rs == [] then []
    else
      var last := rs[|rs| - 1];
      OfTopic(rs[..|rs| - 1], topic) + if last.topic == topic then [last] else []
  }

  /** The next reading continues the group of its own topic only. */
  lemma GroupSnoc(context: map<string, string>, rs: seq<Reading>, r: Reading, topic: string)
    ensures var group := FoldGroup(context, OfTopic(rs, topic));
            FoldGroup(context, OfTopic(rs + [r], topic))
                == if r.topic == topic then Continue(context, group, r) else group
  {
    assert (rs + [r])[..|rs|] == rs;
    var group := OfTopic(rs, topic);
    assert (group + [r])[..|group|] == group;
    assert group + [] == group;
  }

  lemma FailedGroupStaysFailed(context: map<string, string>, rs: seq<Reading>, r: Reading)
    requires exists topic :: FoldGroup(context, OfTopic(rs, topic)).Err?
    ensures exists topic :: FoldGroup(context, OfTopic(rs + [r], topic)).Err?
  {
    var topic :| FoldGroup(context, OfTopic(rs, topic)).Err?;
    GroupSnoc(context, rs, r, topic);
    assert FoldGroup(context, OfTopic(rs + [r], topic)).Err?;
  }

  ghost predicate GroupedAs(context: map<string, string>, rs: seq<Reading>, messages: map<string, Message>) {
    forall topic :: FoldGroup(context, OfTopic(rs, topic)) == Ok(Lookup(messages, topic))
  }

  lemma OtherGroupsStay(
      context: map<string, string>, rs: seq<Reading>, messages: map<string, Message>, r: Reading, topic: string)
    requires GroupedAs(context, rs, messages) && topic != r.topic
    ensures FoldGroup(context, OfTopic(rs + [r], topic)) == Ok(Lookup(messages, topic))
  {
    GroupSnoc(context, rs, r, topic);
  }

  lemma GroupedSnoc(
      context: map<string, string>, rs: seq<Reading>, messages: map<string, Message>, r: Reading, message: Message)
    requires GroupedAs(context, rs, messages)
    requires Continue(context, Ok(Lookup(messages, r.topic)), r) == Ok(Some(message))
    ensures GroupedAs(context, rs + [r], messages[r.topic := message])
  {
    forall topic
      ensures FoldGroup(context, OfTopic(rs + [r], topic)) == Ok(Lookup(messages[r.topic := message], topic))
    {
      if topic == r.topic {
        GroupSnoc(context, rs, r, topic);
      } else {
        OtherGroupsStay(context, rs, messages, r, topic);
      }
    }
  }

  lemma FailingReadingFailsGroup(
      context: map<string, string>, rs: seq<Reading>, messages: map<string, Message>, r: Reading)
    requires GroupedAs(context, rs, messages) && Continue(context, Ok(Lookup(messages, r.topic)), r).Err?
    ensures FoldGroup(context, OfTopic(rs + [r], r.topic)).Err?
  {
    GroupSnoc(context, rs, r, r.topic);
  }

  /** One pass over mixed topics is grouping by topic and folding each group: the same failures, the same messages. */
  lemma {:induction false} OnePassIsGrouping(context: map<string, string>, rs: seq<Reading>)
    ensures FoldAll(context, rs).Err? <==> exists topic :: FoldGroup(context, OfTopic(rs, topic)).Err?
    ensures FoldAll(context, rs).Ok? ==> GroupedAs(context, rs, FoldAll(context, rs).value)
  {
    if rs != [] {
      var front, last := rs[..|rs| - 1], rs[|rs| - 1];
      assert front + [last] == rs;
      OnePassIsGrouping(context, front);
      if FoldAll(context, front).Err? {
        FailedGroupStaysFailed(context, front, last);
      } else {
        var messages := FoldAll(context, front).value;
        match FoldOne(context, Lookup(messages, last.topic), last)
        case Ok(message) => GroupedSnoc(context, front, messages, last, message);
        case Err(_) => FailingReadingFailsGroup(context, front, messages, last);
      }
    }
  }

  // ------------------------------------------------------------- what a group folds to

  predicate Reserved(context: map<string, string>, tag: string) {
    tag == STAMP || tag in context
  }

  ghost predicate Unreserved(context: map<string, string>, rs: seq<Reading>) {
    forall r :: r in rs ==> !Reserved(context, r.tag)
  }

  function Latest(rs: seq<Reading>): int
    requires rs != []
  {
    var last := rs[|rs| - 1].item.timestamp;
    if |rs| == 1 || Latest(rs[..|rs| - 1]) <= last then last else Latest(rs[..|rs| - 1])
  }

  lemma {:induction false} LatestIsMaximum(rs: seq<Reading>)
    requires rs != []
    ensures exists i :: 0 <= i < |rs| && rs[i].item.timestamp == Latest(rs)
    ensures forall i :: 0 <= i < |rs| ==> rs[i].item.timestamp <= Latest(rs)
  {
    if |rs| > 1 {
      var front := rs[..|rs| - 1];
      LatestIsMaximum(front);
      var i :| 0 <= i < |front| && front[i].item.timestamp == Latest(front);
      assert rs[i].item.timestamp == Latest(front);
      assert forall k :: 0 <= k < |front| ==> rs[k] == front[k];
    }
    assert rs[|rs| - 1].item.timestamp <= Latest(rs);
  }

  /** Whether a reading is at least as new as all those before it on its topic. */
  predicate IsRecord(before: seq<Reading>, r: Reading) {
    forall other :: other in before ==> other.item.timestamp <= r.item.timestamp
  }

  /** A tag that is new to a message starts from a placeholder; a record goes to the front, others to the back. */
  function Put(list: seq<Entry>, opensTopic: bool, record: bool, item: Item): seq<Entry> {
    var before := if list == [] && !opensTopic then [Nothing] else list;
    if record then [One(item)] + before else before + [One(item)]
  }

  lemma PutEffect(list: seq<Entry>, opensTopic: bool, record: bool, item: Item)
    ensures var result := Put(list, opensTopic, record, item);
            && multiset(result) == multiset(list) + multiset{One(item)}
                + (if list == [] && !opensTopic then multiset{Nothing} else multiset{})
            && result[0] == (if record || (list == [] && opensTopic) then One(item)
                             else if list == [] then Nothing else list[0])
            && (|result| == 1 <==> list == [] && opensTopic)
  {
  }

  /** The list a tag ends up with. */
  function TagList(rs: seq<Reading>, tag: string): seq<Entry> {
    if rs == [] then []
    else
      var front, last := rs[..|rs| - 1], rs[|rs| - 1];
      if last.tag == tag then Put(TagList(front, tag), front == [], IsRecord(front, last), last.item)
      else TagList(front, tag)
  }

  lemma TagListSnoc(rs: seq<Reading>, r: Reading, tag: string)
    ensures TagList(rs + [r], tag)
            == if r.tag == tag then Put(TagList(rs, tag), rs == [], IsRecord(rs, r), r.item) else TagList(rs, tag)
  {
  }

  /** A lone reading stands for itself. */
  function AsEntry(list: seq<Entry>): Entry {
    if |list| == 1 then list[0] else Many(list)
  }

  function Tags(rs: seq<Reading>): set<string> {
    set r | r in rs :: r.tag
  }

  lemma TagsSnoc(rs: seq<Reading>, r: Reading)
    ensures Tags(rs + [r]) == Tags(rs) + {r.tag}
  {
  }

  ghost predicate TagsFoldTo(rs: seq<Reading>, m: Message) {
    forall tag :: tag in Tags(rs) ==> tag in m && m[tag] == AsEntry(TagList(rs, tag))
  }

  /** The message of a group: the newest timestamp, the context, and a list for each tag. */
  ghost predicate FoldsTo(context: map<string, string>, rs: seq<Reading>, m: Message)
    requires rs != []
  {
    && m.Keys == {STAMP} + context.Keys + Tags(rs)
    && m[STAMP] == Stamp(Latest(rs))
    && (forall key :: key in context ==> m[key] == Text(context[key]))
    && TagsFoldTo(rs, m)
  }

  lemma RecordIff(before: seq<Reading>, r: Reading)
    requires before != []
    ensures IsRecord(before, r) <==> Latest(before) <= r.item.timestamp
  {
  }

  /** A tag has a list when it came up, and a single entry only while its one reading is all its topic has. */
  lemma {:induction false} TagListShape(rs: seq<Reading>, tag: string)
    ensures TagList(rs, tag) == [] <==> tag !in Tags(rs)
    ensures |TagList(rs, tag)| == 1 ==> rs[0].tag == tag && TagList(rs, tag)[0].One?
  {
    if rs != [] {
      var front, last := rs[..|rs| - 1], rs[|rs| - 1];
      TagListShape(front, tag);
      TagsSnoc(front, last);
      PutEffect(TagList(front, tag), front == [], IsRecord(front, last), last.item);
      assert front + [last] == rs;
    }
  }

  lemma LatestSnoc(rs: seq<Reading>, r: Reading)
    requires rs != []
    ensures Latest(rs + [r]) == if Latest(rs) > r.item.timestamp then Latest(rs) else r.item.timestamp
  {
  }

  lemma ListedIsTagList(context: map<string, string>, rs: seq<Reading>, m: Message, tag: string)
    requires rs != [] && FoldsTo(context, rs, m) && !Reserved(context, tag)
    ensures Listed(m, tag) == if TagList(rs, tag) == [] then [Nothing] else TagList(rs, tag)
  {
    TagListShape(rs, tag);
  }

  lemma ExtendTags(rs: seq<Reading>, m: Message, r: Reading, m': Message)
    requires rs != [] && TagsFoldTo(rs, m)
    requires r.tag in m' && m'[r.tag] == Many(Put(TagList(rs, r.tag), false, IsRecord(rs, r), r.item))
    requires forall tag :: tag in Tags(rs) && tag != r.tag ==> tag in m' && m'[tag] == m[tag]
    ensures TagsFoldTo(rs + [r], m')
  {
  }

  lemma ExtendFolds(context: map<string, string>, rs: seq<Reading>, m: Message, r: Reading)
    requires rs != [] && FoldsTo(context, rs, m) && STAMP !in context
    requires Unreserved(context, rs) && !Reserved(context, r.tag)
    ensures Extend(m, r).Ok? && FoldsTo(context, rs + [r], Extend(m, r).value)
  {
    TagsSnoc(rs, r);
    RecordIff(rs, r);
    LatestSnoc(rs, r);
    ListedIsTagList(context, rs, m, r.tag);
    assert STAMP !in Tags(rs) && context.Keys !! Tags(rs);
    ExtendTags(rs, m, r, Extend(m, r).value);
  }

  lemma FirstFolds(context: map<string, string>, r: Reading)
    requires STAMP !in context && !Reserved(context, r.tag)
    ensures FoldsTo(context, [r], FirstMessage(context, r))
  {
  }

  lemma ContinueGroup(context: map<string, string>, rs: seq<Reading>, r: Reading, m: Option<Message>)
    requires FoldGroup(context, rs) == Ok(m)
    ensures FoldGroup(context, rs + [r]) == Continue(context, Ok(m), r)
  {
  }

  ghost predicate GroupFoldsTo(context: map<string, string>, rs: seq<Reading>, m: Message)
    requires rs != []
  {
    FoldGroup(context, rs) == Ok(Some(m)) && FoldsTo(context, rs, m)
  }

  lemma FirstGroup(context: map<string, string>, r: Reading)
    requires STAMP !in context && !Reserved(context, r.tag)
    ensures GroupFoldsTo(context, [r], FirstMessage(context, r))
  {
    FirstFolds(context, r);
    ContinueGroup(context, [], r, None);
    assert [] + [r] == [r];
  }

  lemma NextGroup(context: map<string, string>, rs: seq<Reading>, m: Message, r: Reading)
    requires rs != [] && GroupFoldsTo(context, rs, m) && STAMP !in context
    requires Unreserved(context, rs) && !Reserved(context, r.tag)
    ensures Extend(m, r).Ok? && GroupFoldsTo(context, rs + [r], Extend(m, r).value)
  {
    ExtendFolds(context, rs, m, r);
    ContinueGroup(context, rs, r, Some(m));
  }

  /** A group of readings under unreserved tags never fails, and folds to just that message. */
  lemma {:induction false} GroupFolds(context: map<string, string>, rs: seq<Reading>) returns (m: Message)
    requires rs != [] && Unreserved(context, rs) && STAMP !in context
    ensures GroupFoldsTo(context, rs, m)
  {
    var front, last := rs[..|rs| - 1], rs[|rs| - 1];
    assert front + [last] == rs;
    if front == [] {
      FirstGroup(context, last);
      assert rs == [last];
      m := FirstMessage(context, last);
    } else {
      var before := GroupFolds(context, front);
      NextGroup(context, front, before, last);
      m := Extend(before, last).value;
    }
  }

  lemma {:induction false} OfTopicMembers(rs: seq<Reading>, topic: string)
    ensures forall r :: r in OfTopic(rs, topic) <==> r in rs && r.topic == topic
  {
    if rs != [] {
      OfTopicMembers(rs[..|rs| - 1], topic);
      assert rs == rs[..|rs| - 1] + [rs[|rs| - 1]];
    }
  }

  /** Under unreserved tags, the one pass never fails and gives each topic the message of its own readings. */
  lemma {:induction false} EveryTopicFolds(context: map<string, string>, rs: seq<Reading>, topic: string)
    requires Unreserved(context, rs) && STAMP !in context
    ensures FoldAll(context, rs).Ok?
    ensures topic in FoldAll(context, rs).value <==> OfTopic(rs, topic) != []
    ensures OfTopic(rs, topic) != [] ==> FoldsTo(context, OfTopic(rs, topic), FoldAll(context, rs).value[topic])
  {
    OnePassIsGrouping(context, rs);
    if FoldAll(context, rs).Err? {
      var bad :| FoldGroup(context, OfTopic(rs, bad)).Err?;
      OfTopicMembers(rs, bad);
      var _ := GroupFolds(context, OfTopic(rs, bad));
      assert false;
    }
    assert FoldGroup(context, OfTopic(rs, topic)) == Ok(Lookup(FoldAll(context, rs).value, topic));
    if OfTopic(rs, topic) != [] {
      OfTopicMembers(rs, topic);
      var _ := GroupFolds(context, OfTopic(rs, topic));
    }
  }

  lemma ContextIsNoStamp(groupId: string, messageType: string, edgeNodeId: string, deviceId: Option<string>)
    ensures STAMP !in Context(groupId, messageType, edgeNodeId, deviceId)
  {
  }

  /** The message names the group, message type, edge node and device it comes from. */
  predicate SaysWhere(
      m: Message, groupId: string, messageType: string, edgeNodeId: string, deviceId: Option<string>)
  {
    && "spBv1.0_group_id" in m && m["spBv1.0_group_id"] == Text(groupId)
    && "spBv1.0_message_type" in m && m["spBv1.0_message_type"] == Text(messageType)
    && "spBv1.0_edge_node_id" in m && m["spBv1.0_edge_node_id"] == Text(edgeNodeId)
    && (deviceId.Some? ==> "spBv1.0_device_id" in m && m["spBv1.0_device_id"] == Text(deviceId.value))
  }

  lemma FoldedSaysWhere(
      groupId: string, messageType: string, edgeNodeId: string, deviceId: Option<string>,
      rs: seq<Reading>, m: Message)
    requires rs != [] && FoldsTo(Context(groupId, messageType, edgeNodeId, deviceId), rs, m)
    ensures SaysWhere(m, groupId, messageType, edgeNodeId, deviceId)
  {
    var context := Context(groupId, messageType, edgeNodeId, deviceId);
    assert "spBv1.0_group_id" in context && "spBv1.0_message_type" in context && "spBv1.0_edge_node_id" in context;
    assert deviceId.Some? ==> "spBv1.0_device_id" in context;
  }

  /** So it is for the context of every Sparkplug topic. */
  lemma {:induction false} PayloadTopicsFold(
      groupId: string, messageType: string, edgeNodeId: string, deviceId: Option<string>,
      rs: seq<Reading>, topic: string)
    requires Unreserved(Context(groupId, messageType, edgeNodeId, deviceId), rs)
    ensures var context := Context(groupId, messageType, edgeNodeId, deviceId);
            && FoldAll(context, rs).Ok?
            && (topic in FoldAll(context, rs).value <==> OfTopic(rs, topic) != [])
            && (OfTopic(rs, topic) != [] ==> FoldsTo(context, OfTopic(rs, topic), FoldAll(context, rs).value[topic]))
            && (OfTopic(rs, topic) != [] ==>
                  SaysWhere(FoldAll(context, rs).value[topic], groupId, messageType, edgeNodeId, deviceId))
  {
    ContextIsNoStamp(groupId, messageType, edgeNodeId, deviceId);
    EveryTopicFolds(Context(groupId, messageType, edgeNodeId, deviceId), rs, topic);
    if OfTopic(rs, topic) != [] {
      var context := Context(groupId, messageType, edgeNodeId, deviceId);
      FoldedSaysWhere(groupId, messageType, edgeNodeId, deviceId, OfTopic(rs, topic),
          FoldAll(context, rs).value[topic]);
    }
  }

  // ------------------------------------------------------------- when the fold fails

  /** A reading tagged like the topic's timestamp takes its place, unless it opens the topic. */
  predicate Spoils(rs: seq<Reading>) {
    |rs| > 1 && rs[|rs| - 1].tag == STAMP
  }

  /** Such a reading with another one after it. */
  ghost predicate SpoiltBefore(rs: seq<Reading>) {
    exists i :: 0 < i < |rs| - 1 && rs[i].tag == STAMP
  }

  lemma SpoiltSnoc(rs: seq<Reading>, r: Reading)
    ensures SpoiltBefore(rs + [r]) <==> SpoiltBefore(rs) || Spoils(rs)
  {
    var whole := rs + [r];
    if i :| 0 < i < |whole| - 1 && whole[i].tag == STAMP {
      assert rs[i].tag == STAMP;
    }
    if i :| 0 < i < |rs| - 1 && rs[i].tag == STAMP {
      assert whole[i].tag == STAMP;
    }
    if Spoils(rs) {
      assert whole[|rs| - 1].tag == STAMP;
    }
  }

  /** Folding a topic fails exactly when a reading tagged `timestamp` is neither its first nor its last. */
  lemma {:induction false} GroupFailsIff(context: map<string, string>, rs: seq<Reading>)
    requires STAMP !in context
    ensures FoldGroup(context, rs).Err? <==> SpoiltBefore(rs)
    ensures FoldGroup(context, rs).Ok? ==>
              && (FoldGroup(context, rs).value.None? <==> rs == [])
              && (rs != [] ==> STAMP in FoldGroup(context, rs).value.value)
              && (rs != [] ==> (FoldGroup(context, rs).value.value[STAMP].Stamp? <==> !Spoils(rs)))
  {
    if rs != [] {
      var front, last := rs[..|rs| - 1], rs[|rs| - 1];
      assert front + [last] == rs;
      GroupFailsIff(context, front);
      SpoiltSnoc(front, last);
    }
  }

  /**
   * A payload's readings fail to fold exactly when some topic has a reading tagged `timestamp` that is neither its
   * first nor its last.
   */
  lemma FoldFailsIff(
      groupId: string, messageType: string, edgeNodeId: string, deviceId: Option<string>, rs: seq<Reading>)
    ensures FoldAll(Context(groupId, messageType, edgeNodeId, deviceId), rs).Err?
            <==> exists topic :: SpoiltBefore(OfTopic(rs, topic))
  {
    var context := Context(groupId, messageType, edgeNodeId, deviceId);
    ContextIsNoStamp(groupId, messageType, edgeNodeId, deviceId);
    OnePassIsGrouping(context, rs);
    forall topic ensures FoldGroup(context, OfTopic(rs, topic)).Err? <==> SpoiltBefore(OfTopic(rs, topic)) {
      GroupFailsIff(context, OfTopic(rs, topic));
    }
  }

  /** The readings of a tag, each as often as it came. */
  function ItemsOf(rs: seq<Reading>, tag: string): multiset<Entry> {
    if rs == [] then multiset{}
    else ItemsOf(rs[..|rs| - 1], tag) + if rs[|rs| - 1].tag == tag then multiset{One(rs[|rs| - 1].item)} else multiset{}
  }

  lemma {:induction false} NoItems(rs: seq<Reading>, tag: string)
    requires tag !in Tags(rs)
    ensures ItemsOf(rs, tag) == multiset{}
  {
    if rs != [] {
      TagsSnoc(rs[..|rs| - 1], rs[|rs| - 1]);
      assert rs[..|rs| - 1] + [rs[|rs| - 1]] == rs;
      NoItems(rs[..|rs| - 1], tag);
    }
  }

  /** No reading is lost or repeated; the one thing added is a placeholder, for every tag but the topic's first. */
  lemma {:induction false} NothingLostOrRepeated(rs: seq<Reading>, tag: string)
    requires tag in Tags(rs)
    ensures multiset(TagList(rs, tag)) == ItemsOf(rs, tag) + if rs[0].tag == tag then multiset{} else multiset{Nothing}
  {
    var front, last := rs[..|rs| - 1], rs[|rs| - 1];
    TagsSnoc(front, last);
    assert front + [last] == rs;
    TagListSnoc(front, last, tag);
    PutEffect(TagList(front, tag), front == [], IsRecord(front, last), last.item);
    if tag in Tags(front) {
      TagListShape(front, tag);
      NothingLostOrRepeated(front, tag);
    } else {
      TagListShape(front, tag);
      NoItems(front, tag);
    }
  }

  // ------------------------------------------------------------------- newest first

  /** A reading of the tag that was a record of its topic when it came. */
  ghost predicate RecordAt(rs: seq<Reading>, tag: string, i: nat)
    requires i < |rs|
  {
    rs[i].tag == tag && IsRecord(rs[..i], rs[i])
  }

  /** The last reading of a tag that was a record, if any was. */
  ghost predicate LastRecord(rs: seq<Reading>, tag: string, k: Option<nat>) {
    match k
    case Some(i) => i < |rs| && RecordAt(rs, tag, i) && forall j :: i < j < |rs| ==> !RecordAt(rs, tag, j)
    case None => forall j :: 0 <= j < |rs| ==> !RecordAt(rs, tag, j)
  }

  lemma RecordSnoc(rs: seq<Reading>, r: Reading, tag: string)
    ensures forall i :: 0 <= i < |rs| ==> (RecordAt(rs + [r], tag, i) <==> RecordAt(rs, tag, i))
    ensures RecordAt(rs + [r], tag, |rs|) <==> r.tag == tag && IsRecord(rs, r)
  {
    assert forall i :: 0 <= i <= |rs| ==> (rs + [r])[..i] == rs[..i];
    assert rs[..|rs|] == rs;
  }

  lemma NoReadingNoRecord(rs: seq<Reading>, tag: string)
    requires tag !in Tags(rs)
    ensures LastRecord(rs, tag, None)
  {
  }

  lemma LastRecordSnoc(rs: seq<Reading>, r: Reading, tag: string, k: Option<nat>)
    requires LastRecord(rs, tag, k)
    ensures LastRecord(rs + [r], tag, if r.tag == tag && IsRecord(rs, r) then Some(|rs|) else k)
    ensures k.Some? ==> k.value < |rs|
  {
    RecordSnoc(rs, r, tag);
  }

  /** At the head of a tag's list is its last record; without one, the placeholder. */
  lemma {:induction false} HeadIsLastRecord(rs: seq<Reading>, tag: string) returns (k: Option<nat>)
    requires tag in Tags(rs)
    ensures LastRecord(rs, tag, k)
    ensures TagList(rs, tag) != [] && TagList(rs, tag)[0] == if k.Some? then One(rs[k.value].item) else Nothing
  {
    var front, last := rs[..|rs| - 1], rs[|rs| - 1];
    assert front + [last] == rs;
    TagsSnoc(front, last);
    TagListSnoc(front, last, tag);
    TagListShape(front, tag);
    PutEffect(TagList(front, tag), front == [], IsRecord(front, last), last.item);
    if tag in Tags(front) {
      k := HeadIsLastRecord(front, tag);
    } else {
      k := None;
      NoReadingNoRecord(front, tag);
    }
    LastRecordSnoc(front, last, tag, k);
    if last.tag == tag && IsRecord(front, last) {
      k := Some(|front|);
    }
  }

  /** The head of the tag's list has the newest timestamp of the tag. */
  ghost predicate NewestFirst(rs: seq<Reading>, tag: string)
    requires TagList(rs, tag) != []
  {
    var head := TagList(rs, tag)[0];
    head.One? && forall r :: r in rs && r.tag == tag ==> r.item.timestamp <= head.item.timestamp
  }

  /** A tag's newest reading comes first exactly when a newest reading of the tag was a record of the whole topic. */
  lemma {:induction false} NewestFirstIff(rs: seq<Reading>, tag: string)
    requires tag in Tags(rs)
    ensures TagList(rs, tag) != []
    ensures NewestFirst(rs, tag)
            <==> exists i :: 0 <= i < |rs| && RecordAt(rs, tag, i)
                             && forall r :: r in rs && r.tag == tag ==> r.item.timestamp <= rs[i].item.timestamp
  {
    var k := HeadIsLastRecord(rs, tag);
    if k.Some? {
      forall i | 0 <= i < |rs| && RecordAt(rs, tag, i) ensures rs[i].item.timestamp <= rs[k.value].item.timestamp {
        if i < k.value { assert rs[..k.value][i] in rs[..k.value]; }
      }
      if NewestFirst(rs, tag) {
        assert RecordAt(rs, tag, k.value);
      }
    }
  }

  lemma {:induction false} FirstLatest(rs: seq<Reading>) returns (i: nat)
    requires rs != []
    ensures i < |rs| && IsRecord(rs[..i], rs[i]) && forall r :: r in rs ==> r.item.timestamp <= rs[i].item.timestamp
  {
    var n := |rs| - 1;
    assert rs[..n] + [rs[n]] == rs;
    if n == 0 {
      i := 0;
    } else {
      i := FirstLatest(rs[..n]);
      assert rs[..n][..i] == rs[..i];
      if rs[i].item.timestamp < rs[n].item.timestamp {
        i := n;
      }
    }
  }

  /** A topic with a single tag keeps the newest reading first. */
  lemma {:induction false} SingleTagKeepsNewestFirst(rs: seq<Reading>, tag: string)
    requires rs != [] && forall r :: r in rs ==> r.tag == tag
    ensures tag in Tags(rs) && TagList(rs, tag) != [] && NewestFirst(rs, tag)
  {
    assert rs[0] in rs;
    var i := FirstLatest(rs);
    assert rs[i] in rs;
    assert RecordAt(rs, tag, i);
    NewestFirstIff(rs, tag);
  }

  /** With a second tag it need not: an older reading of it lands behind a placeholder. */
  lemma SecondTagBehindPlaceholder(first: Reading, second: Reading)
    requires first.tag != second.tag && second.item.timestamp < first.item.timestamp
    ensures TagList([first, second], second.tag) == [Nothing, One(second.item)]
    ensures !NewestFirst([first, second], second.tag)
  {
    var rs := [first, second];
    assert rs[..1] == [first] && [first][..0] == [];
    assert first in [first];
    assert TagList([first], second.tag) == [];
  }

  /** A tag's older reading stays at its head when another tag's newer one came between. */
  lemma OlderReadingAtHead()
    ensures var item1, item2, item3 := Item(None, 1, false), Item(None, 3, false), Item(None, 2, false);
            var rs := [Reading("t", "a", item1), Reading("t", "b", item2), Reading("t", "a", item3)];
            TagList(rs, "a") == [One(item1), One(item3)] && !NewestFirst(rs, "a")
  {
    var item1, item2, item3 := Item(None, 1, false), Item(None, 3, false), Item(None, 2, false);
    var first, second, third := Reading("t", "a", item1), Reading("t", "b", item2), Reading("t", "a", item3);
    TagListSnoc([], first, "a");
    TagListSnoc([first], second, "a");
    TagListSnoc([first, second], third, "a");
    assert [] + [first] == [first] && [first] + [second] == [first, second];
    assert [first, second] + [third] == [first, second, third];
    assert second in [first, second] && third in [first, second, third];
  }

  // -------------------------------------------------------------- names and aliases

  /** A value as the payload has it; the data type may be one the enumeration does not know. */
  datatype MetricValue = NullValue | Value(json: Json) | UnknownType

  /** An absent name is the empty string and an absent alias zero, the defaults of the message fields. */
  datatype Metric = Metric(name: string, alias: nat, timestamp: int, value: MetricValue, isHistorical: bool)

  function ItemOf(metric: Metric): Item {
    Item(if metric.value.Value? then Some(metric.value.json) else None, metric.timestamp, metric.isHistorical)
  }

  type Aliases = map<string, map<nat, string>>

  function NameFor(aliases: Aliases, key: string, alias: nat): Option<string> {
    if key in aliases && alias in aliases[key] then Some(aliases[key][alias]) else None
  }

  function Save(aliases: Aliases, key: string, alias: nat, name: string): Aliases {
    aliases[key := (if key in aliases then aliases[key] else map[])[alias := name]]
  }

  /** A named metric teaches its alias; a nameless one is looked up, and a miss ends in an exception. */
  function MetricName(aliases: Aliases, key: string, metric: Metric): (Aliases, Option<string>) {
    if metric.name == "" then (aliases, NameFor(aliases, key, metric.alias))
    else (Save(aliases, key, metric.alias, metric.name), Some(metric.name))
  }

  /** `rsplit("/", 1)` into topic and tag; none without a separator. */
  function SplitLast(name: string): Option<(string, string)> {
    if name == "" then None
    else if name[|name| - 1] == '/' then Some((name[..|name| - 1], ""))
    else
      match SplitLast(name[..|name| - 1])
      case None => None
      case Some((topic, tag)) => Some((topic, tag + [name[|name| - 1]]))
  }

  lemma {:induction false} SplitLastJoins(name: string)
    ensures SplitLast(name).None? <==> '/' !in name
    ensures SplitLast(name).Some? ==>
              SplitLast(name).value.0 + "/" + SplitLast(name).value.1 == name && '/' !in SplitLast(name).value.1
  {
    if name != "" {
      var front := name[..|name| - 1];
      SplitLastJoins(front);
      assert front + [name[|name| - 1]] == name;
    }
  }

  function Resolve(aliases: Aliases, key: string, metric: Metric): (Aliases, Result<Reading, FoldError>) {
    var (taught, name) := MetricName(aliases, key, metric);
    if name.None? || SplitLast(name.value).None? then (taught, Err(NameError))
    else if metric.value.UnknownType? then (taught, Err(ValueError))
    else
      var (topic, tag) := SplitLast(name.value).value;
      (taught, Ok(Reading(topic, tag, ItemOf(metric))))
  }

  function HandleOne(
      aliases: Aliases, key: string, context: map<string, string>, messages: map<string, Message>, metric: Metric)
    : (Aliases, Result<map<string, Message>, FoldError>)
  {
    var (taught, resolved) := Resolve(aliases, key, metric);
    match resolved
    case Err(e) => (taught, Err(e))
    case Ok(r) =>
      match FoldOne(context, Lookup(messages, r.topic), r)
      case Err(e) => (taught, Err(e))
      case Ok(message) => (taught, Ok(messages[r.topic := message]))
  }

  /** A payload, metric by metric. An exception loses the messages, but not the aliases learnt until then. */
  function Handle(
      aliases: Aliases, key: string, context: map<string, string>, metrics: seq<Metric>)
    : (Aliases, Result<map<string, Message>, FoldError>)
  {
    if metrics == [] then (aliases, Ok(map[]))
    else
      var (known, folded) := Handle(aliases, key, context, metrics[..|metrics| - 1]);
      if folded.Err? then (known, folded) else HandleOne(known, key, context, folded.value, metrics[|metrics| - 1])
  }

  /** The name an alias stands for after some metrics: the last one it came with, else the one it had. */
  function LastTaught(metrics: seq<Metric>, alias: nat, before: Option<string>): Option<string> {
    if metrics == [] then before
    else
      var last := metrics[|metrics| - 1];
      if last.name != "" && last.alias == alias then Some(last.name)
      else LastTaught(metrics[..|metrics| - 1], alias, before)
  }

  /** The name of each metric, and what it reads: its own name, or what its alias was last taught. */
  ghost predicate ReadAs(aliases: Aliases, key: string, metrics: seq<Metric>, i: nat, r: Reading)
    requires i < |metrics|
  {
    var metric := metrics[i];
    && Some(r.topic + "/" + r.tag)
       == (if metric.name != "" then Some(metric.name)
           else LastTaught(metrics[..i], metric.alias, NameFor(aliases, key, metric.alias)))
    && '/' !in r.tag && !metric.value.UnknownType?
    && r.item.timestamp == metric.timestamp && r.item.isHistorical == metric.isHistorical
    && r.item.value == (match metric.value case Value(json) => Some(json) case _ => None)
  }

  lemma {:induction false} ResolvedReads(
      aliases: Aliases, known: Aliases, key: string, metrics: seq<Metric>, metric: Metric)
    requires NameFor(known, key, metric.alias) == LastTaught(metrics, metric.alias, NameFor(aliases, key, metric.alias))
    requires Resolve(known, key, metric).1.Ok?
    ensures ReadAs(aliases, key, metrics + [metric], |metrics|, Resolve(known, key, metric).1.value)
  {
    assert (metrics + [metric])[..|metrics|] == metrics;
    SplitLastJoins(MetricName(known, key, metric).1.value);
  }

  /** How many items are taken until a prefix turns bad, the item that turns it included. */
  function UntilBad<T>(good: seq<T> -> bool, items: seq<T>): (n: nat)
    ensures n <= |items|
  {
    if items == [] then 0
    else if good(items[..|items| - 1]) then |items|
    else UntilBad(good, items[..|items| - 1])
  }

  lemma {:induction false} UntilBadIff<T>(good: seq<T> -> bool, items: seq<T>)
    requires good([])
    ensures !good(items) ==>
              var n := UntilBad(good, items);
              n > 0 && good(items[..n - 1]) && !good(items[..n])
  {
    if items != [] {
      var front := items[..|items| - 1];
      if good(front) {
        assert items[..|items|] == items;
      } else {
        UntilBadIff(good, front);
        var n := UntilBad(good, front);
        assert front[..n] == items[..n] && (n > 0 ==> front[..n - 1] == items[..n - 1]);
      }
    }
  }

  function Survives(aliases: Aliases, key: string, context: map<string, string>): seq<Metric> -> bool {
    (prefix: seq<Metric>) => Handle(aliases, key, context, prefix).1.Ok?
  }

  /** How many metrics of a payload are begun: all of them, or up to the one that raises. */
  function Begun(aliases: Aliases, key: string, context: map<string, string>, metrics: seq<Metric>): (n: nat)
    ensures n <= |metrics|
  {
    UntilBad(Survives(aliases, key, context), metrics)
  }

  lemma ResolvingTeaches(known: Aliases, key: string, metric: Metric, alias: nat)
    ensures NameFor(Resolve(known, key, metric).0, key, alias)
            == if metric.name != "" && metric.alias == alias then Some(metric.name) else NameFor(known, key, alias)
  {
  }

  lemma LastTaughtSnoc(metrics: seq<Metric>, metric: Metric, alias: nat, before: Option<string>)
    ensures LastTaught(metrics + [metric], alias, before)
            == if metric.name != "" && metric.alias == alias then Some(metric.name)
               else LastTaught(metrics, alias, before)
  {
    assert (metrics + [metric])[..|metrics|] == metrics;
  }

  lemma HandlingResolves(
      aliases: Aliases, key: string, context: map<string, string>, metrics: seq<Metric>, metric: Metric)
    requires Handle(aliases, key, context, metrics).1.Ok?
    ensures Handle(aliases, key, context, metrics + [metric]).0
            == Resolve(Handle(aliases, key, context, metrics).0, key, metric).0
  {
    assert (metrics + [metric])[..|metrics|] == metrics;
  }

  lemma FrontSurvives(aliases: Aliases, key: string, context: map<string, string>, metrics: seq<Metric>)
    requires metrics != [] && Handle(aliases, key, context, metrics).1.Ok?
    ensures Handle(aliases, key, context, metrics[..|metrics| - 1]).1.Ok?
  {
  }

  /** One more metric, whether it raises or not, teaches what it teaches. */
  lemma AliasesOneMore(
      aliases: Aliases, key: string, context: map<string, string>, metrics: seq<Metric>, metric: Metric, alias: nat)
    requires Handle(aliases, key, context, metrics).1.Ok?
    requires NameFor(Handle(aliases, key, context, metrics).0, key, alias)
             == LastTaught(metrics, alias, NameFor(aliases, key, alias))
    ensures NameFor(Handle(aliases, key, context, metrics + [metric]).0, key, alias)
            == LastTaught(metrics + [metric], alias, NameFor(aliases, key, alias))
  {
    HandlingResolves(aliases, key, context, metrics, metric);
    ResolvingTeaches(Handle(aliases, key, context, metrics).0, key, metric, alias);
    LastTaughtSnoc(metrics, metric, alias, NameFor(aliases, key, alias));
  }

  lemma {:induction false} AliasesOfSurvivors(
      aliases: Aliases, key: string, context: map<string, string>, metrics: seq<Metric>, alias: nat)
    requires Handle(aliases, key, context, metrics).1.Ok?
    ensures NameFor(Handle(aliases, key, context, metrics).0, key, alias)
            == LastTaught(metrics, alias, NameFor(aliases, key, alias))
  {
    if metrics != [] {
      var front, last := metrics[..|metrics| - 1], metrics[|metrics| - 1];
      FrontSurvives(aliases, key, context, metrics);
      AliasesOfSurvivors(aliases, key, context, front, alias);
      AliasesOneMore(aliases, key, context, front, last, alias);
      assert front + [last] == metrics;
    }
  }

  lemma {:induction false} HandleStopsAt(
      aliases: Aliases, key: string, context: map<string, string>, metrics: seq<Metric>, i: nat)
    requires i <= |metrics| && Handle(aliases, key, context, metrics[..i]).1.Err?
    ensures Handle(aliases, key, context, metrics) == Handle(aliases, key, context, metrics[..i])
  {
    if i == |metrics| {
      assert metrics[..i] == metrics;
    } else {
      assert metrics[..|metrics| - 1][..i] == metrics[..i];
      HandleStopsAt(aliases, key, context, metrics[..|metrics| - 1], i);
    }
  }

  lemma {:induction false} AllBegun(
      aliases: Aliases, key: string, context: map<string, string>, metrics: seq<Metric>)
    requires Handle(aliases, key, context, metrics).1.Ok?
    ensures Begun(aliases, key, context, metrics) == |metrics|
  {
    if metrics != [] {
      FrontSurvives(aliases, key, context, metrics);
      assert Survives(aliases, key, context)(metrics[..|metrics| - 1]);
    }
  }

  lemma RaisingIsLastBegun(
      aliases: Aliases, key: string, context: map<string, string>, metrics: seq<Metric>)
    requires !Survives(aliases, key, context)(metrics)
    ensures var n, good := Begun(aliases, key, context, metrics), Survives(aliases, key, context);
            n > 0 && good(metrics[..n - 1]) && !good(metrics[..n])
  {
    assert Survives(aliases, key, context)([]);
    UntilBadIff(Survives(aliases, key, context), metrics);
  }

  /** All metrics are begun when none raises; else the one that raises is the last one begun. */
  lemma LastBegunRaises(aliases: Aliases, key: string, context: map<string, string>, metrics: seq<Metric>)
    ensures var n := Begun(aliases, key, context, metrics);
            if Handle(aliases, key, context, metrics).1.Ok? then n == |metrics|
            else
              && n > 0 && Handle(aliases, key, context, metrics[..n - 1]).1.Ok?
              && Handle(aliases, key, context, metrics[..n]).1.Err?
              && Handle(aliases, key, context, metrics[..n]) == Handle(aliases, key, context, metrics)
  {
    if Handle(aliases, key, context, metrics).1.Ok? {
      AllBegun(aliases, key, context, metrics);
    } else {
      RaisingIsLastBegun(aliases, key, context, metrics);
      HandleStopsAt(aliases, key, context, metrics, Begun(aliases, key, context, metrics));
    }
  }

  /** Whether or not the payload raises, an alias stands for the last name among the metrics begun that it came with. */
  lemma {:induction false} AliasesAreLastTaught(
      aliases: Aliases, key: string, context: map<string, string>, metrics: seq<Metric>, alias: nat)
    ensures var n := Begun(aliases, key, context, metrics);
            NameFor(Handle(aliases, key, context, metrics).0, key, alias)
            == LastTaught(metrics[..n], alias, NameFor(aliases, key, alias))
  {
    var n := Begun(aliases, key, context, metrics);
    LastBegunRaises(aliases, key, context, metrics);
    if n == |metrics| && Handle(aliases, key, context, metrics).1.Ok? {
      AliasesOfSurvivors(aliases, key, context, metrics, alias);
      assert metrics[..n] == metrics;
    } else {
      AliasesOfSurvivors(aliases, key, context, metrics[..n - 1], alias);
      AliasesOneMore(aliases, key, context, metrics[..n - 1], metrics[n - 1], alias);
      assert metrics[..n - 1] + [metrics[n - 1]] == metrics[..n];
    }
  }

  /** A payload that raises nothing yields what one pass over its readings folds to, each read under its full name. */
  lemma {:induction false} HandlingIsFolding(
      aliases: Aliases, key: string, context: map<string, string>, metrics: seq<Metric>) returns (rs: seq<Reading>)
    requires Handle(aliases, key, context, metrics).1.Ok?
    ensures |rs| == |metrics| && forall i :: 0 <= i < |rs| ==> ReadAs(aliases, key, metrics, i, rs[i])
    ensures FoldAll(context, rs) == Handle(aliases, key, context, metrics).1
  {
    rs := [];
    if metrics != [] {
      var front, last := metrics[..|metrics| - 1], metrics[|metrics| - 1];
      assert front + [last] == metrics;
      var known := Handle(aliases, key, context, front).0;
      var before := HandlingIsFolding(aliases, key, context, front);
      AliasesOfSurvivors(aliases, key, context, front, last.alias);
      ResolvedReads(aliases, known, key, front, last);
      rs := before + [Resolve(known, key, last).1.value];
      assert rs[..|before|] == before;
      forall i | 0 <= i < |before| ensures ReadAs(aliases, key, metrics, i, rs[i]) {
        assert metrics[..i] == front[..i] && ReadAs(aliases, key, front, i, before[i]);
      }
    }
  }

  /** What the name of a metric is: its own, or what its alias was last taught. */
  function FullName(aliases: Aliases, key: string, metrics: seq<Metric>, metric: Metric): Option<string> {
    if metric.name != "" then Some(metric.name)
    else LastTaught(metrics, metric.alias, NameFor(aliases, key, metric.alias))
  }

  lemma HandlingOneMore(
      aliases: Aliases, key: string, context: map<string, string>, metrics: seq<Metric>, metric: Metric)
    requires Handle(aliases, key, context, metrics).1.Ok?
    ensures var (known, folded) := Handle(aliases, key, context, metrics);
            Handle(aliases, key, context, metrics + [metric]) == HandleOne(known, key, context, folded.value, metric)
  {
    assert (metrics + [metric])[..|metrics|] == metrics;
  }

  lemma OneRaisesIff(
      known: Aliases, key: string, context: map<string, string>, messages: map<string, Message>, metric: Metric)
    ensures var name := if metric.name != "" then Some(metric.name) else NameFor(known, key, metric.alias);
            var result := HandleOne(known, key, context, messages, metric).1;
            && (result == Err(NameError) <==> name.None? || '/' !in name.value)
            && (result == Err(ValueError) <==> name.Some? && '/' in name.value && metric.value.UnknownType?)
  {
    var name := if metric.name != "" then Some(metric.name) else NameFor(known, key, metric.alias);
    if name.Some? {
      SplitLastJoins(name.value);
    }
  }

  /**
   * After metrics that raise nothing, the next one raises for its name exactly when it has none or one without a
   * separator, and otherwise for its type exactly when that is not known.
   */
  lemma {:induction false} NextRaisesIff(
      aliases: Aliases, key: string, context: map<string, string>, metrics: seq<Metric>, metric: Metric)
    requires Handle(aliases, key, context, metrics).1.Ok?
    ensures var name := FullName(aliases, key, metrics, metric);
            var result := Handle(aliases, key, context, metrics + [metric]).1;
            && (result == Err(NameError) <==> name.None? || '/' !in name.value)
            && (result == Err(ValueError) <==> name.Some? && '/' in name.value && metric.value.UnknownType?)
  {
    var (known, folded) := Handle(aliases, key, context, metrics);
    HandlingOneMore(aliases, key, context, metrics, metric);
    AliasesOfSurvivors(aliases, key, context, metrics, metric.alias);
    OneRaisesIff(known, key, context, folded.value, metric);
  }

  // ---------------------------------------------------------------------- messages

  /** A Sparkplug message: where its topic says it comes from, its type, and the metrics of its payload. */
  datatype Arrival = Arrival(
    groupId: string, messageType: string, edgeNodeId: string, deviceId: Option<string>, metrics: seq<Metric>)

  /** The key of an alias cache, from the text of the device id, present or not. */
  function CacheKey(groupId: string, edgeNodeId: string, deviceId: Option<string>): string {
    groupId + "/" + edgeNodeId + "/" + if deviceId.Some? then deviceId.value else "None"
  }

  function KeyOf(a: Arrival): string {
    CacheKey(a.groupId, a.edgeNodeId, a.deviceId)
  }

  predicate Clears(messageType: string) {
    messageType in {"NBIRTH", "NDEATH", "DBIRTH", "DDEATH"}
  }

  predicate CarriesMetrics(messageType: string) {
    messageType in {"NBIRTH", "NDEATH", "DBIRTH", "NDATA", "NCMD", "DDATA", "DCMD"}
  }

  /** Births and deaths forget the aliases; messages with metrics are handled; others publish nothing. */
  function Transform(aliases: Aliases, a: Arrival): (Aliases, Result<map<string, Message>, FoldError>) {
    var known := if Clears(a.messageType) then aliases - {KeyOf(a)} else aliases;
    if CarriesMetrics(a.messageType) then
      Handle(known, KeyOf(a), Context(a.groupId, a.messageType, a.edgeNodeId, a.deviceId), a.metrics)
    else if a.messageType == "DDEATH" || a.messageType == "STATE" then (known, Ok(map[]))
    else (known, Err(UnknownMessageType))
  }

  // --------------------------------------------------------------------- the mapper

  class Spb2UnsPublisher {
    var aliases: Aliases

    constructor ()
      ensures aliases == map[]
    {
      aliases := map[];
    }

    method ClearMetricAlias(key: string)
      modifies this
      ensures aliases == old(aliases) - {key}
    {
      aliases := aliases - {key};
    }

    method GetMetricName(key: string, metric: Metric) returns (name: Option<string>)
      modifies this
      ensures (aliases, name) == MetricName(old(aliases), key, metric)
    {
      if metric.name != "" {
        if key !in aliases {
          aliases := aliases[key := map[]];
        }
        var names: map<nat, string> := aliases[key];
        names := names[metric.alias := metric.name];
        aliases := aliases[key := names];
        assert aliases == Save(old(aliases), key, metric.alias, metric.name);
        return Some(metric.name);
      }
      if key !in aliases || metric.alias !in aliases[key] {
        return None;
      }
      name := Some(aliases[key][metric.alias]);
    }

    method HandleMetric(key: string, context: map<string, string>, messages: map<string, Message>, metric: Metric)
      returns (r: Result<map<string, Message>, FoldError>)
      modifies this
      ensures (aliases, r) == HandleOne(old(aliases), key, context, messages, metric)
    {
      var name := GetMetricName(key, metric);
      if name.None? || SplitLast(name.value).None? {
        return Err(NameError);
      }
      if metric.value.UnknownType? {
        return Err(ValueError);
      }
      var (topic, tag) := SplitLast(name.value).value;
      var message := FoldOne(context, Lookup(messages, topic), Reading(topic, tag, ItemOf(metric)));
      if message.Err? {
        return Err(message.error);
      }
      r := Ok(messages[topic := message.value]);
    }

    method HandleSpbMessages(key: string, context: map<string, string>, metrics: seq<Metric>)
      returns (r: Result<map<string, Message>, FoldError>)
      modifies this
      ensures (aliases, r) == Handle(old(aliases), key, context, metrics)
    {
      r := Ok(map[]);
      for i := 0 to |metrics|
        invariant r.Ok? && (aliases, r) == Handle(old(aliases), key, context, metrics[..i])
      {
        assert metrics[..i + 1][..i] == metrics[..i];
        r := HandleMetric(key, context, r.value, metrics[i]);
        if r.Err? {
          HandleStopsAt(old(aliases), key, context, metrics, i + 1);
          return;
        }
      }
      assert metrics[..|metrics|] == metrics;
    }

    method TransformSpb(a: Arrival) returns (r: Result<map<string, Message>, FoldError>)
      modifies this
      ensures (aliases, r) == Transform(old(aliases), a)
    {
      if Clears(a.messageType) {
        ClearMetricAlias(KeyOf(a));
      }
      if CarriesMetrics(a.messageType) {
        r := HandleSpbMessages(
          KeyOf(a), Context(a.groupId, a.messageType, a.edgeNodeId, a.deviceId), a.metrics);
      } else if a.messageType == "DDEATH" || a.messageType == "STATE" {
        r := Ok(map[]);
      } else {
        r := Err(UnknownMessageType);
      }
    }
  }
}
