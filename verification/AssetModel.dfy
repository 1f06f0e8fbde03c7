/** The authored asset tree and the topic bindings derived from it. */
module AssetModel {
  import opened Wrappers
  import opened Splitting
  import opened TopicPaths

  // ------------------------------------------------------------------ the two tables

  datatype Model = Model(assets: Assets, nextId: nat, bindings: map<string, Binding>)

  datatype AssetSpec = AssetSpec(segment: string, level: string)

  datatype BranchError = EmptyBranch | UnknownLevel | InvertedLevels | ConstraintViolated

  function Segments(specs: seq<AssetSpec>): seq<string> {
    seq(|specs|, i requires 0 <= i < |specs| => specs[i].segment)
  }

  function PathOf(specs: seq<AssetSpec>): string {
    Join(Segments(specs), SEPARATOR)
  }

  /** A branch part-way written: the tables and the id of its last asset. */
  datatype Branch = Branch(assets: Assets, nextId: nat, leaf: Option<nat>)

  /** Whether another row has that parent and segment; parents that are null never clash. */
  predicate SiblingClash(assets: Assets, path: string, parent: Option<nat>, segment: string) {
    && parent.Some?
    && exists other ::
         other in assets && other != path && assets[other].parent == parent && assets[other].segment == segment
  }

  /** Insert a row, or on a conflict of its path give the row the new parent and level. */
  function Upsert(b: Branch, path: string, spec: AssetSpec): Result<Branch, BranchError> {
    if spec.segment == "" then Err(ConstraintViolated)
    else if path in b.assets then
      var row := b.assets[path];
      if SiblingClash(b.assets, path, b.leaf, row.segment) then Err(ConstraintViolated)
      else Ok(Branch(b.assets[path := row.(parent := b.leaf, level := spec.level)], b.nextId, Some(row.id)))
    else if SiblingClash(b.assets, path, b.leaf, spec.segment) then Err(ConstraintViolated)
    else
      var row := Asset(b.nextId, b.leaf, spec.segment, path, spec.level, true);
      Ok(Branch(b.assets[path := row], b.nextId + 1, Some(b.nextId)))
  }

  function UpsertAll(m: Model, specs: seq<AssetSpec>): Result<Branch, BranchError> {
    if specs == [] then Ok(Branch(m.assets, m.nextId, None))
    else
      match UpsertAll(m, specs[..|specs| - 1])
      case Err(e) => Err(e)
      case Ok(b) => Upsert(b, PathOf(specs), specs[|specs| - 1])
  }

  /** Whether a level is no finer than the one above it. */
  predicate Inverts(ranks: map<string, int>, above: string, below: string) {
    above in ranks && below in ranks && ranks[below] <= ranks[above]
  }

  function CheckLevels(ranks: map<string, int>, specs: seq<AssetSpec>): Option<BranchError> {
    if specs == [] then Some(EmptyBranch)
    else if exists i :: 0 <= i < |specs| && specs[i].level !in ranks then Some(UnknownLevel)
    else if exists i :: 0 < i < |specs| && Inverts(ranks, specs[i - 1].level, specs[i].level) then
      Some(InvertedLevels)
    else None
  }

  /** All of the branch is written or nothing is. */
  function EnsureBranch(m: Model, ranks: map<string, int>, specs: seq<AssetSpec>): (Model, Option<BranchError>) {
    match CheckLevels(ranks, specs)
    case Some(e) => (m, Some(e))
    case None =>
      match UpsertAll(m, specs)
      case Err(e) => (m, Some(e))
      case Ok(b) => (m.(assets := b.assets, nextId := b.nextId), None)
  }

  function Under(assets: Assets, path: string): set<string> {
    set other | other in assets && Covers(path, other)
  }

  /** Assets at or under a path go; bindings to them lose the asset but not the metric path. */
  function DeleteAsset(m: Model, path: string): Model {
    var gone := set other | other in Under(m.assets, path) :: m.assets[other].id;
    m.(assets := m.assets - Under(m.assets, path),
       bindings := map topic | topic in m.bindings ::
         var b := m.bindings[topic]; if b.asset.Some? && b.asset.value in gone then b.(asset := None) else b)
  }

  function BindTopic(m: Model, topic: string): Model {
    m.(bindings := m.bindings[topic := Resolve(m.assets, topic)])
  }

  /** The topics whose row is not what their topic resolves to. */
  function Stale(m: Model): set<string> {
    set topic | topic in m.bindings && m.bindings[topic] != Resolve(m.assets, topic)
  }

  function RebindAll(m: Model): Model {
    m.(bindings := m.bindings + map topic | topic in Stale(m) :: Resolve(m.assets, topic))
  }

  /** Every row is the longest active match of its topic. */
  ghost predicate Derived(m: Model) {
    Stale(m) == {}
  }

  /** A rebind leaves nothing to move, whatever went before, and touches no row it need not. */
  lemma SecondRebindMovesNothing(m: Model)
    ensures Derived(RebindAll(m)) && RebindAll(RebindAll(m)) == RebindAll(m)
    ensures RebindAll(m).bindings.Keys == m.bindings.Keys
    ensures forall topic :: topic in m.bindings && topic !in Stale(m) ==>
            RebindAll(m).bindings[topic] == m.bindings[topic]
  {
    var m' := RebindAll(m);
    assert forall topic :: topic in m'.bindings ==> m'.bindings[topic] == Resolve(m.assets, topic);
    assert Stale(m') == {};
    assert RebindAll(m').bindings == m'.bindings;
  }

  // --------------------------------------------------------------------------- tree

  /** Each parent is a row, one or more segments above its child. */
  ghost predicate Rooted(assets: Assets) {
    forall path :: path in assets && assets[path].parent.Some? ==>
                     exists above :: above in assets && Some(assets[above].id) == assets[path].parent
                         && above + [SEPARATOR] <= path
  }

  ghost predicate Tree(assets: Assets, nextId: nat) {
    && PathsKey(assets) && UniqueIds(assets) && Rooted(assets)
    && forall path :: path in assets ==> assets[path].id < nextId
  }

  ghost predicate BranchAt(b: Branch, path: string) {
    && Tree(b.assets, b.nextId)
    && (if path == "" then b.leaf == None else path in b.assets && b.leaf == Some(b.assets[path].id))
  }

  lemma UpsertKeepsIds(b: Branch, path: string, spec: AssetSpec)
    requires Tree(b.assets, b.nextId) && path != "" && Upsert(b, path, spec).Ok?
    ensures var b' := Upsert(b, path, spec).value;
            && PathsKey(b'.assets) && UniqueIds(b'.assets) && b.nextId <= b'.nextId
            && (forall p :: p in b'.assets ==>
                b'.assets[p].id < b'.nextId && (p in b.assets ==> b'.assets[p].id == b.assets[p].id))
  {
  }

  lemma UpsertKeepsTree(b: Branch, above: string, path: string, spec: AssetSpec)
    requires BranchAt(b, above) && path != "" && (above != "" ==> above + [SEPARATOR] <= path)
    requires Upsert(b, path, spec).Ok?
    ensures BranchAt(Upsert(b, path, spec).value, path)
  {
    var b' := Upsert(b, path, spec).value;
    UpsertKeepsIds(b, path, spec);
    assert above != "" ==> above != path;
    forall p | p in b'.assets && b'.assets[p].parent.Some?
      ensures exists q :: q in b'.assets && Some(b'.assets[q].id) == b'.assets[p].parent && q + [SEPARATOR] <= p
    {
      if p == path {
        assert above in b'.assets && b'.assets[above].id == b.assets[above].id;
      } else {
        var q :| q in b.assets && Some(b.assets[q].id) == b.assets[p].parent && q + [SEPARATOR] <= p;
        assert q in b'.assets && b'.assets[q].id == b.assets[q].id;
      }
    }
  }

  lemma PathSnoc(specs: seq<AssetSpec>)
    requires specs != []
    ensures var front, last := specs[..|specs| - 1], specs[|specs| - 1];
            PathOf(specs) == if front == [] then last.segment else PathOf(front) + [SEPARATOR] + last.segment
  {
    var front, last := specs[..|specs| - 1], specs[|specs| - 1];
    assert Segments(specs) == Segments(front) + [last.segment];
    if front != [] {
      JoinConcat(Segments(front), [last.segment]);
    }
  }

  lemma {:induction false} BranchKeepsTree(m: Model, specs: seq<AssetSpec>)
    requires Tree(m.assets, m.nextId) && UpsertAll(m, specs).Ok?
    ensures BranchAt(UpsertAll(m, specs).value, PathOf(specs)) && (specs != [] ==> PathOf(specs) != "")
  {
    if specs != [] {
      var front := specs[..|specs| - 1];
      BranchKeepsTree(m, front);
      PathSnoc(specs);
      UpsertKeepsTree(UpsertAll(m, front).value, PathOf(front), PathOf(specs), specs[|specs| - 1]);
    }
  }

  /** Rows under one parent have different segments: the unique constraint. */
  ghost predicate SiblingsUnique(assets: Assets) {
    forall a, b :: a in assets && b in assets && a != b && assets[a].parent.Some? ==>
        assets[a].parent != assets[b].parent || assets[a].segment != assets[b].segment
  }

  lemma UpsertKeepsSiblings(b: Branch, path: string, spec: AssetSpec)
    requires SiblingsUnique(b.assets) && Upsert(b, path, spec).Ok?
    ensures SiblingsUnique(Upsert(b, path, spec).value.assets)
  {
  }

  lemma {:induction false} BranchKeepsSiblings(m: Model, specs: seq<AssetSpec>)
    requires SiblingsUnique(m.assets) && UpsertAll(m, specs).Ok?
    ensures SiblingsUnique(UpsertAll(m, specs).value.assets)
  {
    if specs != [] {
      var front := specs[..|specs| - 1];
      BranchKeepsSiblings(m, front);
      UpsertKeepsSiblings(UpsertAll(m, front).value, PathOf(specs), specs[|specs| - 1]);
    }
  }

  /** The row of the `i`-th level: at its path, with its level, under the row before it. */
  ghost predicate LevelWritten(assets: Assets, specs: seq<AssetSpec>, i: nat)
    requires i < |specs|
  {
    var path, above := PathOf(specs[..i + 1]), PathOf(specs[..i]);
    && path in assets && assets[path].level == specs[i].level
    && (if i == 0 then assets[path].parent == None
        else above in assets && assets[path].parent == Some(assets[above].id))
  }

  lemma {:induction false} PathsGrow(specs: seq<AssetSpec>, i: nat)
    requires i < |specs|
    ensures |PathOf(specs[..i])| <= |PathOf(specs)|
    ensures specs[|specs| - 1].segment != "" ==> |PathOf(specs[..i])| < |PathOf(specs)|
  {
    var front := specs[..|specs| - 1];
    PathSnoc(specs);
    if i < |front| {
      PathsGrow(front, i);
      assert front[..i] == specs[..i];
    } else {
      assert specs[..i] == front;
      assert front == [] ==> PathOf(front) == "";
    }
  }

  ghost predicate OnBranch(specs: seq<AssetSpec>, path: string) {
    exists i :: 0 < i <= |specs| && path == PathOf(specs[..i])
  }

  lemma OnLongerBranch(specs: seq<AssetSpec>, path: string)
    requires specs != []
    ensures OnBranch(specs, path) <==> OnBranch(specs[..|specs| - 1], path) || path == PathOf(specs)
  {
    var n := |specs| - 1;
    assert specs[..n + 1] == specs;
    assert forall i :: 0 <= i <= n ==> specs[..n][..i] == specs[..i];
    if i :| 0 < i <= n && path == PathOf(specs[..n][..i]) {
      assert path == PathOf(specs[..i]);
    }
    if i :| 0 < i <= n + 1 && path == PathOf(specs[..i]) {
      assert i <= n ==> path == PathOf(specs[..n][..i]);
    }
  }

  /** Rows keep their ids, and no row off the branch is touched. */
  lemma {:induction false} OtherRowsStay(m: Model, specs: seq<AssetSpec>, path: string)
    requires UpsertAll(m, specs).Ok?
    ensures var assets' := UpsertAll(m, specs).value.assets;
            && (path in m.assets ==> path in assets' && assets'[path].id == m.assets[path].id)
            && (!OnBranch(specs, path) ==>
                (path in assets' <==> path in m.assets) && (path in m.assets ==> assets'[path] == m.assets[path]))
  {
    if specs != [] {
      OtherRowsStay(m, specs[..|specs| - 1], path);
      OnLongerBranch(specs, path);
    }
  }

  lemma LevelStays(before: Branch, specs: seq<AssetSpec>, i: nat)
    requires i < |specs| - 1 && specs[|specs| - 1].segment != "" && LevelWritten(before.assets, specs, i)
    requires Upsert(before, PathOf(specs), specs[|specs| - 1]).Ok?
    ensures LevelWritten(Upsert(before, PathOf(specs), specs[|specs| - 1]).value.assets, specs, i)
  {
    PathsGrow(specs, i);
    PathsGrow(specs, i + 1);
  }

  lemma LevelOfFront(assets: Assets, specs: seq<AssetSpec>, i: nat)
    requires i < |specs| - 1
    ensures LevelWritten(assets, specs[..|specs| - 1], i) <==> LevelWritten(assets, specs, i)
  {
    var front := specs[..|specs| - 1];
    assert front[..i] == specs[..i] && front[..i + 1] == specs[..i + 1];
  }

  /** The branch ends at its leaf. */
  ghost predicate EndsAt(b: Branch, specs: seq<AssetSpec>) {
    if specs == [] then b.leaf == None
    else PathOf(specs) in b.assets && b.leaf == Some(b.assets[PathOf(specs)].id)
  }

  lemma LastLevelWritten(before: Branch, specs: seq<AssetSpec>)
    requires specs != [] && Upsert(before, PathOf(specs), specs[|specs| - 1]).Ok?
    requires EndsAt(before, specs[..|specs| - 1])
    ensures var after := Upsert(before, PathOf(specs), specs[|specs| - 1]).value;
            && LevelWritten(after.assets, specs, |specs| - 1) && specs[|specs| - 1].segment != ""
            && PathOf(specs) in after.assets && after.leaf == Some(after.assets[PathOf(specs)].id)
  {
    PathsGrow(specs, |specs| - 1);
    assert specs[..|specs|] == specs;
  }

  ghost predicate BranchWritten(assets: Assets, specs: seq<AssetSpec>) {
    forall i :: 0 <= i < |specs| ==> specs[i].segment != "" && LevelWritten(assets, specs, i)
  }

  lemma NextLevelWritten(before: Branch, specs: seq<AssetSpec>)
    requires specs != [] && Upsert(before, PathOf(specs), specs[|specs| - 1]).Ok?
    requires BranchWritten(before.assets, specs[..|specs| - 1]) && EndsAt(before, specs[..|specs| - 1])
    ensures var after := Upsert(before, PathOf(specs), specs[|specs| - 1]).value;
            BranchWritten(after.assets, specs) && EndsAt(after, specs)
  {
    var n := |specs| - 1;
    LastLevelWritten(before, specs);
    forall i | 0 <= i < n
      ensures specs[i].segment != "" && LevelWritten(Upsert(before, PathOf(specs), specs[n]).value.assets, specs, i)
    {
      assert specs[..n][i].segment != "";
      LevelOfFront(before.assets, specs, i);
      LevelStays(before, specs, i);
    }
  }

  /** Each level of an accepted branch is written. */
  lemma {:induction false} BranchIsWritten(m: Model, specs: seq<AssetSpec>)
    requires UpsertAll(m, specs).Ok?
    ensures BranchWritten(UpsertAll(m, specs).value.assets, specs) && EndsAt(UpsertAll(m, specs).value, specs)
  {
    if specs != [] {
      BranchIsWritten(m, specs[..|specs| - 1]);
      NextLevelWritten(UpsertAll(m, specs[..|specs| - 1]).value, specs);
    }
  }

  // ------------------------------------------------------------ rows of a branch

  /** The row at a path of the branch: a new one is active, with its segment, an old one keeps its flag and segment. */
  ghost predicate RowWritten(before: Assets, after: Assets, path: string, segment: string) {
    && path in after
    && (if path in before
        then && after[path].id == before[path].id && after[path].isActive == before[path].isActive
             && after[path].segment == before[path].segment
        else after[path].isActive && after[path].segment == segment)
  }

  ghost predicate RowsWritten(before: Assets, after: Assets, specs: seq<AssetSpec>) {
    forall i :: 0 <= i < |specs| ==> RowWritten(before, after, PathOf(specs[..i + 1]), specs[i].segment)
  }

  lemma LeafIsOffItsFront(specs: seq<AssetSpec>)
    requires specs != [] && specs[|specs| - 1].segment != ""
    ensures !OnBranch(specs[..|specs| - 1], PathOf(specs))
  {
    var front := specs[..|specs| - 1];
    forall i | 0 < i <= |front| ensures PathOf(front[..i]) != PathOf(specs) {
      assert front[..i] == specs[..i];
      PathsGrow(specs, i);
    }
  }

  lemma NextRowWritten(m: Model, before: Branch, specs: seq<AssetSpec>)
    requires specs != [] && UpsertAll(m, specs[..|specs| - 1]) == Ok(before)
    requires Upsert(before, PathOf(specs), specs[|specs| - 1]).Ok?
    requires RowsWritten(m.assets, before.assets, specs[..|specs| - 1])
    ensures RowsWritten(m.assets, Upsert(before, PathOf(specs), specs[|specs| - 1]).value.assets, specs)
  {
    var front, after := specs[..|specs| - 1], Upsert(before, PathOf(specs), specs[|specs| - 1]).value;
    LeafIsOffItsFront(specs);
    OtherRowsStay(m, front, PathOf(specs));
    forall i | 0 <= i < |specs| ensures RowWritten(m.assets, after.assets, PathOf(specs[..i + 1]), specs[i].segment) {
      if i < |front| {
        assert front[..i + 1] == specs[..i + 1];
        PathsGrow(specs, i + 1);
        assert RowWritten(m.assets, before.assets, PathOf(front[..i + 1]), front[i].segment);
      } else {
        assert specs[..i + 1] == specs;
      }
    }
  }

  /** Each row of an accepted branch is new and active, or keeps what it was besides level and parent. */
  lemma {:induction false} RowsOfBranch(m: Model, specs: seq<AssetSpec>)
    requires UpsertAll(m, specs).Ok?
    ensures RowsWritten(m.assets, UpsertAll(m, specs).value.assets, specs)
  {
    if specs != [] {
      RowsOfBranch(m, specs[..|specs| - 1]);
      NextRowWritten(m, UpsertAll(m, specs[..|specs| - 1]).value, specs);
    }
  }

  /** The topic is bound to an active asset at or below the path, and the two paths make up the topic. */
  ghost predicate BoundAtOrBelow(m: Model, path: string, topic: string) {
    && topic in m.bindings
    && exists p ::
         && p in m.assets && m.assets[p].isActive && Covers(path, p) && Covers(p, topic)
         && m.bindings[topic].asset == Some(m.assets[p].id)
         && (if p == topic then m.bindings[topic].metricPath == ""
             else topic == p + [SEPARATOR] + m.bindings[topic].metricPath)
  }

  lemma DeeperCovers(path: string, deeper: string, topic: string)
    requires Covers(path, topic) && Covers(deeper, topic) && |path| <= |deeper|
    ensures Covers(path, deeper)
  {
    CoversIff(path, topic);
    CoversIff(deeper, topic);
    CoversIff(path, deeper);
  }

  /** With derived rows, an active asset has each topic it covers bound to itself or below. */
  lemma ActiveAssetBinds(m: Model, path: string, topic: string)
    requires Derived(m) && path in m.assets && m.assets[path].isActive && Covers(path, topic) && topic in m.bindings
    ensures BoundAtOrBelow(m, path, topic)
  {
    assert topic !in Stale(m);
    assert m.bindings[topic] == Resolve(m.assets, topic);
    BestUpToIff(m.assets, topic, true, |topic|);
    EligibleIff(m.assets, topic, true, path);
    var best := Best(m.assets, topic, true).value;
    BestIff(m.assets, topic, true, best);
    ResolveDecomposes(m.assets, topic);
    DeeperCovers(path, best, topic);
  }

  /** A branch with a new leaf: after the rebind every known topic at or below the leaf is bound there. */
  lemma NewBranchBinds(m: Model, ranks: map<string, int>, specs: seq<AssetSpec>, topic: string)
    requires EnsureBranch(m, ranks, specs).1.None? && Covers(PathOf(specs), topic) && topic in m.bindings
    requires PathOf(specs) in m.assets ==> m.assets[PathOf(specs)].isActive
    ensures BoundAtOrBelow(RebindAll(EnsureBranch(m, ranks, specs).0), PathOf(specs), topic)
  {
    var written := EnsureBranch(m, ranks, specs).0;
    RowsOfBranch(m, specs);
    assert specs[..|specs| - 1 + 1] == specs;
    assert RowWritten(m.assets, written.assets, PathOf(specs), specs[|specs| - 1].segment);
    SecondRebindMovesNothing(written);
    ActiveAssetBinds(RebindAll(written), PathOf(specs), topic);
  }

  // --------------------------------------------------------------- what is accepted

  /** Levels are known and descend strictly, also between segments that do not touch. */
  ghost predicate LevelsDescend(ranks: map<string, int>, specs: seq<AssetSpec>) {
    && (forall i :: 0 <= i < |specs| ==> specs[i].level in ranks)
    && forall i, j :: 0 <= i < j < |specs| ==> ranks[specs[i].level] < ranks[specs[j].level]
  }

  lemma {:induction false} DescendsFrom(ranks: map<string, int>, specs: seq<AssetSpec>, i: nat, j: nat)
    requires i < j < |specs| && forall k :: 0 <= k < |specs| ==> specs[k].level in ranks
    requires forall k :: 0 < k < |specs| ==> !Inverts(ranks, specs[k - 1].level, specs[k].level)
    ensures ranks[specs[i].level] < ranks[specs[j].level]
    decreases j - i
  {
    assert !Inverts(ranks, specs[j - 1].level, specs[j].level);
    if i < j - 1 {
      DescendsFrom(ranks, specs, i, j - 1);
    }
  }

  /** Which branches pass the check of their levels, and what is wrong with the others. */
  lemma LevelsPassIff(ranks: map<string, int>, specs: seq<AssetSpec>)
    ensures CheckLevels(ranks, specs).None? <==> specs != [] && LevelsDescend(ranks, specs)
    ensures CheckLevels(ranks, specs) == Some(EmptyBranch) <==> specs == []
    ensures CheckLevels(ranks, specs) == Some(UnknownLevel) <==> exists spec :: spec in specs && spec.level !in ranks
  {
    if CheckLevels(ranks, specs).None? {
      forall i, j | 0 <= i < j < |specs| ensures ranks[specs[i].level] < ranks[specs[j].level] {
        DescendsFrom(ranks, specs, i, j);
      }
    }
    if spec :| spec in specs && spec.level !in ranks {
      var i :| 0 <= i < |specs| && specs[i] == spec;
    }
  }

  ghost predicate RowCanonical(assets: Assets, path: string)
    requires path in assets
  {
    var row := assets[path];
    && row.segment != "" && SEPARATOR !in row.segment
    && (row.parent.None? ==> path == row.segment)
    && (row.parent.Some? ==>
          exists above ::
            above in assets && Some(assets[above].id) == row.parent && path == above + [SEPARATOR] + row.segment)
  }

  /** Every path is its segment below the path of its parent, and no segment has a separator. */
  ghost predicate Canonical(assets: Assets) {
    forall path :: path in assets ==> RowCanonical(assets, path)
  }

  ghost predicate PlainSegments(specs: seq<AssetSpec>) {
    forall spec :: spec in specs ==> SEPARATOR !in spec.segment
  }

  /** The path a branch gives its next segment. */
  function Below(above: string, segment: string): string {
    if above == "" then segment else above + [SEPARATOR] + segment
  }

  /** A path ends in one segment only. */
  lemma LastSegmentIsUnique(a: string, s: string, b: string, t: string)
    requires SEPARATOR !in s && SEPARATOR !in t && a + [SEPARATOR] + s == b + [SEPARATOR] + t
    ensures a == b && s == t
  {
    var path := a + [SEPARATOR] + s;
    assert path[|a|] == SEPARATOR && path[|b|] == SEPARATOR;
    assert |a| == |b|;
    assert a == path[..|a|] && b == path[..|a|] && s == path[|a| + 1..] && t == path[|a| + 1..];
  }

  /** A canonical row that the branch comes to has the segment of its spec. */
  lemma SegmentAgrees(assets: Assets, above: string, path: string, segment: string)
    requires Canonical(assets) && path in assets && SEPARATOR !in segment && path == Below(above, segment)
    ensures assets[path].segment == segment
  {
    assert RowCanonical(assets, path);
    if assets[path].parent.Some? {
      var other :|
        other in assets && Some(assets[other].id) == assets[path].parent
        && path == other + [SEPARATOR] + assets[path].segment;
      assert path[|other|] == SEPARATOR;
      if above != "" {
        LastSegmentIsUnique(above, segment, other, assets[path].segment);
      }
    }
  }

  /** In a canonical tree no sibling has the segment of a row at another path. */
  lemma NoClash(b: Branch, above: string, path: string, segment: string)
    requires BranchAt(b, above) && Canonical(b.assets) && path == Below(above, segment)
    ensures !SiblingClash(b.assets, path, b.leaf, segment)
  {
    forall other | other in b.assets && other != path && b.assets[other].parent == b.leaf && b.leaf.Some?
      ensures b.assets[other].segment != segment
    {
      assert RowCanonical(b.assets, other);
    }
  }

  lemma UpsertKeepsCanonical(b: Branch, above: string, spec: AssetSpec)
    requires BranchAt(b, above) && Canonical(b.assets) && spec.segment != "" && SEPARATOR !in spec.segment
    ensures var path := Below(above, spec.segment);
            Upsert(b, path, spec).Ok? && Canonical(Upsert(b, path, spec).value.assets)
  {
    var path := Below(above, spec.segment);
    NoClash(b, above, path, spec.segment);
    if path in b.assets {
      SegmentAgrees(b.assets, above, path, spec.segment);
    }
    var b' := Upsert(b, path, spec).value;
    UpsertKeepsIds(b, path, spec);
    forall p | p in b'.assets ensures RowCanonical(b'.assets, p) {
      if p == path {
        assert above != "" ==> above in b'.assets && b'.assets[above].id == b.assets[above].id;
      } else {
        assert RowCanonical(b.assets, p);
        if b.assets[p].parent.Some? {
          var q :|
            q in b.assets && Some(b.assets[q].id) == b.assets[p].parent && p == q + [SEPARATOR] + b.assets[p].segment;
          assert q in b'.assets && b'.assets[q].id == b.assets[q].id;
        }
      }
    }
  }

  lemma {:induction false} PlainBranchGoesIn(m: Model, specs: seq<AssetSpec>)
    requires Tree(m.assets, m.nextId) && Canonical(m.assets) && PlainSegments(specs)
    requires forall spec :: spec in specs ==> spec.segment != ""
    ensures UpsertAll(m, specs).Ok? && Canonical(UpsertAll(m, specs).value.assets)
  {
    if specs != [] {
      var front, last := specs[..|specs| - 1], specs[|specs| - 1];
      assert specs == front + [last];
      PlainBranchGoesIn(m, front);
      BranchKeepsTree(m, front);
      PathSnoc(specs);
      UpsertKeepsCanonical(UpsertAll(m, front).value, PathOf(front), last);
    }
  }

  lemma {:induction false} EmptySegmentFails(m: Model, specs: seq<AssetSpec>, i: nat)
    requires i < |specs| && specs[i].segment == ""
    ensures UpsertAll(m, specs).Err?
  {
    if i < |specs| - 1 {
      EmptySegmentFails(m, specs[..|specs| - 1], i);
    }
  }

  /**
   * On a canonical tree a branch of segments without separators is accepted if and only if it is not empty, its levels
   * are known and descend, and no segment is empty; the tree stays canonical.
   */
  lemma BranchAcceptedIff(m: Model, ranks: map<string, int>, specs: seq<AssetSpec>)
    requires Tree(m.assets, m.nextId) && Canonical(m.assets) && PlainSegments(specs)
    ensures EnsureBranch(m, ranks, specs).1.None?
            <==> specs != [] && LevelsDescend(ranks, specs) && forall spec :: spec in specs ==> spec.segment != ""
    ensures Canonical(EnsureBranch(m, ranks, specs).0.assets)
  {
    LevelsPassIff(ranks, specs);
    if forall spec :: spec in specs ==> spec.segment != "" {
      PlainBranchGoesIn(m, specs);
    } else {
      var spec :| spec in specs && spec.segment == "";
      var i :| 0 <= i < |specs| && specs[i] == spec;
      EmptySegmentFails(m, specs, i);
    }
  }

  /**
   * On any tree, a branch whose levels pass is refused when it comes to an empty segment, or to a level whose row would
   * be the second of its segment under its parent.
   */
  lemma {:induction false} RefusalHasCause(m: Model, specs: seq<AssetSpec>) returns (i: nat, b: Branch)
    requires UpsertAll(m, specs).Err?
    ensures UpsertAll(m, specs) == Err(ConstraintViolated)
    ensures i < |specs| && UpsertAll(m, specs[..i]) == Ok(b)
    ensures var path := PathOf(specs[..i + 1]);
            || specs[i].segment == ""
            || (b.leaf.Some? && exists other ::
                  && other in b.assets && other != path && b.assets[other].parent == b.leaf
                  && b.assets[other].segment == if path in b.assets then b.assets[path].segment else specs[i].segment)
  {
    var n := |specs| - 1;
    match UpsertAll(m, specs[..n])
    case Err(_) =>
      i, b := RefusalHasCause(m, specs[..n]);
      assert specs[..n][..i] == specs[..i] && specs[..n][..i + 1] == specs[..i + 1];
    case Ok(before) =>
      i, b := n, before;
      assert specs[..n + 1] == specs;
  }

  // ------------------------------------------------------------- writing it again

  lemma RewritingARow(b: Branch, path: string, spec: AssetSpec)
    requires SiblingsUnique(b.assets) && spec.segment != "" && path in b.assets
    requires b.assets[path].level == spec.level && b.assets[path].parent == b.leaf
    ensures Upsert(b, path, spec) == Ok(b.(leaf := Some(b.assets[path].id)))
  {
    var row := b.assets[path];
    assert row.(parent := b.leaf, level := spec.level) == row;
    assert b.assets[path := row] == b.assets;
  }

  lemma UpsertOneMore(m: Model, specs: seq<AssetSpec>, i: nat)
    requires i < |specs|
    ensures UpsertAll(m, specs[..i + 1])
            == if UpsertAll(m, specs[..i]).Err? then UpsertAll(m, specs[..i])
               else Upsert(UpsertAll(m, specs[..i]).value, PathOf(specs[..i + 1]), specs[i])
  {
    assert specs[..i + 1][..i] == specs[..i];
  }

  /** The branch of a model that is written already, at its last path. */
  function WrittenBranch(m: Model, specs: seq<AssetSpec>): Branch {
    Branch(m.assets, m.nextId,
           if specs != [] && PathOf(specs) in m.assets then Some(m.assets[PathOf(specs)].id) else None)
  }

  lemma RewritingALevel(m: Model, specs: seq<AssetSpec>, i: nat)
    requires i < |specs| && SiblingsUnique(m.assets) && specs[i].segment != "" && LevelWritten(m.assets, specs, i)
    ensures Upsert(WrittenBranch(m, specs[..i]), PathOf(specs[..i + 1]), specs[i])
            == Ok(WrittenBranch(m, specs[..i + 1]))
  {
    RewritingARow(WrittenBranch(m, specs[..i]), PathOf(specs[..i + 1]), specs[i]);
  }

  /** Upserting onto a written branch changes nothing, level by level. */
  lemma {:induction false} RewritingChangesNothing(m: Model, specs: seq<AssetSpec>, k: nat)
    requires k <= |specs| && SiblingsUnique(m.assets) && BranchWritten(m.assets, specs)
    ensures UpsertAll(m, specs[..k]) == Ok(WrittenBranch(m, specs[..k]))
  {
    if k > 0 {
      RewritingChangesNothing(m, specs, k - 1);
      UpsertOneMore(m, specs, k - 1);
      assert specs[k - 1].segment != "";
      RewritingALevel(m, specs, k - 1);
    }
  }

  /** Writing a branch a second time is a no-op. */
  lemma EnsureBranchIdempotent(m: Model, ranks: map<string, int>, specs: seq<AssetSpec>)
    requires SiblingsUnique(m.assets)
    ensures var m' := EnsureBranch(m, ranks, specs).0;
            && SiblingsUnique(m'.assets)
            && (EnsureBranch(m, ranks, specs).1.None? ==> EnsureBranch(m', ranks, specs) == (m', None))
  {
    if EnsureBranch(m, ranks, specs).1.None? {
      var m' := EnsureBranch(m, ranks, specs).0;
      BranchKeepsSiblings(m, specs);
      BranchIsWritten(m, specs);
      RewritingChangesNothing(m', specs, |specs|);
      assert specs[..|specs|] == specs;
    }
  }

  /** Nothing that is left had a parent that went, so the cascade along parents deletes no more than the prefix does. */
  lemma CascadeDeletesNoMore(assets: Assets, nextId: nat, path: string)
    requires Tree(assets, nextId)
    ensures Tree(assets - Under(assets, path), nextId)
  {
  }

  lemma DeletionKeepsCanonical(assets: Assets, path: string)
    requires Canonical(assets)
    ensures Canonical(assets - Under(assets, path))
  {
    var left := assets - Under(assets, path);
    forall p | p in left ensures RowCanonical(left, p) {
      assert RowCanonical(assets, p);
      if assets[p].parent.Some? {
        var above :|
          above in assets && Some(assets[above].id) == assets[p].parent
          && p == above + [SEPARATOR] + assets[p].segment;
        assert above in left;
      }
    }
  }

  /** Exactly the assets at or under the path go, and exactly the bindings to those lose their asset. */
  lemma DeletionEffect(m: Model, path: string)
    requires UniqueIds(m.assets)
    ensures var m' := DeleteAsset(m, path);
            && (forall p :: p in m'.assets <==> p in m.assets && !Covers(path, p))
            && (forall p :: p in m'.assets ==> m'.assets[p] == m.assets[p])
            && m'.bindings.Keys == m.bindings.Keys
            && (forall topic :: topic in m.bindings ==> m'.bindings[topic].metricPath == m.bindings[topic].metricPath)
            && (forall topic, p ::
                  topic in m.bindings && p in m.assets && m.bindings[topic].asset == Some(m.assets[p].id) ==>
                      m'.bindings[topic].asset == if Covers(path, p) then None else m.bindings[topic].asset)
            && (forall topic :: topic in m.bindings && m.bindings[topic].asset.None? ==> m'.bindings[topic].asset.None?)
  {
  }

  // --------------------------------------------------------------------------- runs

  datatype Step = Ensure(specs: seq<AssetSpec>) | Delete(path: string) | Bind(topic: string) | Rebind

  function Next(m: Model, ranks: map<string, int>, step: Step): Model {
    match step
    case Ensure(specs) => EnsureBranch(m, ranks, specs).0
    case Delete(path) => DeleteAsset(m, path)
    case Bind(topic) => BindTopic(m, topic)
    case Rebind => RebindAll(m)
  }

  function Run(start: Assets, nextId: nat, ranks: map<string, int>, steps: seq<Step>): Model {
    if steps == [] then Model(start, nextId, map[])
    else Next(Run(start, nextId, ranks, steps[..|steps| - 1]), ranks, steps[|steps| - 1])
  }

  /** No write to the assets since the last rebind. */
  predicate Settled(steps: seq<Step>) {
    steps == [] || steps[|steps| - 1].Rebind? || (steps[|steps| - 1].Bind? && Settled(steps[..|steps| - 1]))
  }

  lemma EnsureKeepsTree(m: Model, ranks: map<string, int>, specs: seq<AssetSpec>)
    requires Tree(m.assets, m.nextId)
    ensures var m' := EnsureBranch(m, ranks, specs).0;
            Tree(m'.assets, m'.nextId) && m'.bindings == m.bindings
                && (EnsureBranch(m, ranks, specs).1.Some? ==> m' == m)
    ensures EnsureBranch(m, ranks, specs).1.None? ==> PathOf(specs) in EnsureBranch(m, ranks, specs).0.assets
  {
    if CheckLevels(ranks, specs).None? && UpsertAll(m, specs).Ok? {
      BranchKeepsTree(m, specs);
    }
  }

  lemma StaleAfterBind(m: Model, topic: string)
    ensures Stale(BindTopic(m, topic)) == Stale(m) - {topic}
  {
  }

  /**
   * In every run of branch writes, deletions, bindings and rebinds by any number of processes: the assets form a tree,
   * a known topic stays known, and once the assets have been rebound every row is the longest active match of its
   * topic.
   */
  lemma {:induction false} RunsKeepBindingsDerived(
      start: Assets, nextId: nat, ranks: map<string, int>, steps: seq<Step>)
    requires Tree(start, nextId)
    ensures var m := Run(start, nextId, ranks, steps);
            Tree(m.assets, m.nextId) && (Settled(steps) ==> Derived(m))
    ensures steps != [] ==>
              var front := steps[..|steps| - 1];
              Run(start, nextId, ranks, front).bindings.Keys <= Run(start, nextId, ranks, steps).bindings.Keys
  {
    if steps != [] {
      var front, last := steps[..|steps| - 1], steps[|steps| - 1];
      var m := Run(start, nextId, ranks, front);
      RunsKeepBindingsDerived(start, nextId, ranks, front);
      match last
      case Ensure(specs) => EnsureKeepsTree(m, ranks, specs);
      case Delete(path) => CascadeDeletesNoMore(m.assets, m.nextId, path);
      case Bind(topic) => StaleAfterBind(m, topic);
      case Rebind => SecondRebindMovesNothing(m);
    }
  }

  lemma {:induction false} SameAssetsWriteAlike(m: Model, m': Model, specs: seq<AssetSpec>)
    requires m.assets == m'.assets && m.nextId == m'.nextId
    ensures UpsertAll(m, specs) == UpsertAll(m', specs)
  {
    if specs != [] {
      SameAssetsWriteAlike(m, m', specs[..|specs| - 1]);
    }
  }

  lemma RunOneMore(start: Assets, nextId: nat, ranks: map<string, int>, steps: seq<Step>, step: Step)
    ensures Run(start, nextId, ranks, steps + [step]) == Next(Run(start, nextId, ranks, steps), ranks, step)
  {
    assert (steps + [step])[..|steps|] == steps;
  }

  /** After any run, a topic that is seen, then covered by a branch with a new leaf, is bound there once rebound. */
  lemma RunBindsNewBranch(
      start: Assets, nextId: nat, ranks: map<string, int>, steps: seq<Step>, specs: seq<AssetSpec>, topic: string)
    requires var m := Run(start, nextId, ranks, steps);
             && EnsureBranch(m, ranks, specs).1.None? && Covers(PathOf(specs), topic)
             && (PathOf(specs) in m.assets ==> m.assets[PathOf(specs)].isActive)
    ensures BoundAtOrBelow(
      Run(start, nextId, ranks, steps + [Bind(topic)] + [Ensure(specs)] + [Rebind]), PathOf(specs), topic)
  {
    RunOneMore(start, nextId, ranks, steps, Bind(topic));
    RunOneMore(start, nextId, ranks, steps + [Bind(topic)], Ensure(specs));
    RunOneMore(start, nextId, ranks, steps + [Bind(topic)] + [Ensure(specs)], Rebind);
    var m := BindTopic(Run(start, nextId, ranks, steps), topic);
    SameAssetsWriteAlike(Run(start, nextId, ranks, steps), m, specs);
    NewBranchBinds(m, ranks, specs, topic);
  }

  /** After a deletion and its rebind, no asset at or under the path is left, and no topic is bound to one that went. */
  lemma DeletionUnbinds(m: Model, path: string, topic: string)
    requires topic in m.bindings && Tree(m.assets, m.nextId)
    ensures var m' := RebindAll(DeleteAsset(m, path));
            && Under(m'.assets, path) == {}
            && topic in m'.bindings
            && (m'.bindings[topic].asset.Some? ==>
                  exists p :: p in m.assets && !Covers(path, p) && Covers(p, topic)
                      && m'.bindings[topic].asset == Some(m.assets[p].id))
  {
    var left := DeleteAsset(m, path);
    SecondRebindMovesNothing(left);
    var m' := RebindAll(left);
    assert m'.bindings[topic] == Resolve(m'.assets, topic) by { assert topic !in Stale(m'); }
    if m'.bindings[topic].asset.Some? {
      var p := Best(m'.assets, topic, true).value;
      BestIff(m'.assets, topic, true, p);
      assert p in m.assets && !Covers(path, p);
    }
  }

  lemma DerivedRow(m: Model, topic: string)
    requires Derived(m) && topic in m.bindings
    ensures m.bindings[topic] == Resolve(m.assets, topic)
  {
    assert topic !in Stale(m);
  }

  lemma BestOfFewer(assets: Assets, fewer: Assets, topic: string, p: string)
    requires IsBest(assets, topic, true, p) && p in fewer
    requires forall q :: q in fewer ==> q in assets && fewer[q] == assets[q]
    ensures Resolve(fewer, topic) == Resolve(assets, topic)
  {
    BestIff(assets, topic, true, p);
    BestIff(fewer, topic, true, p);
  }

  /** A topic that was bound to an asset which is left is bound as it was. */
  lemma DeletionKeepsOthers(m: Model, path: string, topic: string, p: string)
    requires topic in m.bindings && Derived(m) && IsBest(m.assets, topic, true, p) && !Covers(path, p)
    ensures RebindAll(DeleteAsset(m, path)).bindings[topic] == m.bindings[topic]
  {
    var left := DeleteAsset(m, path);
    SecondRebindMovesNothing(left);
    DerivedRow(m, topic);
    DerivedRow(RebindAll(left), topic);
    assert left.assets == m.assets - Under(m.assets, path) && RebindAll(left).assets == left.assets;
    BestOfFewer(m.assets, left.assets, topic, p);
  }

  predicate PlainStep(step: Step) {
    step.Ensure? ==> forall spec :: spec in step.specs ==> SEPARATOR !in spec.segment
  }

  /** Runs whose branches have no separators in their segments keep the tree canonical. */
  lemma {:induction false} RunsStayCanonical(
      start: Assets, nextId: nat, ranks: map<string, int>, steps: seq<Step>)
    requires Tree(start, nextId) && Canonical(start) && forall step :: step in steps ==> PlainStep(step)
    ensures Canonical(Run(start, nextId, ranks, steps).assets)
  {
    if steps != [] {
      var front, last := steps[..|steps| - 1], steps[|steps| - 1];
      var m := Run(start, nextId, ranks, front);
      RunsStayCanonical(start, nextId, ranks, front);
      RunsKeepBindingsDerived(start, nextId, ranks, front);
      match last
      case Ensure(specs) =>
        assert PlainStep(last);
        BranchAcceptedIff(m, ranks, specs);
      case Delete(path) => DeletionKeepsCanonical(m.assets, path);
      case _ =>
    }
  }

  // --------------------------------------------------------------------- repository

  lemma {:induction false} FailureStays(m: Model, specs: seq<AssetSpec>, i: nat)
    requires i <= |specs| && UpsertAll(m, specs[..i]).Err?
    ensures UpsertAll(m, specs) == UpsertAll(m, specs[..i])
  {
    if i == |specs| {
      assert specs[..i] == specs;
    } else {
      assert specs[..|specs| - 1][..i] == specs[..i];
      FailureStays(m, specs[..|specs| - 1], i);
    }
  }

  /** What every known topic resolves to. */
  function Targets(m: Model): map<string, Binding> {
    map topic | topic in m.bindings :: Resolve(m.assets, topic)
  }

  /** The rows that differ from their targets, among some topics. */
  function Moved(rows: map<string, Binding>, targets: map<string, Binding>, done: set<string>): set<string> {
    set topic | topic in done && topic in rows && topic in targets && rows[topic] != targets[topic]
  }

  /** The rows once those have been set to their targets. */
  function Rebound(rows: map<string, Binding>, targets: map<string, Binding>, done: set<string>): map<string, Binding> {
    rows + map topic | topic in Moved(rows, targets, done) :: targets[topic]
  }

  lemma ReboundOneMore(rows: map<string, Binding>, targets: map<string, Binding>, done: set<string>, topic: string)
    requires topic in rows && topic in targets && topic !in done
    ensures var before := Rebound(rows, targets, done);
            && topic in before && before[topic] == rows[topic]
            && Rebound(rows, targets, done + {topic}) == before[topic := targets[topic]]
    ensures |Moved(rows, targets, done + {topic})|
            == |Moved(rows, targets, done)| + if rows[topic] != targets[topic] then 1 else 0
  {
    var before, after := Moved(rows, targets, done), Moved(rows, targets, done + {topic});
    assert after == if rows[topic] != targets[topic] then before + {topic} else before;
  }

  /** Rows set to their targets one after the other, with how many of them that changed. */
  function Swept(
      rows: map<string, Binding>, targets: map<string, Binding>, order: seq<string>): (map<string, Binding>, nat)
    requires forall topic :: topic in order ==> topic in targets
  {
    if order == [] then (rows, 0)
    else
      var topic, (before, moved) := order[|order| - 1], Swept(rows, targets, order[..|order| - 1]);
      (before[topic := targets[topic]], moved + if topic in before && before[topic] == targets[topic] then 0 else 1)
  }

  ghost predicate Lists(order: seq<string>, topics: set<string>) {
    && (forall topic :: topic in order <==> topic in topics)
    && forall i, j :: 0 <= i < j < |order| ==> order[i] != order[j]
  }

  lemma ListsFront(order: seq<string>, topics: set<string>)
    requires order != [] && Lists(order, topics)
    ensures Lists(order[..|order| - 1], topics - {order[|order| - 1]})
    ensures order[|order| - 1] in topics
  {
    assert order == order[..|order| - 1] + [order[|order| - 1]];
  }

  /** In whatever order the topics come, the sweep gives each its target and counts those that moved. */
  lemma {:induction false} SweptIsRebound(
      rows: map<string, Binding>, targets: map<string, Binding>, order: seq<string>, topics: set<string>)
    requires Lists(order, topics) && topics <= rows.Keys && topics <= targets.Keys
    ensures Swept(rows, targets, order) == (Rebound(rows, targets, topics), |Moved(rows, targets, topics)|)
  {
    if order != [] {
      var topic := order[|order| - 1];
      ListsFront(order, topics);
      SweptIsRebound(rows, targets, order[..|order| - 1], topics - {topic});
      ReboundOneMore(rows, targets, topics - {topic}, topic);
      assert topics - {topic} + {topic} == topics;
    } else {
      assert Moved(rows, targets, topics) == {};
      assert Rebound(rows, targets, topics) == rows;
    }
  }

  method ListTopics(topics: set<string>) returns (order: seq<string>)
    ensures Lists(order, topics)
  {
    var todo := topics;
    order := [];
    while todo != {}
      invariant todo <= topics && Lists(order, topics - todo)
      decreases todo
    {
      var topic :| topic in todo;
      order, todo := order + [topic], todo - {topic};
    }
  }

  lemma ReboundWhole(m: Model)
    ensures Moved(m.bindings, Targets(m), m.bindings.Keys) == Stale(m)
    ensures Rebound(m.bindings, Targets(m), m.bindings.Keys) == RebindAll(m).bindings
  {
  }

  class AssetModelRepository {
    const ranks: map<string, int>
    var assets: Assets
    var nextId: nat
    var bindings: map<string, Binding>

    function View(): Model
      reads this
    {
      Model(assets, nextId, bindings)
    }

    constructor (ranks: map<string, int>)
      ensures View() == Model(map[], 0, map[]) && this.ranks == ranks
    {
      this.ranks := ranks;
      assets, nextId, bindings := map[], 0, map[];
    }

    method ValidateLevels(specs: seq<AssetSpec>) returns (error: Option<BranchError>)
      ensures error == CheckLevels(ranks, specs)
    {
      if specs == [] {
        return Some(EmptyBranch);
      }
      for i := 0 to |specs|
        invariant forall k :: 0 <= k < i ==> specs[k].level in ranks
      {
        if specs[i].level !in ranks {
          return Some(UnknownLevel);
        }
      }
      for i := 1 to |specs|
        invariant forall k :: 0 < k < i ==> ranks[specs[k].level] > ranks[specs[k - 1].level]
      {
        if ranks[specs[i].level] <= ranks[specs[i - 1].level] {
          return Some(InvertedLevels);
        }
      }
      error := None;
    }

    /** One transaction: the levels of the branch from the root down, each below the one before. */
    method WriteBranch(specs: seq<AssetSpec>) returns (error: Option<BranchError>)
      modifies this
      ensures (View(), error) == EnsureBranch(old(View()), ranks, specs)
    {
      error := ValidateLevels(specs);
      if error.Some? {
        return;
      }
      var branch := Branch(assets, nextId, None);
      var segments: seq<string> := [];
      for i := 0 to |specs|
        invariant View() == old(View())
        invariant segments == Segments(specs[..i])
        invariant UpsertAll(View(), specs[..i]) == Ok(branch)
      {
        segments := segments + [specs[i].segment];
        assert segments == Segments(specs[..i + 1]);
        UpsertOneMore(View(), specs, i);
        var written := Upsert(branch, Join(segments, SEPARATOR), specs[i]);
        if written.Err? {
          FailureStays(View(), specs, i + 1);
          return Some(written.error);
        }
        branch := written.value;
      }
      assert specs[..|specs|] == specs;
      assets, nextId := branch.assets, branch.nextId;
    }

    method RebindRow(topic: string, ghost target: Binding) returns (written: bool)
      requires topic in bindings && target == Resolve(assets, topic)
      modifies `bindings
      ensures bindings == old(bindings)[topic := target] && written == (old(bindings)[topic] != target)
    {
      var resolved := Resolve(assets, topic);
      written := bindings[topic] != resolved;
      if written {
        bindings := bindings[topic := resolved];
      }
    }

    method Sweep(order: seq<string>, ghost targets: map<string, Binding>) returns (moved: nat)
      requires forall topic :: topic in order ==>
               topic in bindings && topic in targets && targets[topic] == Resolve(assets, topic)
      modifies `bindings
      ensures (bindings, moved) == Swept(old(bindings), targets, order)
    {
      moved := 0;
      for i := 0 to |order|
        invariant (bindings, moved) == Swept(old(bindings), targets, order[..i])
        invariant forall topic :: topic in order ==> topic in bindings
      {
        assert order[..i + 1][..i] == order[..i];
        var written := RebindRow(order[i], targets[order[i]]);
        moved := if written then moved + 1 else moved;
      }
      assert order[..|order|] == order;
    }

    /** Row by row: only those that moved are written and counted, and none is stale afterwards. */
    method Rebind() returns (moved: nat)
      modifies `bindings
      ensures View() == RebindAll(old(View()))
      ensures Derived(View()) && bindings.Keys == old(bindings).Keys
      ensures moved == |Stale(old(View()))| && (moved == 0 <==> Derived(old(View())))
      ensures forall topic :: topic in bindings && topic !in Stale(old(View())) ==>
              bindings[topic] == old(bindings)[topic]
    {
      ghost var m := View();
      var order := ListTopics(bindings.Keys);
      ReboundWhole(m);
      SweptIsRebound(bindings, Targets(m), order, bindings.Keys);
      SecondRebindMovesNothing(m);
      moved := Sweep(order, Targets(m));
    }

    method EnsureBranchAndRebind(specs: seq<AssetSpec>) returns (error: Option<BranchError>)
      requires Tree(assets, nextId)
      modifies this
      ensures error == EnsureBranch(old(View()), ranks, specs).1
      ensures View() == if error.None? then RebindAll(EnsureBranch(old(View()), ranks, specs).0) else old(View())
      ensures Tree(assets, nextId) && (error.None? ==> Derived(View()) && PathOf(specs) in assets)
      ensures error.None? && PathOf(specs) !in old(assets) ==>
                forall topic :: topic in old(bindings) && Covers(PathOf(specs), topic) ==>
                                  BoundAtOrBelow(View(), PathOf(specs), topic)
    {
      EnsureKeepsTree(View(), ranks, specs);
      ghost var m := View();
      forall topic
        | topic in bindings && Covers(PathOf(specs), topic) && EnsureBranch(m, ranks, specs).1.None?
          && PathOf(specs) !in assets
        ensures BoundAtOrBelow(RebindAll(EnsureBranch(m, ranks, specs).0), PathOf(specs), topic)
      {
        NewBranchBinds(m, ranks, specs, topic);
      }
      error := WriteBranch(specs);
      if error.None? {
        SecondRebindMovesNothing(View());
        var _ := Rebind();
      }
    }

    method DeleteAndRebind(path: string) returns (removed: nat)
      requires Tree(assets, nextId)
      modifies this
      ensures removed == |Under(old(assets), path)|
      ensures View() == RebindAll(DeleteAsset(old(View()), path))
      ensures Tree(assets, nextId) && Derived(View()) && Under(assets, path) == {}
    {
      CascadeDeletesNoMore(assets, nextId, path);
      SecondRebindMovesNothing(DeleteAsset(View(), path));
      var under := Under(assets, path);
      removed := |under|;
      var without := DeleteAsset(View(), path);
      assets, bindings := without.assets, without.bindings;
      var _ := Rebind();
    }

    /** The topic's row is right afterwards, whether it was known or not, and no other row is written. */
    method Bind(topic: string) returns (binding: Binding)
      modifies `bindings
      ensures View() == BindTopic(old(View()), topic)
      ensures topic in bindings && bindings[topic] == binding && Stale(View()) == Stale(old(View())) - {topic}
      ensures bindings - {topic} == old(bindings) - {topic}
      ensures binding.asset.None? <==> forall path :: !IsBest(assets, topic, true, path)
      ensures forall path :: IsBest(assets, topic, true, path) ==>
                               && binding.asset == Some(assets[path].id)
                               && (topic == path || topic == path + [SEPARATOR] + binding.metricPath)
    {
      binding := Resolve(assets, topic);
      bindings := bindings[topic := binding];
      StaleAfterBind(old(View()), topic);
      ResolveDecomposes(assets, topic);
      forall path ensures Best(assets, topic, true) == Some(path) <==> IsBest(assets, topic, true, path) {
        BestIff(assets, topic, true, path);
      }
      assert Best(assets, topic, true).Some? ==> IsBest(assets, topic, true, Best(assets, topic, true).value);
    }
  }
}
