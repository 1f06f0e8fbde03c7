/** Topics, asset paths, and the longest-prefix match that binds one to the other. */
module TopicPaths {
  import opened Wrappers
  import opened Splitting

  const SEPARATOR := '/'

  /** A thing of the plant model. Assets are unique by path, the topic prefix they publish under. */
  datatype Asset = Asset(id: nat, parent: Option<nat>, segment: string, path: string, level: string, isActive: bool)

  /** Assets by path. */
  type Assets = map<string, Asset>

  ghost predicate PathsKey(assets: Assets) {
    forall path :: path in assets ==> assets[path].path == path && path != ""
  }

  /** `path = topic OR starts_with(topic, path || '/')` */
  predicate Covers(path: string, topic: string) {
    path == topic || path + [SEPARATOR] <= topic
  }

  lemma CoversIff(path: string, topic: string)
    ensures Covers(path, topic)
            <==> |path| <= |topic| && topic[..|path|] == path && (|path| == |topic| || topic[|path|] == SEPARATOR)
  {
  }

  // ------------------------------------------------------------- ancestors of a topic

  function SplitTopic(topic: string): seq<string> {
    if topic == "" then [] else Split(topic, SEPARATOR)
  }

  /** The prefixes of `depth` segments and fewer, deepest first. */
  function Prefixes(segments: seq<string>, depth: nat): seq<string>
    requires depth <= |segments|
  {
    if depth == 0 then [] else [Join(segments[..depth], SEPARATOR)] + Prefixes(segments, depth - 1)
  }

  function AncestorPaths(topic: string): seq<string> {
    Prefixes(SplitTopic(topic), |SplitTopic(topic)|)
  }

  lemma {:induction false} PrefixesMembers(segments: seq<string>, depth: nat, path: string)
    requires depth <= |segments|
    ensures path in Prefixes(segments, depth) <==> exists d :: 0 < d <= depth && path == Join(segments[..d], SEPARATOR)
  {
    if depth > 0 { PrefixesMembers(segments, depth - 1, path); }
  }

  lemma {:induction false} JoinConcat(left: seq<string>, right: seq<string>)
    requires left != [] && right != []
    ensures Join(left + right, SEPARATOR) == Join(left, SEPARATOR) + [SEPARATOR] + Join(right, SEPARATOR)
  {
    if |left| > 1 {
      JoinConcat(left[1..], right);
      assert (left + right)[1..] == left[1..] + right;
    } else {
      assert (left + right)[1..] == right;
    }
  }

  lemma PrefixCovers(topic: string, d: nat)
    requires topic != "" && 0 < d <= |SplitTopic(topic)|
    ensures Covers(Join(SplitTopic(topic)[..d], SEPARATOR), topic)
  {
    var segments := SplitTopic(topic);
    JoinOfSplit(topic, SEPARATOR);
    if d == |segments| {
      assert segments[..d] == segments;
    } else {
      JoinConcat(segments[..d], segments[d..]);
      assert segments[..d] + segments[d..] == segments;
    }
  }

  lemma SplitAtSeparator(left: string, right: string)
    ensures Split(left + [SEPARATOR] + right, SEPARATOR) == Split(left, SEPARATOR) + Split(right, SEPARATOR)
  {
    var parts, more := Split(left, SEPARATOR), Split(right, SEPARATOR);
    JoinOfSplit(left, SEPARATOR);
    JoinOfSplit(right, SEPARATOR);
    SplitIsSeparatorFree(left, SEPARATOR);
    SplitIsSeparatorFree(right, SEPARATOR);
    JoinConcat(parts, more);
    SplitOfJoin(parts + more, SEPARATOR);
  }

  lemma CoveringIsPrefix(path: string, topic: string) returns (d: nat)
    requires topic != "" && Covers(path, topic)
    ensures 0 < d <= |SplitTopic(topic)| && path == Join(SplitTopic(topic)[..d], SEPARATOR)
  {
    JoinOfSplit(path, SEPARATOR);
    d := |Split(path, SEPARATOR)|;
    if path == topic {
      assert SplitTopic(topic)[..d] == SplitTopic(topic);
    } else {
      var rest := topic[|path| + 1..];
      assert topic == path + [SEPARATOR] + rest;
      SplitAtSeparator(path, rest);
      assert SplitTopic(topic)[..d] == Split(path, SEPARATOR);
    }
  }

  /** The ancestor paths computed from the segments are exactly the paths that cover the topic. */
  lemma AncestorsAreCovering(path: string, topic: string)
    ensures path in AncestorPaths(topic) <==> topic != "" && Covers(path, topic)
  {
    if topic == "" {
      return;
    }
    var segments := SplitTopic(topic);
    PrefixesMembers(segments, |segments|, path);
    if d :| 0 < d <= |segments| && path == Join(segments[..d], SEPARATOR) {
      PrefixCovers(topic, d);
    }
    if Covers(path, topic) {
      var d := CoveringIsPrefix(path, topic);
    }
  }

  // ------------------------------------------------------------------ the best asset

  /** Candidate for `ORDER BY length(path) DESC LIMIT 1` among the rows for which `eligible` holds. */
  ghost predicate IsBest(assets: Assets, topic: string, active: bool, path: string) {
    && path in assets && Covers(path, topic) && (active ==> assets[path].isActive)
    && forall other :: other in assets && Covers(other, topic) && (active ==> assets[other].isActive) ==>
        |other| <= |path|
  }

  predicate Eligible(assets: Assets, topic: string, active: bool, n: nat)
    requires n <= |topic|
  {
    && (n == |topic| || topic[n] == SEPARATOR)
    && topic[..n] in assets && (active ==> assets[topic[..n]].isActive)
  }

  /** The longest eligible prefix of at most `n` characters. */
  function BestUpTo(assets: Assets, topic: string, active: bool, n: nat): (best: Option<string>)
    requires n <= |topic|
    ensures best.Some? ==> best.value in assets && |best.value| <= n && topic[..|best.value|] == best.value
  {
    if Eligible(assets, topic, active, n) then Some(topic[..n])
    else if n == 0 then None
    else BestUpTo(assets, topic, active, n - 1)
  }

  lemma {:induction false} BestUpToIff(assets: Assets, topic: string, active: bool, n: nat)
    requires n <= |topic|
    ensures match BestUpTo(assets, topic, active, n)
            case Some(path) => |path| <= n && Eligible(assets, topic, active, |path|) && path == topic[..|path|]
                               && forall k :: |path| < k <= n ==> !Eligible(assets, topic, active, k)
            case None => forall k :: 0 <= k <= n ==> !Eligible(assets, topic, active, k)
  {
    if n > 0 { BestUpToIff(assets, topic, active, n - 1); }
  }

  function Best(assets: Assets, topic: string, active: bool): Option<string> {
    BestUpTo(assets, topic, active, |topic|)
  }

  lemma EligibleIff(assets: Assets, topic: string, active: bool, path: string)
    ensures path in assets && Covers(path, topic) && (active ==> assets[path].isActive)
            <==> |path| <= |topic| && path == topic[..|path|] && Eligible(assets, topic, active, |path|)
  {
    CoversIff(path, topic);
  }

  /** The query has at most one possible answer, and this is it. */
  lemma BestIff(assets: Assets, topic: string, active: bool, path: string)
    ensures Best(assets, topic, active) == Some(path) <==> IsBest(assets, topic, active, path)
  {
    BestUpToIff(assets, topic, active, |topic|);
    forall other ensures other in assets && Covers(other, topic) && (active ==> assets[other].isActive)
                         <==> (&& |other| <= |topic| && other == topic[..|other|]
                               && Eligible(assets, topic, active, |other|)) {
      EligibleIff(assets, topic, active, other);
    }
    if IsBest(assets, topic, active, path) {
      var best := Best(assets, topic, active).value;
      assert best in assets && Covers(best, topic);
      assert |best| == |path|;
    }
  }

  // -------------------------------------------------------------------- the binding

  datatype Binding = Binding(asset: Option<nat>, metricPath: string)

  /** What the SQL binder stores: the deepest active asset and what follows it and one separator. */
  function Resolve(assets: Assets, topic: string): Binding {
    match Best(assets, topic, true)
    case None => Binding(None, "")
    case Some(path) => Binding(Some(assets[path].id), if path == topic then "" else topic[|path| + 1..])
  }

  /** The asset's path and the metric path make up the topic again. */
  lemma ResolveDecomposes(assets: Assets, topic: string)
    ensures match Best(assets, topic, true)
            case None => Resolve(assets, topic) == Binding(None, "")
            case Some(path) =>
              var metricPath := Resolve(assets, topic).metricPath;
              (topic == path && metricPath == "") || topic == path + [SEPARATOR] + metricPath
  {
    BestUpToIff(assets, topic, true, |topic|);
    if Best(assets, topic, true).Some? {
      EligibleIff(assets, topic, true, Best(assets, topic, true).value);
    }
  }

  function StripLeft(s: string): string {
    if s != "" && s[0] == SEPARATOR then StripLeft(s[1..]) else s
  }

  /** What the loader computes: the deepest asset, active or not, and what is left without leading separators. */
  function Load(assets: Assets, topic: string): Binding {
    match Best(assets, topic, false)
    case None => Binding(None, "")
    case Some(path) => Binding(Some(assets[path].id), StripLeft(topic[|path|..]))
  }

  lemma {:induction false} StripAt(s: string, k: nat)
    requires k <= |s| && (forall i :: 0 <= i < k ==> s[i] == SEPARATOR) && (k == |s| || s[k] != SEPARATOR)
    ensures StripLeft(s) == s[k..]
  {
    if k > 0 {
      StripAt(s[1..], k - 1);
      assert s[1..][k - 1..] == s[k..];
    }
  }

  lemma StripMeans(s: string) returns (k: nat)
    ensures k <= |s| && StripLeft(s) == s[k..] && (k == |s| || s[k] != SEPARATOR)
    ensures forall i :: 0 <= i < k ==> s[i] == SEPARATOR
  {
    k := 0;
    while k < |s| && s[k] == SEPARATOR
      invariant k <= |s| && forall i :: 0 <= i < k ==> s[i] == SEPARATOR
    {
      k := k + 1;
    }
    StripAt(s, k);
  }

  /** What the loader finds: the deepest asset that covers the topic, and what follows it and any separators. */
  lemma LoadMeans(assets: Assets, topic: string, path: string)
    requires IsBest(assets, topic, false, path)
    ensures Load(assets, topic).asset == Some(assets[path].id)
    ensures var metricPath := Load(assets, topic).metricPath;
            && (metricPath == "" || metricPath[0] != SEPARATOR)
            && |path| + |metricPath| <= |topic| && topic[|topic| - |metricPath|..] == metricPath
            && forall i :: |path| <= i < |topic| - |metricPath| ==> topic[i] == SEPARATOR
  {
    BestIff(assets, topic, false, path);
    CoversIff(path, topic);
    var rest := topic[|path|..];
    var k := StripMeans(rest);
    assert rest[k..] == topic[|path| + k..];
    forall i | |path| <= i < |path| + k ensures topic[i] == SEPARATOR {
      assert rest[i - |path|] == SEPARATOR;
    }
  }

  /** First of the candidates, deepest first, that is an asset path. */
  function FirstKnown(candidates: seq<string>, assets: Assets): Option<string> {
    if candidates == [] then None
    else if candidates[0] in assets then Some(candidates[0])
    else FirstKnown(candidates[1..], assets)
  }

  lemma {:induction false} FirstKnownIff(candidates: seq<string>, assets: Assets)
    ensures match FirstKnown(candidates, assets)
            case None => forall i :: 0 <= i < |candidates| ==> candidates[i] !in assets
            case Some(path) => exists i :: 0 <= i < |candidates| && candidates[i] == path && path in assets
                                           && forall j :: 0 <= j < i ==> candidates[j] !in assets
  {
    if candidates != [] {
      FirstKnownIff(candidates[1..], assets);
      if candidates[0] !in assets && FirstKnown(candidates[1..], assets).Some? {
        var path := FirstKnown(candidates, assets).value;
        var i :|
          && 0 <= i < |candidates| - 1 && candidates[1..][i] == path
          && forall j :: 0 <= j < i ==> candidates[1..][j] !in assets;
        assert candidates[i + 1] == path;
        forall j | 0 <= j < i + 1 ensures candidates[j] !in assets {
          if j > 0 { assert candidates[1..][j - 1] !in assets; }
        }
      }
    }
  }

  lemma {:induction false} PrefixesLength(segments: seq<string>, depth: nat)
    requires depth <= |segments|
    ensures |Prefixes(segments, depth)| == depth
  {
    if depth > 0 { PrefixesLength(segments, depth - 1); }
  }

  lemma {:induction false} PrefixesShrink(segments: seq<string>, depth: nat, i: nat, j: nat)
    requires depth <= |segments| && i <= j < |Prefixes(segments, depth)|
    ensures |Prefixes(segments, depth)| == depth
    ensures |Prefixes(segments, depth)[j]| <= |Prefixes(segments, depth)[i]|
  {
    PrefixesLength(segments, depth);
    if j > 0 {
      if i > 0 {
        PrefixesShrink(segments, depth - 1, i - 1, j - 1);
      } else {
        PrefixesLength(segments, depth - 1);
        PrefixesShrink(segments, depth - 1, 0, j - 1);
        assert segments[..depth] == segments[..depth - 1] + [segments[depth - 1]];
        JoinConcat(segments[..depth - 1], [segments[depth - 1]]);
      }
    }
  }

  /** Walking the ancestor paths deepest first finds the asset the query finds. */
  lemma WalkFindsBest(assets: Assets, topic: string)
    requires topic != ""
    ensures FirstKnown(AncestorPaths(topic), assets) == Best(assets, topic, false)
  {
    var candidates := AncestorPaths(topic);
    FirstKnownIff(candidates, assets);
    var found := FirstKnown(candidates, assets);
    if found.Some? {
      var path := found.value;
      var i :|
        && 0 <= i < |candidates| && candidates[i] == path && path in assets
        && forall j :: 0 <= j < i ==> candidates[j] !in assets;
      AncestorsAreCovering(path, topic);
      forall other | other in assets && Covers(other, topic) ensures |other| <= |path| {
        AncestorsAreCovering(other, topic);
        var j :| 0 <= j < |candidates| && candidates[j] == other;
        PrefixesShrink(SplitTopic(topic), |SplitTopic(topic)|, i, j);
      }
      BestIff(assets, topic, false, path);
    } else if Best(assets, topic, false).Some? {
      var path := Best(assets, topic, false).value;
      BestIff(assets, topic, false, path);
      AncestorsAreCovering(path, topic);
    }
  }

  /** The deepest asset is active, and the topic goes on after it with a segment that is not empty. */
  predicate Plain(assets: Assets, topic: string) {
    match Best(assets, topic, false)
    case None => true
    case Some(path) =>
      && path in assets && assets[path].isActive
      && (|topic| <= |path| + 1 || topic[|path| + 1] != SEPARATOR)
  }

  ghost predicate UniqueIds(assets: Assets) {
    forall a, b :: a in assets && b in assets && assets[a].id == assets[b].id ==> a == b
  }

  lemma {:induction false} StripIff(s: string)
    ensures |StripLeft(s)| <= |s|
    ensures StripLeft(s) == s <==> s == "" || s[0] != SEPARATOR
  {
    if s != "" && s[0] == SEPARATOR { StripIff(s[1..]); }
  }

  /**
   * Loader and binder agree on a topic exactly when its deepest asset is active and no empty segment follows it.
   */
  lemma LoadAgreesIff(assets: Assets, topic: string)
    requires UniqueIds(assets)
    ensures Load(assets, topic) == Resolve(assets, topic) <==> Plain(assets, topic)
  {
    var deepest, active := Best(assets, topic, false), Best(assets, topic, true);
    if active.Some? {
      BestIff(assets, topic, true, active.value);
    }
    if deepest.Some? {
      var path := deepest.value;
      BestIff(assets, topic, false, path);
      CoversIff(path, topic);
      BestIff(assets, topic, true, path);
      if path != topic {
        assert topic[|path|..][1..] == topic[|path| + 1..];
        StripIff(topic[|path| + 1..]);
      }
    } else if active.Some? {
      BestUpToIff(assets, topic, false, |topic|);
      EligibleIff(assets, topic, false, active.value);
    }
  }

  /** In particular when all assets are active and the topic has no empty segment. */
  lemma LoadAgreesOnPlainTopics(assets: Assets, topic: string)
    requires UniqueIds(assets) && (forall path :: path in assets ==> assets[path].isActive)
    requires topic != "" && forall i :: 0 <= i < |topic| - 1 ==> !(topic[i] == SEPARATOR && topic[i + 1] == SEPARATOR)
    ensures Load(assets, topic) == Resolve(assets, topic)
  {
    var deepest := Best(assets, topic, false);
    if deepest.Some? {
      BestIff(assets, topic, false, deepest.value);
      CoversIff(deepest.value, topic);
    }
    LoadAgreesIff(assets, topic);
  }

  /** An inactive asset: the loader finds it, the binder does not. */
  lemma InactiveAssetDiffers()
    ensures var assets := map["a" := Asset(0, None, "a", "a", "SITE", false)];
            Load(assets, "a") == Binding(Some(0), "") && Resolve(assets, "a") == Binding(None, "")
  {
    var assets := map["a" := Asset(0, None, "a", "a", "SITE", false)];
    BestIff(assets, "a", false, "a");
    BestUpToIff(assets, "a", true, 1);
    assert "a"[..1] == "a" && "a"[1..] == "" && "a"[..0] == "";
  }

  /** An empty segment after the asset: the loader drops it, the binder keeps it. */
  lemma EmptySegmentDiffers()
    ensures var assets := map["a" := Asset(0, None, "a", "a", "SITE", true)];
            Load(assets, "a//b") == Binding(Some(0), "b") && Resolve(assets, "a//b") == Binding(Some(0), "/b")
  {
    var assets, topic := map["a" := Asset(0, None, "a", "a", "SITE", true)], "a//b";
    CoversIff("a", topic);
    BestIff(assets, topic, false, "a");
    BestIff(assets, topic, true, "a");
    assert topic[2..] == "/b" && topic[1..] == "//b" && "//b"[1..] == "/b" && "/b"[1..] == "b";
    assert StripLeft("b") == "b" && StripLeft("/b") == "b";
  }
}
