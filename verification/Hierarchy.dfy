/** The ISA-95 hierarchy: its validation, the paths of its nodes, its nested mapping, and batches of renames. */
module Hierarchy {
  import opened Wrappers
  import opened Splitting
  import opened TopicPaths

  datatype Cell = Cell(name: string, machines: seq<string>)
  datatype Line = Line(name: string, cells: seq<Cell>)
  datatype Area = Area(name: string, kind: string, lines: seq<Line>)
  datatype Site = Site(name: string, areas: seq<Area>)
  datatype HierarchyTree = HierarchyTree(enterprise: string, sites: seq<Site>)

  // ----------------------------------------------------------------------- the nodes

  /** A node of any level. */
  datatype Node = Node(name: string, children: seq<Node>)

  function CellNode(c: Cell): Node {
    Node(c.name, seq(|c.machines|, i requires 0 <= i < |c.machines| => Node(c.machines[i], [])))
  }

  function LineNode(l: Line): Node {
    Node(l.name, seq(|l.cells|, i requires 0 <= i < |l.cells| => CellNode(l.cells[i])))
  }

  function AreaNode(a: Area): Node {
    Node(a.name, seq(|a.lines|, i requires 0 <= i < |a.lines| => LineNode(a.lines[i])))
  }

  function SiteNode(s: Site): Node {
    Node(s.name, seq(|s.areas|, i requires 0 <= i < |s.areas| => AreaNode(s.areas[i])))
  }

  function TreeNode(t: HierarchyTree): Node {
    Node(t.enterprise, seq(|t.sites|, i requires 0 <= i < |t.sites| => SiteNode(t.sites[i])))
  }

  function NodeCount(n: Node): nat {
    1 + ForestCount(n.children)
  }

  function ForestCount(nodes: seq<Node>): nat {
    if nodes == [] then 0 else NodeCount(nodes[0]) + ForestCount(nodes[1..])
  }

  /** The names from the root to each node, parents before children. */
  function NodePaths(n: Node, above: seq<string>): seq<seq<string>> {
    [above + [n.name]] + ForestPaths(n.children, above + [n.name])
  }

  function ForestPaths(nodes: seq<Node>, above: seq<string>): seq<seq<string>> {
    if nodes == [] then [] else NodePaths(nodes[0], above) + ForestPaths(nodes[1..], above)
  }

  function NonEmpty(segments: seq<string>): seq<string> {
    if segments == [] then [] else (if segments[0] == "" then [] else [segments[0]]) + NonEmpty(segments[1..])
  }

  /** The separator between the segments that are not empty. */
  function JoinSegments(segments: seq<string>): string {
    Join(NonEmpty(segments), SEPARATOR)
  }

  function Joined(paths: seq<seq<string>>): set<string> {
    set path | path in paths :: JoinSegments(path)
  }

  function AllPrefixes(t: HierarchyTree): set<string> {
    Joined(NodePaths(TreeNode(t), []))
  }

  // --------------------------------------------------------------------- validation

  datatype TreeError = EmptyEnterprise | IllegalSegment(name: string) | Duplicate(name: string)
      | EmptyKind(area: string)

  predicate ValidSegment(name: string) {
    name != "" && SEPARATOR !in name
  }

  ghost predicate UniqueNames(names: seq<string>) {
    && (forall i :: 0 <= i < |names| ==> ValidSegment(names[i]))
    && forall i, j :: 0 <= i < j < |names| ==> names[i] != names[j]
  }

  ghost predicate FirstBad(names: seq<string>, i: nat, error: TreeError) {
    && i < |names| && UniqueNames(names[..i])
    && error == (if ValidSegment(names[i]) then Duplicate(names[i]) else IllegalSegment(names[i]))
    && (ValidSegment(names[i]) ==> names[i] in names[..i])
  }

  /** The first name that is not legal or has come before. */
  method RequireUnique(names: seq<string>) returns (error: Option<TreeError>)
    ensures error.None? <==> UniqueNames(names)
    ensures error.Some? ==> exists i :: FirstBad(names, i, error.value)
  {
    var seen: set<string> := {};
    for i := 0 to |names|
      invariant forall name :: name in seen <==> name in names[..i]
      invariant UniqueNames(names[..i])
    {
      if !ValidSegment(names[i]) {
        assert names[i] == names[..i + 1][i];
        assert FirstBad(names, i, IllegalSegment(names[i]));
        return Some(IllegalSegment(names[i]));
      }
      if names[i] in seen {
        var k :| 0 <= k < i && names[k] == names[i];
        assert FirstBad(names, i, Duplicate(names[i]));
        return Some(Duplicate(names[i]));
      }
      assert names[..i + 1] == names[..i] + [names[i]];
      seen := seen + {names[i]};
    }
    assert names[..|names|] == names;
    error := None;
  }

  function Names(nodes: seq<Node>): (names: seq<string>)
    ensures |names| == |nodes|
  {
    seq(|nodes|, i requires 0 <= i < |nodes| => nodes[i].name)
  }

  /** Sibling names are legal segments and pairwise distinct, all the way down. */
  ghost predicate ValidNode(n: Node) {
    && ValidSegment(n.name) && UniqueNames(Names(n.children))
    && forall i :: 0 <= i < |n.children| ==> ValidNode(n.children[i])
  }

  ghost predicate KindsGiven(t: HierarchyTree) {
    forall i, j :: 0 <= i < |t.sites| && 0 <= j < |t.sites[i].areas| ==> t.sites[i].areas[j].kind != ""
  }

  ghost predicate ValidTree(t: HierarchyTree) {
    ValidNode(TreeNode(t)) && KindsGiven(t)
  }

  /** What the checks below a node find: the names of its children, then each child in turn. */
  ghost predicate ValidBelow(n: Node) {
    UniqueNames(Names(n.children)) && forall i :: 0 <= i < |n.children| ==> ValidBelow(n.children[i])
  }

  lemma {:induction false} ValidNodeIff(n: Node)
    ensures ValidNode(n) <==> ValidSegment(n.name) && ValidBelow(n)
  {
    forall i | 0 <= i < |n.children|
      ensures ValidNode(n.children[i]) <==> ValidSegment(n.children[i].name) && ValidBelow(n.children[i])
    {
      ValidNodeIff(n.children[i]);
    }
    if UniqueNames(Names(n.children)) {
      assert forall i :: 0 <= i < |n.children| ==> Names(n.children)[i] == n.children[i].name;
    }
  }

  method ValidateCells(cells: seq<Cell>) returns (error: Option<TreeError>)
    ensures error.None? <==> forall i :: 0 <= i < |cells| ==> ValidBelow(CellNode(cells[i]))
  {
    for i := 0 to |cells|
      invariant forall k :: 0 <= k < i ==> ValidBelow(CellNode(cells[k]))
    {
      error := RequireUnique(cells[i].machines);
      assert Names(CellNode(cells[i]).children) == cells[i].machines;
      if error.Some? {
        return;
      }
    }
    error := None;
  }

  method ValidateLines(lines: seq<Line>) returns (error: Option<TreeError>)
    ensures error.None? <==> forall i :: 0 <= i < |lines| ==> ValidBelow(LineNode(lines[i]))
  {
    for i := 0 to |lines|
      invariant forall k :: 0 <= k < i ==> ValidBelow(LineNode(lines[k]))
    {
      var cells := lines[i].cells;
      var names := seq(|cells|, k requires 0 <= k < |cells| => cells[k].name);
      error := RequireUnique(names);
      assert Names(LineNode(lines[i]).children) == names;
      if error.Some? {
        return;
      }
      error := ValidateCells(cells);
      if error.Some? {
        ghost var k :| 0 <= k < |cells| && !ValidBelow(CellNode(cells[k]));
        assert LineNode(lines[i]).children[k] == CellNode(cells[k]);
        return;
      }
    }
    error := None;
  }

  method ValidateAreas(areas: seq<Area>) returns (error: Option<TreeError>)
    ensures error.None? <==> forall i :: 0 <= i < |areas| ==> areas[i].kind != "" && ValidBelow(AreaNode(areas[i]))
  {
    for i := 0 to |areas|
      invariant forall k :: 0 <= k < i ==> areas[k].kind != "" && ValidBelow(AreaNode(areas[k]))
    {
      if areas[i].kind == "" {
        return Some(EmptyKind(areas[i].name));
      }
      var lines := areas[i].lines;
      var names := seq(|lines|, k requires 0 <= k < |lines| => lines[k].name);
      error := RequireUnique(names);
      assert Names(AreaNode(areas[i]).children) == names;
      if error.Some? {
        return;
      }
      error := ValidateLines(lines);
      if error.Some? {
        ghost var k :| 0 <= k < |lines| && !ValidBelow(LineNode(lines[k]));
        assert AreaNode(areas[i]).children[k] == LineNode(lines[k]);
        return;
      }
    }
    error := None;
  }

  method ValidateSites(sites: seq<Site>) returns (error: Option<TreeError>)
    ensures error.None? <==> forall i :: 0 <= i < |sites| ==>
                               && ValidBelow(SiteNode(sites[i]))
                               && forall j :: 0 <= j < |sites[i].areas| ==> sites[i].areas[j].kind != ""
  {
    for i := 0 to |sites|
      invariant forall k :: 0 <= k < i ==>
                  && ValidBelow(SiteNode(sites[k]))
                  && forall j :: 0 <= j < |sites[k].areas| ==> sites[k].areas[j].kind != ""
    {
      var areas := sites[i].areas;
      var names := seq(|areas|, k requires 0 <= k < |areas| => areas[k].name);
      error := RequireUnique(names);
      assert Names(SiteNode(sites[i]).children) == names;
      if error.Some? {
        return;
      }
      error := ValidateAreas(areas);
      assert forall k :: 0 <= k < |areas| ==> SiteNode(sites[i]).children[k] == AreaNode(areas[k]);
      if error.Some? {
        ghost var k :| 0 <= k < |areas| && !(areas[k].kind != "" && ValidBelow(AreaNode(areas[k])));
        assert SiteNode(sites[i]).children[k] == AreaNode(areas[k]);
        return;
      }
    }
    error := None;
  }

  /** The tree is accepted exactly when it is valid at every level. */
  method ValidateTree(t: HierarchyTree) returns (error: Option<TreeError>)
    ensures error.None? <==> ValidTree(t)
  {
    ValidNodeIff(TreeNode(t));
    if t.enterprise == "" {
      return Some(EmptyEnterprise);
    }
    if !ValidSegment(t.enterprise) {
      return Some(IllegalSegment(t.enterprise));
    }
    var names := seq(|t.sites|, k requires 0 <= k < |t.sites| => t.sites[k].name);
    error := RequireUnique(names);
    assert Names(TreeNode(t).children) == names;
    if error.Some? {
      return;
    }
    error := ValidateSites(t.sites);
    assert forall k :: 0 <= k < |t.sites| ==> TreeNode(t).children[k] == SiteNode(t.sites[k]);
    if error.Some? {
      ghost var k :|
        && 0 <= k < |t.sites|
        && !(&& ValidBelow(SiteNode(t.sites[k]))
             && forall j :: 0 <= j < |t.sites[k].areas| ==> t.sites[k].areas[j].kind != "");
      assert TreeNode(t).children[k] == SiteNode(t.sites[k]);
    }
  }

  // --------------------------------------------------------- trees level by level

  /** The names of a list of siblings are legal and pairwise distinct. */
  ghost predicate LegalNames<T>(items: seq<T>, name: T -> string) {
    && (forall i :: 0 <= i < |items| ==> name(items[i]) != "" && SEPARATOR !in name(items[i]))
    && forall i, j :: 0 <= i < j < |items| ==> name(items[i]) != name(items[j])
  }

  ghost predicate LegalCell(c: Cell) {
    LegalNames(c.machines, (machine: string) => machine)
  }

  ghost predicate LegalLine(l: Line) {
    LegalNames(l.cells, (c: Cell) => c.name) && forall i :: 0 <= i < |l.cells| ==> LegalCell(l.cells[i])
  }

  ghost predicate LegalArea(a: Area) {
    LegalNames(a.lines, (l: Line) => l.name) && forall i :: 0 <= i < |a.lines| ==> LegalLine(a.lines[i])
  }

  ghost predicate LegalSite(s: Site) {
    && LegalNames(s.areas, (a: Area) => a.name)
    && forall i :: 0 <= i < |s.areas| ==> s.areas[i].kind != "" && LegalArea(s.areas[i])
  }

  lemma NamesAreLegal<T>(items: seq<T>, nodes: seq<Node>, name: T -> string)
    requires |nodes| == |items| && forall i :: 0 <= i < |items| ==> nodes[i].name == name(items[i])
    ensures UniqueNames(Names(nodes)) <==> LegalNames(items, name)
  {
    assert forall i :: 0 <= i < |items| ==> Names(nodes)[i] == name(items[i]);
  }

  lemma CellIsLegal(c: Cell)
    ensures ValidBelow(CellNode(c)) <==> LegalCell(c)
  {
    NamesAreLegal(c.machines, CellNode(c).children, (machine: string) => machine);
    assert forall i :: 0 <= i < |c.machines| ==> CellNode(c).children[i].children == [];
    forall i | 0 <= i < |c.machines| ensures ValidBelow(CellNode(c).children[i]) {
      assert Names(CellNode(c).children[i].children) == [];
    }
  }

  lemma LineIsLegal(l: Line)
    ensures ValidBelow(LineNode(l)) <==> LegalLine(l)
  {
    NamesAreLegal(l.cells, LineNode(l).children, (c: Cell) => c.name);
    forall i | 0 <= i < |l.cells| ensures ValidBelow(LineNode(l).children[i]) <==> LegalCell(l.cells[i]) {
      CellIsLegal(l.cells[i]);
    }
  }

  lemma AreaIsLegal(a: Area)
    ensures ValidBelow(AreaNode(a)) <==> LegalArea(a)
  {
    NamesAreLegal(a.lines, AreaNode(a).children, (l: Line) => l.name);
    forall i | 0 <= i < |a.lines| ensures ValidBelow(AreaNode(a).children[i]) <==> LegalLine(a.lines[i]) {
      LineIsLegal(a.lines[i]);
    }
  }

  lemma SiteIsLegal(s: Site)
    ensures ValidBelow(SiteNode(s)) && (forall i :: 0 <= i < |s.areas| ==> s.areas[i].kind != "") <==> LegalSite(s)
  {
    NamesAreLegal(s.areas, SiteNode(s).children, (a: Area) => a.name);
    forall i | 0 <= i < |s.areas| ensures ValidBelow(SiteNode(s).children[i]) <==> LegalArea(s.areas[i]) {
      AreaIsLegal(s.areas[i]);
    }
  }

  /** The accepted trees, level by level: legal, distinct names among siblings and a kind for each area. */
  lemma ValidTreeIff(t: HierarchyTree)
    ensures ValidTree(t)
            <==> && t.enterprise != "" && SEPARATOR !in t.enterprise
                 && LegalNames(t.sites, (s: Site) => s.name) && forall i :: 0 <= i < |t.sites| ==> LegalSite(t.sites[i])
  {
    ValidNodeIff(TreeNode(t));
    NamesAreLegal(t.sites, TreeNode(t).children, (s: Site) => s.name);
    forall i | 0 <= i < |t.sites|
      ensures && ValidBelow(TreeNode(t).children[i])
              && (forall j :: 0 <= j < |t.sites[i].areas| ==> t.sites[i].areas[j].kind != "")
              <==> LegalSite(t.sites[i])
    {
      SiteIsLegal(t.sites[i]);
    }
  }

  // Whether names, from one level down, lead to a node.

  ghost predicate LeadsThroughCells(cells: seq<Cell>, names: seq<string>) {
    names == [] || exists i :: && 0 <= i < |cells| && cells[i].name == names[0]
                               && (names[1..] == [] || (|names| == 2 && names[1] in cells[i].machines))
  }

  ghost predicate LeadsThroughLines(lines: seq<Line>, names: seq<string>) {
    names == [] || exists i :: && 0 <= i < |lines| && lines[i].name == names[0]
                               && LeadsThroughCells(lines[i].cells, names[1..])
  }

  ghost predicate LeadsThroughAreas(areas: seq<Area>, names: seq<string>) {
    names == [] || exists i :: && 0 <= i < |areas| && areas[i].name == names[0]
                               && LeadsThroughLines(areas[i].lines, names[1..])
  }

  ghost predicate LeadsThroughSites(sites: seq<Site>, names: seq<string>) {
    names == [] || exists i :: && 0 <= i < |sites| && sites[i].name == names[0]
                               && LeadsThroughAreas(sites[i].areas, names[1..])
  }

  /** The names, from the enterprise down, are those of a node and the nodes above it. */
  ghost predicate IsNode(t: HierarchyTree, names: seq<string>) {
    names != [] && names[0] == t.enterprise && LeadsThroughSites(t.sites, names[1..])
  }

  /** A path of a forest goes through one of its roots. */
  lemma {:induction false} ForestMembers(nodes: seq<Node>, above: seq<string>, path: seq<string>)
    ensures path in ForestPaths(nodes, above) <==> exists i :: 0 <= i < |nodes| && path in NodePaths(nodes[i], above)
  {
    if nodes != [] {
      ForestMembers(nodes[1..], above, path);
      if path in ForestPaths(nodes[1..], above) {
        var i :| 0 <= i < |nodes| - 1 && path in NodePaths(nodes[1..][i], above);
        assert path in NodePaths(nodes[i + 1], above);
      }
      if i :| 0 < i < |nodes| && path in NodePaths(nodes[i], above) {
        assert path in NodePaths(nodes[1..][i - 1], above);
      }
    }
  }

  lemma {:induction false} PathsStartAtForest(nodes: seq<Node>, above: seq<string>)
    ensures forall path :: path in ForestPaths(nodes, above) ==>
                             |path| > |above| && above <= path && path[|above|] in Names(nodes)
    decreases nodes, 1
  {
    if nodes != [] {
      PathsStartAtNode(nodes[0], above);
      PathsStartAtForest(nodes[1..], above);
      assert Names(nodes) == [nodes[0].name] + Names(nodes[1..]);
      forall path | path in ForestPaths(nodes, above)
        ensures |path| > |above| && above <= path && path[|above|] in Names(nodes)
      {
        if path in NodePaths(nodes[0], above) {
          assert path[..|above| + 1] == above + [nodes[0].name];
        }
      }
    }
  }

  /** The paths below a node, once its own is taken off. */
  lemma NodeMembers(n: Node, above: seq<string>, names: seq<string>)
    ensures above + names in NodePaths(n, above)
            <==> names != [] && names[0] == n.name
                 && (names[1..] == [] || exists i :: 0 <= i < |n.children|
                                            && above + names in NodePaths(n.children[i], above + [n.name]))
  {
    var path := above + names;
    ForestMembers(n.children, above + [n.name], path);
    if names != [] && names[0] == n.name {
      assert names == [n.name] + names[1..];
      assert path == above + [n.name] + names[1..];
      if names[1..] == [] {
        assert path == above + [n.name];
      }
    }
    if path == above + [n.name] {
      assert names == path[|above|..] == [n.name];
    } else if path in ForestPaths(n.children, above + [n.name]) {
      PathsStartAtForest(n.children, above + [n.name]);
      assert path[..|above| + 1] == above + [n.name] && path[|above|] == names[0];
      assert names[1..] != [];
    }
  }

  lemma NamesBelow(n: Node, above: seq<string>, names: seq<string>)
    requires names != [] && names[0] == n.name
    ensures above + names == (above + [n.name]) + names[1..]
  {
    assert names == [n.name] + names[1..];
  }

  lemma CellMembers(c: Cell, above: seq<string>, names: seq<string>)
    ensures above + names in NodePaths(CellNode(c), above)
            <==> names != [] && names[0] == c.name
                 && (names[1..] == [] || (|names| == 2 && names[1] in c.machines))
  {
    var n := CellNode(c);
    NodeMembers(n, above, names);
    if names != [] && names[0] == c.name {
      NamesBelow(n, above, names);
      forall i | 0 <= i < |c.machines|
        ensures above + names in NodePaths(n.children[i], above + [n.name]) <==> names[1..] == [c.machines[i]]
      {
        NodeMembers(n.children[i], above + [n.name], names[1..]);
        assert names[1..] != [] && names[1..][1..] == [] ==> names[1..] == [names[1]];
      }
      assert |names| == 2 ==> names[1..] == [names[1]];
    }
  }

  lemma LineMembers(l: Line, above: seq<string>, names: seq<string>)
    ensures above + names in NodePaths(LineNode(l), above)
            <==> names != [] && names[0] == l.name && LeadsThroughCells(l.cells, names[1..])
  {
    var n := LineNode(l);
    NodeMembers(n, above, names);
    if names != [] && names[0] == l.name {
      NamesBelow(n, above, names);
      forall i | 0 <= i < |l.cells|
        ensures above + names in NodePaths(n.children[i], above + [n.name])
                <==> names[1..] != [] && l.cells[i].name == names[1]
                     && (names[1..][1..] == [] || (|names| == 3 && names[2] in l.cells[i].machines))
      {
        CellMembers(l.cells[i], above + [n.name], names[1..]);
      }
    }
  }

  lemma AreaMembers(a: Area, above: seq<string>, names: seq<string>)
    ensures above + names in NodePaths(AreaNode(a), above)
            <==> names != [] && names[0] == a.name && LeadsThroughLines(a.lines, names[1..])
  {
    var n := AreaNode(a);
    NodeMembers(n, above, names);
    if names != [] && names[0] == a.name {
      NamesBelow(n, above, names);
      forall i | 0 <= i < |a.lines|
        ensures above + names in NodePaths(n.children[i], above + [n.name])
                <==> names[1..] != [] && a.lines[i].name == names[1]
                     && LeadsThroughCells(a.lines[i].cells, names[1..][1..])
      {
        LineMembers(a.lines[i], above + [n.name], names[1..]);
      }
    }
  }

  lemma SiteMembers(s: Site, above: seq<string>, names: seq<string>)
    ensures above + names in NodePaths(SiteNode(s), above)
            <==> names != [] && names[0] == s.name && LeadsThroughAreas(s.areas, names[1..])
  {
    var n := SiteNode(s);
    NodeMembers(n, above, names);
    if names != [] && names[0] == s.name {
      NamesBelow(n, above, names);
      forall i | 0 <= i < |s.areas|
        ensures above + names in NodePaths(n.children[i], above + [n.name])
                <==> names[1..] != [] && s.areas[i].name == names[1]
                     && LeadsThroughLines(s.areas[i].lines, names[1..][1..])
      {
        AreaMembers(s.areas[i], above + [n.name], names[1..]);
      }
    }
  }

  lemma TreeMembers(t: HierarchyTree, names: seq<string>)
    ensures names in NodePaths(TreeNode(t), []) <==> IsNode(t, names)
  {
    var n := TreeNode(t);
    NodeMembers(n, [], names);
    assert [] + names == names;
    if names != [] && names[0] == t.enterprise {
      NamesBelow(n, [], names);
      forall i | 0 <= i < |t.sites|
        ensures [] + names in NodePaths(n.children[i], [] + [n.name])
                <==> names[1..] != [] && t.sites[i].name == names[1]
                     && LeadsThroughAreas(t.sites[i].areas, names[1..][1..])
      {
        SiteMembers(t.sites[i], [] + [n.name], names[1..]);
      }
    }
  }

  /** The prefixes of a tree are the paths of its nodes: their names from the enterprise down, joined. */
  lemma PrefixesIff(t: HierarchyTree, prefix: string)
    ensures prefix in AllPrefixes(t) <==> exists names :: IsNode(t, names) && prefix == Join(NonEmpty(names), SEPARATOR)
  {
    forall names ensures names in NodePaths(TreeNode(t), []) <==> IsNode(t, names) {
      TreeMembers(t, names);
    }
  }

  lemma NonEmptyOfOne(name: string)
    ensures NonEmpty([name]) == if name == "" then [] else [name]
  {
    assert [name][1..] == [];
  }

  lemma NonEmptyFirst(segments: seq<string>)
    requires segments != []
    ensures NonEmpty(segments) == NonEmpty([segments[0]]) + NonEmpty(segments[1..])
  {
    NonEmptyOfOne(segments[0]);
  }

  /** Joining leaves empty names out, one by one, and nothing else. */
  lemma {:induction false} NonEmptyConcat(a: seq<string>, b: seq<string>)
    ensures NonEmpty(a + b) == NonEmpty(a) + NonEmpty(b)
  {
    if a == [] {
      assert a + b == b;
    } else {
      NonEmptyConcat(a[1..], b);
      NonEmptyFirst(a);
      NonEmptyFirst(a + b);
      assert (a + b)[1..] == a[1..] + b;
      ConcatAssociates(NonEmpty([a[0]]), NonEmpty(a[1..]), NonEmpty(b));
    }
  }

  // --------------------------------------------------------------- collecting paths

  lemma {:induction false} ForestConcat(left: seq<Node>, right: seq<Node>, above: seq<string>)
    ensures ForestPaths(left + right, above) == ForestPaths(left, above) + ForestPaths(right, above)
  {
    if left == [] {
      assert left + right == right;
    } else {
      ForestConcat(left[1..], right, above);
      assert (left + right)[1..] == left[1..] + right && (left + right)[0] == left[0];
      ConcatAssociates(NodePaths(left[0], above), ForestPaths(left[1..], above), ForestPaths(right, above));
    }
  }

  lemma JoinedConcat(left: seq<seq<string>>, right: seq<seq<string>>)
    ensures Joined(left + right) == Joined(left) + Joined(right)
  {
  }

  lemma ForestOneMore(nodes: seq<Node>, i: nat, above: seq<string>)
    requires i < |nodes|
    ensures Joined(ForestPaths(nodes[..i + 1], above))
            == Joined(ForestPaths(nodes[..i], above)) + Joined(NodePaths(nodes[i], above))
  {
    assert nodes[..i + 1] == nodes[..i] + [nodes[i]];
    ForestConcat(nodes[..i], [nodes[i]], above);
    assert ForestPaths([nodes[i]], above) == NodePaths(nodes[i], above) + [];
    JoinedConcat(ForestPaths(nodes[..i], above), NodePaths(nodes[i], above));
  }

  lemma WholeForest(nodes: seq<Node>)
    ensures nodes[..|nodes|] == nodes
  {
  }

  lemma NodeJoined(n: Node, above: seq<string>)
    ensures Joined(NodePaths(n, above))
            == {JoinSegments(above + [n.name])} + Joined(ForestPaths(n.children, above + [n.name]))
  {
  }

  method CollectMachine(name: string, above: seq<string>) returns (prefixes: set<string>)
    ensures prefixes == Joined(NodePaths(Node(name, []), above))
  {
    prefixes := {JoinSegments(above + [name])};
    NodeJoined(Node(name, []), above);
  }

  method CollectCell(x: Cell, above: seq<string>) returns (prefixes: set<string>)
    ensures prefixes == Joined(NodePaths(CellNode(x), above))
  {
    var path := above + [x.name];
    ghost var children := CellNode(x).children;
    prefixes := {JoinSegments(path)};
    for i := 0 to |x.machines|
      invariant prefixes == {JoinSegments(path)} + Joined(ForestPaths(children[..i], path))
    {
      ForestOneMore(children, i, path);
      var below := CollectMachine(x.machines[i], path);
      prefixes := prefixes + below;
    }
    WholeForest(children);
    NodeJoined(CellNode(x), above);
  }

  method CollectLine(x: Line, above: seq<string>) returns (prefixes: set<string>)
    ensures prefixes == Joined(NodePaths(LineNode(x), above))
  {
    var path := above + [x.name];
    ghost var children := LineNode(x).children;
    prefixes := {JoinSegments(path)};
    for i := 0 to |x.cells|
      invariant prefixes == {JoinSegments(path)} + Joined(ForestPaths(children[..i], path))
    {
      ForestOneMore(children, i, path);
      var below := CollectCell(x.cells[i], path);
      prefixes := prefixes + below;
    }
    WholeForest(children);
    NodeJoined(LineNode(x), above);
  }

  method CollectArea(x: Area, above: seq<string>) returns (prefixes: set<string>)
    ensures prefixes == Joined(NodePaths(AreaNode(x), above))
  {
    var path := above + [x.name];
    ghost var children := AreaNode(x).children;
    prefixes := {JoinSegments(path)};
    for i := 0 to |x.lines|
      invariant prefixes == {JoinSegments(path)} + Joined(ForestPaths(children[..i], path))
    {
      ForestOneMore(children, i, path);
      var below := CollectLine(x.lines[i], path);
      prefixes := prefixes + below;
    }
    WholeForest(children);
    NodeJoined(AreaNode(x), above);
  }

  method CollectSite(x: Site, above: seq<string>) returns (prefixes: set<string>)
    ensures prefixes == Joined(NodePaths(SiteNode(x), above))
  {
    var path := above + [x.name];
    ghost var children := SiteNode(x).children;
    prefixes := {JoinSegments(path)};
    for i := 0 to |x.areas|
      invariant prefixes == {JoinSegments(path)} + Joined(ForestPaths(children[..i], path))
    {
      ForestOneMore(children, i, path);
      var below := CollectArea(x.areas[i], path);
      prefixes := prefixes + below;
    }
    WholeForest(children);
    NodeJoined(SiteNode(x), above);
  }

  /** The set grows node by node, level by level. */
  method CollectPrefixes(t: HierarchyTree) returns (prefixes: set<string>)
    ensures prefixes == AllPrefixes(t)
  {
    var path := [t.enterprise];
    ghost var children := TreeNode(t).children;
    prefixes := {JoinSegments(path)};
    for i := 0 to |t.sites|
      invariant prefixes == {JoinSegments(path)} + Joined(ForestPaths(children[..i], path))
    {
      ForestOneMore(children, i, path);
      var below := CollectSite(t.sites[i], path);
      prefixes := prefixes + below;
    }
    WholeForest(children);
    assert [] + [t.enterprise] == path;
    NodeJoined(TreeNode(t), []);
  }

  // ------------------------------------------------------------------ distinct paths

  ghost predicate AllDistinct<T>(items: seq<T>) {
    forall i, j :: 0 <= i < j < |items| ==> items[i] != items[j]
  }

  ghost predicate Legal(path: seq<string>) {
    path != [] && forall i :: 0 <= i < |path| ==> ValidSegment(path[i])
  }

  lemma {:induction false} CountIsPathCount(n: Node, above: seq<string>)
    ensures |NodePaths(n, above)| == NodeCount(n)
    decreases n, 0
  {
    ForestCountIsPathCount(n.children, above + [n.name]);
  }

  lemma {:induction false} ForestCountIsPathCount(nodes: seq<Node>, above: seq<string>)
    ensures |ForestPaths(nodes, above)| == ForestCount(nodes)
    decreases nodes, 1
  {
    if nodes != [] {
      CountIsPathCount(nodes[0], above);
      ForestCountIsPathCount(nodes[1..], above);
    }
  }

  /** Every path of a node starts with the path to it, and of a forest with that of one of its roots. */
  lemma {:induction false} PathsStartAtNode(n: Node, above: seq<string>)
    ensures forall path :: path in NodePaths(n, above) ==> above + [n.name] <= path
    decreases n, 0
  {
    PathsStartAtForest(n.children, above + [n.name]);
  }

  lemma DistinctConcat<T>(left: seq<T>, right: seq<T>)
    requires AllDistinct(left) && AllDistinct(right) && forall x :: x in left ==> x !in right
    ensures AllDistinct(left + right)
  {
    var all := left + right;
    forall i, j | 0 <= i < j < |all| ensures all[i] != all[j] {
      if i < |left| <= j {
        assert all[i] == left[i] && all[i] in left && all[j] == right[j - |left|] && all[j] in right;
      }
    }
  }

  lemma {:induction false} NodePathsDistinct(n: Node, above: seq<string>)
    requires ValidNode(n)
    ensures AllDistinct(NodePaths(n, above))
    decreases n, 0
  {
    ForestPathsDistinct(n.children, above + [n.name]);
    PathsStartAtForest(n.children, above + [n.name]);
    DistinctConcat([above + [n.name]], ForestPaths(n.children, above + [n.name]));
  }

  lemma {:induction false} ForestPathsDistinct(nodes: seq<Node>, above: seq<string>)
    requires UniqueNames(Names(nodes)) && forall i :: 0 <= i < |nodes| ==> ValidNode(nodes[i])
    ensures AllDistinct(ForestPaths(nodes, above))
    decreases nodes, 1
  {
    if nodes != [] {
      var names := Names(nodes);
      assert names[1..] == Names(nodes[1..]) && names[0] == nodes[0].name;
      assert forall k :: 0 <= k < |names| - 1 ==> names[1..][k] != names[0];
      NodePathsDistinct(nodes[0], above);
      ForestPathsDistinct(nodes[1..], above);
      PathsStartAtNode(nodes[0], above);
      PathsStartAtForest(nodes[1..], above);
      forall path | path in NodePaths(nodes[0], above) ensures path !in ForestPaths(nodes[1..], above) {
        assert path[..|above| + 1] == above + [nodes[0].name];
        assert path[|above|] == nodes[0].name;
      }
      DistinctConcat(NodePaths(nodes[0], above), ForestPaths(nodes[1..], above));
    }
  }

  lemma {:induction false} NodePathsLegal(n: Node, above: seq<string>)
    requires ValidNode(n) && forall i :: 0 <= i < |above| ==> ValidSegment(above[i])
    ensures forall path :: path in NodePaths(n, above) ==> Legal(path)
    decreases n, 0
  {
    ForestPathsLegal(n.children, above + [n.name]);
  }

  lemma {:induction false} ForestPathsLegal(nodes: seq<Node>, above: seq<string>)
    requires forall i :: 0 <= i < |nodes| ==> ValidNode(nodes[i])
    requires forall i :: 0 <= i < |above| ==> ValidSegment(above[i])
    ensures forall path :: path in ForestPaths(nodes, above) ==> Legal(path)
    decreases nodes, 1
  {
    if nodes != [] {
      NodePathsLegal(nodes[0], above);
      ForestPathsLegal(nodes[1..], above);
    }
  }

  lemma {:induction false} NothingEmpty(path: seq<string>)
    requires forall i :: 0 <= i < |path| ==> path[i] != ""
    ensures NonEmpty(path) == path
  {
    if path != [] { NothingEmpty(path[1..]); }
  }

  lemma JoinSegmentsInjective(a: seq<string>, b: seq<string>)
    requires Legal(a) && Legal(b) && JoinSegments(a) == JoinSegments(b)
    ensures a == b
  {
    NothingEmpty(a);
    NothingEmpty(b);
    JoinIsInjective(a, b, SEPARATOR);
  }

  lemma {:induction false} ImageCount(paths: seq<seq<string>>)
    requires AllDistinct(paths) && forall path :: path in paths ==> Legal(path)
    ensures |Joined(paths)| == |paths|
  {
    if paths != [] {
      var front, last := paths[..|paths| - 1], paths[|paths| - 1];
      assert front + [last] == paths;
      ImageCount(front);
      forall path | path in front ensures path != last {
        var i :| 0 <= i < |front| && front[i] == path;
        assert paths[i] != paths[|front|];
      }
      assert last in paths;
      var before := Joined(front);
      assert Joined(paths) == before + {JoinSegments(last)};
      if JoinSegments(last) in before {
        var path :| path in front && JoinSegments(path) == JoinSegments(last);
        JoinSegmentsInjective(path, last);
      }
    }
  }

  /** In an accepted hierarchy no two nodes share a path: there are as many paths as nodes. */
  lemma ValidTreesHaveDistinctPaths(t: HierarchyTree)
    requires ValidTree(t)
    ensures |AllPrefixes(t)| == NodeCount(TreeNode(t))
  {
    NodePathsDistinct(TreeNode(t), []);
    NodePathsLegal(TreeNode(t), []);
    ImageCount(NodePaths(TreeNode(t), []));
    CountIsPathCount(TreeNode(t), []);
  }

  // ------------------------------------------------------------------------- renames

  datatype PrefixRename = PrefixRename(oldPrefix: string, newPrefix: string)

  datatype RenameError = OldNotFound(prefix: string) | NewNotFound(prefix: string) | OldStillThere(prefix: string)
      | Overlapping(outer: string, inner: string)

  predicate IsParentOf(parent: string, child: string) {
    parent + [SEPARATOR] <= child
  }

  predicate Nested(a: string, b: string) {
    IsParentOf(a, b) || IsParentOf(b, a)
  }

  function RenameProblem(now: set<string>, before: set<string>, rename: PrefixRename): Option<RenameError> {
    if rename.oldPrefix !in before then Some(OldNotFound(rename.oldPrefix))
    else if rename.newPrefix !in now then Some(NewNotFound(rename.newPrefix))
    else if rename.oldPrefix != rename.newPrefix && rename.oldPrefix in now then Some(OldStillThere(rename.oldPrefix))
    else None
  }

  ghost predicate RenamesAccepted(tree: HierarchyTree, previous: HierarchyTree, renames: seq<PrefixRename>) {
    && (forall i :: 0 <= i < |renames| ==>
          && renames[i].oldPrefix in AllPrefixes(previous) && renames[i].newPrefix in AllPrefixes(tree)
          && (renames[i].oldPrefix in AllPrefixes(tree) ==> renames[i].oldPrefix == renames[i].newPrefix))
    && forall i, j :: 0 <= i < j < |renames| ==>
                        !(renames[i].oldPrefix + [SEPARATOR] <= renames[j].oldPrefix)
                            && !(renames[j].oldPrefix + [SEPARATOR] <= renames[i].oldPrefix)
  }

  /** The error names the fault of a rename. */
  ghost predicate Blames(
      error: RenameError, tree: HierarchyTree, previous: HierarchyTree, renames: seq<PrefixRename>, i: nat)
    requires i < |renames|
  {
    var rename := renames[i];
    match error
    case OldNotFound(prefix) => prefix == rename.oldPrefix && prefix !in AllPrefixes(previous)
    case NewNotFound(prefix) => prefix == rename.newPrefix && prefix !in AllPrefixes(tree)
    case OldStillThere(prefix) =>
      prefix == rename.oldPrefix && prefix in AllPrefixes(tree) && prefix != rename.newPrefix
    case Overlapping(outer, inner) =>
      && outer == rename.oldPrefix && (outer + [SEPARATOR] <= inner || inner + [SEPARATOR] <= outer)
      && exists j :: i < j < |renames| && renames[j].oldPrefix == inner
  }

  method ValidateRenames(
      tree: HierarchyTree, previous: HierarchyTree, renames: seq<PrefixRename>) returns (error: Option<RenameError>)
    ensures error.None? <==> RenamesAccepted(tree, previous, renames)
    ensures error.Some? ==> exists i :: 0 <= i < |renames| && Blames(error.value, tree, previous, renames, i)
  {
    var before, now := AllPrefixes(previous), AllPrefixes(tree);
    for i := 0 to |renames|
      invariant forall k :: 0 <= k < i ==> RenameProblem(now, before, renames[k]).None?
    {
      error := RenameProblem(now, before, renames[i]);
      if error.Some? {
        assert Blames(error.value, tree, previous, renames, i);
        return;
      }
    }
    for i := 0 to |renames|
      invariant forall k, l :: 0 <= k < i && k < l < |renames| ==> !Nested(renames[k].oldPrefix, renames[l].oldPrefix)
    {
      for j := i + 1 to |renames|
        invariant forall l :: i < l < j ==> !Nested(renames[i].oldPrefix, renames[l].oldPrefix)
      {
        if Nested(renames[i].oldPrefix, renames[j].oldPrefix) {
          error := Some(Overlapping(renames[i].oldPrefix, renames[j].oldPrefix));
          assert Blames(error.value, tree, previous, renames, i);
          return;
        }
      }
    }
    error := None;
  }

  /** Of two paths that cover a third, one covers the other. */
  lemma CoveringPathsAreNested(a: string, b: string, path: string)
    requires Covers(a, path) && Covers(b, path) && a != b
    ensures IsParentOf(a, b) || IsParentOf(b, a)
  {
    CoversIff(a, path);
    CoversIff(b, path);
    CoversIff(a, b);
    CoversIff(b, a);
  }

  /** In an accepted batch a path has at most one old prefix above it, so the renames can be applied in any order. */
  lemma AtMostOneRenameApplies(
      tree: HierarchyTree, previous: HierarchyTree, renames: seq<PrefixRename>, path: string, i: nat, j: nat)
    requires RenamesAccepted(tree, previous, renames) && i < |renames| && j < |renames|
    requires Covers(renames[i].oldPrefix, path) && Covers(renames[j].oldPrefix, path)
    ensures renames[i].oldPrefix == renames[j].oldPrefix
  {
    if renames[i].oldPrefix != renames[j].oldPrefix {
      CoveringPathsAreNested(renames[i].oldPrefix, renames[j].oldPrefix, path);
    }
  }

  // ------------------------------------------------------------------------- mapping

  /** A nested value as YAML and JSON have it; dictionaries keep their order. */
  datatype Raw = RText(text: string) | RList(items: seq<Raw>) | RDict(entries: seq<(string, Raw)>)

  const DEFAULT_AREA_KIND := "production"

  function GetFrom(entries: seq<(string, Raw)>, key: string): Option<Raw> {
    if entries == [] then None
    else if entries[0].0 == key then Some(entries[0].1)
    else GetFrom(entries[1..], key)
  }

  function Get(raw: Raw, key: string): Option<Raw> {
    if raw.RDict? then GetFrom(raw.entries, key) else None
  }

  /** A list of objects that each have a name. */
  function ReadList<T>(items: seq<Raw>, read: (string, Raw) -> Option<T>): Option<seq<T>> {
    if items == [] then Some([])
    else
      var name, rest := Get(items[0], "name"), ReadList(items[1..], read);
      if name.None? || !name.value.RText? || read(name.value.text, items[0]).None? || rest.None? then None
      else Some([read(name.value.text, items[0]).value] + rest.value)
  }

  /** A dictionary of children by name. */
  function ReadDict<T>(entries: seq<(string, Raw)>, read: (string, Raw) -> Option<T>): Option<seq<T>> {
    if entries == [] then Some([])
    else if read(entries[0].0, entries[0].1).None? || ReadDict(entries[1..], read).None? then None
    else Some([read(entries[0].0, entries[0].1).value] + ReadDict(entries[1..], read).value)
  }

  function ReadChildren<T>(raw: Option<Raw>, read: (string, Raw) -> Option<T>): Option<seq<T>> {
    match raw
    case None => Some([])
    case Some(RDict(entries)) => ReadDict(entries, read)
    case Some(RList(items)) => ReadList(items, read)
    case Some(RText(text)) => if text == "" then Some([]) else None
  }

  /** What iterating over a value yields: items, keys, or characters. */
  function Iterate(raw: Option<Raw>): seq<Raw> {
    match raw
    case None => []
    case Some(RList(items)) => items
    case Some(RDict(entries)) => seq(|entries|, i requires 0 <= i < |entries| => RText(entries[i].0))
    case Some(RText(text)) => seq(|text|, i requires 0 <= i < |text| => RText([text[i]]))
  }

  function ReadAll<T>(items: seq<Raw>, read: Raw -> Option<T>): Option<seq<T>> {
    if items == [] then Some([])
    else if read(items[0]).None? || ReadAll(items[1..], read).None? then None
    else Some([read(items[0]).value] + ReadAll(items[1..], read).value)
  }

  function WriteAll<T>(values: seq<T>, write: T -> Raw): seq<Raw> {
    if values == [] then [] else [write(values[0])] + WriteAll(values[1..], write)
  }

  function ReadText(raw: Raw): Option<string> {
    if raw.RText? then Some(raw.text) else None
  }

  /** A cell may be given by its name alone. */
  function ReadCell(raw: Raw): Option<Cell> {
    if raw.RText? then Some(Cell(raw.text, []))
    else
      var name, machines := Get(raw, "name"), ReadAll(Iterate(Get(raw, "machines")), ReadText);
      if name.None? || !name.value.RText? || machines.None? then None else Some(Cell(name.value.text, machines.value))
  }

  function ReadLine(name: string, body: Raw): Option<Line> {
    var cells := ReadAll(Iterate(Get(body, "cells")), ReadCell);
    if cells.None? then None else Some(Line(name, cells.value))
  }

  function ReadArea(name: string, body: Raw): Option<Area> {
    var kind, lines := Get(body, "kind"), ReadChildren(Get(body, "lines"), ReadLine);
    if lines.None? || (kind.Some? && !kind.value.RText?) then None
    else Some(Area(name, if kind.Some? then kind.value.text else DEFAULT_AREA_KIND, lines.value))
  }

  function ReadSite(name: string, body: Raw): Option<Site> {
    var areas := ReadChildren(Get(body, "areas"), ReadArea);
    if areas.None? then None else Some(Site(name, areas.value))
  }

  /** None where the mapping does not have the shape of a hierarchy. */
  function TreeFromMapping(raw: Raw): Option<HierarchyTree> {
    var enterprise, sites := Get(raw, "enterprise"), ReadChildren(Get(raw, "sites"), ReadSite);
    if enterprise.None? || !enterprise.value.RText? || sites.None? then None
    else Some(HierarchyTree(enterprise.value.text, sites.value))
  }

  function WriteCell(c: Cell): Raw {
    RDict([("name", RText(c.name)), ("machines", RList(WriteAll(c.machines, name => RText(name))))])
  }

  function WriteLine(l: Line): Raw {
    RDict([("name", RText(l.name)), ("cells", RList(WriteAll(l.cells, WriteCell)))])
  }

  function WriteArea(a: Area): Raw {
    RDict([("name", RText(a.name)), ("kind", RText(if a.kind == "" then DEFAULT_AREA_KIND else a.kind)),
        ("lines", RList(WriteAll(a.lines, WriteLine)))])
  }

  function WriteSite(s: Site): Raw {
    RDict([("name", RText(s.name)), ("areas", RList(WriteAll(s.areas, WriteArea)))])
  }

  function TreeToMapping(t: HierarchyTree): Raw {
    RDict([("enterprise", RText(t.enterprise)), ("sites", RList(WriteAll(t.sites, WriteSite)))])
  }

  function MapAll<T>(values: seq<T>, f: T -> T): (mapped: seq<T>)
    ensures |mapped| == |values| && forall i :: 0 <= i < |values| ==> mapped[i] == f(values[i])
  {
    if values == [] then [] else [f(values[0])] + MapAll(values[1..], f)
  }

  /** Reading a list of written values gives each as it comes back. */
  lemma {:induction false} ListComesBack<T>(
      values: seq<T>, write: T -> Raw, name: T -> string, read: (string, Raw) -> Option<T>, back: T -> T)
    requires forall i :: 0 <= i < |values| ==>
                           Get(write(values[i]), "name") == Some(RText(name(values[i])))
                               && read(name(values[i]), write(values[i])) == Some(back(values[i]))
    ensures ReadList(WriteAll(values, write), read) == Some(MapAll(values, back))
  {
    if values != [] {
      assert forall i :: 0 <= i < |values| - 1 ==> values[1..][i] == values[i + 1];
      ListComesBack(values[1..], write, name, read, back);
    }
  }

  lemma {:induction false} ItemsComeBack<T>(values: seq<T>, write: T -> Raw, read: Raw -> Option<T>)
    requires forall i :: 0 <= i < |values| ==> read(write(values[i])) == Some(values[i])
    ensures ReadAll(WriteAll(values, write), read) == Some(values)
  {
    if values != [] {
      assert forall i :: 0 <= i < |values| - 1 ==> values[1..][i] == values[i + 1];
      ItemsComeBack(values[1..], write, read);
      assert [values[0]] + values[1..] == values;
    }
  }

  lemma GetSecond(key: string, value: Raw, other: string, second: Raw, rest: seq<(string, Raw)>)
    requires key != other
    ensures Get(RDict([(key, value), (other, second)] + rest), key) == Some(value)
    ensures Get(RDict([(key, value), (other, second)] + rest), other) == Some(second)
  {
    assert ([(key, value), (other, second)] + rest)[1..] == [(other, second)] + rest;
    assert GetFrom([(other, second)] + rest, other) == Some(second);
  }

  lemma GetThird(a: (string, Raw), b: (string, Raw), key: string, third: Raw)
    requires a.0 != key && b.0 != key
    ensures Get(RDict([a, b, (key, third)]), key) == Some(third)
  {
    assert [a, b, (key, third)][1..] == [b, (key, third)] && [b, (key, third)][1..] == [(key, third)];
    assert GetFrom([(key, third)], key) == Some(third);
    assert GetFrom([b, (key, third)], key) == Some(third);
  }

  lemma CellComesBack(c: Cell)
    ensures ReadCell(WriteCell(c)) == Some(c)
  {
    var machines := WriteAll(c.machines, name => RText(name));
    GetSecond("name", RText(c.name), "machines", RList(machines), []);
    ItemsComeBack(c.machines, name => RText(name), ReadText);
    assert WriteCell(c) == RDict([("name", RText(c.name)), ("machines", RList(machines))] + []);
  }

  lemma LineComesBack(l: Line)
    ensures ReadLine(l.name, WriteLine(l)) == Some(l) && Get(WriteLine(l), "name") == Some(RText(l.name))
  {
    var cells := WriteAll(l.cells, WriteCell);
    GetSecond("name", RText(l.name), "cells", RList(cells), []);
    forall i | 0 <= i < |l.cells| ensures ReadCell(WriteCell(l.cells[i])) == Some(l.cells[i]) {
      CellComesBack(l.cells[i]);
    }
    ItemsComeBack(l.cells, WriteCell, ReadCell);
    assert WriteLine(l) == RDict([("name", RText(l.name)), ("cells", RList(cells))] + []);
  }

  lemma LinesComeBack(lines: seq<Line>)
    ensures ReadList(WriteAll(lines, WriteLine), ReadLine) == Some(lines)
  {
    forall i | 0 <= i < |lines|
      ensures ReadLine(lines[i].name, WriteLine(lines[i])) == Some(lines[i])
      ensures Get(WriteLine(lines[i]), "name") == Some(RText(lines[i].name))
    {
      LineComesBack(lines[i]);
    }
    var same := (line: Line) => line;
    ListComesBack(lines, WriteLine, (line: Line) => line.name, ReadLine, same);
    assert MapAll(lines, same) == lines;
  }

  /** An area without a kind comes back with the default one. */
  function WithKind(a: Area): Area {
    a.(kind := if a.kind == "" then DEFAULT_AREA_KIND else a.kind)
  }

  lemma AreaComesBack(a: Area)
    ensures ReadArea(a.name, WriteArea(a)) == Some(WithKind(a)) && Get(WriteArea(a), "name") == Some(RText(a.name))
  {
    var kind, lines := RText(WithKind(a).kind), WriteAll(a.lines, WriteLine);
    GetSecond("name", RText(a.name), "kind", kind, [("lines", RList(lines))]);
    GetThird(("name", RText(a.name)), ("kind", kind), "lines", RList(lines));
    LinesComeBack(a.lines);
    assert WriteArea(a) == RDict([("name", RText(a.name)), ("kind", kind)] + [("lines", RList(lines))]);
    assert WriteArea(a) == RDict([("name", RText(a.name)), ("kind", kind), ("lines", RList(lines))]);
  }

  function WithKinds(s: Site): Site {
    s.(areas := MapAll(s.areas, WithKind))
  }

  lemma SiteComesBack(s: Site)
    ensures ReadSite(s.name, WriteSite(s)) == Some(WithKinds(s)) && Get(WriteSite(s), "name") == Some(RText(s.name))
  {
    var areas := WriteAll(s.areas, WriteArea);
    GetSecond("name", RText(s.name), "areas", RList(areas), []);
    forall i | 0 <= i < |s.areas|
      ensures ReadArea(s.areas[i].name, WriteArea(s.areas[i])) == Some(WithKind(s.areas[i]))
      ensures Get(WriteArea(s.areas[i]), "name") == Some(RText(s.areas[i].name)) {
      AreaComesBack(s.areas[i]);
    }
    ListComesBack(s.areas, WriteArea, (area: Area) => area.name, ReadArea, WithKind);
    assert WriteSite(s) == RDict([("name", RText(s.name)), ("areas", RList(areas))] + []);
  }

  lemma KindsGivenIff(sites: seq<Site>)
    ensures MapAll(sites, WithKinds) == sites
            <==> forall i, j :: 0 <= i < |sites| && 0 <= j < |sites[i].areas| ==> sites[i].areas[j].kind != ""
  {
    var back := MapAll(sites, WithKinds);
    if forall i, j :: 0 <= i < |sites| && 0 <= j < |sites[i].areas| ==> sites[i].areas[j].kind != "" {
      forall i | 0 <= i < |sites| ensures back[i] == sites[i] {
        assert MapAll(sites[i].areas, WithKind) == sites[i].areas;
      }
    } else {
      var i, j :| 0 <= i < |sites| && 0 <= j < |sites[i].areas| && sites[i].areas[j].kind == "";
      assert back[i].areas[j].kind == DEFAULT_AREA_KIND;
    }
  }

  /** A tree comes back from its mapping exactly when every area has a kind, which validation demands. */
  lemma MappingRoundTripIff(t: HierarchyTree)
    ensures TreeFromMapping(TreeToMapping(t)).Some?
    ensures TreeFromMapping(TreeToMapping(t)) == Some(t) <==> KindsGiven(t)
  {
    var sites := WriteAll(t.sites, WriteSite);
    GetSecond("enterprise", RText(t.enterprise), "sites", RList(sites), []);
    forall i | 0 <= i < |t.sites|
      ensures ReadSite(t.sites[i].name, WriteSite(t.sites[i])) == Some(WithKinds(t.sites[i]))
      ensures Get(WriteSite(t.sites[i]), "name") == Some(RText(t.sites[i].name)) {
      SiteComesBack(t.sites[i]);
    }
    ListComesBack(t.sites, WriteSite, (site: Site) => site.name, ReadSite, WithKinds);
    assert TreeToMapping(t) == RDict([("enterprise", RText(t.enterprise)), ("sites", RList(sites))] + []);
    KindsGivenIff(t.sites);
  }

  /** A dictionary of children reads like the list of the same children with their names inside. */
  lemma {:induction false} ShapesReadAlike<T>(
      entries: seq<(string, Raw)>, items: seq<Raw>, read: (string, Raw) -> Option<T>)
    requires |items| == |entries|
    requires forall i :: 0 <= i < |entries| ==>
                           Get(items[i], "name") == Some(RText(entries[i].0))
                               && read(entries[i].0, items[i]) == read(entries[i].0, entries[i].1)
    ensures ReadChildren(Some(RList(items)), read) == ReadChildren(Some(RDict(entries)), read)
  {
    if entries != [] {
      assert forall i :: 0 <= i < |entries| - 1 ==> entries[1..][i] == entries[i + 1] && items[1..][i] == items[i + 1];
      ShapesReadAlike(entries[1..], items[1..], read);
    }
  }

  // ---------------------------------------------------------------- what may be left out

  /** A cell may be its name alone, an area without a kind is for production, and missing children are none. */
  lemma DefaultsWhenMissing(name: string, body: Raw, raw: Raw)
    ensures ReadCell(RText(name)) == Some(Cell(name, []))
    ensures Get(body, "kind") == None && ReadArea(name, body).Some? ==> ReadArea(name, body).value.kind == "production"
    ensures Get(body, "lines") == None && ReadArea(name, body).Some? ==> ReadArea(name, body).value.lines == []
    ensures Get(body, "areas") == None ==> ReadSite(name, body) == Some(Site(name, []))
    ensures Get(body, "cells") == None ==> ReadLine(name, body) == Some(Line(name, []))
    ensures Get(raw, "enterprise") == None ==> TreeFromMapping(raw) == None
  {
  }

  lemma {:induction false} TextsAreRead(items: seq<Raw>)
    requires forall i :: 0 <= i < |items| ==> items[i].RText?
    ensures var texts := ReadAll(items, ReadText);
            texts.Some? && |texts.value| == |items| && forall i :: 0 <= i < |items| ==> texts.value[i] == items[i].text
  {
    if items != [] {
      TextsAreRead(items[1..]);
      assert forall i :: 0 < i < |items| ==> items[i] == items[1..][i - 1];
    }
  }

  /** Machines given as a dictionary are its keys, and given as a text its characters. */
  lemma MachinesOfShapes(name: string, entries: seq<(string, Raw)>, text: string)
    ensures ReadCell(RDict([("name", RText(name)), ("machines", RDict(entries))]))
            == Some(Cell(name, seq(|entries|, i requires 0 <= i < |entries| => entries[i].0)))
    ensures ReadCell(RDict([("name", RText(name)), ("machines", RText(text))]))
            == Some(Cell(name, seq(|text|, i requires 0 <= i < |text| => [text[i]])))
  {
    GetSecond("name", RText(name), "machines", RDict(entries), []);
    GetSecond("name", RText(name), "machines", RText(text), []);
    assert [("name", RText(name)), ("machines", RDict(entries))] + []
        == [("name", RText(name)), ("machines", RDict(entries))];
    assert [("name", RText(name)), ("machines", RText(text))] + []
        == [("name", RText(name)), ("machines", RText(text))];
    TextsAreRead(Iterate(Some(RDict(entries))));
    TextsAreRead(Iterate(Some(RText(text))));
    assert ReadAll(Iterate(Some(RDict(entries))), ReadText).value
        == seq(|entries|, i requires 0 <= i < |entries| => entries[i].0);
    assert ReadAll(Iterate(Some(RText(text))), ReadText).value
        == seq(|text|, i requires 0 <= i < |text| => [text[i]]);
  }

  /** Children given as a text are none when it is empty, and fail otherwise. */
  lemma ChildrenOfText(name: string, text: string)
    ensures ReadSite(name, RDict([("areas", RText(text))])) == if text == "" then Some(Site(name, [])) else None
    ensures ReadArea(name, RDict([("lines", RText(text))]))
            == if text == "" then Some(Area(name, "production", [])) else None
  {
    var lines, areas := [("lines", RText(text))], [("areas", RText(text))];
    assert GetFrom(lines[1..], "kind") == None;
    assert GetFrom(lines, "kind") == None && GetFrom(lines, "lines") == Some(RText(text));
    assert GetFrom(areas, "areas") == Some(RText(text));
  }

  /** A child without a name fails the whole list. */
  lemma {:induction false} NamelessChildFails<T>(items: seq<Raw>, read: (string, Raw) -> Option<T>, i: nat)
    requires i < |items| && Get(items[i], "name") == None
    ensures ReadList(items, read) == None
  {
    if i > 0 {
      NamelessChildFails(items[1..], read, i - 1);
    }
  }
}
