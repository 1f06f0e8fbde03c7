/** JSON payloads, and their flattening into one metric row per scalar leaf. */
module MetricFlattener {
  import opened Wrappers
  import opened Splitting

  /** A decoded JSON document. An object keeps the order of its keys. */
  datatype Json =
    | Null
    | Bool(b: bool)
    | Num(n: real)
    | Str(s: string)
    | Arr(items: seq<Json>)
    | Obj(fields: seq<Field>)

  datatype Field = Field(key: string, value: Json)

  type Object = seq<Field>

  datatype Metric = Metric(name: string, valueDouble: Option<real>, valueText: Option<string>)

  const TWO_TO_THE_202 := 0x400_0000_0000_0000_0000_0000_0000_0000_0000_0000_0000_0000_0000
  const TWO_TO_THE_256 := 0x1_0000_0000_0000_0000_0000_0000_0000_0000_0000_0000_0000_0000_0000_0000_0000_0000

  /** The least magnitude no float holds: 2^1024 - 2^970. What is as large is an integer, as there are no infinities. */
  const FLOAT_LIMIT :=
    (TWO_TO_THE_256 * TWO_TO_THE_256 * TWO_TO_THE_256 * (TWO_TO_THE_256 - TWO_TO_THE_202)) as real

  /** Converting the number to a float does not overflow. */
  predicate FitsFloat(x: real) {
    -FLOAT_LIMIT < x < FLOAT_LIMIT
  }

  predicate HeldByFloat(value: Option<real>) {
    value.Some? ==> FitsFloat(value.value)
  }

  // ------------------------------------------------------------ the flattener

  function Digits(n: nat): (s: string)
    ensures |s| > 0
  {
    if n < 10 then ["0123456789"[n]] else Digits(n / 10) + ["0123456789"[n % 10]]
  }

  function ScalarToMetric(path: string, value: Json): Option<Metric> {
    match value
    case Bool(b) => Some(Metric(path, None, Some(if b then "true" else "false")))
    case Num(n) => Some(Metric(path, Some(n), None))
    case Str(s) => Some(Metric(path, None, Some(s)))
    case _ => None
  }

  function IterValue(value: Json, path: string): seq<Metric>
    decreases value, 1
  {
    match value
    case Obj(fields) => IterFields(fields, path)
    case Arr(items) => IterItems(items, path, 0)
    case _ =>
      match ScalarToMetric(path, value)
      case Some(m) => [m]
      case None => []
  }

  function IterFields(fields: seq<Field>, path: string): seq<Metric>
    decreases fields, 0
  {
    if fields == [] then []
    else IterValue(fields[0].value, path + "." + fields[0].key) + IterFields(fields[1..], path)
  }

  function IterItems(items: seq<Json>, path: string, index: nat): seq<Metric>
    decreases items, 0
  {
    if items == [] then []
    else IterValue(items[0], path + "." + Digits(index)) + IterItems(items[1..], path, index + 1)
  }

  /** The top level differs from the levels below: there is no dot in front of the first segment. */
  function IterRootFields(fields: seq<Field>): seq<Metric> {
    if fields == [] then []
    else IterValue(fields[0].value, fields[0].key) + IterRootFields(fields[1..])
  }

  /** The metric rows of a payload, under the default empty prefix. */
  function IterMetrics(payload: Object): seq<Metric> {
    IterRootFields(payload)
  }

  // ------------------------------------------- an independent view of the leaves

  datatype Leaf = Leaf(path: seq<string>, value: Json)

  predicate IsScalar(value: Json) {
    value.Bool? || value.Num? || value.Str?
  }

  /** Walking a path of keys and indices into a document. */
  function At(value: Json, path: seq<string>): Option<Json>
    decreases value, |path|, 1
  {
    if path == [] then Some(value)
    else
      match value
      case Obj(fields) => AtField(fields, path)
      case Arr(items) => AtItem(items, 0, path)
      case _ => None
  }

  function AtField(fields: seq<Field>, path: seq<string>): Option<Json>
    requires path != []
    decreases fields, |path|, 0
  {
    if fields == [] then None
    else if fields[0].key == path[0] then At(fields[0].value, path[1..])
    else AtField(fields[1..], path)
  }

  function AtItem(items: seq<Json>, index: nat, path: seq<string>): Option<Json>
    requires path != []
    decreases items, |path|, 0
  {
    if items == [] then None
    else if Digits(index) == path[0] then At(items[0], path[1..])
    else AtItem(items[1..], index + 1, path)
  }

  /** No object in the document repeats a key, as holds of every Python dict. */
  ghost predicate UniqueKeys(value: Json)
    decreases value, 1
  {
    match value
    case Obj(fields) => UniqueFieldKeys(fields)
    case Arr(items) => forall i :: 0 <= i < |items| ==> UniqueKeys(items[i])
    case _ => true
  }

  ghost predicate UniqueFieldKeys(fields: seq<Field>)
    decreases fields, 0
  {
    && (forall i, j :: 0 <= i < j < |fields| ==> fields[i].key != fields[j].key)
    && (forall i :: 0 <= i < |fields| ==> UniqueKeys(fields[i].value))
  }

  /** Every key in the document is free of dots. */
  ghost predicate DotFree(value: Json)
    decreases value, 1
  {
    match value
    case Obj(fields) => DotFreeFields(fields)
    case Arr(items) => forall i :: 0 <= i < |items| ==> DotFree(items[i])
    case _ => true
  }

  ghost predicate DotFreeFields(fields: seq<Field>)
    decreases fields, 0
  {
    forall i :: 0 <= i < |fields| ==> '.' !in fields[i].key && DotFree(fields[i].value)
  }

  function Leaves(value: Json, path: seq<string>): seq<Leaf>
    decreases value, 1
  {
    match value
    case Obj(fields) => FieldLeaves(fields, path)
    case Arr(items) => ItemLeaves(items, path, 0)
    case Null => []
    case _ => [Leaf(path, value)]
  }

  function FieldLeaves(fields: seq<Field>, path: seq<string>): seq<Leaf>
    decreases fields, 0
  {
    if fields == [] then []
    else Leaves(fields[0].value, path + [fields[0].key]) + FieldLeaves(fields[1..], path)
  }

  function ItemLeaves(items: seq<Json>, path: seq<string>, index: nat): seq<Leaf>
    decreases items, 0
  {
    if items == [] then []
    else Leaves(items[0], path + [Digits(index)]) + ItemLeaves(items[1..], path, index + 1)
  }

  lemma {:induction false} DigitsInjective(a: nat, b: nat)
    requires Digits(a) == Digits(b)
    ensures a == b
  {
    if a >= 10 && b >= 10 {
      assert Digits(a)[..|Digits(a)| - 1] == Digits(a / 10);
      assert Digits(b)[..|Digits(b)| - 1] == Digits(b / 10);
      assert Digits(a)[|Digits(a)| - 1] == "0123456789"[a % 10];
      assert Digits(b)[|Digits(b)| - 1] == "0123456789"[b % 10];
      DigitsInjective(a / 10, b / 10);
    }
  }

  lemma {:induction false} DigitsDotFree(n: nat)
    ensures '.' !in Digits(n)
  {
    if n >= 10 { DigitsDotFree(n / 10); }
  }

  /** Every listed leaf is a non-null scalar that its path leads to. */
  lemma {:induction false} LeavesSound(value: Json, path: seq<string>, leaf: Leaf)
    requires UniqueKeys(value) && leaf in Leaves(value, path)
    ensures IsScalar(leaf.value)
    ensures path <= leaf.path && At(value, leaf.path[|path|..]) == Some(leaf.value)
    decreases value, 1
  {
    match value
    case Obj(fields) =>
      FieldLeavesSound(fields, path, leaf);
    case Arr(items) =>
      ItemLeavesSound(items, path, 0, leaf);
    case _ =>
  }

  lemma {:induction false} FieldLeavesSound(fields: seq<Field>, path: seq<string>, leaf: Leaf)
    requires UniqueFieldKeys(fields) && leaf in FieldLeaves(fields, path)
    ensures IsScalar(leaf.value)
    ensures |leaf.path| > |path| && path <= leaf.path
    ensures AtField(fields, leaf.path[|path|..]) == Some(leaf.value)
    ensures exists i :: 0 <= i < |fields| && fields[i].key == leaf.path[|path|]
    decreases fields, 0
  {
    var p := path + [fields[0].key];
    if leaf in Leaves(fields[0].value, p) {
      LeavesSound(fields[0].value, p, leaf);
      assert leaf.path[|path|] == p[|path|];
      assert leaf.path[|path|..][1..] == leaf.path[|p|..];
    } else {
      FieldLeavesSound(fields[1..], path, leaf);
      var i :| 0 <= i < |fields[1..]| && fields[1..][i].key == leaf.path[|path|];
      assert fields[i + 1].key == leaf.path[|path|];
    }
  }

  lemma {:induction false} ItemLeavesSound(items: seq<Json>, path: seq<string>, index: nat, leaf: Leaf)
    requires forall i :: 0 <= i < |items| ==> UniqueKeys(items[i])
    requires leaf in ItemLeaves(items, path, index)
    ensures IsScalar(leaf.value)
    ensures |leaf.path| > |path| && path <= leaf.path
    ensures AtItem(items, index, leaf.path[|path|..]) == Some(leaf.value)
    ensures exists i :: index <= i < index + |items| && Digits(i) == leaf.path[|path|]
    decreases items, 0
  {
    var p := path + [Digits(index)];
    if leaf in Leaves(items[0], p) {
      LeavesSound(items[0], p, leaf);
      assert leaf.path[|path|] == p[|path|];
      assert leaf.path[|path|..][1..] == leaf.path[|p|..];
    } else {
      ItemLeavesSound(items[1..], path, index + 1, leaf);
      var i :| index + 1 <= i < index + |items| && Digits(i) == leaf.path[|path|];
      if Digits(index) == Digits(i) { DigitsInjective(index, i); }
    }
  }

  /** Every non-null scalar reachable by some path is listed. */
  lemma {:induction false} LeavesComplete(value: Json, path: seq<string>, walk: seq<string>)
    requires At(value, walk).Some? && IsScalar(At(value, walk).value)
    ensures Leaf(path + walk, At(value, walk).value) in Leaves(value, path)
    decreases value, 1
  {
    if walk == [] { assert path + walk == path; }
    match value
    case Obj(fields) =>
      FieldLeavesComplete(fields, path, walk);
    case Arr(items) =>
      ItemLeavesComplete(items, 0, path, walk);
    case _ =>
  }

  lemma {:induction false} FieldLeavesComplete(fields: seq<Field>, path: seq<string>, walk: seq<string>)
    requires walk != []
    requires AtField(fields, walk).Some? && IsScalar(AtField(fields, walk).value)
    ensures Leaf(path + walk, AtField(fields, walk).value) in FieldLeaves(fields, path)
    decreases fields, 0
  {
    if fields[0].key == walk[0] {
      LeavesComplete(fields[0].value, path + [fields[0].key], walk[1..]);
      assert path + [fields[0].key] + walk[1..] == path + walk;
    } else {
      FieldLeavesComplete(fields[1..], path, walk);
    }
  }

  lemma {:induction false} ItemLeavesComplete(items: seq<Json>, index: nat, path: seq<string>, walk: seq<string>)
    requires walk != []
    requires AtItem(items, index, walk).Some? && IsScalar(AtItem(items, index, walk).value)
    ensures Leaf(path + walk, AtItem(items, index, walk).value) in ItemLeaves(items, path, index)
    decreases items, 0
  {
    if Digits(index) == walk[0] {
      LeavesComplete(items[0], path + [Digits(index)], walk[1..]);
      assert path + [Digits(index)] + walk[1..] == path + walk;
    } else {
      ItemLeavesComplete(items[1..], index + 1, path, walk);
    }
  }

  ghost predicate DistinctPaths(leaves: seq<Leaf>) {
    forall i, j :: 0 <= i < j < |leaves| ==> leaves[i].path != leaves[j].path
  }

  /** No leaf is listed twice. */
  lemma {:induction false} LeavesDistinct(value: Json, path: seq<string>)
    requires UniqueKeys(value)
    ensures DistinctPaths(Leaves(value, path))
    decreases value, 1
  {
    match value
    case Obj(fields) => FieldLeavesDistinct(fields, path);
    case Arr(items) => ItemLeavesDistinct(items, path, 0);
    case _ =>
  }

  lemma {:induction false} FieldLeavesDistinct(fields: seq<Field>, path: seq<string>)
    requires UniqueFieldKeys(fields)
    ensures DistinctPaths(FieldLeaves(fields, path))
    decreases fields, 0
  {
    if fields != [] {
      var p := path + [fields[0].key];
      LeavesDistinct(fields[0].value, p);
      FieldLeavesDistinct(fields[1..], path);
      forall a, b | a in Leaves(fields[0].value, p) && b in FieldLeaves(fields[1..], path)
        ensures a.path != b.path
      {
        LeavesSound(fields[0].value, p, a);
        assert a.path[|path|] == p[|path|];
        FieldLeavesSound(fields[1..], path, b);
      }
    }
  }

  lemma {:induction false} ItemLeavesDistinct(items: seq<Json>, path: seq<string>, index: nat)
    requires forall i :: 0 <= i < |items| ==> UniqueKeys(items[i])
    ensures DistinctPaths(ItemLeaves(items, path, index))
    decreases items, 0
  {
    if items != [] {
      var p := path + [Digits(index)];
      LeavesDistinct(items[0], p);
      ItemLeavesDistinct(items[1..], path, index + 1);
      forall a, b | a in Leaves(items[0], p) && b in ItemLeaves(items[1..], path, index + 1)
        ensures a.path != b.path
      {
        LeavesSound(items[0], p, a);
        assert a.path[|path|] == p[|path|];
        ItemLeavesSound(items[1..], path, index + 1, b);
        var i :| index + 1 <= i < index + |items| && Digits(i) == b.path[|path|];
        if Digits(index) == Digits(i) { DigitsInjective(index, i); }
      }
    }
  }

  // ------------------------------------------------- the flattener lists the leaves

  /** Row `i` carries the value of leaf `i` under its path joined by dots. */
  ghost predicate Describes(rows: seq<Metric>, leaves: seq<Leaf>) {
    && |rows| == |leaves|
    && forall i :: 0 <= i < |rows| ==> ScalarToMetric(Join(leaves[i].path, '.'), leaves[i].value) == Some(rows[i])
  }

  lemma {:induction false} JoinSnoc(path: seq<string>, segment: string)
    requires path != []
    ensures Join(path + [segment], '.') == Join(path, '.') + "." + segment
  {
    if |path| > 1 {
      JoinSnoc(path[1..], segment);
      assert (path + [segment])[1..] == path[1..] + [segment];
    }
  }

  lemma DescribesConcat(rows: seq<Metric>, leaves: seq<Leaf>, rows': seq<Metric>, leaves': seq<Leaf>)
    requires Describes(rows, leaves) && Describes(rows', leaves')
    ensures Describes(rows + rows', leaves + leaves')
  {
  }

  lemma {:induction false} IterValueDescribes(value: Json, path: seq<string>)
    requires path != []
    ensures Describes(IterValue(value, Join(path, '.')), Leaves(value, path))
    decreases value, 1
  {
    match value
    case Obj(fields) => IterFieldsDescribes(fields, path);
    case Arr(items) => IterItemsDescribes(items, path, 0);
    case _ =>
  }

  lemma {:induction false} IterFieldsDescribes(fields: seq<Field>, path: seq<string>)
    requires path != []
    ensures Describes(IterFields(fields, Join(path, '.')), FieldLeaves(fields, path))
    decreases fields, 0
  {
    if fields != [] {
      JoinSnoc(path, fields[0].key);
      IterValueDescribes(fields[0].value, path + [fields[0].key]);
      IterFieldsDescribes(fields[1..], path);
      DescribesConcat(IterValue(fields[0].value, Join(path + [fields[0].key], '.')),
          Leaves(fields[0].value, path + [fields[0].key]),
                      IterFields(fields[1..], Join(path, '.')), FieldLeaves(fields[1..], path));
    }
  }

  lemma {:induction false} IterItemsDescribes(items: seq<Json>, path: seq<string>, index: nat)
    requires path != []
    ensures Describes(IterItems(items, Join(path, '.'), index), ItemLeaves(items, path, index))
    decreases items, 0
  {
    if items != [] {
      var segment := Digits(index);
      JoinSnoc(path, segment);
      IterValueDescribes(items[0], path + [segment]);
      IterItemsDescribes(items[1..], path, index + 1);
      DescribesConcat(IterValue(items[0], Join(path + [segment], '.')), Leaves(items[0], path + [segment]),
                      IterItems(items[1..], Join(path, '.'), index + 1), ItemLeaves(items[1..], path, index + 1));
    }
  }

  lemma {:induction false} IterRootDescribes(fields: Object)
    ensures Describes(IterRootFields(fields), FieldLeaves(fields, []))
  {
    if fields != [] {
      IterValueDescribes(fields[0].value, [] + [fields[0].key]);
      IterRootDescribes(fields[1..]);
    }
  }

  /** Exactly one row per non-null scalar leaf of the payload, named after the path to it. */
  lemma OneRowPerLeaf(payload: Object)
    requires UniqueFieldKeys(payload)
    ensures Describes(IterMetrics(payload), Leaves(Obj(payload), []))
    ensures DistinctPaths(Leaves(Obj(payload), []))
    ensures forall path, value :: Leaf(path, value) in Leaves(Obj(payload), [])
                                  <==> At(Obj(payload), path) == Some(value) && IsScalar(value)
  {
    IterRootDescribes(payload);
    LeavesDistinct(Obj(payload), []);
    forall path, value
      ensures Leaf(path, value) in Leaves(Obj(payload), [])
              <==> At(Obj(payload), path) == Some(value) && IsScalar(value)
    {
      if Leaf(path, value) in Leaves(Obj(payload), []) {
        LeavesSound(Obj(payload), [], Leaf(path, value));
        assert path[0..] == path;
      }
      if At(Obj(payload), path) == Some(value) && IsScalar(value) {
        LeavesComplete(Obj(payload), [], path);
        assert [] + path == path;
      }
    }
  }

  lemma {:induction false} DistinctCount(leaves: seq<Leaf>)
    requires DistinctPaths(leaves)
    ensures |set leaf | leaf in leaves| == |leaves|
  {
    if leaves != [] {
      var n := |leaves| - 1;
      DistinctCount(leaves[..n]);
      assert leaves[..n] + [leaves[n]] == leaves;
      forall leaf | leaf in leaves[..n] ensures leaf != leaves[n] {
        var i :| 0 <= i < n && leaves[..n][i] == leaf;
        assert leaves[i].path != leaves[n].path;
      }
      assert (set leaf | leaf in leaves) == (set leaf | leaf in leaves[..n]) + {leaves[n]};
    }
  }

  /** The non-null scalars of a payload, each with its path. */
  function LeafSet(payload: Object): set<Leaf> {
    set leaf | leaf in Leaves(Obj(payload), [])
  }

  /** There are as many rows as non-null scalars. */
  lemma RowsCountLeaves(payload: Object)
    requires UniqueFieldKeys(payload)
    ensures |IterMetrics(payload)| == |LeafSet(payload)|
    ensures forall path, value :: Leaf(path, value) in LeafSet(payload)
                                  <==> At(Obj(payload), path) == Some(value) && IsScalar(value)
  {
    OneRowPerLeaf(payload);
    DistinctCount(Leaves(Obj(payload), []));
  }

  lemma {:induction false} LeavesDotFree(value: Json, path: seq<string>)
    requires DotFree(value) && SeparatorFree(path, '.')
    ensures forall leaf :: leaf in Leaves(value, path) ==> SeparatorFree(leaf.path, '.')
    decreases value, 1
  {
    match value
    case Obj(fields) => FieldLeavesDotFree(fields, path);
    case Arr(items) => ItemLeavesDotFree(items, path, 0);
    case _ =>
  }

  lemma {:induction false} FieldLeavesDotFree(fields: seq<Field>, path: seq<string>)
    requires DotFreeFields(fields) && SeparatorFree(path, '.')
    ensures forall leaf :: leaf in FieldLeaves(fields, path) ==> SeparatorFree(leaf.path, '.')
    decreases fields, 0
  {
    if fields != [] {
      LeavesDotFree(fields[0].value, path + [fields[0].key]);
      FieldLeavesDotFree(fields[1..], path);
    }
  }

  lemma {:induction false} ItemLeavesDotFree(items: seq<Json>, path: seq<string>, index: nat)
    requires forall i :: 0 <= i < |items| ==> DotFree(items[i])
    requires SeparatorFree(path, '.')
    ensures forall leaf :: leaf in ItemLeaves(items, path, index) ==> SeparatorFree(leaf.path, '.')
    decreases items, 0
  {
    if items != [] {
      DigitsDotFree(index);
      LeavesDotFree(items[0], path + [Digits(index)]);
      ItemLeavesDotFree(items[1..], path, index + 1);
    }
  }

  /** When no key contains a dot, no two rows of one payload share a metric name. */
  lemma DotFreeNamesDistinct(payload: Object)
    requires UniqueFieldKeys(payload) && DotFreeFields(payload)
    ensures forall i, j :: 0 <= i < j < |IterMetrics(payload)| ==>
                             IterMetrics(payload)[i].name != IterMetrics(payload)[j].name
  {
    var rows, leaves := IterMetrics(payload), Leaves(Obj(payload), []);
    OneRowPerLeaf(payload);
    LeavesDotFree(Obj(payload), []);
    forall i, j | 0 <= i < j < |rows|
      ensures rows[i].name != rows[j].name
    {
      assert leaves[i] in leaves && leaves[j] in leaves;
      FieldLeavesSound(payload, [], leaves[i]);
      FieldLeavesSound(payload, [], leaves[j]);
      if rows[i].name == rows[j].name {
        JoinIsInjective(leaves[i].path, leaves[j].path, '.');
      }
    }
  }

  /** A dotted key can collide with a nested one, so the distinctness above needs its condition. */
  lemma DottedKeysCollide()
    ensures var payload := [Field("a.b", Num(1.0)), Field("a", Obj([Field("b", Num(2.0))]))];
            && UniqueFieldKeys(payload)
            && IterMetrics(payload) == [Metric("a.b", Some(1.0), None), Metric("a.b", Some(2.0), None)]
  {
    var inner: Object := [Field("b", Num(2.0))];
    var payload: Object := [Field("a.b", Num(1.0)), Field("a", Obj(inner))];
    assert payload[1..] == [Field("a", Obj(inner))];
    assert payload[1..][1..] == [];
    assert inner[1..] == [];
    assert IterFields(inner, "a") == [Metric("a" + "." + "b", Some(2.0), None)];
    assert "a" + "." + "b" == "a.b";
    assert IterValue(Obj(inner), "a") == IterFields(inner, "a");
    assert IterRootFields(payload[1..]) == IterValue(Obj(inner), "a") + IterRootFields(payload[1..][1..]);
    assert UniqueFieldKeys(inner);
    assert UniqueKeys(payload[1].value);
  }
}
