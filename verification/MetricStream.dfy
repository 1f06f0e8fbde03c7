/**
 * The flattener as the generator it is: metrics come one at a time, and what lies behind the last one is not looked
 * at.
 */
module MetricStream {
  import opened Wrappers
  import opened Splitting
  import opened MetricFlattener

  /** A value still to be visited, with the dotted path to it. */
  datatype Visit = Visit(path: string, value: Json)

  /** The metrics still to come, in order: the state of a suspended generator. */
  function Upcoming(todo: seq<Visit>): seq<Metric> {
    if todo == [] then [] else IterValue(todo[0].value, todo[0].path) + Upcoming(todo[1..])
  }

  function FieldVisits(fields: seq<Field>, path: string): seq<Visit> {
    if fields == [] then [] else [Visit(path + "." + fields[0].key, fields[0].value)] + FieldVisits(fields[1..], path)
  }

  function ItemVisits(items: seq<Json>, path: string, index: nat): seq<Visit> {
    if items == [] then []
    else [Visit(path + "." + Digits(index), items[0])] + ItemVisits(items[1..], path, index + 1)
  }

  function RootVisits(payload: Object): seq<Visit> {
    if payload == [] then [] else [Visit(payload[0].key, payload[0].value)] + RootVisits(payload[1..])
  }

  lemma {:induction false} UpcomingFields(fields: seq<Field>, path: string)
    ensures Upcoming(FieldVisits(fields, path)) == IterFields(fields, path)
  {
    if fields != [] {
      UpcomingFields(fields[1..], path);
      assert FieldVisits(fields, path)[1..] == FieldVisits(fields[1..], path);
    }
  }

  lemma {:induction false} UpcomingItems(items: seq<Json>, path: string, index: nat)
    ensures Upcoming(ItemVisits(items, path, index)) == IterItems(items, path, index)
  {
    if items != [] {
      UpcomingItems(items[1..], path, index + 1);
      assert ItemVisits(items, path, index)[1..] == ItemVisits(items[1..], path, index + 1);
    }
  }

  lemma {:induction false} UpcomingRoot(payload: Object)
    ensures Upcoming(RootVisits(payload)) == IterMetrics(payload)
  {
    if payload != [] {
      UpcomingRoot(payload[1..]);
      assert RootVisits(payload)[1..] == RootVisits(payload[1..]);
    }
  }

  lemma UpcomingOneMore(v: Visit, rest: seq<Visit>)
    ensures Upcoming([v] + rest) == IterValue(v.value, v.path) + Upcoming(rest)
  {
    assert ([v] + rest)[1..] == rest;
  }

  lemma {:induction false} UpcomingConcat(a: seq<Visit>, b: seq<Visit>)
    ensures Upcoming(a + b) == Upcoming(a) + Upcoming(b)
  {
    if a == [] {
      assert a + b == b;
    } else {
      var first, rest := a[0], a[1..];
      UpcomingConcat(rest, b);
      UpcomingOneMore(first, rest);
      UpcomingOneMore(first, rest + b);
      assert [first] + rest == a && [first] + (rest + b) == a + b;
      ConcatAssociates(IterValue(first.value, first.path), Upcoming(rest), Upcoming(b));
    }
  }

  // ------------------------------------------------------------- work left to be done

  /** The number of values in a document. */
  function Size(value: Json): nat
    decreases value, 1
  {
    match value
    case Obj(fields) => 1 + FieldSizes(fields)
    case Arr(items) => 1 + ItemSizes(items)
    case _ => 1
  }

  function FieldSizes(fields: seq<Field>): nat
    decreases fields, 0
  {
    if fields == [] then 0 else Size(fields[0].value) + FieldSizes(fields[1..])
  }

  function ItemSizes(items: seq<Json>): nat
    decreases items, 0
  {
    if items == [] then 0 else Size(items[0]) + ItemSizes(items[1..])
  }

  function Work(todo: seq<Visit>): nat {
    if todo == [] then 0 else Size(todo[0].value) + Work(todo[1..])
  }

  lemma {:induction false} WorkOfFields(fields: seq<Field>, path: string)
    ensures Work(FieldVisits(fields, path)) == FieldSizes(fields)
  {
    if fields != [] {
      WorkOfFields(fields[1..], path);
      assert FieldVisits(fields, path)[1..] == FieldVisits(fields[1..], path);
    }
  }

  lemma {:induction false} WorkOfItems(items: seq<Json>, path: string, index: nat)
    ensures Work(ItemVisits(items, path, index)) == ItemSizes(items)
  {
    if items != [] {
      WorkOfItems(items[1..], path, index + 1);
      assert ItemVisits(items, path, index)[1..] == ItemVisits(items[1..], path, index + 1);
    }
  }

  lemma {:induction false} WorkConcat(a: seq<Visit>, b: seq<Visit>)
    ensures Work(a + b) == Work(a) + Work(b)
  {
    if a == [] {
      assert a + b == b;
    } else {
      WorkConcat(a[1..], b);
      assert (a + b)[1..] == a[1..] + b;
    }
  }

  /** The visits a dictionary or list stands for. */
  function Opened(v: Visit): seq<Visit>
    requires v.value.Obj? || v.value.Arr?
  {
    if v.value.Obj? then FieldVisits(v.value.fields, v.path) else ItemVisits(v.value.items, v.path, 0)
  }

  /** Opening a value changes nothing about what is to come, and leaves less work. */
  lemma OpeningKeepsUpcoming(v: Visit, rest: seq<Visit>)
    requires v.value.Obj? || v.value.Arr?
    ensures Upcoming(Opened(v) + rest) == Upcoming([v] + rest) && Work(Opened(v) + rest) < Work([v] + rest)
  {
    assert ([v] + rest)[1..] == rest;
    UpcomingConcat(Opened(v), rest);
    WorkConcat(Opened(v), rest);
    if v.value.Obj? {
      UpcomingFields(v.value.fields, v.path);
      WorkOfFields(v.value.fields, v.path);
    } else {
      UpcomingItems(v.value.items, v.path, 0);
      WorkOfItems(v.value.items, v.path, 0);
    }
  }

  datatype Pulled = Next(metric: Metric) | Exhausted | Overflowed

  /** `next()`: the first metric to come, if a float holds its number, with the generator suspended right behind it. */
  method Pull(todo: seq<Visit>) returns (pulled: Pulled, rest: seq<Visit>)
    ensures match pulled
            case Next(metric) => Upcoming(todo) == [metric] + Upcoming(rest) && HeldByFloat(metric.valueDouble)
            case Exhausted => Upcoming(todo) == [] && rest == []
            case Overflowed => Upcoming(rest) == Upcoming(todo) != [] && !HeldByFloat(Upcoming(todo)[0].valueDouble)
  {
    rest := todo;
    while rest != []
      invariant Upcoming(rest) == Upcoming(todo)
      decreases Work(rest)
    {
      var v, others := rest[0], rest[1..];
      assert rest == [v] + others;
      if v.value.Obj? || v.value.Arr? {
        OpeningKeepsUpcoming(v, others);
        rest := Opened(v) + others;
      } else {
        var metric := ScalarToMetric(v.path, v.value);
        if metric.Some? && !HeldByFloat(metric.value.valueDouble) {
          return Overflowed, rest;
        }
        rest := others;
        if metric.Some? {
          return Next(metric.value), rest;
        }
      }
    }
    pulled := Exhausted;
  }
}
