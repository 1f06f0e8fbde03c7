/** The two bounded memories in front of the asset model: the binder's seen topics and the resolver's answers. */
module TopicCaches {
  import opened Wrappers
  import opened TopicPaths
  import opened AssetModel
  import opened Lru

  // ------------------------------------------------------------------------ binder

  /** Topics remembered as bound, least recently used first, and topics whose binding is awaited. */
  datatype Binder = Binder(bound: seq<Entry<bool>>, inFlight: set<string>)

  predicate Remembers(b: Binder, topic: string) {
    Find(b.bound, topic).Some?
  }

  /** Up to the await: whether the repository is asked to bind. */
  function Observe(b: Binder, topic: string): (Binder, bool) {
    if Remembers(b, topic) then (b.(bound := Put(b.bound, topic, true)), false)
    else if topic in b.inFlight then (b, false)
    else (b.(inFlight := b.inFlight + {topic}), true)
  }

  /** After the await. A failed bind is not remembered. */
  function Observed(b: Binder, capacity: nat, topic: string, ok: bool): Binder {
    Binder(if ok then Trim(Put(b.bound, topic, true), capacity) else b.bound, b.inFlight - {topic})
  }

  function Forget(b: Binder, topic: Option<string>): Binder {
    b.(bound := if topic.None? then [] else Without(b.bound, topic.value))
  }

  /** How the transaction of a bind ends for the binder; it may be told of a failure after the commit. */
  datatype Outcome = Bound | Failed | FailedAfterCommit

  datatype Event =
    | Repository(step: Step)
    | Seen(topic: string)
    | Answered(topic: string, outcome: Outcome)
    | Forgotten(which: Option<string>)

  datatype Plant = Plant(model: Model, binder: Binder)

  function Happen(p: Plant, ranks: map<string, int>, capacity: nat, event: Event): Plant {
    match event
    case Repository(step) => p.(model := Next(p.model, ranks, step))
    case Seen(topic) => p.(binder := Observe(p.binder, topic).0)
    case Answered(topic, outcome) =>
      if topic !in p.binder.inFlight then p
      else
        var model := if outcome.Failed? then p.model else BindTopic(p.model, topic);
        Plant(model, Observed(p.binder, capacity, topic, outcome.Bound?))
    case Forgotten(which) => p.(binder := Forget(p.binder, which))
  }

  function History(start: Assets, nextId: nat, ranks: map<string, int>, capacity: nat, events: seq<Event>): Plant {
    if events == [] then Plant(Model(start, nextId, map[]), Binder([], {}))
    else Happen(History(start, nextId, ranks, capacity, events[..|events| - 1]), ranks, capacity, events[|events| - 1])
  }

  ghost predicate BinderValid(p: Plant, capacity: nat) {
    && |p.binder.bound| <= capacity && Distinct(p.binder.bound)
    && (forall entry :: entry in p.binder.bound ==> entry.key in p.model.bindings && entry.key !in p.binder.inFlight)
  }

  lemma StepKeepsTopics(m: Model, ranks: map<string, int>, step: Step)
    ensures m.bindings.Keys <= Next(m, ranks, step).bindings.Keys
  {
  }

  lemma SeenKeepsBinder(p: Plant, capacity: nat, topic: string)
    requires BinderValid(p, capacity)
    ensures BinderValid(p.(binder := Observe(p.binder, topic).0), capacity)
  {
    FindIff(p.binder.bound, topic);
    if Remembers(p.binder, topic) {
      PutKeepsDistinct(p.binder.bound, topic, true);
      PutKeepsSize(p.binder.bound, topic, true);
    } else {
      forall entry | entry in p.binder.bound ensures entry.key != topic {
        var i :| 0 <= i < |p.binder.bound| && p.binder.bound[i] == entry;
      }
    }
  }

  lemma AnswerKeepsBinder(p: Plant, capacity: nat, topic: string, outcome: Outcome)
    requires BinderValid(p, capacity)
    ensures BinderValid(Happen(p, map[], capacity, Answered(topic, outcome)), capacity)
  {
    if topic in p.binder.inFlight && outcome.Bound? {
      PutSurvives(p.binder.bound, topic, true, capacity);
    }
  }

  lemma ForgettingKeepsBinder(p: Plant, capacity: nat, topic: Option<string>)
    requires BinderValid(p, capacity)
    ensures BinderValid(p.(binder := Forget(p.binder, topic)), capacity)
  {
    if topic.Some? {
      WithoutKeepsOthers(p.binder.bound, topic.value);
      WithoutKeepsDistinct(p.binder.bound, topic.value);
      forall entry | entry in Without(p.binder.bound, topic.value) ensures entry in p.binder.bound {
      }
    }
  }

  /**
   * Whatever happens to the model and to binds in flight: a topic the binder remembers has a row, it remembers none
   * twice and no more than its capacity, and it never asks for a topic that is remembered or already asked for.
   */
  lemma {:induction false} RememberedTopicsAreBound(
      start: Assets, nextId: nat, ranks: map<string, int>, capacity: nat, events: seq<Event>)
    ensures BinderValid(History(start, nextId, ranks, capacity, events), capacity)
  {
    if events != [] {
      var front, last := events[..|events| - 1], events[|events| - 1];
      var p := History(start, nextId, ranks, capacity, front);
      RememberedTopicsAreBound(start, nextId, ranks, capacity, front);
      match last
      case Repository(step) => StepKeepsTopics(p.model, ranks, step);
      case Seen(topic) => SeenKeepsBinder(p, capacity, topic);
      case Answered(topic, outcome) => AnswerKeepsBinder(p, capacity, topic, outcome);
      case Forgotten(which) => ForgettingKeepsBinder(p, capacity, which);
    }
  }

  lemma PutRemembers(entries: seq<Entry<bool>>, topic: string, key: string)
    requires Find(entries, topic).Some?
    ensures Find(Put(entries, topic, true), key).Some? <==> Find(entries, key).Some?
  {
    var put := Put(entries, topic, true);
    FindIff(entries, key);
    FindIff(put, key);
    WithoutKeepsOthers(entries, topic);
    assert put[|put| - 1].key == topic;
    if key != topic {
      if Find(entries, key).Some? {
        var entry := Entry(key, Find(entries, key).value);
        assert entry in Without(entries, topic) && entry in put;
      }
      if Find(put, key).Some? {
        var entry := Entry(key, Find(put, key).value);
        assert entry in put && entry in Without(entries, topic) && entry in entries;
        var i :| 0 <= i < |entries| && entries[i] == entry;
      }
    }
  }

  /** A topic is asked for exactly when it is neither remembered nor asked for already; what is remembered stays so. */
  lemma AsksIff(b: Binder, topic: string)
    ensures Observe(b, topic).1 <==> (forall entry :: entry in b.bound ==> entry.key != topic) && topic !in b.inFlight
    ensures Observe(b, topic).0.inFlight == b.inFlight + if Observe(b, topic).1 then {topic} else {}
    ensures forall key :: Remembers(Observe(b, topic).0, key) <==> Remembers(b, key)
  {
    FindIff(b.bound, topic);
    forall key ensures Remembers(Observe(b, topic).0, key) <==> Remembers(b, key) {
      if Remembers(b, topic) {
        PutRemembers(b.bound, topic, key);
      }
    }
  }

  /** After any history, a topic that is seen and then bound has a row and is the most recent one remembered. */
  lemma SeenTopicsGetBound(
      start: Assets, nextId: nat, ranks: map<string, int>, capacity: nat, events: seq<Event>, topic: string)
    requires capacity > 0
    ensures var seen := History(start, nextId, ranks, capacity, events + [Seen(topic)]);
            var bound := Happen(seen, ranks, capacity, Answered(topic, Bound));
            && topic in bound.model.bindings
            && bound.binder.bound != [] && bound.binder.bound[|bound.binder.bound| - 1].key == topic
            && topic !in bound.binder.inFlight
  {
    var p := History(start, nextId, ranks, capacity, events);
    var seen := History(start, nextId, ranks, capacity, events + [Seen(topic)]);
    assert (events + [Seen(topic)])[..|events|] == events;
    RememberedTopicsAreBound(start, nextId, ranks, capacity, events + [Seen(topic)]);
    AsksIff(p.binder, topic);
    if topic in seen.binder.inFlight {
      PutSurvives(seen.binder.bound, topic, true, capacity);
    } else {
      FindIff(p.binder.bound, topic);
      var last := seen.binder.bound[|seen.binder.bound| - 1];
      assert last == Entry(topic, true) && last in seen.binder.bound;
    }
  }

  /** A remembered topic that is seen becomes the most recent one. */
  lemma SeenMovesToEnd(b: Binder, before: seq<Entry<bool>>, entry: Entry<bool>, after: seq<Entry<bool>>)
    requires b.bound == before + [entry] + after && Distinct(b.bound)
    ensures Observe(b, entry.key) == (b.(bound := before + after + [Entry(entry.key, true)]), false)
  {
    FindIff(b.bound, entry.key);
    assert b.bound[|before|] == entry;
    PutMovesToEnd(before, entry, after, true);
  }

  /** A bind that fails is asked for again the next time the topic is seen. */
  lemma FailedBindIsRetried(b: Binder, capacity: nat, topic: string)
    requires Observe(b, topic).1
    ensures Observe(Observed(Observe(b, topic).0, capacity, topic, false), topic).1
  {
  }

  /** A bound topic is remembered last, after those kept, oldest dropped first. */
  lemma BoundTopicIsLast(b: Binder, capacity: nat, topic: string)
    requires Observe(b, topic).1
    ensures var all := b.bound + [Entry(topic, true)];
            var kept := Observed(Observe(b, topic).0, capacity, topic, true).bound;
            |kept| == (if |all| > capacity then capacity else |all|) && kept == all[|all| - |kept|..]
  {
    PutAppends(b.bound, topic, true);
    TrimIsSuffix(b.bound + [Entry(topic, true)], capacity);
  }

  /** What is forgotten is asked for again; the rest stays remembered. */
  lemma ForgottenIsAskedFor(b: Binder, which: Option<string>, topic: string)
    requires topic !in b.inFlight
    ensures which == None || which == Some(topic) ==> Observe(Forget(b, which), topic).1
    ensures which.Some? && which != Some(topic) ==> Observe(Forget(b, which), topic).1 == Observe(b, topic).1
  {
    if which.Some? {
      var left := Without(b.bound, which.value);
      WithoutKeepsOthers(b.bound, which.value);
      FindIff(left, topic);
      FindIff(b.bound, topic);
      if Find(b.bound, topic).Some? && topic != which.value {
        assert Entry(topic, Find(b.bound, topic).value) in left;
      }
      if Find(left, topic).Some? {
        assert Entry(topic, Find(left, topic).value) in b.bound;
      }
    }
  }

  /** A failed bind leaves the model alone; a failure told after the commit leaves a row that is not remembered. */
  lemma FailureIsNotRemembered(p: Plant, ranks: map<string, int>, capacity: nat, topic: string)
    requires topic in p.binder.inFlight
    ensures var failed := Happen(p, ranks, capacity, Answered(topic, Failed));
            failed == p.(binder := p.binder.(inFlight := p.binder.inFlight - {topic}))
    ensures var late := Happen(p, ranks, capacity, Answered(topic, FailedAfterCommit));
            && topic in late.model.bindings && late.binder == p.binder.(inFlight := p.binder.inFlight - {topic})
            && late.model.bindings - {topic} == p.model.bindings - {topic}
            && late.model.assets == p.model.assets
  {
  }

  class TopicBinder {
    const capacity: nat
    var bound: seq<Entry<bool>>
    var inFlight: set<string>

    function View(): Binder
      reads this
    {
      Binder(bound, inFlight)
    }

    constructor (capacity: nat)
      ensures View() == Binder([], {}) && this.capacity == capacity
    {
      this.capacity := capacity;
      bound, inFlight := [], {};
    }

    /** A binder that could remember nothing is refused. */
    static method Create(capacity: int) returns (binder: Option<TopicBinder>)
      ensures binder.Some? <==> capacity >= 1
      ensures binder.Some? ==>
                && fresh(binder.value) && binder.value.View() == Binder([], {})
                && binder.value.capacity == capacity
    {
      if capacity < 1 {
        return None;
      }
      var created := new TopicBinder(capacity);
      binder := Some(created);
    }

    method BeginObserve(topic: string) returns (ask: bool)
      modifies this
      ensures (View(), ask) == Observe(old(View()), topic)
      ensures ask <==> Find(old(bound), topic).None? && topic !in old(inFlight)
    {
      if Find(bound, topic).Some? {
        bound := Put(bound, topic, true);
        return false;
      }
      if topic in inFlight {
        return false;
      }
      inFlight := inFlight + {topic};
      ask := true;
    }

    method EndObserve(topic: string, ok: bool)
      requires topic in inFlight
      modifies this
      ensures View() == Observed(old(View()), capacity, topic, ok)
    {
      if ok {
        bound := EvictOldest(Put(bound, topic, true), capacity);
      }
      inFlight := inFlight - {topic};
    }

    method ForgetTopic(topic: Option<string>)
      modifies `bound
      ensures View() == Forget(old(View()), topic)
    {
      bound := if topic.None? then [] else Without(bound, topic.value);
    }
  }

  // ---------------------------------------------------------------------- resolver

  /** An answer of the asset model: where it was loaded from is not looked into here. */
  datatype Answer<C> = Answer(at: real, context: C)

  /** A load of a topic. */
  datatype Loaded<C> = Loaded(topic: string, answer: Answer<C>)

  class TopicContextResolver<C> {
    const capacity: nat
    const ttl: real
    var cache: seq<Entry<Answer<C>>>
    ghost var loads: seq<Loaded<C>>  // every load so far

    /** Every cached answer was loaded for its topic. */
    ghost predicate Valid()
      reads this
    {
      && |cache| <= capacity && Distinct(cache)
      && forall entry :: entry in cache ==> Loaded(entry.key, entry.value) in loads
    }

    constructor (capacity: nat, ttl: real)
      ensures Valid() && cache == [] && loads == [] && this.capacity == capacity && this.ttl == ttl
    {
      this.capacity, this.ttl := capacity, ttl;
      cache, loads := [], [];
    }

    method Refresh()
      requires Valid()
      modifies `cache
      ensures Valid() && cache == []
    {
      cache := [];
    }

    /** A cached answer is one that was loaded for that topic, no longer ago than the time to live. */
    method GetCached(topic: string, now: real) returns (answer: Option<Answer<C>>)
      requires Valid()
      modifies `cache
      ensures Valid()
      ensures answer.Some? ==> Loaded(topic, answer.value) in loads && now - answer.value.at <= ttl
      ensures answer.Some? <==> Find(old(cache), topic).Some? && now - Find(old(cache), topic).value.at <= ttl
      ensures cache == Without(old(cache), topic) + (if answer.Some? then [Entry(topic, answer.value)] else [])
    {
      FindIff(cache, topic);
      answer := Find(cache, topic);
      WithoutKeepsOthers(cache, topic);
      WithoutKeepsDistinct(cache, topic);
      if answer.None? {
        WithoutAbsent(cache, topic);
        return;
      }
      if now - answer.value.at > ttl {
        cache := Without(cache, topic);
        return None;
      }
      PutKeepsDistinct(cache, topic, answer.value);
      PutKeepsSize(cache, topic, answer.value);
      cache := Put(cache, topic, answer.value);
    }

    method PutCached(topic: string, answer: Answer<C>)
      requires Valid() && Loaded(topic, answer) in loads
      modifies `cache
      ensures Valid()
      ensures var all := Without(old(cache), topic) + [Entry(topic, answer)];
              |cache| == (if |all| > capacity then capacity else |all|) && cache == all[|all| - |cache|..]
    {
      PutSurvives(cache, topic, answer, capacity);
      TrimIsSuffix(Put(cache, topic, answer), capacity);
      cache := EvictOldest(Put(cache, topic, answer), capacity);
    }

    /** The answer given was loaded for the topic, at the time of the call or within the time to live before it. */
    method Resolve(topic: string, now: real, load: C, loadedAt: real) returns (context: C)
      requires Valid() && now <= loadedAt
      modifies this
      ensures Valid()
      ensures (&& loads == old(loads)
               && exists answer ::
                    Loaded(topic, answer) in loads && answer.context == context && now - answer.at <= ttl)
              || (loads == old(loads) + [Loaded(topic, Answer(loadedAt, load))] && context == load)
      ensures loads == old(loads)
              <==> Find(old(cache), topic).Some? && now - Find(old(cache), topic).value.at <= ttl
    {
      var cached := GetCached(topic, now);
      if cached.Some? {
        return cached.value.context;
      }
      loads := loads + [Loaded(topic, Answer(loadedAt, load))];
      PutCached(topic, Answer(loadedAt, load));
      context := load;
    }
  }
}
