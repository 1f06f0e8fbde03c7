/** Refreshing the continuous aggregates of days that received late telemetry, while writers go on adding some. */
module LateRefresh {
  import opened Wrappers
  import opened HistorianTables
  import opened PersistLaws
  import opened HistorianDatabase

  datatype RefreshClaim = RefreshClaim(day: int, generation: nat)

  /** A worker between its two transactions, or inside the second: how much of the raw table each view has read. */
  datatype Worker = Idle | Working(claim: RefreshClaim, read: seq<nat>)

  /** Views refreshed per claim: metrics by the minute and by the hour. */
  const VIEWS := 2

  datatype Refreshing = Refreshing(
    tables: Tables,
    workers: map<int, Worker>,
    covered: map<int, seq<nat>>,    // by day: how much of the raw table its last committed refresh had read
    marks: seq<RefreshClaim>)       // committed claims, oldest first

  const START := Refreshing(Tables([], [], map[], map[]), map[], map[], [])

  datatype Step =
    | Write(epoch: int, events: seq<ConsumedEvent>, maxMetricRows: nat)
    | Claim(worker: int, locked: set<int>)
    | RefreshView(worker: int)
    | Mark(worker: int)
    | Abort(worker: int)

  function Outdated(worklist: map<int, WorkItem>): set<int> {
    set day | day in worklist && worklist[day].processed < worklist[day].pending
  }

  lemma {:induction false} HasEarliest(days: set<int>)
    requires days != {}
    ensures exists day :: day in days && forall other :: other in days ==> day <= other
  {
    assert (forall day :: day !in days) ==> days == {};
    var some :| some in days;
    if days != {some} {
      assert days - {some} != {};
      HasEarliest(days - {some});
      var day :| day in days - {some} && forall other :: other in days - {some} ==> day <= other;
      var least := if day < some then day else some;
      forall other | other in days ensures least <= other {
        assert other == some || other in days - {some};
      }
      assert least in days;
    }
  }

  function Earliest(days: set<int>): (day: int)
    requires days != {}
    ensures day in days && forall other :: other in days ==> day <= other
  {
    HasEarliest(days);
    var day :| day in days && forall other :: other in days ==> day <= other;
    day
  }

  /** The earliest outdated day whose row no one has locked, at its present generation. */
  function PendingClaim(worklist: map<int, WorkItem>, locked: set<int>): Option<RefreshClaim> {
    var days := Outdated(worklist) - locked;
    if days == {} then None else Some(RefreshClaim(Earliest(days), worklist[Earliest(days)].pending))
  }

  /** A claim is of the earliest day with a generation to process among those not locked, at the one that is pending. */
  lemma ClaimIff(worklist: map<int, WorkItem>, locked: set<int>)
    ensures PendingClaim(worklist, locked).None?
            <==> forall day :: day in worklist && worklist[day].processed < worklist[day].pending ==> day in locked
    ensures PendingClaim(worklist, locked).Some? ==>
              var claim := PendingClaim(worklist, locked).value;
              && claim.day in worklist && claim.day !in locked
              && worklist[claim.day].processed < claim.generation == worklist[claim.day].pending
              && forall d :: d in worklist && worklist[d].processed < worklist[d].pending && d !in locked ==>
                               claim.day <= d
  {
    assert forall day :: day in worklist && worklist[day].processed < worklist[day].pending && day !in locked ==>
                           day in Outdated(worklist) - locked;
  }

  /** Whether the guarded update finds its row. */
  predicate Marks(worklist: map<int, WorkItem>, claim: RefreshClaim) {
    && claim.day in worklist
    && worklist[claim.day].pending >= claim.generation
    && worklist[claim.day].processed < claim.generation
  }

  function Marked(worklist: map<int, WorkItem>, claim: RefreshClaim): map<int, WorkItem> {
    if Marks(worklist, claim) then worklist[claim.day := worklist[claim.day].(processed := claim.generation)]
        else worklist
  }

  function WorkerOf(s: Refreshing, id: int): Worker {
    if id in s.workers then s.workers[id] else Idle
  }

  function Next(s: Refreshing, step: Step): Refreshing {
    match step
    case Write(epoch, events, maxMetricRows) => s.(tables := Persist(s.tables, epoch, events, maxMetricRows).0)
    case Claim(id, locked) =>
      var claim := PendingClaim(s.tables.worklist, locked);
      if WorkerOf(s, id).Idle? && claim.Some? then s.(workers := s.workers[id := Working(claim.value, [])]) else s
    case RefreshView(id) =>
      (match WorkerOf(s, id)
       case Working(claim, read) =>
         if |read| < VIEWS then s.(workers := s.workers[id := Working(claim, read + [|s.tables.raw|])]) else s
       case Idle => s)
    case Mark(id) =>
      (match WorkerOf(s, id)
       case Working(claim, read) =>
         if |read| < VIEWS then s
         else
           var idle := s.(workers := s.workers[id := Idle]);
           if !Marks(s.tables.worklist, claim) then idle  // superseded: rolled back
           else idle.(tables := s.tables.(worklist := Marked(s.tables.worklist, claim)),
                      covered := s.covered[claim.day := read],
                      marks := s.marks + [claim])
       case Idle => s)
    case Abort(id) => s.(workers := s.workers[id := Idle])
  }

  function Run(steps: seq<Step>): Refreshing {
    if steps == [] then START else Next(Run(steps[..|steps| - 1]), steps[|steps| - 1])
  }

  // -------------------------------------------------------------------- invariant

  /** What was read had all the late rows the generation stands for. */
  ghost predicate ReadEnough(raw: seq<StoredRow>, claim: RefreshClaim, read: seq<nat>) {
    forall i :: 0 <= i < |read| ==> read[i] <= |raw| && claim.generation <= LateRows(raw[..read[i]], claim.day)
  }

  ghost predicate WorkerValid(t: Tables, worker: Worker) {
    worker.Working? ==>
      && worker.claim.generation <= Pending(t.worklist, worker.claim.day)
      && |worker.read| <= VIEWS
      && ReadEnough(t.raw, worker.claim, worker.read)
  }

  ghost predicate DayValid(s: Refreshing, day: int) {
    var processed := Processed(s.tables.worklist, day);
    && processed <= Pending(s.tables.worklist, day)
    && (processed > 0 ==> day in s.covered && |s.covered[day]| == VIEWS
                          && ReadEnough(s.tables.raw, RefreshClaim(day, processed), s.covered[day]))
  }

  /** Committed generations of a day ascend up to the processed one. */
  ghost predicate MarksAscend(s: Refreshing) {
    && (forall i, j :: 0 <= i < j < |s.marks| && s.marks[i].day == s.marks[j].day ==>
        s.marks[i].generation < s.marks[j].generation)
    && (forall i :: 0 <= i < |s.marks| ==> 0 < s.marks[i].generation <= Processed(s.tables.worklist, s.marks[i].day))
  }

  ghost predicate Inv(s: Refreshing) {
    && GenerationsCountLateRows(s.tables)
    && (forall id :: id in s.workers ==> WorkerValid(s.tables, s.workers[id]))
    && (forall day :: DayValid(s, day))
    && MarksAscend(s)
  }

  lemma ReadEnoughStays(raw: seq<StoredRow>, raw': seq<StoredRow>, claim: RefreshClaim, read: seq<nat>)
    requires ReadEnough(raw, claim, read) && raw <= raw'
    ensures ReadEnough(raw', claim, read)
  {
    forall i | 0 <= i < |read| ensures raw'[..read[i]] == raw[..read[i]] {
    }
  }

  lemma WriteKeepsInvariant(s: Refreshing, epoch: int, events: seq<ConsumedEvent>, maxMetricRows: nat)
    requires Inv(s)
    ensures Inv(Next(s, Write(epoch, events, maxMetricRows)))
  {
    var s' := Next(s, Write(epoch, events, maxMetricRows));
    var rows := RowsOf(events);
    if s'.tables == Projected(s.tables, epoch, rows) {
      RawTableAppendOnly(s.tables, epoch, rows);
      BatchKeepsGenerations(s.tables, epoch, rows);
      assert s.tables.raw <= s'.tables.raw;
      forall day ensures Pending(s.tables.worklist, day) <= Pending(s'.tables.worklist, day) {
        BumpLateCounts(s.tables.worklist, Inserted(s.tables, epoch, rows), day);
      }
      forall id | id in s'.workers ensures WorkerValid(s'.tables, s'.workers[id]) {
        if s.workers[id].Working? {
          ReadEnoughStays(s.tables.raw, s'.tables.raw, s.workers[id].claim, s.workers[id].read);
        }
      }
      forall day ensures DayValid(s', day) {
        assert DayValid(s, day);
        if Processed(s.tables.worklist, day) > 0 {
          ReadEnoughStays(s.tables.raw, s'.tables.raw, RefreshClaim(day, Processed(s.tables.worklist, day)),
              s.covered[day]);
        }
      }
    }
  }

  lemma RefreshKeepsInvariant(s: Refreshing, id: int)
    requires Inv(s)
    ensures Inv(Next(s, RefreshView(id)))
  {
    var s' := Next(s, RefreshView(id));
    assert s.tables.raw[..|s.tables.raw|] == s.tables.raw;
    if WorkerOf(s, id).Working? {
      assert Pending(s.tables.worklist, s.workers[id].claim.day) == LateRows(s.tables.raw, s.workers[id].claim.day);
    }
    forall day ensures DayValid(s', day) { assert DayValid(s, day); }
  }

  lemma MarkKeepsInvariant(s: Refreshing, id: int)
    requires Inv(s)
    ensures Inv(Next(s, Mark(id)))
  {
    var s' := Next(s, Mark(id));
    if s'.marks != s.marks {
      var claim := s.workers[id].claim;
      assert forall day :: Pending(s'.tables.worklist, day) == Pending(s.tables.worklist, day);
      assert forall day :: Processed(s'.tables.worklist, day)
                           == if day == claim.day then claim.generation else Processed(s.tables.worklist, day);
      assert WorkerValid(s.tables, s.workers[id]);
    }
    forall day ensures DayValid(s', day) { assert DayValid(s, day); }
  }

  lemma ClaimKeepsInvariant(s: Refreshing, id: int, locked: set<int>)
    requires Inv(s)
    ensures Inv(Next(s, Claim(id, locked)))
  {
    forall day ensures DayValid(Next(s, Claim(id, locked)), day) { assert DayValid(s, day); }
  }

  lemma StepKeepsInvariant(s: Refreshing, step: Step)
    requires Inv(s)
    ensures Inv(Next(s, step))
  {
    match step
    case Write(epoch, events, maxMetricRows) => WriteKeepsInvariant(s, epoch, events, maxMetricRows);
    case Claim(id, locked) => ClaimKeepsInvariant(s, id, locked);
    case RefreshView(id) => RefreshKeepsInvariant(s, id);
    case Mark(id) => MarkKeepsInvariant(s, id);
    case Abort(id) => forall day ensures DayValid(Next(s, step), day) { assert DayValid(s, day); }
  }

  lemma {:induction false} RunKeepsInvariant(steps: seq<Step>)
    ensures Inv(Run(steps))
  {
    if steps != [] {
      RunKeepsInvariant(steps[..|steps| - 1]);
      StepKeepsInvariant(Run(steps[..|steps| - 1]), steps[|steps| - 1]);
    }
  }

  // ---------------------------------------------------------------- whole runs

  lemma {:induction false} NoLateRowsAfter(raw: seq<StoredRow>, day: int, n: nat, i: nat)
    requires n <= i < |raw| && LateRows(raw[..n], day) >= LateRows(raw, day)
    ensures !(IsLate(raw[i]) && UtcDay(raw[i].time) == day)
  {
    var front := raw[..|raw| - 1];
    LateRowsConcat(raw[..n], raw[n..|raw| - 1], day);
    assert raw[..n] + raw[n..|raw| - 1] == front;
    if i < |raw| - 1 {
      assert front[..n] == raw[..n];
      NoLateRowsAfter(front, day, n, i);
    }
  }

  /**
   * Late refresh is never lost: in every run, when a day is not outdated, each of its late rows was there to be read
   * by every view in the day's last committed refresh.
   */
  lemma {:induction false} EveryLateRowIsCovered(steps: seq<Step>, day: int, i: nat)
    requires var t := Run(steps).tables;
             && Processed(t.worklist, day) == Pending(t.worklist, day)
             && i < |t.raw| && IsLate(t.raw[i]) && UtcDay(t.raw[i].time) == day
    ensures var s := Run(steps);
            && day in s.covered && |s.covered[day]| == VIEWS
            && forall view :: 0 <= view < VIEWS ==> i < s.covered[day][view]
  {
    var s := Run(steps);
    RunKeepsInvariant(steps);
    assert DayValid(s, day);
    if LateRows(s.tables.raw, day) == 0 {
      NoLateRowsAfter(s.tables.raw, day, 0, i);
      assert false;
    }
    forall view | 0 <= view < VIEWS ensures i < s.covered[day][view] {
      if s.covered[day][view] <= i {
        NoLateRowsAfter(s.tables.raw, day, s.covered[day][view], i);
        assert false;
      }
    }
  }

  /** In every run no claim is committed twice, and no generation is processed that is not pending. */
  lemma {:induction false} ClaimsCommitOnce(steps: seq<Step>, day: int)
    ensures var s := Run(steps);
            && Processed(s.tables.worklist, day) <= Pending(s.tables.worklist, day)
            && forall i, j :: 0 <= i < j < |s.marks| ==> s.marks[i] != s.marks[j]
  {
    RunKeepsInvariant(steps);
    assert DayValid(Run(steps), day);
  }

  /**
   * In every run a worker's update misses its row exactly when a claim of that generation or a later one was
   * committed.
   */
  lemma {:induction false} SupersededExactlyByNewerClaim(steps: seq<Step>, id: int)
    requires WorkerOf(Run(steps), id).Working?
    ensures var s := Run(steps);
            var claim := WorkerOf(s, id).claim;
            !Marks(s.tables.worklist, claim) <==> claim.generation <= Processed(s.tables.worklist, claim.day)
  {
    RunKeepsInvariant(steps);
  }

  // ----------------------------------------------------------------- catching up

  /** One run of an idle worker, from the claim to the mark, nobody else locking rows. */
  function Round(id: int): seq<Step> {
    [Claim(id, {}), RefreshView(id), RefreshView(id), Mark(id)]
  }

  /** A worker gives up what it was at and runs so many times. */
  function Rounds(id: int, n: nat): seq<Step> {
    if n == 0 then [Abort(id)] else Rounds(id, n - 1) + Round(id)
  }

  lemma RunSnoc(steps: seq<Step>, step: Step)
    ensures Run(steps + [step]) == Next(Run(steps), step)
  {
    assert (steps + [step])[..|steps|] == steps;
  }

  function AfterRound(s: Refreshing, id: int): Refreshing {
    Next(Next(Next(Next(s, Claim(id, {})), RefreshView(id)), RefreshView(id)), Mark(id))
  }

  lemma RunRound(steps: seq<Step>, id: int)
    ensures Run(steps + Round(id)) == AfterRound(Run(steps), id)
  {
    var one := steps + [Claim(id, {})];
    var two := one + [RefreshView(id)];
    var three := two + [RefreshView(id)];
    RunSnoc(steps, Claim(id, {}));
    RunSnoc(one, RefreshView(id));
    RunSnoc(two, RefreshView(id));
    RunSnoc(three, Mark(id));
    assert three + [Mark(id)] == steps + Round(id);
  }

  /** The worker is idle, with so many outdated days fewer than there were, if there were as many. */
  ghost predicate CaughtUp(s: Refreshing, s': Refreshing, id: int, n: nat) {
    var late := |Outdated(s.tables.worklist)|;
    && WorkerOf(s', id).Idle? && s'.tables.raw == s.tables.raw
    && |Outdated(s'.tables.worklist)| == if n < late then late - n else 0
  }

  lemma MarkingCatchesUp(worklist: map<int, WorkItem>, claim: RefreshClaim)
    requires claim.day in Outdated(worklist) && claim.generation == worklist[claim.day].pending
    ensures Marks(worklist, claim) && Outdated(Marked(worklist, claim)) == Outdated(worklist) - {claim.day}
  {
  }

  lemma RoundWithoutWork(s: Refreshing, id: int)
    requires WorkerOf(s, id).Idle? && Outdated(s.tables.worklist) == {}
    ensures AfterRound(s, id) == s
  {
    assert PendingClaim(s.tables.worklist, {}) == None;
  }

  lemma RoundWithWork(s: Refreshing, id: int, claim: RefreshClaim)
    requires WorkerOf(s, id).Idle? && PendingClaim(s.tables.worklist, {}) == Some(claim)
    requires Marks(s.tables.worklist, claim)
    ensures WorkerOf(AfterRound(s, id), id).Idle?
    ensures AfterRound(s, id).tables == s.tables.(worklist := Marked(s.tables.worklist, claim))
  {
    var claimed := Next(s, Claim(id, {}));
    assert WorkerOf(claimed, id) == Working(claim, []) && claimed.tables == s.tables;
    var read := Next(Next(claimed, RefreshView(id)), RefreshView(id));
    assert WorkerOf(read, id) == Working(claim, [|s.tables.raw|, |s.tables.raw|]) && read.tables == s.tables;
  }

  /** A round brings one outdated day up to date, if there is one. */
  lemma RoundCatchesUp(s: Refreshing, id: int)
    requires WorkerOf(s, id).Idle?
    ensures CaughtUp(s, AfterRound(s, id), id, 1)
  {
    var days := Outdated(s.tables.worklist);
    if days == {} {
      RoundWithoutWork(s, id);
    } else {
      assert days - {} == days;
      var claim := PendingClaim(s.tables.worklist, {}).value;
      MarkingCatchesUp(s.tables.worklist, claim);
      RoundWithWork(s, id, claim);
    }
  }

  lemma OneMoreRound(s: Refreshing, before: Refreshing, id: int, n: nat)
    requires CaughtUp(s, before, id, n)
    ensures CaughtUp(s, AfterRound(before, id), id, n + 1)
  {
    RoundCatchesUp(before, id);
  }

  lemma RunOneMoreRound(s: Refreshing, steps: seq<Step>, rounds: seq<Step>, id: int, n: nat)
    requires CaughtUp(s, Run(steps + rounds), id, n)
    ensures CaughtUp(s, Run(steps + (rounds + Round(id))), id, n + 1)
  {
    OneMoreRound(s, Run(steps + rounds), id, n);
    RunRound(steps + rounds, id);
    assert steps + rounds + Round(id) == steps + (rounds + Round(id));
  }

  lemma AbortCatchesUpNothing(steps: seq<Step>, id: int)
    ensures CaughtUp(Run(steps), Run(steps + [Abort(id)]), id, 0)
  {
    RunSnoc(steps, Abort(id));
  }

  /** Undisturbed, each round leaves one outdated day fewer: as many rounds as there are such days leave none. */
  lemma {:induction false} RoundsCatchUp(steps: seq<Step>, id: int, n: nat)
    ensures CaughtUp(Run(steps), Run(steps + Rounds(id, n)), id, n)
  {
    if n == 0 {
      AbortCatchesUpNothing(steps, id);
    } else {
      RoundsCatchUp(steps, id, n - 1);
      RunOneMoreRound(Run(steps), steps, Rounds(id, n - 1), id, n - 1);
    }
  }

  /** So from every reachable state some continuation covers every late row there is, in every view. */
  lemma {:induction false} EveryLateRowGetsCovered(steps: seq<Step>, id: int, day: int, i: nat)
    requires var raw := Run(steps).tables.raw;
             i < |raw| && IsLate(raw[i]) && UtcDay(raw[i].time) == day
    ensures var s' := Run(steps + Rounds(id, |Outdated(Run(steps).tables.worklist)|));
            && day in s'.covered && |s'.covered[day]| == VIEWS
            && forall view :: 0 <= view < VIEWS ==> i < s'.covered[day][view]
  {
    var n := |Outdated(Run(steps).tables.worklist)|;
    RoundsCatchUp(steps, id, n);
    ClaimsCommitOnce(steps + Rounds(id, n), day);
    assert day !in Outdated(Run(steps + Rounds(id, n)).tables.worklist);
    EveryLateRowIsCovered(steps + Rounds(id, n), day, i);
  }

  // -------------------------------------------------------------------- the worker

  class AggregateRefreshWorker {
    const database: Database
    var covered: map<int, seq<nat>>

    constructor (database: Database)
      ensures this.database == database && covered == map[]
    {
      this.database := database;
      covered := map[];
    }

    method ClaimPending(locked: set<int>) returns (claim: Option<RefreshClaim>)
      ensures claim == PendingClaim(database.worklist, locked)
    {
      claim := PendingClaim(database.worklist, locked);
    }

    /** One transaction: refresh every view, then the guarded update; a miss rolls everything back. */
    method RefreshOnce(claim: RefreshClaim) returns (ok: bool)
      modifies database`worklist, `covered
      ensures ok == Marks(old(database.worklist), claim)
      ensures ok <==>
              && claim.day in old(database.worklist)
              && old(database.worklist)[claim.day].processed < claim.generation
              && claim.generation <= old(database.worklist)[claim.day].pending
      ensures database.worklist == Marked(old(database.worklist), claim)
      ensures covered == if ok then old(covered)[claim.day := [|database.raw|, |database.raw|]] else old(covered)
    {
      var read: seq<nat> := [];
      for view := 0 to VIEWS
        invariant |read| == view && forall i :: 0 <= i < view ==> read[i] == |database.raw|
      {
        read := read + [|database.raw|];
      }
      assert read == [|database.raw|, |database.raw|];
      ok := Marks(database.worklist, claim);
      if ok {
        database.worklist := Marked(database.worklist, claim);
        covered := covered[claim.day := read];
      }
    }

    /** Undisturbed, it brings the earliest outdated day up to date, and leaves every other day as it is. */
    method RunOnce() returns (worked: bool)
      modifies database`worklist, `covered
      ensures worked == (old(Outdated(database.worklist)) != {})
      ensures !worked ==> database.worklist == old(database.worklist)
      ensures worked ==>
                var day := Earliest(old(Outdated(database.worklist)));
                && Outdated(database.worklist) == old(Outdated(database.worklist)) - {day}
                && Processed(database.worklist, day) == Pending(database.worklist, day)
                && database.worklist - {day} == old(database.worklist) - {day}
    {
      var claim := ClaimPending({});
      assert Outdated(database.worklist) - {} == Outdated(database.worklist);
      if claim.None? {
        return false;
      }
      var ok := RefreshOnce(claim.value);
      worked := true;
    }
  }
}
