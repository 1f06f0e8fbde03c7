/** The bounded owner of MQTT deliveries on their way to Kafka, with manual acknowledgement. */
module Ingestion {
  import opened Wrappers
  import opened Splitting
  import opened Events
  import opened Ingress

  datatype ReceiptToken = ReceiptToken(generation: nat, packetId: int, qos: int)

  datatype Target = Historic | Dlq

  /** A delivery remembers which call admitted it. */
  datatype PendingDelivery = PendingDelivery(token: ReceiptToken, byteSize: nat, target: Target, call: nat)

  /** What happened, for the statements about whole runs. `call` numbers the calls of `ingest_qos1`. */
  datatype Fact =
    | Received(call: nat, token: ReceiptToken, receipt: Receipt)
    | Admitted(delivery: nat, call: nat)
    | Delivered(delivery: nat, success: bool)
    | Excluded(call: nat)
    | Acked(call: nat, token: ReceiptToken)
    | Reconnected

  datatype Owner = Owner(
    generation: nat,
    ready: bool,
    disconnectRequested: bool,
    qos0Delivered: nat,
    pendingRecords: int,
    pendingBytes: int,
    backoff: real,
    halted: bool,
    haltReason: Option<RejectReason>,
    pending: map<nat, PendingDelivery>,
    nextDelivery: nat,              // delivery ids are fresh UUIDs
    calls: nat,
    history: seq<Fact>)

  const START := Owner(1, true, false, 0, 0, 0, 0.0, false, None, map[], 0, 0, [])

  /** A delivery callback that the producer runs. */
  datatype Callback = Callback(delivery: nat, success: bool)

  /**
   * What `publish_event` does: refuse for lack of buffer space, before it polls; accept and, polling, run callbacks of
   * any deliveries, its own among them; or fail in another way.
   */
  datatype Publish = BufferFull | Accepted(callbacks: seq<Callback>) | Failed

  /** How a call ends for its caller: it returns, or an exception comes out of it. */
  datatype Exit = Returned | WrongQos | IngressRaised | EncodingRaised | PublishRaised

  // ---------------------------------------------------------------------- deliveries

  function Record(o: Owner, fact: Fact): Owner {
    o.(history := o.history + [fact])
  }

  function Forget(o: Owner, id: nat): Owner
    requires id in o.pending
  {
    o.(pending := o.pending - {id},
       pendingRecords := o.pendingRecords - 1, pendingBytes := o.pendingBytes - o.pending[id].byteSize)
  }

  function Backpressured(o: Owner): Owner {
    o.(ready := false, disconnectRequested := true)
  }

  function CompleteDelivery(o: Owner, id: nat, success: bool): Owner {
    if id !in o.pending then o
    else
      var delivery := o.pending[id];
      var done := Record(Forget(o, id), Delivered(id, success));
      if !success then Backpressured(done)
      else if delivery.token.generation != o.generation then done
      else Record(done, Acked(delivery.call, delivery.token))
  }

  function RunCallbacks(o: Owner, callbacks: seq<Callback>): Owner {
    if callbacks == [] then o
    else
      var n := |callbacks| - 1;
      CompleteDelivery(RunCallbacks(o, callbacks[..n]), callbacks[n].delivery, callbacks[n].success)
  }

  predicate HasRoom(o: Owner, cfg: Config, byteSize: nat) {
    o.pendingRecords + 1 <= cfg.pendingRecordLimit && o.pendingBytes + byteSize <= cfg.pendingByteLimit
  }

  function Admit(o: Owner, token: ReceiptToken, byteSize: nat, target: Target, call: nat): Owner {
    o.(pendingRecords := o.pendingRecords + 1, pendingBytes := o.pendingBytes + byteSize,
       nextDelivery := o.nextDelivery + 1,
       pending := o.pending[o.nextDelivery := PendingDelivery(token, byteSize, target, call)],
       history := o.history + [Admitted(o.nextDelivery, call)])
  }

  /** Reserve, admit, publish. Only a full buffer undoes the admission; any other failure leaves it and comes out. */
  function BeginDelivery(
      o: Owner, cfg: Config, token: ReceiptToken, byteSize: nat, target: Target, call: nat, publish: Publish)
    : (Owner, Exit)
  {
    if !HasRoom(o, cfg, byteSize) then (Backpressured(o), Returned)
    else
      var admitted := Admit(o, token, byteSize, target, call);
      match publish
      case BufferFull => (Backpressured(Forget(admitted, o.nextDelivery)), Returned)
      case Accepted(callbacks) => (RunCallbacks(admitted, callbacks), Returned)
      case Failed => (admitted, PublishRaised)
  }

  // ------------------------------------------------------------------------- ingest

  /** The bytes of the record to publish; none when there is none, or encoding it or its key raises. */
  function WireSize(out: Outside, r: Receipt, outcome: Outcome): Option<nat> {
    match outcome
    case Archive(e) => if EventKey(e).Ok? then out.encodedSize(ToWire(e)) else None
    case Reject(reason) =>
      var size := out.rejectionSize(reason, r.topic, r.payload);
      if size > MAX_REJECTION_BYTES then None else Some(size)
    case _ => None
  }

  function TargetOf(outcome: Outcome): Target {
    if outcome.Archive? then Historic else Dlq
  }

  /** What a call does with the outcome of its message. */
  function Settle(
      o: Owner, cfg: Config, token: ReceiptToken, call: nat, outcome: Outcome, size: Option<nat>, publish: Publish)
    : (Owner, Exit)
  {
    match outcome
    case Exclude => (Record(Record(o, Excluded(call)), Acked(call, token)), Returned)
    case Unarchivable(reason) => (Backpressured(o.(halted := true, haltReason := Some(reason))), Returned)
    case Raise => (o, IngressRaised)
    case _ =>
      if size.None? then (o, EncodingRaised)
      else BeginDelivery(o, cfg, token, size.value, TargetOf(outcome), call, publish)
  }

  predicate Takes(o: Owner, token: ReceiptToken, r: Receipt) {
    token.qos == 1 && token.generation == o.generation && IsHistoricEventTopic(r.topic) && !o.halted
  }

  function Receive(o: Owner, token: ReceiptToken, r: Receipt): Owner {
    Record(o.(calls := o.calls + 1), Received(o.calls, token, r))
  }

  function IngestQos1(
      o: Owner, out: Outside, cfg: Config, token: ReceiptToken, r: Receipt, publish: Publish): (Owner, Exit)
  {
    if token.qos != 1 then (o, WrongQos)
    else if !Takes(o, token, r) then (o, Returned)
    else if !o.ready then (Backpressured(o), Returned)
    else
      var outcome := ResolveIngress(out, cfg, r);
      Settle(Receive(o, token, r), cfg, token, o.calls, outcome, WireSize(out, r, outcome), publish)
  }

  /** Best effort: nothing is pending for it, but publishing still polls. Only a rejection too long is let go. */
  function PublishUntracked(o: Owner, outcome: Outcome, size: Option<nat>, publish: Publish): (Owner, Exit) {
    if outcome.Raise? then (o, IngressRaised)
    else if size.None? then (o, if outcome.Archive? then EncodingRaised else Returned)
    else if !publish.Accepted? then (o, PublishRaised)
    else
      var polled := RunCallbacks(o, publish.callbacks);
      (if outcome.Archive? then polled.(qos0Delivered := polled.qos0Delivered + 1) else polled, Returned)
  }

  function IngestQos0(o: Owner, out: Outside, cfg: Config, r: Receipt, publish: Publish): (Owner, Exit) {
    if !IsHistoricEventTopic(r.topic) || !o.ready || o.halted then (o, Returned)
    else
      var outcome := ResolveIngress(out, cfg, r);
      PublishUntracked(o, outcome, WireSize(out, r, outcome), publish)
  }

  function Max(a: real, b: real): real { if a > b then a else b }
  function Min(a: real, b: real): real { if a < b then a else b }

  function OnReconnect(o: Owner, jitter: real): Owner {
    var doubled := if o.backoff * 2.0 == 0.0 then 1.0 else o.backoff * 2.0;
    Record(o.(generation := o.generation + 1, backoff := Min(60.0, Max(1.0, doubled) * (0.5 + jitter))), Reconnected)
  }

  // --------------------------------------------------------------------------- runs

  datatype Step =
    | Qos1(token: ReceiptToken, receipt: Receipt, publish: Publish)
    | Qos0(receipt: Receipt, publish: Publish)
    | Poll(callback: Callback)
    | Reconnect(jitter: real)

  function Next(o: Owner, out: Outside, cfg: Config, step: Step): Owner {
    match step
    case Qos1(token, receipt, publish) => IngestQos1(o, out, cfg, token, receipt, publish).0
    case Qos0(receipt, publish) => IngestQos0(o, out, cfg, receipt, publish).0
    case Poll(callback) => CompleteDelivery(o, callback.delivery, callback.success)
    case Reconnect(jitter) => OnReconnect(o, jitter)
  }

  function Run(out: Outside, cfg: Config, steps: seq<Step>): Owner {
    if steps == [] then START else Next(Run(out, cfg, steps[..|steps| - 1]), out, cfg, steps[|steps| - 1])
  }

  // ------------------------------------------------------------- counters and limits

  /** The sizes of the pending deliveries with ids below a bound. */
  function PendingSum(pending: map<nat, PendingDelivery>, bound: nat): nat {
    if bound == 0 then 0
    else PendingSum(pending, bound - 1) + if bound - 1 in pending then pending[bound - 1].byteSize else 0
  }

  lemma {:induction false} SumWithout(pending: map<nat, PendingDelivery>, id: nat, bound: nat)
    requires id in pending
    ensures PendingSum(pending - {id}, bound)
            == PendingSum(pending, bound) - if id < bound then pending[id].byteSize else 0
  {
    if bound > 0 { SumWithout(pending, id, bound - 1); }
  }

  lemma {:induction false} SumWith(pending: map<nat, PendingDelivery>, id: nat, delivery: PendingDelivery, bound: nat)
    requires id >= bound
    ensures PendingSum(pending[id := delivery], bound) == PendingSum(pending, bound)
  {
    if bound > 0 { SumWith(pending, id, delivery, bound - 1); }
  }

  /** The counters are those of the pending map, which stays within the limits. */
  ghost predicate Accounted(o: Owner, cfg: Config) {
    && (forall id :: id in o.pending ==> id < o.nextDelivery)
    && o.pendingRecords == |o.pending|
    && o.pendingBytes == PendingSum(o.pending, o.nextDelivery)
    && (o.pending != map[] ==> o.pendingRecords <= cfg.pendingRecordLimit && o.pendingBytes <= cfg.pendingByteLimit)
  }

  /** `o'` has lost pending deliveries at most, and cannot have become ready. */
  ghost predicate Shrunk(o: Owner, o': Owner) {
    && o'.pending.Keys <= o.pending.Keys && (forall id :: id in o'.pending ==> o'.pending[id] == o.pending[id])
    && (o'.ready ==> o.ready) && (o.halted ==> o'.halted)
  }

  lemma ForgetAccounts(o: Owner, cfg: Config, id: nat)
    requires Accounted(o, cfg) && id in o.pending
    ensures Accounted(Forget(o, id), cfg)
  {
    SumWithout(o.pending, id, o.nextDelivery);
    assert o.pending == (o.pending - {id})[id := o.pending[id]];
    assert |o.pending.Keys - {id}| == |o.pending| - 1;
    assert (o.pending - {id}).Keys == o.pending.Keys - {id};
  }

  lemma CompletionAccounts(o: Owner, cfg: Config, id: nat, success: bool)
    requires Accounted(o, cfg)
    ensures Accounted(CompleteDelivery(o, id, success), cfg) && Shrunk(o, CompleteDelivery(o, id, success))
  {
    if id in o.pending { ForgetAccounts(o, cfg, id); }
  }

  lemma {:induction false} CallbacksAccount(o: Owner, cfg: Config, callbacks: seq<Callback>)
    requires Accounted(o, cfg)
    ensures Accounted(RunCallbacks(o, callbacks), cfg) && Shrunk(o, RunCallbacks(o, callbacks))
  {
    if callbacks != [] {
      var n := |callbacks| - 1;
      CallbacksAccount(o, cfg, callbacks[..n]);
      CompletionAccounts(RunCallbacks(o, callbacks[..n]), cfg, callbacks[n].delivery, callbacks[n].success);
    }
  }

  lemma AdmissionAccounts(o: Owner, cfg: Config, token: ReceiptToken, size: nat, target: Target, call: nat)
    requires Accounted(o, cfg) && HasRoom(o, cfg, size)
    ensures Accounted(Admit(o, token, size, target, call), cfg)
  {
    var delivery := PendingDelivery(token, size, target, call);
    SumWith(o.pending, o.nextDelivery, delivery, o.nextDelivery);
    assert o.pending[o.nextDelivery := delivery].Keys == o.pending.Keys + {o.nextDelivery};
  }

  lemma {:induction false} CallbacksKeepTheRest(o: Owner, callbacks: seq<Callback>)
    ensures RunCallbacks(o, callbacks).halted == o.halted
    ensures RunCallbacks(o, callbacks).generation == o.generation
    ensures RunCallbacks(o, callbacks).backoff == o.backoff
  {
    if callbacks != [] { CallbacksKeepTheRest(o, callbacks[..|callbacks| - 1]); }
  }

  lemma DeliveryAccounts(
      o: Owner, cfg: Config, token: ReceiptToken, size: nat, target: Target, call: nat, publish: Publish)
    requires Accounted(o, cfg)
    ensures Accounted(BeginDelivery(o, cfg, token, size, target, call, publish).0, cfg)
    ensures var o' := BeginDelivery(o, cfg, token, size, target, call, publish).0;
            o'.halted == o.halted && (o'.ready ==> o.ready)
  {
    if HasRoom(o, cfg, size) {
      AdmissionAccounts(o, cfg, token, size, target, call);
      var admitted := Admit(o, token, size, target, call);
      match publish
      case BufferFull => ForgetAccounts(admitted, cfg, o.nextDelivery);
      case Accepted(callbacks) => CallbacksAccount(admitted, cfg, callbacks); CallbacksKeepTheRest(admitted, callbacks);
      case Failed =>
    }
  }

  /** What a step keeps: the accounts, and, without readiness, the pending deliveries that are left. */
  ghost predicate Kept(o: Owner, o': Owner, cfg: Config) {
    && Accounted(o', cfg)
    && (o'.ready ==> o.ready) && (o.halted ==> o'.halted) && (o'.halted ==> !o'.ready)
    && (!o.ready ==> Shrunk(o, o'))
  }

  lemma SettlementAccounts(
      o: Owner, cfg: Config, token: ReceiptToken, call: nat, outcome: Outcome, size: Option<nat>, publish: Publish)
    requires Accounted(o, cfg) && o.ready && !o.halted
    ensures Kept(o, Settle(o, cfg, token, call, outcome, size, publish).0, cfg)
  {
    if size.Some? {
      DeliveryAccounts(o, cfg, token, size.value, TargetOf(outcome), call, publish);
    }
  }

  lemma Qos1Accounts(o: Owner, out: Outside, cfg: Config, token: ReceiptToken, r: Receipt, publish: Publish)
    requires Accounted(o, cfg) && (o.halted ==> !o.ready)
    ensures Kept(o, IngestQos1(o, out, cfg, token, r, publish).0, cfg)
  {
    if Takes(o, token, r) && o.ready {
      var outcome := ResolveIngress(out, cfg, r);
      SettlementAccounts(Receive(o, token, r), cfg, token, o.calls, outcome, WireSize(out, r, outcome), publish);
    }
  }

  lemma UntrackedAccounts(o: Owner, cfg: Config, outcome: Outcome, size: Option<nat>, publish: Publish)
    requires Accounted(o, cfg) && (o.halted ==> !o.ready)
    ensures Kept(o, PublishUntracked(o, outcome, size, publish).0, cfg)
  {
    if publish.Accepted? {
      CallbacksAccount(o, cfg, publish.callbacks);
      CallbacksKeepTheRest(o, publish.callbacks);
    }
  }

  lemma Qos0Accounts(o: Owner, out: Outside, cfg: Config, r: Receipt, publish: Publish)
    requires Accounted(o, cfg) && (o.halted ==> !o.ready)
    ensures Kept(o, IngestQos0(o, out, cfg, r, publish).0, cfg)
  {
    var outcome := ResolveIngress(out, cfg, r);
    UntrackedAccounts(o, cfg, outcome, WireSize(out, r, outcome), publish);
  }

  /** Every step, even one that ends in an exception, keeps the accounts; without readiness nothing is admitted. */
  lemma StepAccounts(o: Owner, out: Outside, cfg: Config, step: Step)
    requires Accounted(o, cfg) && (o.halted ==> !o.ready)
    ensures Kept(o, Next(o, out, cfg, step), cfg)
  {
    match step
    case Qos1(token, r, publish) => Qos1Accounts(o, out, cfg, token, r, publish);
    case Qos0(r, publish) => Qos0Accounts(o, out, cfg, r, publish);
    case Poll(callback) => CompletionAccounts(o, cfg, callback.delivery, callback.success);
    case Reconnect(_) =>
  }

  /** In every run the counters equal the pending map's size and bytes, within the limits. */
  lemma {:induction false} EveryRunIsAccounted(out: Outside, cfg: Config, steps: seq<Step>)
    ensures var o := Run(out, cfg, steps);
            Accounted(o, cfg) && (o.halted ==> !o.ready)
  {
    if steps != [] {
      EveryRunIsAccounted(out, cfg, steps[..|steps| - 1]);
      StepAccounts(Run(out, cfg, steps[..|steps| - 1]), out, cfg, steps[|steps| - 1]);
    }
  }

  lemma RunSnoc(out: Outside, cfg: Config, steps: seq<Step>, step: Step)
    ensures Run(out, cfg, steps + [step]) == Next(Run(out, cfg, steps), out, cfg, step)
  {
    assert (steps + [step])[..|steps|] == steps;
  }

  /** Once not ready, always not ready, and from then on the pending deliveries only get fewer. */
  lemma {:induction false} NotReadyIsForGood(out: Outside, cfg: Config, steps: seq<Step>, more: seq<Step>)
    requires !Run(out, cfg, steps).ready
    ensures !Run(out, cfg, steps + more).ready
    ensures Shrunk(Run(out, cfg, steps), Run(out, cfg, steps + more))
  {
    if more == [] {
      assert steps + more == steps;
    } else {
      var before, step := more[..|more| - 1], more[|more| - 1];
      NotReadyIsForGood(out, cfg, steps, before);
      EveryRunIsAccounted(out, cfg, steps + before);
      StepAccounts(Run(out, cfg, steps + before), out, cfg, step);
      RunSnoc(out, cfg, steps + before, step);
      assert steps + more == steps + before + [step];
    }
  }

  lemma BackoffStep(o: Owner, jitter: real)
    requires 0.0 <= o.backoff <= 60.0 && 0.0 <= jitter < 1.0
    ensures 0.5 <= OnReconnect(o, jitter).backoff <= 60.0
  {
    var base := Max(1.0, if o.backoff * 2.0 == 0.0 then 1.0 else o.backoff * 2.0);
    assert base * (0.5 + jitter) >= 1.0 * 0.5;
  }

  /** The backoff doubles, from one second on, times half to one and a half, up to a minute. */
  lemma BackoffFormula(o: Owner, jitter: real)
    requires o.backoff >= 0.0
    ensures var next := (if o.backoff < 0.5 then 1.0 else 2.0 * o.backoff) * (0.5 + jitter);
            OnReconnect(o, jitter).backoff == if next < 60.0 then next else 60.0
    ensures OnReconnect(o, jitter).generation == o.generation + 1
  {
  }

  function Doubled(n: nat): real {
    if n == 0 then 1.0 else 2.0 * Doubled(n - 1)
  }

  lemma {:induction false} DoubledIsPositive(n: nat)
    ensures Doubled(n) >= 1.0
  {
    if n > 0 { DoubledIsPositive(n - 1); }
  }

  lemma BackoffDoublesOnce(o: Owner, d: real)
    requires d >= 1.0 && o.backoff == Min(60.0, d)
    ensures OnReconnect(o, 0.5).backoff == Min(60.0, 2.0 * d)
  {
  }

  /** Without jitter to either side the backoff doubles from one second on, up to a minute. */
  lemma {:induction false} BackoffDoubles(out: Outside, cfg: Config, n: nat)
    requires n > 0
    ensures var o := Run(out, cfg, seq(n, _ => Reconnect(0.5)));
            o.backoff == Min(60.0, Doubled(n - 1)) && o.generation == n + 1
  {
    var before := seq(n - 1, _ => Reconnect(0.5));
    assert seq(n, _ => Reconnect(0.5)) == before + [Reconnect(0.5)];
    RunSnoc(out, cfg, before, Reconnect(0.5));
    if n > 1 {
      BackoffDoubles(out, cfg, n - 1);
      DoubledIsPositive(n - 2);
      BackoffDoublesOnce(Run(out, cfg, before), Doubled(n - 2));
    } else {
      assert before == [];
    }
  }

  lemma SettlementKeepsBackoff(
      o: Owner, cfg: Config, token: ReceiptToken, call: nat, outcome: Outcome, size: Option<nat>, publish: Publish)
    ensures Settle(o, cfg, token, call, outcome, size, publish).0.backoff == o.backoff
  {
    if publish.Accepted? && size.Some? {
      CallbacksKeepTheRest(Admit(o, token, size.value, TargetOf(outcome), call), publish.callbacks);
    }
  }

  lemma OnlyReconnectsBackOff(o: Owner, out: Outside, cfg: Config, step: Step)
    ensures !step.Reconnect? ==> Next(o, out, cfg, step).backoff == o.backoff
  {
    match step
    case Qos1(token, r, publish) =>
      var outcome := ResolveIngress(out, cfg, r);
      SettlementKeepsBackoff(Receive(o, token, r), cfg, token, o.calls, outcome, WireSize(out, r, outcome), publish);
    case Qos0(r, publish) => if publish.Accepted? { CallbacksKeepTheRest(o, publish.callbacks); }
    case _ =>
  }

  /** The backoff is zero until the first reconnect and then between half a second and a minute. */
  lemma {:induction false} BackoffIsBounded(out: Outside, cfg: Config, steps: seq<Step>)
    requires forall step :: step in steps && step.Reconnect? ==> 0.0 <= step.jitter < 1.0
    ensures var o := Run(out, cfg, steps);
            if forall step :: step in steps ==> !step.Reconnect? then o.backoff == 0.0 else 0.5 <= o.backoff <= 60.0
  {
    if steps != [] {
      var before, step := steps[..|steps| - 1], steps[|steps| - 1];
      BackoffIsBounded(out, cfg, before);
      OnlyReconnectsBackOff(Run(out, cfg, before), out, cfg, step);
      assert forall other :: other in steps <==> other in before || other == step;
      if step.Reconnect? {
        BackoffStep(Run(out, cfg, before), step.jitter);
      }
    }
  }

  // ------------------------------------------------------------------- raising calls

  /** Archived under a Sparkplug topic too short for a partition key, or rejected with too much to encode. */
  predicate HasNoWireForm(out: Outside, cfg: Config, r: Receipt) {
    match ResolveIngress(out, cfg, r)
    case Archive(_) => "spBv1.0/" <= r.topic && !("spBv1.0/STATE/" <= r.topic) && |Split(r.topic, '/')| < 4
    case Reject(reason) => out.rejectionSize(reason, r.topic, r.payload) > MAX_REJECTION_BYTES
    case _ => false
  }

  /** A call raises before it reserves anything exactly on these messages. */
  predicate RaisesEarly(o: Owner, out: Outside, cfg: Config, token: ReceiptToken, r: Receipt) {
    token.qos != 1 || (Takes(o, token, r) && o.ready
        && (HasUnusablePart(out, cfg, r) || HasNoWireForm(out, cfg, r)))
  }

  lemma NoWireFormIff(out: Outside, cfg: Config, r: Receipt)
    ensures var outcome := ResolveIngress(out, cfg, r);
            (outcome.Archive? || outcome.Reject?) && WireSize(out, r, outcome).None? <==> HasNoWireForm(out, cfg, r)
  {
    if ResolveIngress(out, cfg, r).Archive? {
      ArchivedIsValid(out, cfg, r);
      if "spBv1.0/STATE/" <= r.topic {
        StateLevels(r.topic);
      }
    }
  }

  lemma Qos1RaisesIff(o: Owner, out: Outside, cfg: Config, token: ReceiptToken, r: Receipt, publish: Publish)
    ensures var exit := IngestQos1(o, out, cfg, token, r, publish).1;
            && (exit in {WrongQos, IngressRaised, EncodingRaised} <==> RaisesEarly(o, out, cfg, token, r))
            && (exit == PublishRaised <==>
                  && Takes(o, token, r) && o.ready && publish.Failed?
                  && var size := WireSize(out, r, ResolveIngress(out, cfg, r));
                  size.Some? && HasRoom(o, cfg, size.value))
  {
    UnusablePartIff(out, cfg, r);
    NoWireFormIff(out, cfg, r);
  }

  /**
   * A call that raises early has done no more than to be received: every field is as it was, nothing is acknowledged.
   */
  lemma EarlyRaiseLeavesOwner(o: Owner, out: Outside, cfg: Config, token: ReceiptToken, r: Receipt, publish: Publish)
    requires RaisesEarly(o, out, cfg, token, r)
    ensures var o' := IngestQos1(o, out, cfg, token, r, publish).0;
            o' == o || o' == Receive(o, token, r)
  {
    Qos1RaisesIff(o, out, cfg, token, r, publish);
  }

  lemma RaisingSettlement(
      o: Owner, cfg: Config, token: ReceiptToken, call: nat, outcome: Outcome, size: Option<nat>, publish: Publish)
    requires Settle(o, cfg, token, call, outcome, size, publish).1 == PublishRaised
    ensures size.Some?
    ensures Settle(o, cfg, token, call, outcome, size, publish).0
            == Admit(o, token, size.value, TargetOf(outcome), call)
  {
  }

  /** A publication that raises leaves its reservation: one record more, its bytes, and its delivery pending. */
  lemma FailedPublishStaysReserved(
      o: Owner, out: Outside, cfg: Config, token: ReceiptToken, r: Receipt, publish: Publish)
    requires IngestQos1(o, out, cfg, token, r, publish).1 == PublishRaised
    ensures var o' := IngestQos1(o, out, cfg, token, r, publish).0;
            var outcome := ResolveIngress(out, cfg, r);
            var size := WireSize(out, r, outcome);
            && size.Some?
            && o'.pending == o.pending[o.nextDelivery := PendingDelivery(token, size.value, TargetOf(outcome), o.calls)]
            && o'.pendingRecords == o.pendingRecords + 1 && o'.pendingBytes == o.pendingBytes + size.value
            && o'.ready && o'.history == o.history + [Received(o.calls, token, r)] + [Admitted(o.nextDelivery, o.calls)]
  {
    var outcome := ResolveIngress(out, cfg, r);
    RaisingSettlement(Receive(o, token, r), cfg, token, o.calls, outcome, WireSize(out, r, outcome), publish);
  }

  /** At QoS 0 any failure to publish comes out, a rejection too long does not; a call that raises changes nothing. */
  lemma Qos0RaisesIff(o: Owner, out: Outside, cfg: Config, r: Receipt, publish: Publish)
    ensures var (o', exit) := IngestQos0(o, out, cfg, r, publish);
            var outcome := ResolveIngress(out, cfg, r);
            && (exit != Returned <==>
                  && IsHistoricEventTopic(r.topic) && o.ready && !o.halted
                  && (|| HasUnusablePart(out, cfg, r)
                      || (outcome.Archive? && HasNoWireForm(out, cfg, r))
                      || ((outcome.Archive? || outcome.Reject?) && !HasNoWireForm(out, cfg, r) && !publish.Accepted?)))
            && (exit != Returned ==> o' == o)
  {
    UnusablePartIff(out, cfg, r);
    NoWireFormIff(out, cfg, r);
  }

  // ---------------------------------------------------------------- what a reservation waits for

  predicate Names(callbacks: seq<Callback>, id: nat) {
    exists i :: 0 <= i < |callbacks| && callbacks[i].delivery == id
  }

  /** Whether a callback for the delivery runs in a step. */
  predicate Reports(step: Step, id: nat) {
    match step
    case Qos1(_, _, publish) => publish.Accepted? && Names(publish.callbacks, id)
    case Qos0(_, publish) => publish.Accepted? && Names(publish.callbacks, id)
    case Poll(callback) => callback.delivery == id
    case Reconnect(_) => false
  }

  ghost predicate Holds(o: Owner, id: nat, delivery: PendingDelivery) {
    id in o.pending && o.pending[id] == delivery
  }

  lemma {:induction false} OtherCallbacksHold(o: Owner, callbacks: seq<Callback>, id: nat, delivery: PendingDelivery)
    requires Holds(o, id, delivery) && !Names(callbacks, id)
    ensures Holds(RunCallbacks(o, callbacks), id, delivery)
  {
    if callbacks != [] {
      var n := |callbacks| - 1;
      assert callbacks[n].delivery != id && !Names(callbacks[..n], id);
      OtherCallbacksHold(o, callbacks[..n], id, delivery);
    }
  }

  lemma SettlementHolds(
      o: Owner, cfg: Config, token: ReceiptToken, call: nat, outcome: Outcome, size: Option<nat>, publish: Publish,
      id: nat, delivery: PendingDelivery)
    requires Holds(o, id, delivery) && id < o.nextDelivery && !(publish.Accepted? && Names(publish.callbacks, id))
    ensures Holds(Settle(o, cfg, token, call, outcome, size, publish).0, id, delivery)
  {
    if publish.Accepted? && size.Some? {
      OtherCallbacksHold(Admit(o, token, size.value, TargetOf(outcome), call), publish.callbacks, id, delivery);
    }
  }

  lemma StepHolds(o: Owner, out: Outside, cfg: Config, step: Step, id: nat, delivery: PendingDelivery)
    requires Holds(o, id, delivery) && id < o.nextDelivery && !Reports(step, id)
    ensures Holds(Next(o, out, cfg, step), id, delivery)
  {
    match step
    case Qos1(token, r, publish) =>
      var outcome := ResolveIngress(out, cfg, r);
      SettlementHolds(Receive(o, token, r), cfg, token, o.calls, outcome, WireSize(out, r, outcome), publish, id,
          delivery);
    case Qos0(r, publish) => if publish.Accepted? { OtherCallbacksHold(o, publish.callbacks, id, delivery); }
    case _ =>
  }

  /** In every run a pending delivery holds its reservation until a callback reports it, and for good if none does. */
  lemma {:induction false} ReservationLasts(out: Outside, cfg: Config, steps: seq<Step>, more: seq<Step>, id: nat)
    requires id in Run(out, cfg, steps).pending
    requires forall i :: 0 <= i < |more| ==> !Reports(more[i], id)
    ensures Holds(Run(out, cfg, steps + more), id, Run(out, cfg, steps).pending[id])
  {
    if more == [] {
      assert steps + more == steps;
    } else {
      var before, step := more[..|more| - 1], more[|more| - 1];
      ReservationLasts(out, cfg, steps, before, id);
      EveryRunIsAccounted(out, cfg, steps + before);
      StepHolds(Run(out, cfg, steps + before), out, cfg, step, id, Run(out, cfg, steps).pending[id]);
      RunSnoc(out, cfg, steps + before, step);
      assert steps + more == steps + before + [step];
    }
  }

  // ------------------------------------------------------------------------ the owner

  lemma RunOneMore(o: Owner, callbacks: seq<Callback>, i: nat)
    requires i < |callbacks|
    ensures RunCallbacks(o, callbacks[..i + 1])
            == CompleteDelivery(RunCallbacks(o, callbacks[..i]), callbacks[i].delivery, callbacks[i].success)
  {
    assert callbacks[..i + 1][..i] == callbacks[..i];
  }

  class IngestionOwner {
    const out: Outside
    const cfg: Config
    var generation: nat
    var ready: bool
    var disconnectRequested: bool
    var qos0Delivered: nat
    var pendingRecords: int
    var pendingBytes: int
    var backoff: real
    var halted: bool
    var haltReason: Option<RejectReason>
    var pending: map<nat, PendingDelivery>
    var nextDelivery: nat
    var calls: nat
    ghost var history: seq<Fact>

    ghost function View(): Owner
      reads this
    {
      Owner(generation, ready, disconnectRequested, qos0Delivered, pendingRecords, pendingBytes, backoff,
            halted, haltReason, pending, nextDelivery, calls, history)
    }

    constructor (out: Outside, cfg: Config)
      ensures View() == START && this.out == out && this.cfg == cfg
    {
      this.out, this.cfg := out, cfg;
      generation, ready, disconnectRequested, qos0Delivered := 1, true, false, 0;
      pendingRecords, pendingBytes, backoff, halted, haltReason := 0, 0, 0.0, false, None;
      pending, nextDelivery, calls, history := map[], 0, 0, [];
    }

    method Reconnected(jitter: real)
      modifies this
      ensures View() == OnReconnect(old(View()), jitter)
    {
      generation := generation + 1;
      var doubled := backoff * 2.0;
      if doubled == 0.0 {
        doubled := 1.0;
      }
      backoff := Min(60.0, Max(1.0, doubled) * (0.5 + jitter));
      history := history + [Fact.Reconnected];
    }

    method MarkBackpressure()
      modifies this
      ensures View() == Backpressured(old(View()))
    {
      ready, disconnectRequested := false, true;
    }

    method ReservePending(byteSize: nat) returns (ok: bool)
      modifies this
      ensures ok == HasRoom(old(View()), cfg, byteSize)
      ensures View() == if ok then old(View()).(pendingRecords := old(pendingRecords) + 1,
                                                pendingBytes := old(pendingBytes) + byteSize)
                        else old(View())
    {
      if pendingRecords + 1 > cfg.pendingRecordLimit {
        return false;
      }
      if pendingBytes + byteSize > cfg.pendingByteLimit {
        return false;
      }
      pendingRecords, pendingBytes := pendingRecords + 1, pendingBytes + byteSize;
      ok := true;
    }

    method Drop(id: nat)
      requires id in pending
      modifies this
      ensures View() == Forget(old(View()), id)
    {
      pendingRecords, pendingBytes := pendingRecords - 1, pendingBytes - pending[id].byteSize;
      pending := pending - {id};
    }

    /** The delivery callback. The acknowledgement, if there is one, is returned for the MQTT client. */
    method Complete(id: nat, success: bool) returns (ack: Option<ReceiptToken>)
      modifies this
      ensures View() == CompleteDelivery(old(View()), id, success)
      ensures ack.Some? <==> |history| > |old(history)| && history[|history| - 1].Acked?
      ensures ack.Some? ==> ack.value == history[|history| - 1].token
      ensures ack == if id in old(pending) && success && old(pending)[id].token.generation == generation
                     then Some(old(pending)[id].token) else None
      ensures pending == old(pending) - {id}
      ensures id in old(pending) && !success ==> !ready && disconnectRequested
    {
      if id !in pending {
        return None;
      }
      var delivery := pending[id];
      Drop(id);
      history := history + [Delivered(id, success)];
      if !success {
        MarkBackpressure();
        return None;
      }
      if delivery.token.generation != generation {
        return None;
      }
      history := history + [Acked(delivery.call, delivery.token)];
      ack := Some(delivery.token);
    }

    /** What a poll inside `publish_event` runs. */
    method PollCallbacks(callbacks: seq<Callback>)
      modifies this
      ensures View() == RunCallbacks(old(View()), callbacks)
    {
      for i := 0 to |callbacks|
        invariant View() == RunCallbacks(old(View()), callbacks[..i])
      {
        RunOneMore(old(View()), callbacks, i);
        var _ := Complete(callbacks[i].delivery, callbacks[i].success);
      }
      assert callbacks[..|callbacks|] == callbacks;
    }

    method Enter(token: ReceiptToken, byteSize: nat, target: Target, call: nat) returns (id: nat)
      modifies this
      ensures id == old(nextDelivery)
      ensures View() == old(View()).(nextDelivery := id + 1, history := old(history) + [Admitted(id, call)],
                                     pending := old(pending)[id := PendingDelivery(token, byteSize, target, call)])
    {
      id := nextDelivery;
      nextDelivery := nextDelivery + 1;
      pending := pending[id := PendingDelivery(token, byteSize, target, call)];
      history := history + [Admitted(id, call)];
    }

    method Deliver(token: ReceiptToken, byteSize: nat, target: Target, call: nat, publish: Publish) returns (exit: Exit)
      modifies this
      ensures (View(), exit) == BeginDelivery(old(View()), cfg, token, byteSize, target, call, publish)
    {
      exit := Returned;
      var reserved := ReservePending(byteSize);
      if !reserved {
        MarkBackpressure();
        return;
      }
      var id := Enter(token, byteSize, target, call);
      match publish {
        case Accepted(callbacks) => PollCallbacks(callbacks);
        case BufferFull =>
          Drop(id);
          MarkBackpressure();
        case Failed => exit := PublishRaised;
      }
    }

    method Finish(
        token: ReceiptToken, call: nat, outcome: Outcome, size: Option<nat>, publish: Publish) returns (exit: Exit)
      modifies this
      ensures (View(), exit) == Settle(old(View()), cfg, token, call, outcome, size, publish)
    {
      exit := Returned;
      match outcome {
        case Exclude =>
          history := history + [Excluded(call)];
          history := history + [Acked(call, token)];
        case Unarchivable(reason) =>
          halted, haltReason := true, Some(reason);
          MarkBackpressure();
        case Raise => exit := IngressRaised;
        case _ =>
          if size.None? {
            return EncodingRaised;
          }
          exit := Deliver(token, size.value, TargetOf(outcome), call, publish);
      }
    }

    method Note(token: ReceiptToken, r: Receipt) returns (call: nat)
      modifies this
      ensures call == old(calls) && View() == Receive(old(View()), token, r)
    {
      call := calls;
      calls, history := calls + 1, history + [Received(calls, token, r)];
    }

    method Qos1(token: ReceiptToken, r: Receipt, publish: Publish) returns (exit: Exit)
      modifies this
      ensures (View(), exit) == IngestQos1(old(View()), out, cfg, token, r, publish)
    {
      if token.qos != 1 {
        return WrongQos;
      }
      if token.generation != generation || !IsHistoricEventTopic(r.topic) || halted {
        return Returned;
      }
      if !ready {
        MarkBackpressure();
        return Returned;
      }
      var call := Note(token, r);
      var outcome := ResolveIngress(out, cfg, r);
      exit := Finish(token, call, outcome, WireSize(out, r, outcome), publish);
    }

    method Untracked(outcome: Outcome, size: Option<nat>, publish: Publish) returns (exit: Exit)
      modifies this
      ensures (View(), exit) == PublishUntracked(old(View()), outcome, size, publish)
    {
      if outcome.Raise? {
        return IngressRaised;
      }
      if size.None? {
        return if outcome.Archive? then EncodingRaised else Returned;
      }
      if !publish.Accepted? {
        return PublishRaised;
      }
      PollCallbacks(publish.callbacks);
      if outcome.Archive? {
        qos0Delivered := qos0Delivered + 1;
      }
      exit := Returned;
    }

    method Qos0(r: Receipt, publish: Publish) returns (exit: Exit)
      modifies this
      ensures (View(), exit) == IngestQos0(old(View()), out, cfg, r, publish)
    {
      if !IsHistoricEventTopic(r.topic) || !ready || halted {
        return Returned;
      }
      var outcome := ResolveIngress(out, cfg, r);
      exit := Untracked(outcome, WireSize(out, r, outcome), publish);
    }
  }
}
