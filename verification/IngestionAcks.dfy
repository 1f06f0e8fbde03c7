/** Which MQTT acknowledgements the ingestion owner sends, over whole runs. */
module IngestionAcks {
  import opened Wrappers
  import opened Ingress
  import opened Ingestion

  /** The connection generation after a history: the first is 1 and each reconnect starts another. */
  function GenerationAfter(history: seq<Fact>): nat {
    if history == [] then 1
    else GenerationAfter(history[..|history| - 1]) + if history[|history| - 1].Reconnected? then 1 else 0
  }

  ghost predicate WasReceived(history: seq<Fact>, call: nat, token: ReceiptToken) {
    exists r :: Received(call, token, r) in history
  }

  ghost predicate WasAcked(history: seq<Fact>, call: nat) {
    exists token :: Acked(call, token) in history
  }

  ghost predicate WasDelivered(history: seq<Fact>, id: nat) {
    Delivered(id, true) in history || Delivered(id, false) in history
  }

  /** The last thing that happened allows the call to be acknowledged. */
  predicate Cleared(history: seq<Fact>, call: nat) {
    && history != []
    && var last := history[|history| - 1];
    || last == Excluded(call)
    || (last.Delivered? && last.success && Admitted(last.delivery, call) in history)
  }

  /** What must have happened, and what must not, before a fact. */
  ghost predicate Justified(out: Outside, cfg: Config, before: seq<Fact>, fact: Fact) {
    match fact
    case Acked(call, token) =>
      && token.qos == 1 && token.generation == GenerationAfter(before)
      && WasReceived(before, call, token) && !WasAcked(before, call) && Cleared(before, call)
    case Excluded(call) => exists token, r :: Received(call, token, r) in before && ResolveIngress(out, cfg, r).Exclude?
    case Admitted(id, call) =>
      exists token, r :: Received(call, token, r) in before && WireSize(out, r, ResolveIngress(out, cfg, r)).Some?
    case Delivered(id, _) => !WasDelivered(before, id)
    case Received(call, token, _) => token.generation == GenerationAfter(before)
    case Reconnected => true
  }

  ghost predicate AllJustified(out: Outside, cfg: Config, history: seq<Fact>) {
    history == [] ||
    var n := |history| - 1;
    AllJustified(out, cfg, history[..n]) && Justified(out, cfg, history[..n], history[n])
  }

  /** Calls and deliveries named so far are those numbered so far. */
  predicate Numbered(o: Owner, fact: Fact) {
    && (fact.Received? || fact.Admitted? || fact.Excluded? || fact.Acked? ==> fact.call < o.calls)
    && (fact.Admitted? || fact.Delivered? ==> fact.delivery < o.nextDelivery)
  }

  /** Where a pending delivery comes from, and that nothing has come of it yet. */
  ghost predicate TracedDelivery(history: seq<Fact>, id: nat, p: PendingDelivery) {
    && p.token.qos == 1 && WasReceived(history, p.call, p.token) && Admitted(id, p.call) in history
    && !WasAcked(history, p.call) && !WasDelivered(history, id)
  }

  ghost predicate Traced(o: Owner) {
    && o.generation == GenerationAfter(o.history)
    && (forall fact :: fact in o.history ==> Numbered(o, fact))
    && (forall id :: id in o.pending ==>
        TracedDelivery(o.history, id, o.pending[id]) && id < o.nextDelivery && o.pending[id].call < o.calls)
    && (forall i, j :: i in o.pending && j in o.pending && o.pending[i].call == o.pending[j].call ==> i == j)
  }

  ghost predicate Inv(o: Owner, out: Outside, cfg: Config) {
    AllJustified(out, cfg, o.history) && Traced(o)
  }

  lemma JustifiedSnoc(out: Outside, cfg: Config, history: seq<Fact>, fact: Fact)
    requires AllJustified(out, cfg, history) && Justified(out, cfg, history, fact)
    ensures AllJustified(out, cfg, history + [fact])
  {
    assert (history + [fact])[..|history|] == history;
  }

  lemma {:induction false} JustifiedAt(out: Outside, cfg: Config, history: seq<Fact>, k: nat)
    requires AllJustified(out, cfg, history) && k < |history|
    ensures Justified(out, cfg, history[..k], history[k])
  {
    var n := |history| - 1;
    if k < n {
      JustifiedAt(out, cfg, history[..n], k);
      assert history[..n][..k] == history[..k];
    }
  }

  lemma GenerationSnoc(history: seq<Fact>, fact: Fact)
    ensures GenerationAfter(history + [fact]) == GenerationAfter(history) + if fact.Reconnected? then 1 else 0
  {
  }

  /** A pending delivery stays traced past a fact that neither acknowledges its call nor completes it. */
  lemma TracedSnoc(history: seq<Fact>, fact: Fact, id: nat, p: PendingDelivery)
    requires TracedDelivery(history, id, p)
    requires !(fact.Acked? && fact.call == p.call) && !(fact.Delivered? && fact.delivery == id)
    ensures TracedDelivery(history + [fact], id, p)
  {
  }

  lemma NumberedSnoc(o: Owner, fact: Fact)
    requires (forall other :: other in o.history ==> Numbered(o, other)) && Numbered(o, fact)
    ensures forall other :: other in o.history + [fact] ==> Numbered(Record(o, fact), other)
  {
  }

  /** A fact that says nothing about the pending deliveries leaves them traced. */
  lemma RecordKeepsTraces(o: Owner, fact: Fact)
    requires Traced(o) && Numbered(o, fact) && !fact.Reconnected?
    requires forall id :: id in o.pending ==>
             !(fact.Acked? && fact.call == o.pending[id].call) && !(fact.Delivered? && fact.delivery == id)
    ensures Traced(Record(o, fact))
  {
    GenerationSnoc(o.history, fact);
    NumberedSnoc(o, fact);
    forall id | id in o.pending ensures TracedDelivery(o.history + [fact], id, o.pending[id]) {
      TracedSnoc(o.history, fact, id, o.pending[id]);
    }
  }

  lemma RecordKeepsInvariant(o: Owner, out: Outside, cfg: Config, fact: Fact)
    requires Inv(o, out, cfg) && Justified(out, cfg, o.history, fact) && Numbered(o, fact) && !fact.Reconnected?
    requires forall id :: id in o.pending ==>
             !(fact.Acked? && fact.call == o.pending[id].call) && !(fact.Delivered? && fact.delivery == id)
    ensures Inv(Record(o, fact), out, cfg)
  {
    JustifiedSnoc(out, cfg, o.history, fact);
    RecordKeepsTraces(o, fact);
  }

  lemma TracedSnocAcked(history: seq<Fact>, id: nat, p: PendingDelivery, success: bool)
    requires TracedDelivery(history, id, p)
    ensures var h := history + [Delivered(id, success)];
            WasReceived(h, p.call, p.token) && Admitted(id, p.call) in h && !WasAcked(h, p.call)
  {
  }

  lemma CompletionKeepsInvariant(o: Owner, out: Outside, cfg: Config, id: nat, success: bool)
    requires Inv(o, out, cfg)
    ensures Inv(CompleteDelivery(o, id, success), out, cfg)
  {
    if id in o.pending {
      var p := o.pending[id];
      var done := Record(Forget(o, id), Delivered(id, success));
      RecordKeepsInvariant(Forget(o, id), out, cfg, Delivered(id, success));
      if success && p.token.generation == o.generation {
        TracedSnocAcked(o.history, id, p, success);
        assert done.history[|done.history| - 1] == Delivered(id, true);
        RecordKeepsInvariant(done, out, cfg, Acked(p.call, p.token));
      }
    }
  }

  lemma {:induction false} CallbacksKeepInvariant(o: Owner, out: Outside, cfg: Config, callbacks: seq<Callback>)
    requires Inv(o, out, cfg)
    ensures Inv(RunCallbacks(o, callbacks), out, cfg)
  {
    if callbacks != [] {
      var n := |callbacks| - 1;
      CallbacksKeepInvariant(o, out, cfg, callbacks[..n]);
      CompletionKeepsInvariant(RunCallbacks(o, callbacks[..n]), out, cfg, callbacks[n].delivery, callbacks[n].success);
    }
  }

  /** The call has been received on this connection, and nothing has been done about it. */
  ghost predicate Open(o: Owner, call: nat, token: ReceiptToken) {
    && call < o.calls && token.qos == 1 && token.generation == o.generation
    && WasReceived(o.history, call, token) && !WasAcked(o.history, call)
    && forall id :: id in o.pending ==> o.pending[id].call != call
  }

  lemma CountingKeepsTraces(o: Owner)
    requires Traced(o)
    ensures Traced(o.(nextDelivery := o.nextDelivery + 1)) && Traced(o.(calls := o.calls + 1))
  {
  }

  lemma ReceiveOpens(o: Owner, out: Outside, cfg: Config, token: ReceiptToken, r: Receipt)
    requires Inv(o, out, cfg) && Takes(o, token, r)
    ensures Inv(Receive(o, token, r), out, cfg) && Open(Receive(o, token, r), o.calls, token)
    ensures Received(o.calls, token, r) in Receive(o, token, r).history
  {
    var counted := o.(calls := o.calls + 1);
    CountingKeepsTraces(o);
    RecordKeepsInvariant(counted, out, cfg, Received(o.calls, token, r));
    assert forall fact :: fact in o.history ==> Numbered(o, fact);
  }

  lemma NewDeliveryIsTraced(o: Owner, id: nat, p: PendingDelivery)
    requires Open(o, p.call, p.token) && !WasDelivered(o.history, id)
    ensures TracedDelivery(o.history + [Admitted(id, p.call)], id, p)
  {
  }

  lemma PendingOneMore(o: Owner, id: nat, p: PendingDelivery, records: int, bytes: int)
    requires Traced(o) && TracedDelivery(o.history, id, p) && id < o.nextDelivery && p.call < o.calls
    requires forall other :: other in o.pending ==> o.pending[other].call != p.call
    ensures Traced(o.(pending := o.pending[id := p], pendingRecords := records, pendingBytes := bytes))
  {
    var o' := o.(pending := o.pending[id := p], pendingRecords := records, pendingBytes := bytes);
    forall fact | fact in o'.history ensures Numbered(o', fact) { assert Numbered(o, fact); }
  }

  lemma AdmittedFactKeepsTraces(o: Owner, call: nat)
    requires Traced(o) && call < o.calls
    ensures Traced(Record(o.(nextDelivery := o.nextDelivery + 1), Admitted(o.nextDelivery, call)))
  {
    CountingKeepsTraces(o);
    RecordKeepsTraces(o.(nextDelivery := o.nextDelivery + 1), Admitted(o.nextDelivery, call));
  }

  lemma NextIdIsUnused(o: Owner)
    requires Traced(o)
    ensures !WasDelivered(o.history, o.nextDelivery)
  {
    forall fact | fact in o.history ensures !(fact.Delivered? && fact.delivery == o.nextDelivery) {
      assert Numbered(o, fact);
    }
  }

  lemma AdmissionKeepsTraces(o: Owner, token: ReceiptToken, size: nat, target: Target, call: nat)
    requires Traced(o) && Open(o, call, token)
    ensures Traced(Admit(o, token, size, target, call))
  {
    var id, p := o.nextDelivery, PendingDelivery(token, size, target, call);
    AdmittedFactKeepsTraces(o, call);
    NextIdIsUnused(o);
    NewDeliveryIsTraced(o, id, p);
    PendingOneMore(Record(o.(nextDelivery := id + 1), Admitted(id, call)), id, p, o.pendingRecords + 1,
        o.pendingBytes + size);
  }

  lemma AdmissionKeepsInvariant(
      o: Owner, out: Outside, cfg: Config, token: ReceiptToken, size: nat, target: Target, call: nat)
    requires Inv(o, out, cfg) && Open(o, call, token)
    requires Justified(out, cfg, o.history, Admitted(o.nextDelivery, call))
    ensures Inv(Admit(o, token, size, target, call), out, cfg)
  {
    AdmissionKeepsTraces(o, token, size, target, call);
    JustifiedSnoc(out, cfg, o.history, Admitted(o.nextDelivery, call));
  }

  lemma RollbackKeepsTraces(o: Owner, id: nat)
    requires Traced(o) && id in o.pending
    ensures Traced(Backpressured(Forget(o, id)))
  {
    forall fact | fact in o.history ensures Numbered(Backpressured(Forget(o, id)), fact) {
      assert Numbered(o, fact);
    }
  }

  lemma DeliveryKeepsInvariant(
      o: Owner, out: Outside, cfg: Config, token: ReceiptToken, size: nat, target: Target, call: nat, publish: Publish)
    requires Inv(o, out, cfg) && Open(o, call, token)
    requires Justified(out, cfg, o.history, Admitted(o.nextDelivery, call))
    ensures Inv(BeginDelivery(o, cfg, token, size, target, call, publish).0, out, cfg)
  {
    if HasRoom(o, cfg, size) {
      var admitted := Admit(o, token, size, target, call);
      AdmissionKeepsInvariant(o, out, cfg, token, size, target, call);
      match publish
      case Accepted(callbacks) => CallbacksKeepInvariant(admitted, out, cfg, callbacks);
      case BufferFull => RollbackKeepsTraces(admitted, o.nextDelivery);
      case Failed =>
    }
  }

  lemma ExclusionKeepsInvariant(o: Owner, out: Outside, cfg: Config, token: ReceiptToken, call: nat)
    requires Inv(o, out, cfg) && Open(o, call, token) && Justified(out, cfg, o.history, Excluded(call))
    ensures Inv(Record(Record(o, Excluded(call)), Acked(call, token)), out, cfg)
  {
    var excluded := Record(o, Excluded(call));
    RecordKeepsInvariant(o, out, cfg, Excluded(call));
    var r :| Received(call, token, r) in o.history;
    assert Received(call, token, r) in excluded.history;
    RecordKeepsInvariant(excluded, out, cfg, Acked(call, token));
  }

  lemma SettlementKeepsInvariant(
      o: Owner, out: Outside, cfg: Config, token: ReceiptToken, call: nat, r: Receipt, outcome: Outcome,
      size: Option<nat>, publish: Publish)
    requires Inv(o, out, cfg) && Open(o, call, token) && Received(call, token, r) in o.history
    requires outcome == ResolveIngress(out, cfg, r) && size == WireSize(out, r, outcome)
    ensures Inv(Settle(o, cfg, token, call, outcome, size, publish).0, out, cfg)
  {
    if outcome.Exclude? {
      ExclusionKeepsInvariant(o, out, cfg, token, call);
    } else if size.Some? {
      assert Justified(out, cfg, o.history, Admitted(o.nextDelivery, call));
      DeliveryKeepsInvariant(o, out, cfg, token, size.value, TargetOf(outcome), call, publish);
    }
  }

  lemma Qos1KeepsInvariant(o: Owner, out: Outside, cfg: Config, token: ReceiptToken, r: Receipt, publish: Publish)
    requires Inv(o, out, cfg)
    ensures Inv(IngestQos1(o, out, cfg, token, r, publish).0, out, cfg)
  {
    if Takes(o, token, r) && o.ready {
      var outcome := ResolveIngress(out, cfg, r);
      ReceiveOpens(o, out, cfg, token, r);
      SettlementKeepsInvariant(Receive(o, token, r), out, cfg, token, o.calls, r, outcome, WireSize(out, r, outcome),
          publish);
    }
  }

  lemma ReconnectKeepsInvariant(o: Owner, out: Outside, cfg: Config, jitter: real)
    requires Inv(o, out, cfg)
    ensures Inv(OnReconnect(o, jitter), out, cfg)
  {
    JustifiedSnoc(out, cfg, o.history, Reconnected);
    GenerationSnoc(o.history, Reconnected);
    forall id | id in o.pending ensures TracedDelivery(o.history + [Reconnected], id, o.pending[id]) {
      TracedSnoc(o.history, Reconnected, id, o.pending[id]);
    }
  }

  lemma StepKeepsInvariant(o: Owner, out: Outside, cfg: Config, step: Step)
    requires Inv(o, out, cfg)
    ensures Inv(Next(o, out, cfg, step), out, cfg)
  {
    match step
    case Qos1(token, r, publish) => Qos1KeepsInvariant(o, out, cfg, token, r, publish);
    case Qos0(r, publish) => if publish.Accepted? { CallbacksKeepInvariant(o, out, cfg, publish.callbacks); }
    case Poll(callback) => CompletionKeepsInvariant(o, out, cfg, callback.delivery, callback.success);
    case Reconnect(jitter) => ReconnectKeepsInvariant(o, out, cfg, jitter);
  }

  lemma {:induction false} EveryFactIsJustified(out: Outside, cfg: Config, steps: seq<Step>)
    ensures Inv(Run(out, cfg, steps), out, cfg)
  {
    if steps != [] {
      EveryFactIsJustified(out, cfg, steps[..|steps| - 1]);
      StepKeepsInvariant(Run(out, cfg, steps[..|steps| - 1]), out, cfg, steps[|steps| - 1]);
    }
  }

  // -------------------------------------------------------------------- whole runs

  /**
   * In every run, an acknowledgement carries the connection generation it is sent on and the token its call received,
   * and comes straight after a successful delivery of what that call admitted, or after the call's exclusion.
   */
  lemma {:induction false} AcksAreSafe(out: Outside, cfg: Config, steps: seq<Step>, k: nat)
    requires k < |Run(out, cfg, steps).history| && Run(out, cfg, steps).history[k].Acked?
    ensures var h := Run(out, cfg, steps).history;
            && h[k].token.generation == GenerationAfter(h[..k]) && WasReceived(h[..k], h[k].call, h[k].token)
            && k > 0
            && (|| h[k - 1] == Excluded(h[k].call)
                || (h[k - 1].Delivered? && h[k - 1].success && Admitted(h[k - 1].delivery, h[k].call) in h[..k]))
  {
    EveryFactIsJustified(out, cfg, steps);
    JustifiedAt(out, cfg, Run(out, cfg, steps).history, k);
  }

  /** In every run, each call is acknowledged at most once. */
  lemma OneAckPerCall(out: Outside, cfg: Config, steps: seq<Step>, i: nat, j: nat)
    requires var h := Run(out, cfg, steps).history;
             i < j < |h| && h[i].Acked? && h[j].Acked?
    ensures Run(out, cfg, steps).history[i].call != Run(out, cfg, steps).history[j].call
  {
    var h := Run(out, cfg, steps).history;
    EveryFactIsJustified(out, cfg, steps);
    JustifiedAt(out, cfg, h, j);
    assert h[i] == h[..j][i];
    assert Acked(h[i].call, h[i].token) in h[..j];
  }

  /** In every run, an excluded call's topic has an archive-ineligible route. */
  lemma ExclusionsFollowRoutes(
      out: Outside, cfg: Config, steps: seq<Step>, k: nat) returns (token: ReceiptToken, r: Receipt)
    requires k < |Run(out, cfg, steps).history| && Run(out, cfg, steps).history[k].Excluded?
    ensures var h := Run(out, cfg, steps).history;
            && Received(h[k].call, token, r) in h[..k]
            && RouteFor(cfg, r.topic).Some? && !RouteFor(cfg, r.topic).value.archiveEligible
  {
    var h := Run(out, cfg, steps).history;
    EveryFactIsJustified(out, cfg, steps);
    JustifiedAt(out, cfg, h, k);
    token, r :| Received(h[k].call, token, r) in h[..k] && ResolveIngress(out, cfg, r).Exclude?;
    ExcludedIff(out, cfg, r);
  }
}
