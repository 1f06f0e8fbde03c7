/** What follows on each delivery and each exclusion: the acknowledgements that are due do come. */
module IngestionAnswers {
  import opened Wrappers
  import opened Events
  import opened Ingress
  import opened Ingestion
  import opened IngestionAcks

  /** A delivery is admitted for one call, and a call receives one message. */
  ghost predicate Unambiguous(history: seq<Fact>) {
    && (forall id, c1, c2 :: Admitted(id, c1) in history && Admitted(id, c2) in history ==> c1 == c2)
    && (forall call, t1, r1, t2, r2 :: Received(call, t1, r1) in history && Received(call, t2, r2) in history ==>
          t1 == t2 && r1 == r2)
  }

  ghost predicate FollowedBy(history: seq<Fact>, k: int, fact: Fact) {
    0 <= k < |history| - 1 && history[k + 1] == fact
  }

  /**
   * A delivery is followed by the acknowledgement of its call if and only if it succeeded and its token is of the
   * connection there is; an exclusion is followed by that of its call.
   */
  ghost predicate Answers(history: seq<Fact>, k: nat)
    requires k < |history|
  {
    match history[k]
    case Delivered(id, success) =>
      forall call, token, r :: Admitted(id, call) in history[..k] && Received(call, token, r) in history[..k] ==>
        (FollowedBy(history, k, Acked(call, token))
         <==> success && token.generation == GenerationAfter(history[..k]))
    case Excluded(call) =>
      exists token, r :: Received(call, token, r) in history[..k] && FollowedBy(history, k, Acked(call, token))
    case _ => true
  }

  ghost predicate AllAnswered(history: seq<Fact>) {
    forall k :: 0 <= k < |history| ==> Answers(history, k)
  }

  /** After a failed delivery the owner is not ready and has asked for a disconnect. */
  ghost predicate FailuresNoticed(o: Owner) {
    (exists id :: Delivered(id, false) in o.history) ==> !o.ready && o.disconnectRequested
  }

  ghost predicate Answered(o: Owner) {
    Unambiguous(o.history) && AllAnswered(o.history) && FailuresNoticed(o)
  }

  /** What happens next leaves earlier answers as they are, unless it begins with an acknowledgement. */
  lemma AnswersStay(history: seq<Fact>, more: seq<Fact>, k: nat)
    requires k < |history| && Answers(history, k) && more != [] && !more[0].Acked?
    ensures Answers(history + more, k)
  {
    var longer := history + more;
    assert longer[..k] == history[..k] && longer[k] == history[k];
    forall fact: Fact | fact.Acked? ensures FollowedBy(longer, k, fact) <==> FollowedBy(history, k, fact) {
      assert k == |history| - 1 ==> longer[k + 1] == more[0];
    }
    if history[k].Excluded? {
      var token, r :|
        Received(history[k].call, token, r) in history[..k]
        && FollowedBy(history, k, Acked(history[k].call, token));
      assert FollowedBy(longer, k, Acked(history[k].call, token));
    }
  }

  lemma AllAnsweredExtends(history: seq<Fact>, more: seq<Fact>)
    requires AllAnswered(history) && more != [] && !more[0].Acked?
    requires forall k :: |history| <= k < |history| + |more| ==> Answers(history + more, k)
    ensures AllAnswered(history + more)
  {
    forall k | 0 <= k < |history + more| ensures Answers(history + more, k) {
      if k < |history| {
        AnswersStay(history, more, k);
      }
    }
  }

  /** A fact that calls for no answer. */
  lemma AnsweredOneMore(o: Owner, fact: Fact)
    requires Answered(o) && !fact.Acked? && !fact.Delivered? && !fact.Excluded? && Unambiguous(o.history + [fact])
    ensures Answered(Record(o, fact))
  {
    assert Answers(o.history + [fact], |o.history|);
    AllAnsweredExtends(o.history, [fact]);
  }

  lemma OneFactUnambiguous(history: seq<Fact>, fact: Fact)
    requires Unambiguous(history)
    requires fact.Admitted? ==> forall call :: Admitted(fact.delivery, call) !in history
    requires fact.Received? ==> forall token, r :: Received(fact.call, token, r) !in history
    ensures Unambiguous(history + [fact])
  {
  }

  lemma ReceiptAnswers(o: Owner, token: ReceiptToken, r: Receipt)
    requires Traced(o) && Answered(o)
    ensures Answered(Receive(o, token, r))
  {
    forall fact | fact in o.history ensures !(fact.Received? && fact.call == o.calls) {
      assert Numbered(o, fact);
    }
    OneFactUnambiguous(o.history, Received(o.calls, token, r));
    AnsweredOneMore(o.(calls := o.calls + 1), Received(o.calls, token, r));
  }

  lemma AdmissionAnswers(o: Owner, token: ReceiptToken, size: nat, target: Target, call: nat)
    requires Traced(o) && Answered(o)
    ensures Answered(Admit(o, token, size, target, call))
  {
    forall fact | fact in o.history ensures !(fact.Admitted? && fact.delivery == o.nextDelivery) {
      assert Numbered(o, fact);
    }
    OneFactUnambiguous(o.history, Admitted(o.nextDelivery, call));
    AnsweredOneMore(o, Admitted(o.nextDelivery, call));
  }

  /** The facts of a completion. */
  function CompletionFacts(o: Owner, id: nat, success: bool): seq<Fact>
    requires id in o.pending
  {
    var p := o.pending[id];
    [Delivered(id, success)]
    + if success && p.token.generation == o.generation then [Acked(p.call, p.token)] else []
  }

  /** A callback for a pending delivery records it, and its acknowledgement if that is due; for another nothing. */
  lemma CompletionEffect(o: Owner, id: nat, success: bool)
    ensures var o' := CompleteDelivery(o, id, success);
            if id in o.pending
            then && o'.history == o.history + CompletionFacts(o, id, success) && o'.pending == o.pending - {id}
                 && (success ==> o'.ready == o.ready && o'.disconnectRequested == o.disconnectRequested)
                 && (!success ==> !o'.ready && o'.disconnectRequested)
            else o' == o
  {
    if id in o.pending {
      var delivered := o.history + [Delivered(id, success)];
      assert delivered + [] == delivered;
    }
  }

  lemma DeliveredAnswers(o: Owner, id: nat, success: bool)
    requires Traced(o) && Unambiguous(o.history) && id in o.pending
    ensures var history := o.history + CompletionFacts(o, id, success); Answers(history, |o.history|)
  {
    var p, history := o.pending[id], o.history + CompletionFacts(o, id, success);
    assert history[..|o.history|] == o.history && history[|o.history|] == Delivered(id, success);
    assert TracedDelivery(o.history, id, p);
    forall call, token, r | Admitted(id, call) in o.history && Received(call, token, r) in o.history
      ensures FollowedBy(history, |o.history|, Acked(call, token))
              <==> success && token.generation == GenerationAfter(o.history)
    {
      assert call == p.call;
      var r' :| Received(p.call, p.token, r') in o.history;
      assert token == p.token;
    }
  }

  lemma CompletionIsAnswered(o: Owner, id: nat, success: bool)
    requires Traced(o) && Answered(o) && id in o.pending
    ensures AllAnswered(o.history + CompletionFacts(o, id, success))
  {
    DeliveredAnswers(o, id, success);
    AllAnsweredExtends(o.history, CompletionFacts(o, id, success));
  }

  lemma AnswersAreUnambiguous(history: seq<Fact>, more: seq<Fact>)
    requires Unambiguous(history) && forall fact :: fact in more ==> fact.Delivered? || fact.Acked? || fact.Excluded?
    ensures Unambiguous(history + more)
  {
  }

  lemma CompletionAnswers(o: Owner, id: nat, success: bool)
    requires Traced(o) && Answered(o)
    ensures Answered(CompleteDelivery(o, id, success))
  {
    CompletionEffect(o, id, success);
    if id in o.pending {
      var facts := CompletionFacts(o, id, success);
      CompletionIsAnswered(o, id, success);
      AnswersAreUnambiguous(o.history, facts);
      assert success ==> forall other :: Delivered(other, false) in o.history + facts ==>
                                           Delivered(other, false) in o.history;
    }
  }

  lemma {:induction false} CallbacksAnswer(o: Owner, out: Outside, cfg: Config, callbacks: seq<Callback>)
    requires Inv(o, out, cfg) && Answered(o)
    ensures Answered(RunCallbacks(o, callbacks))
  {
    if callbacks != [] {
      var n := |callbacks| - 1;
      CallbacksAnswer(o, out, cfg, callbacks[..n]);
      CallbacksKeepInvariant(o, out, cfg, callbacks[..n]);
      CompletionAnswers(RunCallbacks(o, callbacks[..n]), callbacks[n].delivery, callbacks[n].success);
    }
  }

  lemma DeliveryAnswers(
      o: Owner, out: Outside, cfg: Config, token: ReceiptToken, size: nat, target: Target, call: nat, publish: Publish)
    requires Inv(o, out, cfg) && Open(o, call, token) && Answered(o)
    requires Justified(out, cfg, o.history, Admitted(o.nextDelivery, call))
    ensures Answered(BeginDelivery(o, cfg, token, size, target, call, publish).0)
  {
    if HasRoom(o, cfg, size) {
      AdmissionAnswers(o, token, size, target, call);
      if publish.Accepted? {
        AdmissionKeepsInvariant(o, out, cfg, token, size, target, call);
        CallbacksAnswer(Admit(o, token, size, target, call), out, cfg, publish.callbacks);
      }
    }
  }

  lemma ExclusionAnswers(o: Owner, token: ReceiptToken, call: nat)
    requires Answered(o) && WasReceived(o.history, call, token)
    ensures Answered(Record(Record(o, Excluded(call)), Acked(call, token)))
  {
    var facts, n := [Excluded(call), Acked(call, token)], |o.history|;
    var history := o.history + facts;
    assert history[..n] == o.history;
    var r :| Received(call, token, r) in o.history;
    assert Received(call, token, r) in history[..n] && FollowedBy(history, n, Acked(call, token));
    assert Answers(history, n) && Answers(history, n + 1);
    AllAnsweredExtends(o.history, facts);
    assert Unambiguous(history);
    assert o.history + [Excluded(call)] + [Acked(call, token)] == history;
  }

  lemma SettlingAnswers(
      o: Owner, out: Outside, cfg: Config, token: ReceiptToken, r: Receipt, call: nat, publish: Publish)
    requires Inv(o, out, cfg) && Open(o, call, token) && Answered(o) && Received(call, token, r) in o.history
    ensures var outcome := ResolveIngress(out, cfg, r);
            Answered(Settle(o, cfg, token, call, outcome, WireSize(out, r, outcome), publish).0)
  {
    var outcome := ResolveIngress(out, cfg, r);
    if outcome.Exclude? {
      ExclusionAnswers(o, token, call);
    } else if WireSize(out, r, outcome).Some? {
      assert Justified(out, cfg, o.history, Admitted(o.nextDelivery, call));
      DeliveryAnswers(o, out, cfg, token, WireSize(out, r, outcome).value, TargetOf(outcome), call, publish);
    }
  }

  lemma Qos1Answers(o: Owner, out: Outside, cfg: Config, token: ReceiptToken, r: Receipt, publish: Publish)
    requires Inv(o, out, cfg) && Answered(o)
    ensures Answered(IngestQos1(o, out, cfg, token, r, publish).0)
  {
    if Takes(o, token, r) && o.ready {
      ReceiveOpens(o, out, cfg, token, r);
      ReceiptAnswers(o, token, r);
      SettlingAnswers(Receive(o, token, r), out, cfg, token, r, o.calls, publish);
    }
  }

  lemma StepAnswers(o: Owner, out: Outside, cfg: Config, step: Step)
    requires Inv(o, out, cfg) && Answered(o)
    ensures Answered(Next(o, out, cfg, step))
  {
    match step
    case Qos1(token, r, publish) => Qos1Answers(o, out, cfg, token, r, publish);
    case Qos0(r, publish) => if publish.Accepted? { CallbacksAnswer(o, out, cfg, publish.callbacks); }
    case Poll(callback) => CompletionAnswers(o, callback.delivery, callback.success);
    case Reconnect(jitter) =>
      OneFactUnambiguous(o.history, Reconnected);
      AnsweredOneMore(o, Reconnected);
  }

  lemma {:induction false} EveryRunAnswers(out: Outside, cfg: Config, steps: seq<Step>)
    ensures Answered(Run(out, cfg, steps))
  {
    if steps != [] {
      EveryRunAnswers(out, cfg, steps[..|steps| - 1]);
      EveryFactIsJustified(out, cfg, steps[..|steps| - 1]);
      StepAnswers(Run(out, cfg, steps[..|steps| - 1]), out, cfg, steps[|steps| - 1]);
    }
  }

  // -------------------------------------------------------------------- whole runs

  /**
   * In every run, the delivery of what a call admitted is followed at once by the acknowledgement of the call's token,
   * if and only if it succeeded while the connection of the token was still there.
   */
  lemma DueAcksCome(out: Outside, cfg: Config, steps: seq<Step>, k: nat, call: nat, token: ReceiptToken, r: Receipt)
    requires var h := Run(out, cfg, steps).history;
             && k < |h| && h[k].Delivered?
             && Admitted(h[k].delivery, call) in h[..k] && Received(call, token, r) in h[..k]
    ensures var h := Run(out, cfg, steps).history;
            FollowedBy(h, k, Acked(call, token)) <==> h[k].success && token.generation == GenerationAfter(h[..k])
  {
    EveryRunAnswers(out, cfg, steps);
    assert Answers(Run(out, cfg, steps).history, k);
  }

  /** In every run, an exclusion is followed at once by the acknowledgement of its call. */
  lemma ExclusionsAreAcked(out: Outside, cfg: Config, steps: seq<Step>, k: nat, token: ReceiptToken, r: Receipt)
    requires var h := Run(out, cfg, steps).history;
             k < |h| && h[k].Excluded? && Received(h[k].call, token, r) in h
    ensures FollowedBy(Run(out, cfg, steps).history, k, Acked(Run(out, cfg, steps).history[k].call, token))
  {
    var h := Run(out, cfg, steps).history;
    EveryRunAnswers(out, cfg, steps);
    assert Answers(h, k);
    var other, r' :| Received(h[k].call, other, r') in h[..k] && FollowedBy(h, k, Acked(h[k].call, other));
    assert Received(h[k].call, other, r') in h;
  }

  /** In every run, a failed delivery leaves the owner not ready, with a disconnect asked for, for good. */
  lemma FailureDisconnects(out: Outside, cfg: Config, steps: seq<Step>, id: nat)
    requires Delivered(id, false) in Run(out, cfg, steps).history
    ensures !Run(out, cfg, steps).ready && Run(out, cfg, steps).disconnectRequested
  {
    EveryRunAnswers(out, cfg, steps);
  }

  lemma {:induction false} CallbacksReport(o: Owner, callbacks: seq<Callback>, id: nat)
    requires id in o.pending
    ensures o.history <= RunCallbacks(o, callbacks).history
    ensures Names(callbacks, id) ==> id !in RunCallbacks(o, callbacks).pending
    ensures id !in RunCallbacks(o, callbacks).pending ==> WasDelivered(RunCallbacks(o, callbacks).history, id)
  {
    if callbacks != [] {
      var n := |callbacks| - 1;
      var before := RunCallbacks(o, callbacks[..n]);
      CallbacksReport(o, callbacks[..n], id);
      CompletionEffect(before, callbacks[n].delivery, callbacks[n].success);
      if Names(callbacks, id) && callbacks[n].delivery != id {
        var i :| 0 <= i < |callbacks| && callbacks[i].delivery == id;
        assert callbacks[..n][i].delivery == id;
      }
    }
  }

  /** A callback for a pending delivery, polled by itself, records the delivery and the acknowledgement that is due. */
  lemma PolledCallbackReports(out: Outside, cfg: Config, steps: seq<Step>, id: nat, success: bool)
    requires id in Run(out, cfg, steps).pending
    ensures var o, o' := Run(out, cfg, steps), Run(out, cfg, steps + [Poll(Callback(id, success))]);
            && o'.history == o.history + CompletionFacts(o, id, success) && o'.pending == o.pending - {id}
            && o'.pendingRecords == o.pendingRecords - 1
            && o'.pendingBytes == o.pendingBytes - o.pending[id].byteSize
  {
    RunSnoc(out, cfg, steps, Poll(Callback(id, success)));
    CompletionEffect(Run(out, cfg, steps), id, success);
  }

  // ------------------------------------------------------------- the fate of a message

  /** The message is one the owner takes: of this connection, not the platform's own, and the owner is not halted. */
  ghost predicate IsTaken(o: Owner, token: ReceiptToken, r: Receipt) {
    && token.qos == 1 && token.generation == o.generation
    && r.topic != "" && !("uns/platform/" <= r.topic) && !o.halted
  }

  /** A call that does not take its message leaves the owner as it is; without readiness it asks for a disconnect. */
  lemma UntakenMessages(o: Owner, out: Outside, cfg: Config, token: ReceiptToken, r: Receipt, publish: Publish)
    ensures var o' := IngestQos1(o, out, cfg, token, r, publish).0;
            && (!IsTaken(o, token, r) ==> o' == o)
            && (IsTaken(o, token, r) && !o.ready ==> o' == o.(ready := false, disconnectRequested := true))
  {
  }

  /** A message too long to be rejected halts the owner. */
  lemma OverlongMessageHalts(o: Owner, out: Outside, cfg: Config, token: ReceiptToken, r: Receipt, publish: Publish)
    requires IsTaken(o, token, r) && o.ready && |r.payload| > 65536
    ensures var (o', exit) := IngestQos1(o, out, cfg, token, r, publish);
            && exit == Returned && o'.halted && o'.haltReason == Some(Oversize) && !o'.ready && o'.disconnectRequested
            && o'.pending == o.pending && o'.history == o.history + [Received(o.calls, token, r)]
  {
  }

  /** A message whose route is not for the archive is acknowledged at once, and that is all. */
  lemma ExcludedMessageIsAcked(o: Owner, out: Outside, cfg: Config, token: ReceiptToken, r: Receipt, publish: Publish)
    requires IsTaken(o, token, r) && o.ready && |r.payload| <= 65536
    requires RouteFor(cfg, r.topic).Some? && !RouteFor(cfg, r.topic).value.archiveEligible
    ensures var (o', exit) := IngestQos1(o, out, cfg, token, r, publish);
            && exit == Returned && o'.ready && o'.pending == o.pending
            && o'.pendingRecords == o.pendingRecords && o'.pendingBytes == o.pendingBytes
            && o'.history
               == o.history + [Received(o.calls, token, r), Excluded(o.calls), Acked(o.calls, token)]
  {
    assert o.history + [Received(o.calls, token, r)] + [Excluded(o.calls)] + [Acked(o.calls, token)]
        == o.history + [Received(o.calls, token, r), Excluded(o.calls), Acked(o.calls, token)];
  }

  /** The bytes that are published for a message that is archived or rejected. */
  ghost predicate HasRecord(out: Outside, cfg: Config, r: Receipt, size: nat, target: Target) {
    match ResolveIngress(out, cfg, r)
    case Archive(e) => target == Historic && EventKey(e).Ok? && out.encodedSize(ToWire(e)) == Some(size)
    case Reject(reason) => target == Dlq && size == out.rejectionSize(reason, r.topic, r.payload) <= 65536
    case _ => false
  }

  lemma {:induction false} CallbacksKeepNumbers(o: Owner, callbacks: seq<Callback>)
    ensures o.history <= RunCallbacks(o, callbacks).history && RunCallbacks(o, callbacks).nextDelivery == o.nextDelivery
  {
    if callbacks != [] {
      var n := |callbacks| - 1;
      CallbacksKeepNumbers(o, callbacks[..n]);
      CompletionEffect(RunCallbacks(o, callbacks[..n]), callbacks[n].delivery, callbacks[n].success);
    }
  }

  lemma RecordBegins(
      o: Owner, out: Outside, cfg: Config, token: ReceiptToken, r: Receipt, publish: Publish, size: nat, target: Target)
    requires IsTaken(o, token, r) && o.ready && HasRecord(out, cfg, r, size, target)
    ensures IngestQos1(o, out, cfg, token, r, publish)
            == BeginDelivery(Receive(o, token, r), cfg, token, size, target, o.calls, publish)
  {
  }

  lemma AdmissionEffect(
      o: Owner, cfg: Config, token: ReceiptToken, size: nat, target: Target, call: nat, publish: Publish)
    ensures var (o', exit) := BeginDelivery(o, cfg, token, size, target, call, publish);
            var room := o.pendingRecords + 1 <= cfg.pendingRecordLimit && o.pendingBytes + size <= cfg.pendingByteLimit;
            && (!room ==> o' == o.(ready := false, disconnectRequested := true) && exit == Returned)
            && (room ==> o.history + [Admitted(o.nextDelivery, call)] <= o'.history
                         && o'.nextDelivery == o.nextDelivery + 1)
            && (room && publish == Accepted([]) ==>
                  && o'.pending == o.pending[o.nextDelivery := PendingDelivery(token, size, target, call)]
                  && o'.pendingRecords == o.pendingRecords + 1 && o'.pendingBytes == o.pendingBytes + size
                  && o'.ready == o.ready && exit == Returned)
            && (room && publish == BufferFull ==>
                  && o'.pending == o.pending - {o.nextDelivery} && o'.pendingRecords == o.pendingRecords
                  && o'.pendingBytes == o.pendingBytes && !o'.ready && o'.disconnectRequested && exit == Returned)
  {
    var admitted := Admit(o, token, size, target, call);
    if publish.Accepted? {
      CallbacksKeepNumbers(admitted, publish.callbacks);
    }
    assert admitted.pending - {o.nextDelivery} == o.pending - {o.nextDelivery};
  }

  /**
   * A message with something to publish is admitted if and only if there is room; then it is pending under a new id
   * until its callback, unless the buffer is full.
   */
  lemma RecordIsAdmittedIff(
      o: Owner, out: Outside, cfg: Config, token: ReceiptToken, r: Receipt, publish: Publish, size: nat, target: Target)
    requires IsTaken(o, token, r) && o.ready && HasRecord(out, cfg, r, size, target)
    ensures var (o', exit) := IngestQos1(o, out, cfg, token, r, publish);
            var received, admitted := Received(o.calls, token, r), Admitted(o.nextDelivery, o.calls);
            var room := o.pendingRecords + 1 <= cfg.pendingRecordLimit && o.pendingBytes + size <= cfg.pendingByteLimit;
            && (!room ==> !o'.ready && o'.disconnectRequested && o'.pending == o.pending
                          && o'.history == o.history + [received] && exit == Returned)
            && (room ==> o.history + [received, admitted] <= o'.history && o'.nextDelivery == o.nextDelivery + 1)
            && (room && publish == Accepted([]) ==>
                  && o'.pending == o.pending[o.nextDelivery := PendingDelivery(token, size, target, o.calls)]
                  && o'.pendingRecords == o.pendingRecords + 1 && o'.pendingBytes == o.pendingBytes + size
                  && o'.ready && exit == Returned)
            && (room && publish == BufferFull ==>
                  && o'.pending == o.pending - {o.nextDelivery} && o'.pendingRecords == o.pendingRecords
                  && o'.pendingBytes == o.pendingBytes && !o'.ready && o'.disconnectRequested && exit == Returned)
  {
    RecordBegins(o, out, cfg, token, r, publish, size, target);
    AdmissionEffect(Receive(o, token, r), cfg, token, size, target, o.calls, publish);
    assert o.history + [Received(o.calls, token, r)] + [Admitted(o.nextDelivery, o.calls)]
        == o.history + [Received(o.calls, token, r), Admitted(o.nextDelivery, o.calls)];
  }

  /** At QoS 0 a message with something to publish is published without being pending, and archived ones are counted. */
  lemma UntrackedMessages(o: Owner, out: Outside, cfg: Config, r: Receipt, size: nat, target: Target)
    requires r.topic != "" && !("uns/platform/" <= r.topic) && o.ready && !o.halted
    requires HasRecord(out, cfg, r, size, target)
    ensures IngestQos0(o, out, cfg, r, Accepted([]))
            == (o.(qos0Delivered := o.qos0Delivered + if target == Historic then 1 else 0), Returned)
  {
  }
}
