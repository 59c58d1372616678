/**
  What the store's calls mean to their callers: what a submission queues, who may go on with a row after each call,
  whether it can be claimed again, what a completed send and a restart leave, and how long a receipt is kept.
 */
module StoreLaws {
  import opened Aggregation
  import opened FileSpec
  import opened StoreSpec
  import opened Wrappers

  /** No claim and no requeue ever takes the row. */
  ghost predicate OutOfReach(st: Store, id: int) {
    forall now :: id !in ClaimableIds(st.outbox, now) && id !in StaleIds(st.outbox, now)
  }

  /** Anyone may claim the row, exactly from that time on. */
  ghost predicate DueFrom(outbox: map<int, OutboxItem>, id: int, from: Time) {
    forall now :: id in ClaimableIds(outbox, now) <==> from <= now
  }

  /** Only this worker gets anything done with the row. */
  ghost predicate OnlyFor(st: Store, id: int, worker: string) {
    forall other :: other != worker ==> Barred(st, id, other)
  }

  ghost predicate Barred(st: Store, id: int, worker: string) {
    MarkSending(st, id, worker).Err? && (forall recs :: CompleteSend(st, id, worker, recs).Err?)
    && forall reason :: MarkUncertain(st, id, worker, reason).Err?
  }

  lemma OwnerOnly(st: Store, id: int, worker: string)
    requires id in st.outbox && !st.outbox[id].state.RowDone? && st.outbox[id].claimedBy == worker
    ensures OnlyFor(st, id, worker)
  {
    forall other | other != worker
      ensures Barred(st, id, other)
    {
      OthersBarred(st, id, other);
    }
  }

  lemma OthersBarred(st: Store, id: int, other: string)
    requires id in st.outbox && !st.outbox[id].state.RowDone? && st.outbox[id].claimedBy != other
    ensures Barred(st, id, other)
  {
  }

  /** No call by any worker changes the row any more; completing it again is accepted and does nothing. */
  ghost predicate ClosedForGood(st: Store, id: int) {
    OutOfReach(st, id) && AckOutbox(st, id).Err? && (forall worker :: MarkSending(st, id, worker).Err?)
    && (forall reason, next :: FailOutbox(st, id, reason, next).Err?)
    && (forall worker, reason :: MarkUncertain(st, id, worker, reason).Err?)
    && forall worker, recs ::
         CompleteSend(st, id, worker, recs).Err? || CompleteSend(st, id, worker, recs) == Ok(st)
  }

  ghost predicate SameButRow(st: Store, st': Store, id: int) {
    st' == st.(outbox := st'.outbox) && st'.outbox - {id} == st.outbox - {id} && id in st'.outbox
  }

  /**
    A worker is told to send exactly when the row is its own, claimed or already sending. From then on no claim and
    no requeue takes the row and no other worker can mark, complete or give it up; asking again changes nothing.
   */
  lemma MarkedIsMine(st: Store, id: int, worker: string)
    ensures MarkSending(st, id, worker).Ok?
            <==> id in st.outbox && (st.outbox[id].state.RowClaimed? || st.outbox[id].state.RowSending?)
                 && st.outbox[id].claimedBy == worker
    ensures MarkSending(st, id, worker).Ok? ==>
              var st' := MarkSending(st, id, worker).value;
              SameButRow(st, st', id) && OutOfReach(st', id) && OnlyFor(st', id, worker)
              && MarkSending(st', id, worker) == Ok(st')
  {
    if MarkSending(st, id, worker).Ok? {
      var st' := MarkSending(st, id, worker).value;
      assert st'.outbox - {id} == st.outbox - {id};
      OwnerOnly(st', id, worker);
    }
  }

  /** Acknowledging takes a claimed row out of the protocol for good. */
  lemma AcknowledgedIsClosed(st: Store, id: int)
    requires AckOutbox(st, id).Ok?
    ensures SameButRow(st, AckOutbox(st, id).value, id) && ClosedForGood(AckOutbox(st, id).value, id)
  {
  }

  /**
    A failed row is retried, by any worker and from the given time on, exactly when it was claimed, attempts are left
    and a time is given; otherwise it is closed for good. A row that is being sent is never retried.
   */
  lemma FailedIsRetriedOrClosed(st: Store, id: int, reason: string, next: Time)
    requires FailOutbox(st, id, reason, next).Ok?
    ensures var st' := FailOutbox(st, id, reason, next).value;
            SameButRow(st, st', id)
            && if next == ZERO_TIME || st.outbox[id].attempt >= st.outbox[id].maxAttempts then ClosedForGood(st', id)
               else
                 st.outbox[id].state.RowClaimed? && DueFrom(st'.outbox, id, next)
  {
  }

  /** After a receipt is recorded the message counts as not yet delivered, whatever was delivered before. */
  lemma RecordedIsUndelivered(st: Store, k: PendingKey, state: string, errorCode: int, at: Time,
                              rows: seq<Pending>, a: Aggregate)
    requires k in st.pending
    requires Listing(UpdatePendingDLR(st, k, state, errorCode, at).value.pending, st.pending[k].gatewayId, rows)
    requires Verdict(rows, a)
    ensures !a.allDelivered
  {
    var st' := UpdatePendingDLR(st, k, state, errorCode, at).value;
    assert k in KeysOfGateway(st'.pending, st.pending[k].gatewayId);
    assert st'.pending[k] in rows;
  }

  /** A deferred receipt outlives every sweep; once delivered, its row goes when its time is up. */
  lemma DeferredIsKept(st: Store, k: PendingKey, state: string, errorCode: int, at: Time, now: Time)
    requires MarkDLRReady(st, k, state, errorCode, at).Ok?
    ensures var ready := MarkDLRReady(st, k, state, errorCode, at).value;
            k in Sweep(ready, now).pending && Sweep(ready, now).pending[k] == ready.pending[k]
            && var done := MarkDLRDelivered(ready, k);
               done.Ok?
               && (k in Sweep(done.value, now).pending
                   <==> st.pending[k].expiresAt == ZERO_TIME || now <= st.pending[k].expiresAt)
  {
  }

  // ----- what a completed send leaves

  function AtLeastOne(n: int): int {
    if n < 1 then 1 else n
  }

  /** The row kept for a receipt: the one given, counting from one. */
  predicate KeptAs(rec: Pending, p: Pending) {
    p == rec.(segmentIndex := AtLeastOne(rec.segmentIndex), segmentCount := AtLeastOne(rec.segmentCount))
  }

  /** No later row was given under the same ids. */
  predicate LastGiven(recs: seq<Pending>, i: nat)
    requires i < |recs|
  {
    forall j :: i < j < |recs| ==> recs[j].provider != recs[i].provider || recs[j].providerId != recs[i].providerId
  }

  ghost predicate Given(recs: seq<Pending>, k: PendingKey) {
    exists i :: 0 <= i < |recs| && recs[i].provider == k.provider && recs[i].providerId == k.providerId
  }

  /** Every row given is there, the last of those with equal ids, and every other row is as it was. */
  ghost predicate RowsGiven(pending: map<PendingKey, Pending>, recs: seq<Pending>, pending': map<PendingKey, Pending>) {
    (forall i :: 0 <= i < |recs| && LastGiven(recs, i) ==>
       var k := PendingKey(recs[i].provider, recs[i].providerId); k in pending' && KeptAs(recs[i], pending'[k]))
    && (forall k :: !Given(recs, k) ==>
          (k in pending' <==> k in pending) && (k in pending ==> pending'[k] == pending[k]))
  }

  lemma {:induction false} PutOthers(pending: map<PendingKey, Pending>, recs: seq<Pending>, k: PendingKey)
    requires !Given(recs, k)
    ensures var pending' := PutPending(pending, recs);
            (k in pending' <==> k in pending) && (k in pending ==> pending'[k] == pending[k])
  {
    if recs != [] {
      var front := recs[..|recs| - 1];
      assert !Given(front, k);
      PutOthers(pending, front, k);
    }
  }

  lemma {:induction false} PutGiven(pending: map<PendingKey, Pending>, recs: seq<Pending>, i: nat)
    requires i < |recs| && LastGiven(recs, i)
    ensures var pending', k := PutPending(pending, recs), PendingKey(recs[i].provider, recs[i].providerId);
            k in pending' && KeptAs(recs[i], pending'[k])
  {
    var n := |recs| - 1;
    if i < n {
      var front := recs[..n];
      assert front[i] == recs[i] && LastGiven(front, i);
      PutGiven(pending, front, i);
    }
  }

  lemma PutGives(pending: map<PendingKey, Pending>, recs: seq<Pending>)
    ensures RowsGiven(pending, recs, PutPending(pending, recs))
  {
    forall i | 0 <= i < |recs| && LastGiven(recs, i)
      ensures var k := PendingKey(recs[i].provider, recs[i].providerId);
              k in PutPending(pending, recs) && KeptAs(recs[i], PutPending(pending, recs)[k])
    {
      PutGiven(pending, recs, i);
    }
    forall k | !Given(recs, k)
      ensures (k in PutPending(pending, recs) <==> k in pending)
              && (k in pending ==> PutPending(pending, recs)[k] == pending[k])
    {
      PutOthers(pending, recs, k);
    }
  }

  /** This message is as given; every other is as it was. */
  ghost predicate OnlyMessage(st: Store, st': Store, msg: Message) {
    MessageWith(st', msg.id) == Some(msg)
    && forall other :: other != msg.id ==> MessageWith(st', other) == MessageWith(st, other)
  }

  lemma MessageReplaced(st: Store, st': Store, msg: Message)
    requires var m := FindMessage(st.messages, msg.id); m >= 0 && st'.messages == st.messages[m := msg]
    ensures OnlyMessage(st, st', msg)
  {
    forall x
      ensures MessageWith(st', x) == if x == msg.id then Some(msg) else MessageWith(st, x)
    {
      FoundAfter(st.messages, FindMessage(st.messages, msg.id), msg, x);
    }
  }

  /**
    A send that is completed leaves a receipt row for each id the provider gave, every other row as it was, and the
    message as sent under the first of those ids; the outbox row is closed for good.
   */
  lemma CompletedIsRecorded(st: Store, id: int, worker: string, recs: seq<Pending>)
    requires id in st.outbox && st.outbox[id].state.RowSending? && CompleteSend(st, id, worker, recs).Ok?
    ensures var st', gateway := CompleteSend(st, id, worker, recs).value, st.outbox[id].gatewayId;
            st.outbox[id].claimedBy == worker && recs != [] && MessageWith(st, gateway).Some?
            && RowsGiven(st.pending, recs, st'.pending)
            && OnlyMessage(st, st', MessageWith(st, gateway).value.(providerId := recs[0].providerId, state := "sent"))
            && st'.outbox - {id} == st.outbox - {id} && ClosedForGood(st', id)
            && st' == st.(messages := st'.messages, pending := st'.pending, outbox := st'.outbox)
  {
    var st', gateway := CompleteSend(st, id, worker, recs).value, st.outbox[id].gatewayId;
    PutGives(st.pending, recs);
    MessageReplaced(st, st', MessageWith(st, gateway).value.(providerId := recs[0].providerId, state := "sent"));
    assert st'.outbox - {id} == st.outbox - {id};
    DoneIsClosed(st', id);
  }

  lemma DoneIsClosed(st: Store, id: int)
    requires id in st.outbox && st.outbox[id].state.RowDone?
    ensures ClosedForGood(st, id)
  {
  }

  // ----- what a submission queues

  /** Row numbers up to the counter are in use at most. */
  ghost predicate Counted(st: Store) {
    forall id :: id in st.outbox ==> id <= st.nextOutbox
  }

  /**
    An accepted submission is a new row for its message and provider, untried and due from now on, with every other row
    as it was, and the message is found under its id.
   */
  lemma SubmittedIsQueued(st: Store, sub: Submission, now: Time, maxMessages: int)
    requires Counted(st) && SubmitAtomic(st, sub, now, maxMessages).1.Accepted?
    ensures var st', id := SubmitAtomic(st, sub, now, maxMessages).0, SubmitAtomic(st, sub, now, maxMessages).1.rowId;
            id !in st.outbox && st'.outbox.Keys == st.outbox.Keys + {id} && st'.outbox - {id} == st.outbox
            && Counted(st')
            && var row := st'.outbox[id];
               row.id == id && row.gatewayId == sub.message.id && row.provider == sub.provider && row.attempt == 0
               && row.maxAttempts == (if sub.maxAttempts > 0 then sub.maxAttempts else 5)
               && DueFrom(st'.outbox, id, now)
               && MessageWith(st', sub.message.id) == Some(sub.message)
  {
    var st', id := SubmitAtomic(st, sub, now, maxMessages).0, SubmitAtomic(st, sub, now, maxMessages).1.rowId;
    assert st'.outbox - {id} == st.outbox;
    PutIsFound(st.messages, sub.message, maxMessages);
  }

  /** The client's key is known and still lives. */
  predicate KeyLives(st: Store, sub: Submission, now: Time) {
    && sub.idempotency.clientId != "" && sub.idempotency.key != ""
    && sub.idempotency in st.idempotency && st.idempotency[sub.idempotency].expiresAt > now
  }

  /** A limit is to be kept and the debit makes sense. */
  predicate Sensible(q: QuotaDebit) {
    q.tenantId != "" && q.segments > 0 && q.dateValid
  }

  predicate TooMuch(st: Store, q: QuotaDebit) {
    var k := QuotaKey(q.tenantId, q.date);
    (if k in st.quota then st.quota[k] else 0) + q.segments > q.limit || q.segments > q.limit
  }

  /** What a submission is answered, in every case. */
  lemma OutcomeIs(st: Store, sub: Submission, now: Time, maxMessages: int)
    ensures var r := SubmitAtomic(st, sub, now, maxMessages).1;
            var limited := sub.quota.Some? && sub.quota.value.limit > 0;
            && (KeyLives(st, sub, now) ==> r == Duplicate(st.idempotency[sub.idempotency].gatewayId))
            && (!KeyLives(st, sub, now) && limited && !Sensible(sub.quota.value) ==> r == InvalidQuota)
            && (!KeyLives(st, sub, now) && limited && Sensible(sub.quota.value) ==>
                  if TooMuch(st, sub.quota.value) then r == QuotaExceeded else r == Accepted(st.nextOutbox + 1))
            && (!KeyLives(st, sub, now) && !limited ==> r == Accepted(st.nextOutbox + 1))
  {
  }

  /** An accepted key lives for the time asked, or a day; only a limited submission is charged. */
  lemma AcceptedIsEntered(st: Store, sub: Submission, now: Time, maxMessages: int)
    requires SubmitAtomic(st, sub, now, maxMessages).1.Accepted?
    ensures var st' := SubmitAtomic(st, sub, now, maxMessages).0;
            && (if sub.idempotency.clientId != "" && sub.idempotency.key != ""
                then sub.idempotency in st'.idempotency
                     && st'.idempotency[sub.idempotency]
                        == IdempotencyRecord(sub.message.id, now + if sub.ttl > 0 then sub.ttl else 86_400_000_000_000)
                else st'.idempotency == Sweep(st, now).idempotency)
            && (if sub.quota.Some? && sub.quota.value.limit > 0
                then var q := sub.quota.value;
                     var k := QuotaKey(q.tenantId, q.date);
                     st'.quota == st.quota[k := (if k in st.quota then st.quota[k] else 0) + q.segments]
                else st'.quota == st.quota)
  {
  }

  lemma PutIsFound(ms: seq<Message>, msg: Message, max: int)
    ensures var ms' := PutMessage(ms, msg, max);
            FindMessage(ms', msg.id) >= 0 && ms'[FindMessage(ms', msg.id)] == msg
  {
    var i := FindMessage(ms, msg.id);
    if i >= 0 { FoundAfter(ms, i, msg, msg.id); }
    else {
      var all := Trim(ms + [msg], max);
      assert all[|all| - 1] == msg;
    }
  }

  /** With a bound the newest messages are kept, as many as it allows, and the new one is among them. */
  lemma {:induction false} NewestKept(ms: seq<Message>, msg: Message, max: int)
    requires FindMessage(ms, msg.id) < 0
    ensures var ms' := PutMessage(ms, msg, max);
            |ms'| == (if 0 < max <= |ms| then max else |ms| + 1) && ms' == (ms + [msg])[|ms| + 1 - |ms'|..]
  {
  }

  /** A claim takes the rows longest due, one at least if any is due, as many as asked for, and then by row number. */
  lemma OldestFirst(outbox: map<int, OutboxItem>, outbox': map<int, OutboxItem>, worker: string, limit: int, now: Time,
                    items: seq<OutboxItem>, id: int)
    requires ClaimStep(outbox, outbox', worker, limit, now, items)
    requires id in outbox && outbox[id].state.RowPending? && outbox[id].nextRetryAt <= now && !Holds(items, id)
    ensures |items| == (if limit > 0 then limit else 1)
    ensures forall i :: 0 <= i < |items| ==>
              items[i].nextRetryAt < outbox[id].nextRetryAt
              || (items[i].nextRetryAt == outbox[id].nextRetryAt && items[i].id < outbox[id].id)
  {
    assert id in ClaimableIds(outbox, now);
  }

  /** The row as it leaves a claim: one attempt more, and otherwise as it was queued. */
  lemma ClaimedIsCounted(outbox: map<int, OutboxItem>, outbox': map<int, OutboxItem>, worker: string, limit: int,
                         now: Time, items: seq<OutboxItem>, id: int)
    requires ClaimStep(outbox, outbox', worker, limit, now, items) && Holds(items, id)
    ensures id in outbox && id in outbox'
            && var row, row' := outbox[id], outbox'[id];
               row'.state.RowClaimed? && row'.claimedBy == worker && row'.claimedAt == now
               && row'.attempt == row.attempt + 1 && row'.maxAttempts == row.maxAttempts
               && row'.gatewayId == row.gatewayId && row'.provider == row.provider
  {
    var i :| 0 <= i < |items| && items[i].id == id;
    assert items[i].id in ClaimableIds(outbox, now);
  }

  /** A requeued row was claimed before that time, and can be claimed from then on, or from when it was due before. */
  lemma RequeuedIsDue(outbox: map<int, OutboxItem>, outbox': map<int, OutboxItem>, before: Time, limit: int,
                      requeued: set<int>, id: int)
    requires RequeueStep(outbox, outbox', before, limit, requeued) && id in requeued
    ensures id in outbox && id in outbox'
            && var row, row' := outbox[id], outbox'[id];
               row.state.RowClaimed? && 0 < row.claimedAt < before
               && DueFrom(outbox', id, if 0 < row.nextRetryAt < before then row.nextRetryAt else before)
               && row'.attempt == row.attempt && row'.gatewayId == row.gatewayId && row'.provider == row.provider
  {
    assert id in StaleIds(outbox, before);
  }

  /** A claim is left alone only if it is fresh, or if as many others as asked for, or a thousand, were requeued. */
  lemma StaleIsRequeued(outbox: map<int, OutboxItem>, outbox': map<int, OutboxItem>, before: Time, limit: int,
                        requeued: set<int>, id: int)
    requires RequeueStep(outbox, outbox', before, limit, requeued) && id in outbox && id !in requeued
    ensures outbox'[id] == outbox[id]
    ensures outbox[id].state.RowClaimed? && 0 < outbox[id].claimedAt < before ==>
              |requeued| == if limit > 0 then limit else 1000
  {
    if outbox[id].state.RowClaimed? && 0 < outbox[id].claimedAt < before { assert id in StaleIds(outbox, before); }
  }

  /** From submission to sent: the row that was queued, claimed, marked and completed is that of the message. */
  lemma SubmittedIsSent(st: Store, sub: Submission, now: Time, maxMessages: int, outbox: map<int, OutboxItem>,
                        worker: string, limit: int, t: Time, items: seq<OutboxItem>, recs: seq<Pending>)
    requires Counted(st) && SubmitAtomic(st, sub, now, maxMessages).1.Accepted?
    requires var st1, id := SubmitAtomic(st, sub, now, maxMessages).0, SubmitAtomic(st, sub, now, maxMessages).1.rowId;
             ClaimStep(st1.outbox, outbox, worker, limit, t, items) && Holds(items, id)
    requires recs != []
    requires forall i :: 0 <= i < |recs| ==>
               recs[i].providerId != "" && recs[i].gatewayId == sub.message.id && recs[i].provider == sub.provider
    ensures var st1, id := SubmitAtomic(st, sub, now, maxMessages).0, SubmitAtomic(st, sub, now, maxMessages).1.rowId;
            var marked := MarkSending(st1.(outbox := outbox), id, worker);
            marked.Ok?
            && var sent := CompleteSend(marked.value, id, worker, recs);
               sent.Ok? && ClosedForGood(sent.value, id)
               && MessageWith(sent.value, sub.message.id)
                  == Some(sub.message.(providerId := recs[0].providerId, state := "sent"))
  {
    var st1, id := SubmitAtomic(st, sub, now, maxMessages).0, SubmitAtomic(st, sub, now, maxMessages).1.rowId;
    SubmittedIsQueued(st, sub, now, maxMessages);
    ClaimedIsCounted(st1.outbox, outbox, worker, limit, t, items, id);
    var st2 := st1.(outbox := outbox);
    var st3 := MarkSending(st2, id, worker).value;
    assert CompletionFits(st3.outbox[id], recs);
    CompletedIsRecorded(st3, id, worker, recs);
  }

  /** Giving a send up closes the row, keeps every other one, and leaves the message with an unknown fate. */
  lemma UncertainIsClosed(st: Store, id: int, worker: string, reason: string)
    requires MarkUncertain(st, id, worker, reason).Ok?
    ensures var st', gateway := MarkUncertain(st, id, worker, reason).value, st.outbox[id].gatewayId;
            OutOfReach(st', id) && OnlyFor(st', id, worker) && st'.outbox - {id} == st.outbox - {id}
            && GivenUp(st', id) && st'.outbox[id].lastError == reason && st'.pending == st.pending
            && (MessageWith(st, gateway).Some? ==>
                  OnlyMessage(st, st', MessageWith(st, gateway).value.(state := "UNKNOWN", errorCode := 1)))
  {
    var st', gateway := MarkUncertain(st, id, worker, reason).value, st.outbox[id].gatewayId;
    assert st'.outbox - {id} == st.outbox - {id};
    if MessageWith(st, gateway).Some? {
      MessageReplaced(st, st', MessageWith(st, gateway).value.(state := "UNKNOWN", errorCode := 1));
    }
    OwnerOnly(st', id, worker);
    UncertainIsGivenUp(st', id);
  }

  /** The row is never sent, acknowledged, retried or failed, not even by its own worker. */
  ghost predicate GivenUp(st: Store, id: int) {
    AckOutbox(st, id).Err? && (forall worker :: MarkSending(st, id, worker).Err?)
    && (forall worker, recs :: CompleteSend(st, id, worker, recs).Err?)
    && forall reason, next :: FailOutbox(st, id, reason, next).Err?
  }

  lemma UncertainIsGivenUp(st: Store, id: int)
    requires id in st.outbox && st.outbox[id].state.RowUncertain?
    ensures GivenUp(st, id)
  {
  }

  // ----- what a restart leaves

  predicate Open(row: OutboxItem) {
    row.state.RowPending? || row.state.RowClaimed?
  }

  /**
    A row that was pending or claimed can be claimed after a restart, by anyone and exactly from its due time on; any
    other row is as it was; and nothing else about a row changes.
   */
  lemma RestartKeepsRows(snap: Store, st: Store, id: int)
    requires Loaded(snap, st)
    ensures id in st.outbox <==> id in snap.outbox
    ensures id in snap.outbox ==>
              var before, after := snap.outbox[id], st.outbox[id];
              after.id == before.id && after.gatewayId == before.gatewayId && after.provider == before.provider
              && after.attempt == before.attempt && after.maxAttempts == before.maxAttempts
              && after.nextRetryAt == before.nextRetryAt && after.lastError == before.lastError
              && (Open(before) <==> Open(after)) && (!Open(before) ==> after == before)
              && (Open(before) ==> DueFrom(st.outbox, id, before.nextRetryAt))
  {
  }

  /** Every receipt row is kept under its own ids and counts from one; a completed send keeps it so. */
  ghost predicate Filed(pending: map<PendingKey, Pending>) {
    forall k :: k in pending ==>
      k == PendingKey(pending[k].provider, pending[k].providerId)
      && pending[k].segmentIndex > 0 && pending[k].segmentCount > 0
  }

  lemma {:induction false} PutIsFiled(pending: map<PendingKey, Pending>, recs: seq<Pending>)
    requires Filed(pending)
    ensures Filed(PutPending(pending, recs))
  {
    if recs != [] { PutIsFiled(pending, recs[..|recs| - 1]); }
  }

  lemma CompletedIsFiled(st: Store, id: int, worker: string, recs: seq<Pending>)
    requires Filed(st.pending) && CompleteSend(st, id, worker, recs).Ok?
    ensures Filed(CompleteSend(st, id, worker, recs).value.pending)
  {
    PutIsFiled(st.pending, recs);
  }

  /** Receipts, messages, client keys and quota come through a restart as they were. */
  lemma RestartKeepsReceipts(snap: Store, st: Store)
    requires Loaded(snap, st) && Filed(snap.pending)
    ensures st.pending == snap.pending && st.messages == snap.messages
    ensures st.idempotency == snap.idempotency && st.quota == snap.quota
  {
    forall k
      ensures k in st.pending <==> k in snap.pending
      ensures k in st.pending ==> st.pending[k] == snap.pending[k]
    {
      if k in snap.pending { assert KeyOf(NormalizePending(snap.pending[k])) in st.pending; }
    }
  }

  // ----- gateway numbers

  /** As many numbers as asked for, one at least, the next ones after those taken before. */
  lemma ReservedAreNext(st: Store, span: nat)
    ensures var (st', first, last) := ReserveRange(st, span);
            first == st.gatewaySeq + 1 && last == st'.gatewaySeq
            && last + 1 - first == (if span > 0 then span else 1) && st' == st.(gatewaySeq := last)
  {
  }
}
