/** The in-memory store: fields updated in place, each call proved against `StoreSpec`. */
module MemoryStores {
  import opened Collections
  import opened Wrappers
  import opened StoreSpec

  class MemoryStore {
    var messages: seq<Message>
    var messageById: map<string, int>
    var pending: map<PendingKey, Pending>
    var outbox: map<int, OutboxItem>
    var nextOutbox: int
    var idempotency: map<IdempotencyKey, IdempotencyRecord>
    var quota: map<QuotaKey, int>
    var gatewaySeq: nat
    const maxMessages: int

    ghost function Value(): Store
      reads this
    {
      Store(messages, pending, outbox, nextOutbox, idempotency, quota, gatewaySeq)
    }

    /** The index finds every message, and rows sit under their own keys. */
    ghost predicate Valid()
      reads this
    {
      && DistinctIds(messages)
      && IndexOf(messages, messageById)
      && (forall id :: id in outbox ==> outbox[id].id == id)
      && (forall k :: k in pending ==> KeyOf(pending[k]) == k)
    }

    static ghost predicate IndexOf(ms: seq<Message>, index: map<string, int>) {
      && (forall id :: id in index ==> 0 <= index[id] < |ms| && ms[index[id]].id == id)
      && (forall i :: 0 <= i < |ms| ==> ms[i].id in index && index[ms[i].id] == i)
    }

    constructor (max: int)
      ensures Valid() && Value() == EMPTY && maxMessages == max
    {
      messages, messageById, pending, outbox := [], map[], map[], map[];
      nextOutbox, idempotency, quota, gatewaySeq := 0, map[], map[], 0;
      maxMessages := max;
    }

    /** A copy of everything the file store keeps. */
    method Snapshot() returns (snap: Store)
      ensures snap == Value()
    {
      snap := Store(messages, pending, outbox, nextOutbox, idempotency, quota, gatewaySeq);
    }

    // ----- messages

    method TrimMessages()
      requires Valid()
      modifies this`messages, this`messageById
      ensures Valid()
      ensures messages == Trim(old(messages), maxMessages)
    {
      if maxMessages <= 0 || |messages| <= maxMessages { return; }
      messages := messages[|messages| - maxMessages..];
      messageById := IndexMessages(messages);
    }

    method PutMessage(msg: Message)
      requires Valid()
      modifies this`messages, this`messageById
      ensures Valid()
      ensures messages == StoreSpec.PutMessage(old(messages), msg, maxMessages)
    {
      if msg.id in messageById {
        MessageUpdated(messages, messageById, messageById[msg.id], msg);
        messages := messages[messageById[msg.id] := msg];
      } else {
        messageById := messageById[msg.id := |messages|];
        messages := messages + [msg];
        TrimMessages();
      }
    }

    method UpdateMessageState(gatewayId: string, state: string, errorCode: int) returns (ok: bool)
      requires Valid()
      modifies this`messages
      ensures Valid()
      ensures var r := StoreSpec.UpdateMessageState(old(Value()), gatewayId, state, errorCode);
              ok == r.Ok? && Value() == if ok then r.value else old(Value())
    {
      ok := gatewayId in messageById;
      if ok {
        var i := messageById[gatewayId];
        var msg := messages[i].(state := state, errorCode := errorCode);
        MessageUpdated(messages, messageById, i, msg);
        messages := messages[i := msg];
      }
    }

    // ----- outbox

    method ClaimOutbox(worker: string, limit: int, now: Time) returns (items: seq<OutboxItem>)
      requires Valid()
      modifies this`outbox
      ensures Valid()
      ensures ClaimStep(old(outbox), outbox, worker, limit, now, items)
    {
      outbox, items := ClaimFrom(outbox, worker, limit, now);
    }

    method RequeueStaleOutbox(before: Time, limit: int) returns (count: nat, ghost requeued: set<int>)
      requires Valid()
      modifies this`outbox
      ensures Valid()
      ensures RequeueStep(old(outbox), outbox, before, limit, requeued) && count == |requeued|
    {
      outbox, count, requeued := RequeueFrom(outbox, before, limit);
    }

    method MarkOutboxSending(id: int, worker: string) returns (ok: bool)
      requires Valid()
      modifies this`outbox
      ensures Valid()
      ensures var r := MarkSending(old(Value()), id, worker);
              ok == r.Ok? && Value() == if ok then r.value else old(Value())
    {
      if id !in outbox { return false; }
      var item := outbox[id];
      if item.state.RowSending? && item.claimedBy == worker { return true; }
      if !item.state.RowClaimed? || item.claimedBy != worker { return false; }
      outbox := outbox[id := item.(state := RowSending)];
      return true;
    }

    method CompleteOutboxSend(id: int, worker: string, recs: seq<Pending>) returns (ok: bool)
      requires Valid()
      modifies this`outbox, this`messages, this`pending
      ensures Valid()
      ensures var r := CompleteSend(old(Value()), id, worker, recs);
              ok == r.Ok? && Value() == if ok then r.value else old(Value())
    {
      if id !in outbox { return false; }
      var item := outbox[id];
      if item.state.RowDone? { return true; }
      if !item.state.RowSending? || item.claimedBy != worker { return false; }
      var fits, out := ValidateCompletion(item, recs);
      if !fits || item.gatewayId !in messageById { return false; }
      var m := messageById[item.gatewayId];
      var msg := messages[m].(providerId := out[0].providerId, state := "sent");
      MessageUpdated(messages, messageById, m, msg);
      messages := messages[m := msg];
      pending := PutAll(pending, out, recs);
      outbox := outbox[id := item.(state := RowDone)];
      return true;
    }

    method MarkOutboxUncertain(id: int, worker: string, reason: string) returns (ok: bool)
      requires Valid()
      modifies this`outbox, this`messages
      ensures Valid()
      ensures var r := MarkUncertain(old(Value()), id, worker, reason);
              ok == r.Ok? && Value() == if ok then r.value else old(Value())
    {
      if id !in outbox { return false; }
      var item := outbox[id];
      if !item.state.RowSending? && !item.state.RowUncertain? { return false; }
      if item.claimedBy != worker { return false; }
      outbox := outbox[id := item.(state := RowUncertain, lastError := reason)];
      if item.gatewayId in messageById {
        var m := messageById[item.gatewayId];
        var msg := messages[m].(state := "UNKNOWN", errorCode := 1);
        MessageUpdated(messages, messageById, m, msg);
        messages := messages[m := msg];
      }
      return true;
    }

    method AckOutbox(id: int) returns (ok: bool)
      requires Valid()
      modifies this`outbox
      ensures Valid()
      ensures var r := StoreSpec.AckOutbox(old(Value()), id);
              ok == r.Ok? && Value() == if ok then r.value else old(Value())
    {
      if id !in outbox || !outbox[id].state.RowClaimed? { return false; }
      outbox := outbox[id := outbox[id].(state := RowDone)];
      return true;
    }

    method FailOutbox(id: int, reason: string, nextRetryAt: Time) returns (ok: bool)
      requires Valid()
      modifies this`outbox
      ensures Valid()
      ensures var r := StoreSpec.FailOutbox(old(Value()), id, reason, nextRetryAt);
              ok == r.Ok? && Value() == if ok then r.value else old(Value())
    {
      if id !in outbox { return false; }
      var item := outbox[id].(lastError := reason);
      if nextRetryAt == ZERO_TIME || item.attempt >= item.maxAttempts {
        if !item.state.RowClaimed? && !item.state.RowSending? { return false; }
        item := item.(state := RowFailed);
      } else {
        if !item.state.RowClaimed? { return false; }
        item := item.(state := RowPending, nextRetryAt := nextRetryAt, claimedBy := "", claimedAt := ZERO_TIME);
      }
      outbox := outbox[id := item];
      return true;
    }

    // ----- receipts

    method SweepLocked(now: Time)
      requires Valid()
      modifies this`pending, this`idempotency
      ensures Valid()
      ensures Value() == Sweep(old(Value()), now)
    {
      pending := DropExpired(pending, now);
      idempotency := DropLapsed(idempotency, now);
    }

    method ListPendingByGatewayId(gatewayId: string, now: Time) returns (rows: seq<Pending>)
      requires Valid()
      modifies this`pending, this`idempotency
      ensures Valid()
      ensures Value() == Sweep(old(Value()), now)
      ensures Listing(pending, gatewayId, rows) && InListOrder(rows)
    {
      SweepLocked(now);
      rows := ListRows(pending, gatewayId);
    }

    method UpdatePendingDLR(k: PendingKey, state: string, errorCode: int, doneAt: Time) returns (ok: bool)
      requires Valid()
      modifies this`pending
      ensures Valid()
      ensures var r := StoreSpec.UpdatePendingDLR(old(Value()), k, state, errorCode, doneAt);
              ok == r.Ok? && Value() == if ok then r.value else old(Value())
    {
      if k !in pending { return false; }
      var p := pending[k].(dlrDelivered := false, dlrState := state, dlrErrorCode := errorCode, dlrDoneAt := doneAt);
      pending := pending[k := p];
      return true;
    }

    method MarkDLRReady(k: PendingKey, state: string, errorCode: int, doneAt: Time) returns (ok: bool)
      requires Valid()
      modifies this`pending
      ensures Valid()
      ensures var r := StoreSpec.MarkDLRReady(old(Value()), k, state, errorCode, doneAt);
              ok == r.Ok? && Value() == if ok then r.value else old(Value())
    {
      if k !in pending { return false; }
      var p := pending[k].(dlrReady := true, dlrDelivered := false, dlrState := state, dlrErrorCode := errorCode,
                           dlrDoneAt := doneAt);
      pending := pending[k := p];
      return true;
    }

    method MarkDLRDelivered(k: PendingKey) returns (ok: bool)
      requires Valid()
      modifies this`pending
      ensures Valid()
      ensures var r := StoreSpec.MarkDLRDelivered(old(Value()), k);
              ok == r.Ok? && Value() == if ok then r.value else old(Value())
    {
      if k !in pending { return false; }
      pending := pending[k := pending[k].(dlrReady := false, dlrDelivered := true)];
      return true;
    }

    method DeletePendingByGatewayId(gatewayId: string)
      requires Valid()
      modifies this`pending
      ensures Valid()
      ensures Value() == StoreSpec.DeletePendingByGatewayId(old(Value()), gatewayId)
    {
      var todo := pending.Keys;
      while todo != {}
        invariant todo <= pending.Keys <= old(pending).Keys
        invariant forall k :: k in pending ==> pending[k] == old(pending)[k]
        invariant forall k :: k in old(pending) && k !in todo ==>
                    (k in pending <==> old(pending)[k].gatewayId != gatewayId)
      {
        var k := Pick(todo);
        todo := todo - {k};
        if pending[k].gatewayId == gatewayId { pending := pending - {k}; }
      }
      assert pending == StoreSpec.DeletePendingByGatewayId(old(Value()), gatewayId).pending;
    }

    // ----- submission

    method SubmitAtomic(sub: Submission, now: Time) returns (outcome: SubmitOutcome)
      requires Valid()
      modifies this
      ensures Valid()
      ensures (Value(), outcome) == StoreSpec.SubmitAtomic(old(Value()), sub, now, maxMessages)
    {
      SweepLocked(now);
      if Keyed(sub) && sub.idempotency in idempotency && idempotency[sub.idempotency].expiresAt > now {
        return Duplicate(idempotency[sub.idempotency].gatewayId);
      }
      if Charged(sub) {
        var q := sub.quota.value;
        if !ValidDebit(q) { return InvalidQuota; }
        var k := QuotaKey(q.tenantId, q.date);
        if q.segments > q.limit || Used(quota, k) > q.limit - q.segments { return QuotaExceeded; }
        quota := quota[k := Used(quota, k) + q.segments];
      }
      if Keyed(sub) {
        idempotency := idempotency[sub.idempotency := IdempotencyRecord(sub.message.id, now + Ttl(sub))];
      }
      var id := Enqueue(sub, now);
      return Accepted(id);
    }

    method Enqueue(sub: Submission, now: Time) returns (id: int)
      requires Valid()
      modifies this`messages, this`messageById, this`nextOutbox, this`outbox
      ensures Valid()
      ensures Value() == Enqueued(old(Value()), sub, now, maxMessages) && id == nextOutbox
    {
      PutMessage(sub.message);
      nextOutbox := nextOutbox + 1;
      outbox := outbox[nextOutbox := NewRow(sub, nextOutbox, now)];
      id := nextOutbox;
    }

    method ReserveGatewayIdRange(span: nat) returns (start: nat, end: nat)
      requires Valid()
      modifies this`gatewaySeq
      ensures Valid()
      ensures (Value(), start, end) == ReserveRange(old(Value()), span)
    {
      start := gatewaySeq + 1;
      gatewaySeq := gatewaySeq + Span(span);
      end := gatewaySeq;
    }
  }

  method IndexMessages(ms: seq<Message>) returns (index: map<string, int>)
    requires DistinctIds(ms)
    ensures MemoryStore.IndexOf(ms, index)
  {
    index := map[];
    for i := 0 to |ms|
      invariant forall id :: id in index ==> 0 <= index[id] < i && ms[index[id]].id == id
      invariant forall k :: 0 <= k < i ==> ms[k].id in index && index[ms[k].id] == k
    {
      index := index[ms[i].id := i];
    }
  }

  lemma MessageUpdated(ms: seq<Message>, index: map<string, int>, m: int, msg: Message)
    requires DistinctIds(ms) && MemoryStore.IndexOf(ms, index) && 0 <= m < |ms| && msg.id == ms[m].id
    ensures DistinctIds(ms[m := msg]) && MemoryStore.IndexOf(ms[m := msg], index)
    ensures FindMessage(ms, msg.id) == m
  {
  }

  // ----- the loops over the tables; maps are visited in no particular order

  ghost predicate InDueOrder(cs: seq<OutboxItem>) {
    forall i, j :: 0 <= i < j < |cs| ==> DueBefore(cs[i], cs[j])
  }

  /** Putting x between its lower and upper neighbours keeps a sequence in order. */
  lemma Inserted<T>(xs: seq<T>, x: T, k: nat, before: (T, T) -> bool)
    requires k <= |xs|
    requires forall i, j :: 0 <= i < j < |xs| ==> before(xs[i], xs[j])
    requires forall i :: 0 <= i < k ==> before(xs[i], x)
    requires forall i :: k <= i < |xs| ==> before(x, xs[i])
    ensures var r := xs[..k] + [x] + xs[k..];
            && (forall i, j :: 0 <= i < j < |r| ==> before(r[i], r[j]))
            && (forall y :: y in r <==> y in xs || y == x)
  {
    assert xs == xs[..k] + xs[k..];
  }

  /** Keeps candidates in due order as they are met. */
  method InsertDue(cs: seq<OutboxItem>, item: OutboxItem) returns (r: seq<OutboxItem>)
    requires InDueOrder(cs)
    requires forall i :: 0 <= i < |cs| ==> cs[i].id != item.id
    ensures InDueOrder(r)
    ensures forall x :: x in r <==> x in cs || x == item
  {
    var k := 0;
    while k < |cs| && DueBefore(cs[k], item)
      invariant 0 <= k <= |cs|
      invariant forall i :: 0 <= i < k ==> DueBefore(cs[i], item)
    {
      k := k + 1;
    }
    r := cs[..k] + [item] + cs[k..];
    Inserted(cs, item, k, DueBefore);
  }

  ghost predicate KeyedById(outbox: map<int, OutboxItem>) {
    forall id :: id in outbox ==> outbox[id].id == id
  }

  method Candidates(outbox: map<int, OutboxItem>, now: Time) returns (cs: seq<OutboxItem>)
    requires KeyedById(outbox)
    ensures forall x :: x in cs ==> x.id in ClaimableIds(outbox, now) && x == outbox[x.id]
    ensures forall id :: id in ClaimableIds(outbox, now) ==> outbox[id] in cs
    ensures InDueOrder(cs)
  {
    cs := [];
    var todo: set<int> := outbox.Keys;
    while todo != {}
      invariant todo <= outbox.Keys
      invariant forall x :: x in cs ==> x.id in ClaimableIds(outbox, now) && x.id !in todo && x == outbox[x.id]
      invariant forall id :: id in ClaimableIds(outbox, now) && id !in todo ==> outbox[id] in cs
      invariant InDueOrder(cs)
    {
      var id := Pick(todo);
      todo := todo - {id};
      if Claimable(outbox[id], now) {
        cs := InsertDue(cs, outbox[id]);
      }
    }
  }

  method ClaimFrom(outbox: map<int, OutboxItem>, worker: string, limit: int, now: Time)
    returns (outbox': map<int, OutboxItem>, items: seq<OutboxItem>)
    requires KeyedById(outbox)
    ensures ClaimStep(outbox, outbox', worker, limit, now, items) && KeyedById(outbox')
  {
    var all := Candidates(outbox, now);
    var cs := if |all| > ClaimLimit(limit) then all[..ClaimLimit(limit)] else all;
    forall i | 0 <= i < |cs|
      ensures cs[i].id in ClaimableIds(outbox, now) && cs[i] == outbox[cs[i].id]
    {
      assert cs[i] in all;
    }
    outbox', items := StampAll(outbox, cs, worker, now);
    NothingPassedOver(outbox, all, items, worker, now);
  }

  method StampAll(outbox: map<int, OutboxItem>, cs: seq<OutboxItem>, worker: string, now: Time)
    returns (outbox': map<int, OutboxItem>, items: seq<OutboxItem>)
    requires forall i :: 0 <= i < |cs| ==> cs[i].id in outbox && cs[i] == outbox[cs[i].id]
    ensures |items| == |cs| && forall i :: 0 <= i < |cs| ==> items[i] == ClaimedItem(cs[i], worker, now)
    ensures outbox'.Keys == outbox.Keys
    ensures forall id :: id in outbox ==>
              outbox'[id] == if Holds(items, id) then ClaimedItem(outbox[id], worker, now) else outbox[id]
  {
    outbox', items := outbox, [];
    for k := 0 to |cs|
      invariant |items| == k
      invariant forall i :: 0 <= i < k ==> items[i] == ClaimedItem(cs[i], worker, now)
      invariant outbox'.Keys == outbox.Keys
      invariant forall id :: id in outbox ==>
          outbox'[id] == if Holds(items, id) then ClaimedItem(outbox[id], worker, now) else outbox[id]
    {
      var item := ClaimedItem(cs[k], worker, now);
      HoldsMore(items, item);
      outbox' := outbox'[item.id := item];
      items := items + [item];
    }
  }

  lemma HoldsMore(items: seq<OutboxItem>, item: OutboxItem)
    ensures forall id :: Holds(items + [item], id) <==> Holds(items, id) || id == item.id
  {
    forall id
      ensures Holds(items + [item], id) <==> Holds(items, id) || id == item.id
    {
      var more := items + [item];
      assert more[|items|] == item;
      if i :| 0 <= i < |items| && items[i].id == id { assert more[i].id == id; }
    }
  }

  lemma NothingPassedOver(outbox: map<int, OutboxItem>, cs: seq<OutboxItem>, items: seq<OutboxItem>,
                          worker: string, now: Time)
    requires |items| <= |cs| && forall i :: 0 <= i < |items| ==> items[i] == ClaimedItem(cs[i], worker, now)
    requires InDueOrder(cs)
    requires forall id :: id in ClaimableIds(outbox, now) ==> outbox[id].id == id && outbox[id] in cs
    ensures forall id :: id in ClaimableIds(outbox, now) && !Holds(items, id) ==>
              |items| < |cs| && forall i :: 0 <= i < |items| ==> DueBefore(items[i], outbox[id])
  {
    forall id | id in ClaimableIds(outbox, now) && !Holds(items, id)
      ensures |items| < |cs| && forall i :: 0 <= i < |items| ==> DueBefore(items[i], outbox[id])
    {
      assert forall i {:trigger cs[i]} :: 0 <= i < |items| ==> items[i].id == cs[i].id;
      var k :| 0 <= k < |cs| && cs[k] == outbox[id];
    }
  }

  method RequeueFrom(outbox: map<int, OutboxItem>, before: Time, limit: int)
    returns (outbox': map<int, OutboxItem>, count: nat, ghost requeued: set<int>)
    ensures RequeueStep(outbox, outbox', before, limit, requeued) && count == |requeued|
    ensures KeyedById(outbox) ==> KeyedById(outbox')
  {
    outbox', count, requeued := outbox, 0, {};
    var todo: set<int> := outbox.Keys;
    while todo != {}
      invariant todo <= outbox.Keys && outbox'.Keys == outbox.Keys && count < RequeueLimit(limit)
      invariant forall id :: id in requeued ==> id in outbox && id !in todo && Stale(outbox[id], before)
      invariant forall id :: id in outbox && id !in todo && Stale(outbox[id], before) ==> id in requeued
      invariant count == |requeued|
      invariant forall id :: id in outbox ==>
          outbox'[id] == if id in requeued then RequeuedItem(outbox[id], before) else outbox[id]
    {
      var id := Pick(todo);
      todo := todo - {id};
      if Stale(outbox[id], before) {
        outbox' := outbox'[id := RequeuedItem(outbox[id], before)];
        requeued := requeued + {id};
        count := count + 1;
        if count >= RequeueLimit(limit) { break; }
      }
    }
    forall id | id in requeued
      ensures id in StaleIds(outbox, before)
    {
    }
    if count < RequeueLimit(limit) {
      forall id | id in StaleIds(outbox, before)
        ensures id in requeued
      {
      }
    }
  }

  method ValidateCompletion(item: OutboxItem, recs: seq<Pending>) returns (ok: bool, out: seq<Pending>)
    ensures ok <==> CompletionFits(item, recs)
    ensures ok ==> |out| == |recs| && forall i :: 0 <= i < |recs| ==> out[i] == NormalizePending(recs[i])
  {
    out := [];
    if recs == [] { return false, []; }
    for i := 0 to |recs|
      invariant |out| == i
      invariant forall k :: 0 <= k < i ==> out[k] == NormalizePending(recs[k])
      invariant forall k :: 0 <= k < i ==>
          recs[k].providerId != "" && recs[k].gatewayId == item.gatewayId && recs[k].provider == item.provider
    {
      var rec := NormalizePending(recs[i]);
      if rec.providerId == "" { return false, []; }
      if rec.gatewayId != item.gatewayId || rec.provider != item.provider { return false, []; }
      out := out + [rec];
    }
    return true, out;
  }

  method PutAll(pending: map<PendingKey, Pending>, out: seq<Pending>, ghost recs: seq<Pending>)
    returns (r: map<PendingKey, Pending>)
    requires forall k :: k in pending ==> KeyOf(pending[k]) == k
    requires |out| == |recs| && forall i :: 0 <= i < |recs| ==> out[i] == NormalizePending(recs[i])
    ensures r == PutPending(pending, recs)
    ensures forall k :: k in r ==> KeyOf(r[k]) == k
  {
    r := pending;
    for i := 0 to |out|
      invariant r == PutPending(pending, recs[..i])
      invariant forall k :: k in r ==> KeyOf(r[k]) == k
    {
      r := r[KeyOf(out[i]) := out[i]];
      assert recs[..i + 1][..i] == recs[..i];
    }
    assert recs[..|recs|] == recs;
  }

  method DropExpired(pending: map<PendingKey, Pending>, now: Time) returns (kept: map<PendingKey, Pending>)
    ensures kept == SweepPending(pending, now)
  {
    kept := pending;
    var todo := pending.Keys;
    while todo != {}
      invariant todo <= kept.Keys <= pending.Keys
      invariant forall k :: k in kept ==> kept[k] == pending[k]
      invariant forall k :: k in pending && k !in todo ==> (k in kept <==> !Expired(pending[k], now))
    {
      var k := Pick(todo);
      todo := todo - {k};
      if Expired(pending[k], now) { kept := kept - {k}; }
    }
  }

  method DropLapsed(m: map<IdempotencyKey, IdempotencyRecord>, now: Time)
    returns (kept: map<IdempotencyKey, IdempotencyRecord>)
    ensures kept == SweepIdempotency(m, now)
  {
    kept := m;
    var todo := m.Keys;
    while todo != {}
      invariant todo <= kept.Keys <= m.Keys
      invariant forall k :: k in kept ==> kept[k] == m[k]
      invariant forall k :: k in m && k !in todo ==> (k in kept <==> !Lapsed(m[k], now))
    {
      var k := Pick(todo);
      todo := todo - {k};
      if Lapsed(m[k], now) { kept := kept - {k}; }
    }
  }

  /** Listed in order, and not the same row. */
  predicate ListedAfter(a: Pending, b: Pending) {
    !ListedBefore(b, a) && KeyOf(a) != KeyOf(b)
  }

  ghost predicate InListOrder(rows: seq<Pending>) {
    forall i, j :: 0 <= i < j < |rows| ==> ListedAfter(rows[i], rows[j])
  }

  method InsertListed(rows: seq<Pending>, p: Pending) returns (r: seq<Pending>)
    requires InListOrder(rows)
    requires forall x :: x in rows ==> KeyOf(x) != KeyOf(p)
    ensures InListOrder(r)
    ensures forall x :: x in r <==> x in rows || x == p
  {
    var k := |rows|;
    while k > 0 && ListedBefore(p, rows[k - 1])
      invariant 0 <= k <= |rows|
      invariant forall i :: k <= i < |rows| ==> ListedBefore(p, rows[i])
    {
      k := k - 1;
    }
    r := rows[..k] + [p] + rows[k..];
    ListedAround(rows, p, k);
    Inserted(rows, p, k, ListedAfter);
  }

  lemma ListedAround(rows: seq<Pending>, p: Pending, k: nat)
    requires InListOrder(rows) && k <= |rows|
    requires forall x :: x in rows ==> KeyOf(x) != KeyOf(p)
    requires k > 0 ==> !ListedBefore(p, rows[k - 1])
    requires forall i :: k <= i < |rows| ==> ListedBefore(p, rows[i])
    ensures forall i :: 0 <= i < k ==> ListedAfter(rows[i], p)
    ensures forall i :: k <= i < |rows| ==> ListedAfter(p, rows[i])
  {
    forall i | 0 <= i < |rows|
      ensures if i < k then ListedAfter(rows[i], p) else ListedAfter(p, rows[i])
    {
      assert rows[i] in rows;
      if i >= k { ListedAsymmetric(p, rows[i]); }
      else if i < k - 1 {
        assert ListedAfter(rows[i], rows[k - 1]);
        ListedTransitive(p, rows[i], rows[k - 1]);
      }
    }
  }

  method ListRows(pending: map<PendingKey, Pending>, gatewayId: string) returns (rows: seq<Pending>)
    requires forall k :: k in pending ==> KeyOf(pending[k]) == k
    ensures Listing(pending, gatewayId, rows) && InListOrder(rows)
  {
    rows := [];
    var todo := pending.Keys;
    while todo != {}
      invariant todo <= pending.Keys
      invariant forall x :: x in rows ==>
          KeyOf(x) in KeysOfGateway(pending, gatewayId) && KeyOf(x) !in todo && x == pending[KeyOf(x)]
      invariant forall k :: k in KeysOfGateway(pending, gatewayId) && k !in todo ==> pending[k] in rows
      invariant InListOrder(rows)
    {
      var k := Pick(todo);
      todo := todo - {k};
      if pending[k].gatewayId == gatewayId {
        rows := InsertListed(rows, pending[k]);
      }
    }
    assert forall i, j :: 0 <= i < j < |rows| ==> ListedAfter(rows[i], rows[j]);
  }

  lemma {:induction false} LessStringTransitive(a: string, b: string, c: string)
    requires LessString(a, b) && (LessString(b, c) || b == c)
    ensures LessString(a, c)
  {
    if a != [] && b != [] && c != [] && a[0] == b[0] == c[0] {
      if b == c { return; }
      LessStringTransitive(a[1..], b[1..], c[1..]);
    }
  }

  lemma {:induction false} LessStringAsymmetric(a: string, b: string)
    requires LessString(a, b)
    ensures !LessString(b, a)
  {
    if a != [] && a[0] == b[0] { LessStringAsymmetric(a[1..], b[1..]); }
  }

  lemma {:induction false} LessStringTotal(a: string, b: string)
    ensures LessString(a, b) || a == b || LessString(b, a)
  {
    if a != [] && b != [] && a[0] == b[0] {
      LessStringTotal(a[1..], b[1..]);
      assert a == [a[0]] + a[1..] && b == [b[0]] + b[1..];
    }
  }

  lemma ListedAsymmetric(a: Pending, b: Pending)
    requires ListedBefore(a, b)
    ensures !ListedBefore(b, a)
  {
    if a.segmentIndex == b.segmentIndex {
      if a.provider != b.provider { LessStringAsymmetric(a.provider, b.provider); }
      else { LessStringAsymmetric(a.providerId, b.providerId); }
    }
  }

  /** Not before is transitive: the listing order is a weak order. */
  lemma ListedTransitive(p: Pending, a: Pending, b: Pending)
    requires !ListedBefore(b, a) && !ListedBefore(p, b)
    ensures !ListedBefore(p, a)
  {
    if p.segmentIndex == a.segmentIndex == b.segmentIndex {
      if p.provider == a.provider {
        if b.provider == a.provider {
          LessStringTotal(p.providerId, b.providerId);
          LessStringTotal(b.providerId, a.providerId);
          if LessString(p.providerId, a.providerId) {
            if a.providerId != b.providerId { LessStringTransitive(p.providerId, a.providerId, b.providerId); }
          }
        } else {
          LessStringTotal(b.provider, a.provider);
          LessStringTotal(p.provider, b.provider);
          LessStringAsymmetric(a.provider, b.provider);
        }
      } else if LessString(p.provider, a.provider) {
        LessStringTotal(a.provider, b.provider);
        LessStringTotal(b.provider, p.provider);
        if b.provider != p.provider {
          LessStringTransitive(b.provider, p.provider, a.provider);
        }
      }
    }
  }
}
