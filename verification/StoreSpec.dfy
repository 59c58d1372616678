/**
  The value of a message store, and what each store call does to it.

  A value of type `Store` is what the file store writes as one snapshot and what the
  memory store holds in its fields. Instants are natural numbers; 0 is the zero instant.
  A call that the store refuses leaves it unchanged and yields `Err`.
 */
module StoreSpec {
  import opened Wrappers

  type Time = nat

  const ZERO_TIME: Time := 0
  const DEFAULT_MAX_ATTEMPTS := 5

  datatype RowState = RowPending | RowClaimed | RowSending | RowDone | RowFailed | RowUncertain

  datatype OutboxItem = OutboxItem(
    id: int,
    gatewayId: string,
    provider: string,
    state: RowState,
    claimedBy: string,
    claimedAt: Time,
    nextRetryAt: Time,
    attempt: int,
    maxAttempts: int,
    lastError: string)

  datatype PendingKey = PendingKey(provider: string, providerId: string)

  datatype Pending = Pending(
    provider: string,
    providerId: string,
    gatewayId: string,
    segmentIndex: int,
    segmentCount: int,
    expiresAt: Time,
    dlrReady: bool,
    dlrDelivered: bool,
    dlrState: string,
    dlrErrorCode: int,
    dlrDoneAt: Time)

  datatype Message = Message(id: string, providerId: string, state: string, errorCode: int)

  datatype IdempotencyKey = IdempotencyKey(clientId: string, key: string)

  datatype IdempotencyRecord = IdempotencyRecord(gatewayId: string, expiresAt: Time)

  datatype QuotaKey = QuotaKey(tenantId: string, date: string)

  datatype Store = Store(
    messages: seq<Message>,
    pending: map<PendingKey, Pending>,
    outbox: map<int, OutboxItem>,
    nextOutbox: int,
    idempotency: map<IdempotencyKey, IdempotencyRecord>,
    quota: map<QuotaKey, int>,
    gatewaySeq: nat)

  const EMPTY := Store([], map[], map[], 0, map[], map[], 0)

  // ----- the message table

  /** Position of the message with the given id, or -1. */
  function FindMessage(ms: seq<Message>, id: string): (i: int)
    ensures -1 <= i < |ms|
    ensures i >= 0 ==> ms[i].id == id
    ensures i < 0 ==> forall k :: 0 <= k < |ms| ==> ms[k].id != id
  {
    if ms == [] then -1
    else if ms[|ms| - 1].id == id then |ms| - 1
    else FindMessage(ms[..|ms| - 1], id)
  }

  /** Replacing a message by one with its id changes what is found under that id only. */
  lemma {:induction false} FoundAfter(ms: seq<Message>, m: nat, msg: Message, x: string)
    requires m == FindMessage(ms, msg.id) && m < |ms|
    ensures FindMessage(ms[m := msg], x) == FindMessage(ms, x)
  {
    var n := |ms| - 1;
    if m < n {
      assert ms[m := msg][..n] == ms[..n][m := msg];
      FoundAfter(ms[..n], m, msg, x);
    } else {
      assert ms[m := msg][..n] == ms[..n];
    }
  }

  ghost predicate DistinctIds(ms: seq<Message>) {
    forall i, j :: 0 <= i < j < |ms| ==> ms[i].id != ms[j].id
  }

  /** Keeps the newest `max` messages; a non-positive bound keeps them all. */
  function Trim(ms: seq<Message>, max: int): seq<Message> {
    if max <= 0 || |ms| <= max then ms else ms[|ms| - max..]
  }

  function PutMessage(ms: seq<Message>, msg: Message, max: int): seq<Message> {
    var i := FindMessage(ms, msg.id);
    if i >= 0 then ms[i := msg] else Trim(ms + [msg], max)
  }

  function MessageWith(st: Store, gatewayId: string): Option<Message> {
    var m := FindMessage(st.messages, gatewayId);
    if m < 0 then None else Some(st.messages[m])
  }

  function UpdateMessageState(st: Store, gatewayId: string, state: string, errorCode: int): Result<Store> {
    var i := FindMessage(st.messages, gatewayId);
    if i < 0 then Err
    else Ok(st.(messages := st.messages[i := st.messages[i].(state := state, errorCode := errorCode)]))
  }

  // ----- the outbox

  predicate Claimable(item: OutboxItem, now: Time) {
    item.state.RowPending? && item.nextRetryAt <= now
  }

  /** Claims are served by due time, then by row number. */
  predicate DueBefore(a: OutboxItem, b: OutboxItem) {
    a.nextRetryAt < b.nextRetryAt || (a.nextRetryAt == b.nextRetryAt && a.id < b.id)
  }

  function ClaimedItem(item: OutboxItem, worker: string, now: Time): OutboxItem {
    item.(state := RowClaimed, claimedBy := worker, claimedAt := now, attempt := item.attempt + 1)
  }

  ghost function ClaimableIds(outbox: map<int, OutboxItem>, now: Time): set<int> {
    set id | id in outbox && Claimable(outbox[id], now)
  }

  /** The rows handed out by one claim, and the outbox after it. */
  ghost predicate ClaimStep(outbox: map<int, OutboxItem>, outbox': map<int, OutboxItem>,
                            worker: string, limit: int, now: Time, items: seq<OutboxItem>)
  {
    // every item is a due row, stamped with the worker
    && (forall i :: 0 <= i < |items| ==>
          && items[i].id in ClaimableIds(outbox, now)
          && items[i] == ClaimedItem(outbox[items[i].id], worker, now))
    // as many as the limit allows, in due order, and nothing due was passed over
    && |items| <= ClaimLimit(limit)
    && (forall i, j :: 0 <= i < j < |items| ==> DueBefore(items[i], items[j]))
    && (forall id :: id in ClaimableIds(outbox, now) && !Holds(items, id) ==>
          |items| == ClaimLimit(limit) && forall i :: 0 <= i < |items| ==> DueBefore(items[i], outbox[id]))
    // exactly those rows changed
    && outbox'.Keys == outbox.Keys
    && (forall id :: id in outbox ==>
          outbox'[id] == if Holds(items, id) then ClaimedItem(outbox[id], worker, now) else outbox[id])
  }

  ghost predicate Holds(items: seq<OutboxItem>, id: int) {
    exists i :: 0 <= i < |items| && items[i].id == id
  }

  function ClaimLimit(limit: int): nat {
    if limit <= 0 then 1 else limit
  }

  function RequeueLimit(limit: int): nat {
    if limit <= 0 then 1000 else limit
  }

  predicate Stale(item: OutboxItem, before: Time) {
    item.state.RowClaimed? && item.claimedAt != ZERO_TIME && item.claimedAt < before
  }

  function RequeuedItem(item: OutboxItem, before: Time): OutboxItem {
    item.(state := RowPending, claimedBy := "", claimedAt := ZERO_TIME,
          nextRetryAt := if item.nextRetryAt == ZERO_TIME || item.nextRetryAt > before then before
                         else item.nextRetryAt)
  }

  ghost function StaleIds(outbox: map<int, OutboxItem>, before: Time): set<int> {
    set id | id in outbox && Stale(outbox[id], before)
  }

  /** Up to `limit` stale claims, whichever the iteration meets first, go back to the queue. */
  ghost predicate RequeueStep(outbox: map<int, OutboxItem>, outbox': map<int, OutboxItem>,
                              before: Time, limit: int, requeued: set<int>)
  {
    && requeued <= StaleIds(outbox, before)
    && |requeued| <= RequeueLimit(limit)
    && (|requeued| < RequeueLimit(limit) ==> requeued == StaleIds(outbox, before))
    && outbox'.Keys == outbox.Keys
    && (forall id :: id in outbox ==>
          outbox'[id] == if id in requeued then RequeuedItem(outbox[id], before) else outbox[id])
  }

  function MarkSending(st: Store, id: int, worker: string): Result<Store> {
    if id !in st.outbox then Err
    else
      var item := st.outbox[id];
      if item.state.RowSending? && item.claimedBy == worker then Ok(st)
      else if !item.state.RowClaimed? || item.claimedBy != worker then Err
      else Ok(st.(outbox := st.outbox[id := item.(state := RowSending)]))
  }

  function NormalizePending(p: Pending): Pending {
    p.(segmentIndex := if p.segmentIndex <= 0 then 1 else p.segmentIndex,
       segmentCount := if p.segmentCount <= 0 then 1 else p.segmentCount)
  }

  function KeyOf(p: Pending): PendingKey {
    PendingKey(p.provider, p.providerId)
  }

  /** A completion names at least one receipt row, all of them for this outbox row. */
  predicate CompletionFits(item: OutboxItem, recs: seq<Pending>) {
    && recs != []
    && forall i :: 0 <= i < |recs| ==>
         recs[i].providerId != "" && recs[i].gatewayId == item.gatewayId && recs[i].provider == item.provider
  }

  function PutPending(pending: map<PendingKey, Pending>, recs: seq<Pending>): map<PendingKey, Pending> {
    if recs == [] then pending
    else
      var rec := NormalizePending(recs[|recs| - 1]);
      PutPending(pending, recs[..|recs| - 1])[KeyOf(rec) := rec]
  }

  function CompleteSend(st: Store, id: int, worker: string, recs: seq<Pending>): Result<Store> {
    if id !in st.outbox then Err
    else
      var item := st.outbox[id];
      if item.state.RowDone? then Ok(st)
      else if !item.state.RowSending? || item.claimedBy != worker then Err
      else if !CompletionFits(item, recs) then Err
      else
        var i := FindMessage(st.messages, item.gatewayId);
        if i < 0 then Err
        else
          var msg := st.messages[i].(providerId := recs[0].providerId, state := "sent");
          Ok(st.(messages := st.messages[i := msg],
                 pending := PutPending(st.pending, recs),
                 outbox := st.outbox[id := item.(state := RowDone)]))
  }

  function MarkUncertain(st: Store, id: int, worker: string, reason: string): Result<Store> {
    if id !in st.outbox then Err
    else
      var item := st.outbox[id];
      if !item.state.RowSending? && !item.state.RowUncertain? then Err
      else if item.claimedBy != worker then Err
      else
        var st' := st.(outbox := st.outbox[id := item.(state := RowUncertain, lastError := reason)]);
        var i := FindMessage(st.messages, item.gatewayId);
        if i < 0 then Ok(st')
        else Ok(st'.(messages := st.messages[i := st.messages[i].(state := "UNKNOWN", errorCode := 1)]))
  }

  function AckOutbox(st: Store, id: int): Result<Store> {
    if id !in st.outbox || !st.outbox[id].state.RowClaimed? then Err
    else Ok(st.(outbox := st.outbox[id := st.outbox[id].(state := RowDone)]))
  }

  /** Note that the caller is not asked whether it owns the row. */
  function FailOutbox(st: Store, id: int, reason: string, nextRetryAt: Time): Result<Store> {
    if id !in st.outbox then Err
    else
      var item := st.outbox[id].(lastError := reason);
      if nextRetryAt == ZERO_TIME || item.attempt >= item.maxAttempts then
        if !item.state.RowClaimed? && !item.state.RowSending? then Err
        else Ok(st.(outbox := st.outbox[id := item.(state := RowFailed)]))
      else
        if !item.state.RowClaimed? then Err
        else Ok(st.(outbox := st.outbox[id := item.(state := RowPending, nextRetryAt := nextRetryAt,
                                                    claimedBy := "", claimedAt := ZERO_TIME)]))
  }

  // ----- receipts

  predicate Expired(p: Pending, now: Time) {
    !p.dlrReady && p.expiresAt != ZERO_TIME && p.expiresAt < now
  }

  function SweepPending(pending: map<PendingKey, Pending>, now: Time): map<PendingKey, Pending> {
    map k | k in pending && !Expired(pending[k], now) :: pending[k]
  }

  predicate Lapsed(rec: IdempotencyRecord, now: Time) {
    rec.expiresAt != ZERO_TIME && rec.expiresAt < now
  }

  function SweepIdempotency(m: map<IdempotencyKey, IdempotencyRecord>, now: Time)
    : map<IdempotencyKey, IdempotencyRecord>
  {
    map k | k in m && !Lapsed(m[k], now) :: m[k]
  }

  function Sweep(st: Store, now: Time): Store {
    st.(pending := SweepPending(st.pending, now), idempotency := SweepIdempotency(st.idempotency, now))
  }

  function UpdatePendingDLR(st: Store, k: PendingKey, state: string, errorCode: int, doneAt: Time): Result<Store> {
    if k !in st.pending then Err
    else Ok(st.(pending := st.pending[k := st.pending[k].(dlrDelivered := false, dlrState := state,
                                                          dlrErrorCode := errorCode, dlrDoneAt := doneAt)]))
  }

  function MarkDLRReady(st: Store, k: PendingKey, state: string, errorCode: int, doneAt: Time): Result<Store> {
    if k !in st.pending then Err
    else Ok(st.(pending := st.pending[k := st.pending[k].(dlrReady := true, dlrDelivered := false, dlrState := state,
                                                          dlrErrorCode := errorCode, dlrDoneAt := doneAt)]))
  }

  function MarkDLRDelivered(st: Store, k: PendingKey): Result<Store> {
    if k !in st.pending then Err
    else Ok(st.(pending := st.pending[k := st.pending[k].(dlrReady := false, dlrDelivered := true)]))
  }

  function DeletePendingByGatewayId(st: Store, gatewayId: string): Store {
    st.(pending := map k | k in st.pending && st.pending[k].gatewayId != gatewayId :: st.pending[k])
  }

  function LessString(a: string, b: string): bool {
    if b == [] then false
    else if a == [] then true
    else if a[0] != b[0] then a[0] < b[0]
    else LessString(a[1..], b[1..])
  }

  /** The order in which the receipt rows of one message are listed: by segment, then by id. */
  predicate ListedBefore(a: Pending, b: Pending) {
    if a.segmentIndex != b.segmentIndex then a.segmentIndex < b.segmentIndex
    else if a.provider != b.provider then LessString(a.provider, b.provider)
    else LessString(a.providerId, b.providerId)
  }

  ghost function KeysOfGateway(pending: map<PendingKey, Pending>, gatewayId: string): set<PendingKey> {
    set k | k in pending && pending[k].gatewayId == gatewayId
  }

  /** `rows` lists the receipt rows of `gatewayId`, each once, by segment number. */
  ghost predicate Listing(pending: map<PendingKey, Pending>, gatewayId: string, rows: seq<Pending>) {
    && (forall k :: k in KeysOfGateway(pending, gatewayId) ==> pending[k] in rows)
    && (forall i :: 0 <= i < |rows| ==>
          KeyOf(rows[i]) in KeysOfGateway(pending, gatewayId) && pending[KeyOf(rows[i])] == rows[i])
    && (forall i, j :: 0 <= i < j < |rows| ==> KeyOf(rows[i]) != KeyOf(rows[j]))
    && (forall i, j :: 0 <= i < j < |rows| ==> rows[i].segmentIndex <= rows[j].segmentIndex)
  }

  // ----- submission

  datatype QuotaDebit = QuotaDebit(tenantId: string, date: string, segments: int, limit: int, dateValid: bool)

  datatype Submission = Submission(
    message: Message,
    provider: string,
    maxAttempts: int,
    idempotency: IdempotencyKey,
    ttl: int,
    quota: Option<QuotaDebit>)

  datatype SubmitOutcome =
    | Accepted(rowId: int)
    | Duplicate(gatewayId: string)
    | InvalidQuota
    | QuotaExceeded

  const DAY: nat := 86_400_000_000_000

  predicate Keyed(sub: Submission) {
    sub.idempotency.clientId != "" && sub.idempotency.key != ""
  }

  function Ttl(sub: Submission): int {
    if sub.ttl <= 0 then DAY else sub.ttl
  }

  /** A quota without a positive limit is not enforced and charges nothing. */
  predicate Charged(sub: Submission) {
    sub.quota.Some? && sub.quota.value.limit > 0
  }

  function Used(quota: map<QuotaKey, int>, k: QuotaKey): int {
    if k in quota then quota[k] else 0
  }

  predicate ValidDebit(q: QuotaDebit) {
    q.tenantId != "" && q.segments > 0 && q.limit > 0 && q.dateValid
  }

  predicate OverLimit(quota: map<QuotaKey, int>, q: QuotaDebit) {
    q.segments > q.limit || Used(quota, QuotaKey(q.tenantId, q.date)) > q.limit - q.segments
  }

  function NewRow(sub: Submission, id: int, now: Time): OutboxItem {
    OutboxItem(id, sub.message.id, sub.provider, RowPending, "", ZERO_TIME, now, 0,
               if sub.maxAttempts <= 0 then DEFAULT_MAX_ATTEMPTS else sub.maxAttempts, "")
  }

  function Debited(quota: map<QuotaKey, int>, sub: Submission): map<QuotaKey, int> {
    if !Charged(sub) then quota
    else
      var k := QuotaKey(sub.quota.value.tenantId, sub.quota.value.date);
      quota[k := Used(quota, k) + sub.quota.value.segments]
  }

  function Remembered(m: map<IdempotencyKey, IdempotencyRecord>, sub: Submission, now: Time)
    : map<IdempotencyKey, IdempotencyRecord>
  {
    if !Keyed(sub) then m else m[sub.idempotency := IdempotencyRecord(sub.message.id, now + Ttl(sub))]
  }

  function Enqueued(st: Store, sub: Submission, now: Time, maxMessages: int): Store {
    var id := st.nextOutbox + 1;
    st.(messages := PutMessage(st.messages, sub.message, maxMessages),
        nextOutbox := id, outbox := st.outbox[id := NewRow(sub, id, now)])
  }

  predicate Repeat(st: Store, sub: Submission, now: Time) {
    Keyed(sub) && sub.idempotency in st.idempotency && st.idempotency[sub.idempotency].expiresAt > now
  }

  /** One submission: a live key answers with the first id, then the quota, then all writes together. */
  function SubmitAtomic(st: Store, sub: Submission, now: Time, maxMessages: int): (Store, SubmitOutcome) {
    var st1 := Sweep(st, now);
    if Repeat(st1, sub, now) then (st1, Duplicate(st1.idempotency[sub.idempotency].gatewayId))
    else if Charged(sub) && !ValidDebit(sub.quota.value) then (st1, InvalidQuota)
    else if Charged(sub) && OverLimit(st1.quota, sub.quota.value) then (st1, QuotaExceeded)
    else
      var st2 := st1.(quota := Debited(st1.quota, sub), idempotency := Remembered(st1.idempotency, sub, now));
      (Enqueued(st2, sub, now, maxMessages), Accepted(st2.nextOutbox + 1))
  }

  // ----- gateway numbers

  /** How many numbers a request takes: none means one. */
  function Span(requested: nat): nat {
    if requested == 0 then 1 else requested
  }

  function ReserveRange(st: Store, span: nat): (Store, nat, nat) {
    (st.(gatewaySeq := st.gatewaySeq + Span(span)), st.gatewaySeq + 1, st.gatewaySeq + Span(span))
  }
}
