/**
  Whole histories of submissions against one store, with a clock that does not step back: what the daily quota
  has counted, and what a repeated client key gets.
 */
module Submissions {
  import opened StoreSpec
  import opened Wrappers

  /** A submission, or any other use of the store, which may sweep but leaves quota and keys alone. */
  datatype Event = Submit(sub: Submission, now: Time) | Elsewhere(now: Time)

  datatype History = History(stores: seq<Store>, events: seq<Event>, maxMessages: int)

  ghost predicate Happens(st: Store, e: Event, st': Store, maxMessages: int) {
    match e
    case Submit(sub, now) => st' == SubmitAtomic(st, sub, now, maxMessages).0
    case Elsewhere(now) =>
      st'.quota == st.quota
      && (st'.idempotency == st.idempotency || st'.idempotency == Sweep(st, now).idempotency)
  }

  ghost predicate IsHistory(h: History) {
    |h.stores| == |h.events| + 1 && h.stores[0] == EMPTY
    && (forall i :: 0 <= i < |h.events| ==> Happens(h.stores[i], h.events[i], h.stores[i + 1], h.maxMessages))
    && forall i, k :: 0 <= i < k < |h.events| ==> h.events[i].now <= h.events[k].now
  }

  ghost function Outcome(h: History, i: nat): SubmitOutcome
    requires IsHistory(h) && i < |h.events| && h.events[i].Submit?
  {
    SubmitAtomic(h.stores[i], h.events[i].sub, h.events[i].now, h.maxMessages).1
  }

  // ----- quota

  predicate Bills(sub: Submission, k: QuotaKey) {
    Charged(sub) && QuotaKey(sub.quota.value.tenantId, sub.quota.value.date) == k
  }

  /** Segments of the accepted submissions billed to a tenant and day, among the first n events. */
  ghost function Billed(h: History, n: nat, k: QuotaKey): int
    requires IsHistory(h) && n <= |h.events|
  {
    if n == 0 then 0
    else
      Billed(h, n - 1, k)
      + if h.events[n - 1].Submit? && Bills(h.events[n - 1].sub, k) && Outcome(h, n - 1).Accepted?
        then h.events[n - 1].sub.quota.value.segments else 0
  }

  /** The usage counter is exactly what has been accepted. */
  lemma {:induction false} UsageIsBilled(h: History, n: nat, k: QuotaKey)
    requires IsHistory(h) && n <= |h.events|
    ensures Used(h.stores[n].quota, k) == Billed(h, n, k)
  {
    if n > 0 {
      UsageIsBilled(h, n - 1, k);
      assert Happens(h.stores[n - 1], h.events[n - 1], h.stores[n - 1 + 1], h.maxMessages);
    }
  }

  /** A charged submission is accepted exactly when it is well formed, not a repeat, and still fits its limit. */
  lemma AcceptedWithinLimit(h: History, i: nat)
    requires IsHistory(h) && i < |h.events| && h.events[i].Submit? && Charged(h.events[i].sub)
    ensures var sub := h.events[i].sub;
            var q := sub.quota.value;
            var k := QuotaKey(q.tenantId, q.date);
            Outcome(h, i).Accepted? <==>
              !Repeat(Sweep(h.stores[i], h.events[i].now), sub, h.events[i].now) && ValidDebit(q)
              && q.segments <= q.limit && Billed(h, i, k) + q.segments <= q.limit
  {
    var q := h.events[i].sub.quota.value;
    UsageIsBilled(h, i, QuotaKey(q.tenantId, q.date));
  }

  /** So a day's bill never exceeds a limit that all its submissions share. */
  lemma {:induction false} NeverOverLimit(h: History, n: nat, k: QuotaKey, limit: int)
    requires IsHistory(h) && n <= |h.events| && limit >= 0
    requires forall i :: 0 <= i < n && h.events[i].Submit? && Bills(h.events[i].sub, k) ==>
               h.events[i].sub.quota.value.limit <= limit
    ensures Billed(h, n, k) <= limit
  {
    if n > 0 {
      NeverOverLimit(h, n - 1, k, limit);
      var e := h.events[n - 1];
      if e.Submit? && Bills(e.sub, k) { AcceptedWithinLimit(h, n - 1); }
    }
  }

  // ----- idempotency

  ghost predicate Remembers(st: Store, key: IdempotencyKey, rec: IdempotencyRecord) {
    key in st.idempotency && st.idempotency[key] == rec
  }

  lemma StillRemembers(st: Store, e: Event, st': Store, max: int, key: IdempotencyKey, rec: IdempotencyRecord)
    requires Happens(st, e, st', max) && Remembers(st, key, rec) && e.now < rec.expiresAt
    ensures Remembers(st', key, rec)
  {
  }

  lemma {:induction false} LiveKeyKept(h: History, i: nat, j: nat, key: IdempotencyKey, rec: IdempotencyRecord)
    requires IsHistory(h) && i < j < |h.events| && Remembers(h.stores[i + 1], key, rec)
             && h.events[j].now < rec.expiresAt
    ensures Remembers(h.stores[j], key, rec)
    decreases j - i
  {
    if i + 1 < j {
      assert h.events[i + 1].now <= h.events[j].now;
      assert Happens(h.stores[i + 1], h.events[i + 1], h.stores[i + 1 + 1], h.maxMessages);
      StillRemembers(h.stores[i + 1], h.events[i + 1], h.stores[i + 2], h.maxMessages, key, rec);
      LiveKeyKept(h, i + 1, j, key, rec);
    }
  }

  /** Until its key expires, every repeat gets the id of the first submission and adds no row, message or debit. */
  lemma RepeatAnswersFirst(h: History, i: nat, j: nat)
    requires IsHistory(h) && i < j < |h.events| && h.events[i].Submit? && h.events[j].Submit?
    requires Outcome(h, i).Accepted? && Keyed(h.events[i].sub)
    requires h.events[j].sub.idempotency == h.events[i].sub.idempotency
    requires h.events[j].now < h.events[i].now + Ttl(h.events[i].sub)
    ensures Outcome(h, j) == Duplicate(h.events[i].sub.message.id)
    ensures var st, st' := h.stores[j], h.stores[j + 1];
            st'.outbox == st.outbox && st'.nextOutbox == st.nextOutbox && st'.messages == st.messages
            && st'.quota == st.quota
  {
    var sub := h.events[i].sub;
    var rec := IdempotencyRecord(sub.message.id, h.events[i].now + Ttl(sub));
    assert Happens(h.stores[i], h.events[i], h.stores[i + 1], h.maxMessages);
    assert Remembers(h.stores[i + 1], sub.idempotency, rec);
    LiveKeyKept(h, i, j, sub.idempotency, rec);
    assert Happens(h.stores[j], h.events[j], h.stores[j + 1], h.maxMessages);
  }

  ghost predicate AtMostRemembers(st: Store, key: IdempotencyKey, rec: IdempotencyRecord) {
    key in st.idempotency ==> st.idempotency[key] == rec
  }

  lemma {:induction false} NothingNewRemembered(h: History, i: nat, j: nat, key: IdempotencyKey, rec: IdempotencyRecord)
    requires IsHistory(h) && i < j < |h.events| && AtMostRemembers(h.stores[i + 1], key, rec)
    requires forall m :: i < m < j && h.events[m].Submit? && h.events[m].sub.idempotency == key ==>
               !Outcome(h, m).Accepted?
    ensures AtMostRemembers(h.stores[j], key, rec)
    decreases j - i
  {
    if i + 1 < j {
      assert Happens(h.stores[i + 1], h.events[i + 1], h.stores[i + 1 + 1], h.maxMessages);
      assert AtMostRemembers(h.stores[i + 2], key, rec);
      NothingNewRemembered(h, i + 1, j, key, rec);
    }
  }

  /** From the instant it expires, the next submission under the key is no repeat any more. */
  lemma ExpiredKeyIsFree(h: History, i: nat, j: nat)
    requires IsHistory(h) && i < j < |h.events| && h.events[i].Submit? && h.events[j].Submit?
    requires Outcome(h, i).Accepted? && Keyed(h.events[i].sub)
    requires h.events[j].sub.idempotency == h.events[i].sub.idempotency
    requires forall m ::
               i < m < j && h.events[m].Submit? && h.events[m].sub.idempotency == h.events[i].sub.idempotency
               ==> !Outcome(h, m).Accepted?
    ensures Outcome(h, j).Duplicate? <==> h.events[j].now < h.events[i].now + Ttl(h.events[i].sub)
  {
    var sub := h.events[i].sub;
    var rec := IdempotencyRecord(sub.message.id, h.events[i].now + Ttl(sub));
    if h.events[j].now < rec.expiresAt { RepeatAnswersFirst(h, i, j); }
    else {
      assert Happens(h.stores[i], h.events[i], h.stores[i + 1], h.maxMessages);
      assert AtMostRemembers(h.stores[i + 1], sub.idempotency, rec);
      NothingNewRemembered(h, i, j, sub.idempotency, rec);
    }
  }
}
