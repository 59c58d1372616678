/** What the file store keeps on disk, and what a restart makes of it. */
module FileSpec {
  import opened Wrappers
  import opened StoreSpec
  import opened GatewayIds

  /** A claim does not survive a restart; every other row state does. */
  function ReloadedItem(item: OutboxItem): OutboxItem {
    if item.state.RowClaimed?
    then item.(state := RowPending, claimedBy := "", claimedAt := ZERO_TIME)
    else item
  }

  /** `n` is the largest of the lower bound and the row numbers. */
  ghost predicate IsLargest(n: int, low: int, rows: set<int>) {
    && n >= low
    && (forall id :: id in rows ==> id <= n)
    && (n == low || n in rows)
  }

  function NumberOf(id: string): nat {
    if ParseGatewaySeq(id).Ok? then ParseGatewaySeq(id).value else 0
  }

  /** `n` is the largest of the lower bound and the numbers of the messages. */
  ghost predicate IsLargestNumber(n: nat, low: nat, ms: seq<Message>) {
    && n >= low
    && (forall i :: 0 <= i < |ms| ==> NumberOf(ms[i].id) <= n)
    && (n == low || exists i :: 0 <= i < |ms| && NumberOf(ms[i].id) == n)
  }

  /** Every receipt row is loaded, under the key of its normalised form. */
  ghost predicate PendingLoaded(rows: map<PendingKey, Pending>, pending: map<PendingKey, Pending>) {
    && (forall k :: k in rows ==> KeyOf(NormalizePending(rows[k])) in pending)
    && (forall k :: k in pending ==>
          exists k' :: k' in rows && pending[k] == NormalizePending(rows[k']) && k == KeyOf(pending[k]))
  }

  ghost predicate OutboxLoaded(rows: map<int, OutboxItem>, outbox: map<int, OutboxItem>) {
    outbox.Keys == rows.Keys && forall id :: id in rows ==> outbox[id] == ReloadedItem(rows[id])
  }

  /** `st` is the store after reading the snapshot `snap` back. */
  ghost predicate Loaded(snap: Store, st: Store) {
    && st.messages == snap.messages
    && PendingLoaded(snap.pending, st.pending)
    && OutboxLoaded(snap.outbox, st.outbox)
    && IsLargest(st.nextOutbox, if snap.nextOutbox > 0 then snap.nextOutbox else 0, snap.outbox.Keys)
    && IsLargestNumber(st.gatewaySeq, snap.gatewaySeq, snap.messages)
    && st.idempotency == snap.idempotency
    && st.quota == snap.quota
  }
}
