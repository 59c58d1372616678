/** What the dispatcher records once the provider has taken a message, and how its receipts are then awaited. */
module Dispatch {
  import opened Aggregation
  import opened Collections
  import Receipts
  import opened StoreLaws
  import opened StoreSpec
  import opened Wrappers

  /** The receipt row for part i of n, awaited under that id. */
  predicate Awaits(item: OutboxItem, id: string, i: nat, n: nat, expiresAt: Time, p: Pending) {
    p == Pending(item.provider, id, item.gatewayId, i + 1, n, expiresAt, false, false, "", 0, ZERO_TIME)
  }

  /** Part i is awaited under the id the provider gave for it, or under the gateway's own if that is empty. */
  predicate NamedFor(item: OutboxItem, given: string, id: string) {
    id == if given == "" then item.gatewayId else given
  }

  /** One row for each part, in order; a provider that gave no id at all is taken to have sent one part. */
  ghost predicate RowsFor(item: OutboxItem, ids: seq<string>, expiresAt: Time, recs: seq<Pending>) {
    && |recs| == (if ids == [] then 1 else |ids|)
    && forall i :: 0 <= i < |recs| ==>
         && Awaits(item, recs[i].providerId, i, |recs|, expiresAt, recs[i])
         && NamedFor(item, if ids == [] then "" else ids[i], recs[i].providerId)
  }

  method SentRows(item: OutboxItem, ids: seq<string>, expiresAt: Time) returns (recs: seq<Pending>)
    ensures RowsFor(item, ids, expiresAt, recs)
  {
    var names := ids;
    if |names| == 0 { names := [item.gatewayId]; }
    ghost var given := names;
    for i := 0 to |names|
      invariant |names| == |given|
      invariant forall k :: 0 <= k < |names| ==>
                  if k < i then NamedFor(item, given[k], names[k]) else names[k] == given[k]
    {
      if names[i] == "" { names := names[i := item.gatewayId]; }
    }
    recs := [];
    for i := 0 to |names|
      invariant |recs| == i
      invariant forall k :: 0 <= k < i ==> Awaits(item, names[k], k, |names|, expiresAt, recs[k])
    {
      recs := recs + [Pending(item.provider, names[i], item.gatewayId, i + 1, |names|, expiresAt,
                              false, false, "", 0, ZERO_TIME)];
    }
  }

  ghost predicate Repeats(recs: seq<Pending>) {
    exists i, j :: 0 <= i < j < |recs| && recs[i].providerId == recs[j].providerId
  }

  /** The message has no receipt rows yet. */
  ghost predicate NoRows(st: Store, gatewayId: string) {
    forall k :: k in st.pending ==> st.pending[k].gatewayId != gatewayId
  }

  /** Such a completion is never refused: the row is the worker's, and its message is there. */
  lemma SentIsAccepted(st: Store, id: int, worker: string, ids: seq<string>, expiresAt: Time, recs: seq<Pending>)
    requires id in st.outbox && st.outbox[id].state.RowSending? && st.outbox[id].claimedBy == worker
    requires RowsFor(st.outbox[id], ids, expiresAt, recs)
    ensures CompleteSend(st, id, worker, recs).Ok?
            <==> MessageWith(st, st.outbox[id].gatewayId).Some?
                 && forall i :: 0 <= i < |recs| ==> recs[i].providerId != ""
  {
    var item := st.outbox[id];
    assert forall i :: 0 <= i < |recs| ==> Awaits(item, recs[i].providerId, i, |recs|, expiresAt, recs[i]);
    assert CompletionFits(item, recs) <==> forall i :: 0 <= i < |recs| ==> recs[i].providerId != "";
  }

  // ----- the rows a completion leaves

  type Rows = map<PendingKey, Pending>

  /** Before, the message had no rows; after, those given have been put. */
  ghost predicate RowsPut(item: OutboxItem, recs: seq<Pending>, before: Rows, after: Rows) {
    RowsGiven(before, recs, after) && forall k :: k in before ==> before[k].gatewayId != item.gatewayId
  }

  lemma PartRow(item: OutboxItem, ids: seq<string>, expiresAt: Time, recs: seq<Pending>, before: Rows, after: Rows,
                i: nat)
    requires RowsFor(item, ids, expiresAt, recs) && RowsPut(item, recs, before, after)
    requires i < |recs| && LastGiven(recs, i)
    ensures var k := PendingKey(recs[i].provider, recs[i].providerId);
            k in after && after[k] == recs[i] && recs[i].gatewayId == item.gatewayId
            && recs[i].segmentIndex == i + 1 && recs[i].segmentCount == |recs|
            && recs[i].dlrState == "" && !recs[i].dlrDelivered
  {
    assert Awaits(item, recs[i].providerId, i, |recs|, expiresAt, recs[i]);
  }

  /** Every row of the message is that of the last part given under its id. */
  lemma RowOfPart(item: OutboxItem, ids: seq<string>, expiresAt: Time, recs: seq<Pending>, before: Rows, after: Rows,
                  k: PendingKey) returns (i: nat)
    requires RowsFor(item, ids, expiresAt, recs) && RowsPut(item, recs, before, after)
    requires k in KeysOfGateway(after, item.gatewayId)
    ensures i < |recs| && k == PendingKey(recs[i].provider, recs[i].providerId) && LastGiven(recs, i)
    ensures after[k].segmentIndex == i + 1 && after[k].segmentCount == |recs|
  {
    assert Given(recs, k);
    i := LastWith(recs, k);
    PartRow(item, ids, expiresAt, recs, before, after, i);
  }

  lemma {:induction false} LastWith(recs: seq<Pending>, k: PendingKey) returns (i: nat)
    requires Given(recs, k)
    ensures i < |recs| && k == PendingKey(recs[i].provider, recs[i].providerId) && LastGiven(recs, i)
  {
    var n := |recs| - 1;
    if recs[n].provider == k.provider && recs[n].providerId == k.providerId { i := n; }
    else {
      i := LastWith(recs[..n], k);
      assert LastGiven(recs[..n], i);
    }
  }

  /** Different ids: receipt handling starts where `Receipts` starts, with one row for each part and nothing arrived. */
  lemma SentStartsReceipts(st: Store, id: int, worker: string, ids: seq<string>, expiresAt: Time, recs: seq<Pending>,
                           c: Receipts.Batch)
    requires id in st.outbox && st.outbox[id].state.RowSending? && CompleteSend(st, id, worker, recs).Ok?
    requires RowsFor(st.outbox[id], ids, expiresAt, recs) && NoRows(st, st.outbox[id].gatewayId)
    requires c.Valid() && c.gatewayId == st.outbox[id].gatewayId && |c.keys| == |recs|
    requires forall i :: 0 <= i < |recs| ==> c.keys[i] == PendingKey(recs[i].provider, recs[i].providerId)
    ensures Receipts.Init(c, Receipts.Sys(CompleteSend(st, id, worker, recs).value, seq(|recs|, _ => Receipts.Waiting)))
  {
    var st' := CompleteSend(st, id, worker, recs).value;
    CompletedIsRecorded(st, id, worker, recs);
    RowsStart(st.outbox[id], ids, expiresAt, recs, st.pending, st', c);
  }

  lemma RowsStart(item: OutboxItem, ids: seq<string>, expiresAt: Time, recs: seq<Pending>, before: Rows, st: Store,
                  c: Receipts.Batch)
    requires RowsFor(item, ids, expiresAt, recs) && RowsPut(item, recs, before, st.pending)
    requires c.Valid() && c.gatewayId == item.gatewayId && |c.keys| == |recs|
    requires forall i :: 0 <= i < |recs| ==> c.keys[i] == PendingKey(recs[i].provider, recs[i].providerId)
    ensures forall i :: 0 <= i < |recs| ==> Receipts.RowIs(c, st, i, false, false)
    ensures Receipts.HasRows(c, st)
  {
    forall i | 0 <= i < |recs|
      ensures Receipts.RowIs(c, st, i, false, false)
    {
      assert forall j :: i < j < |recs| ==> c.keys[i] != c.keys[j];
      PartRow(item, ids, expiresAt, recs, before, st.pending, i);
    }
    forall k | k in st.pending && Receipts.Ours(c, st.pending[k])
      ensures k in c.keys
    {
      var i := RowOfPart(item, ids, expiresAt, recs, before, st.pending, k);
      assert c.keys[i] == k;
    }
  }

  // ----- a provider that repeats an id

  /** Since then only receipts were recorded for the message: its rows and their numbers are the same. */
  ghost predicate SameParts(before: Rows, after: Rows, gatewayId: string) {
    && KeysOfGateway(after, gatewayId) == KeysOfGateway(before, gatewayId)
    && forall k :: k in KeysOfGateway(before, gatewayId) ==>
         after[k].segmentIndex == before[k].segmentIndex && after[k].segmentCount == before[k].segmentCount
  }

  /** The numbers of the parts whose id no later part has. */
  ghost function LastNumbers(recs: seq<Pending>): set<int> {
    set i | 0 <= i < |recs| && LastGiven(recs, i) :: i + 1
  }

  /** A listed row is that of a part, the last under its id. */
  lemma ListedIsPart(item: OutboxItem, ids: seq<string>, expiresAt: Time, recs: seq<Pending>, before: Rows, after: Rows,
                     later: Rows, rows: seq<Pending>, r: nat)
    requires RowsFor(item, ids, expiresAt, recs) && RowsPut(item, recs, before, after)
    requires SameParts(after, later, item.gatewayId) && Listing(later, item.gatewayId, rows) && r < |rows|
    ensures rows[r].segmentCount == |recs| && rows[r].segmentIndex in LastNumbers(recs)
  {
    var i := RowOfPart(item, ids, expiresAt, recs, before, after, KeyOf(rows[r]));
    assert i + 1 in LastNumbers(recs);
  }

  /** The row of the last part under an id is listed. */
  lemma PartIsListed(item: OutboxItem, ids: seq<string>, expiresAt: Time, recs: seq<Pending>, before: Rows, after: Rows,
                     later: Rows, rows: seq<Pending>, i: nat)
    requires RowsFor(item, ids, expiresAt, recs) && RowsPut(item, recs, before, after)
    requires SameParts(after, later, item.gatewayId) && Listing(later, item.gatewayId, rows)
    requires i < |recs| && LastGiven(recs, i)
    ensures i + 1 in Present(rows)
  {
    PartRow(item, ids, expiresAt, recs, before, after, i);
    var k := PendingKey(recs[i].provider, recs[i].providerId);
    assert k in KeysOfGateway(after, item.gatewayId);
    var r :| 0 <= r < |rows| && rows[r] == later[k];
    assert rows[r].segmentIndex == i + 1;
  }

  /** Exactly those numbers are listed. */
  lemma NumbersListed(item: OutboxItem, ids: seq<string>, expiresAt: Time, recs: seq<Pending>, before: Rows,
                      after: Rows, later: Rows, rows: seq<Pending>)
    requires RowsFor(item, ids, expiresAt, recs) && RowsPut(item, recs, before, after)
    requires SameParts(after, later, item.gatewayId) && Listing(later, item.gatewayId, rows)
    ensures Present(rows) == LastNumbers(recs) && IsExpected(rows, |recs|)
  {
    forall r | 0 <= r < |rows|
      ensures rows[r].segmentCount == |recs| && rows[r].segmentIndex in LastNumbers(recs)
    {
      ListedIsPart(item, ids, expiresAt, recs, before, after, later, rows, r);
    }
    forall x | x in LastNumbers(recs)
      ensures x in Present(rows)
    {
      PartIsListed(item, ids, expiresAt, recs, before, after, later, rows, x - 1);
    }
    LastListed(recs, rows);
  }

  lemma LastListed(recs: seq<Pending>, rows: seq<Pending>)
    requires recs != [] && LastNumbers(recs) <= Present(rows)
    requires forall r :: 0 <= r < |rows| ==> rows[r].segmentCount == |recs|
    ensures IsExpected(rows, |recs|)
  {
    assert LastGiven(recs, |recs| - 1);
    assert |recs| in LastNumbers(recs);
    var r :| 0 <= r < |rows| && rows[r].segmentIndex == |recs|;
  }

  lemma NumbersOfLast(recs: seq<Pending>, provider: string)
    requires forall i :: 0 <= i < |recs| ==> recs[i].provider == provider
    ensures |LastNumbers(recs)| <= |recs| && (|LastNumbers(recs)| == |recs| <==> !Repeats(recs))
  {
    var all: set<int> := Numbers(1, |recs| + 1);
    NumbersAre(1, |recs| + 1);
    SubsetSize(LastNumbers(recs), all);
    if Repeats(recs) {
      var i, j :| 0 <= i < j < |recs| && recs[i].providerId == recs[j].providerId;
      assert !LastGiven(recs, i);
      assert i + 1 in all && i + 1 !in LastNumbers(recs);
    } else {
      forall x | x in all
        ensures x in LastNumbers(recs)
      {
        assert LastGiven(recs, x - 1);
      }
      assert all == LastNumbers(recs);
    }
  }

  /**
    Once every row has a final state the message is complete, so that it is settled and its rows are cleared, if and
    only if all parts have different ids; with a repeated id it waits for a part that has no row, for ever.
   */
  lemma CompleteIffDistinct(st: Store, id: int, worker: string, ids: seq<string>, expiresAt: Time, recs: seq<Pending>,
                            later: Rows, rows: seq<Pending>)
    requires id in st.outbox && st.outbox[id].state.RowSending? && CompleteSend(st, id, worker, recs).Ok?
    requires RowsFor(st.outbox[id], ids, expiresAt, recs) && NoRows(st, st.outbox[id].gatewayId)
    requires SameParts(CompleteSend(st, id, worker, recs).value.pending, later, st.outbox[id].gatewayId)
    requires Listing(later, st.outbox[id].gatewayId, rows) && AllFinal(rows)
    ensures Complete(rows) <==> !Repeats(recs)
  {
    var item, after := st.outbox[id], CompleteSend(st, id, worker, recs).value.pending;
    CompletedIsRecorded(st, id, worker, recs);
    NumbersListed(item, ids, expiresAt, recs, st.pending, after, later, rows);
    assert forall i :: 0 <= i < |recs| ==> Awaits(item, recs[i].providerId, i, |recs|, expiresAt, recs[i]);
    NumbersOfLast(recs, item.provider);
    ExpectedUnique(rows, |recs|);
  }

  /** It happens: a provider that names neither of two parts has both awaited under the gateway's id. */
  lemma UnnamedPartsRepeat(item: OutboxItem, expiresAt: Time, recs: seq<Pending>)
    requires RowsFor(item, ["", ""], expiresAt, recs)
    ensures |recs| == 2 && Repeats(recs)
  {
    assert recs[0].providerId == recs[1].providerId;
  }
}
