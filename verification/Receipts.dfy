/**
  Concurrent delivery receipts: one handler per segment of a message, every store call one
  step, any interleaving with each other and with work on other messages.
 */
module Receipts {
  import opened Wrappers
  import opened StoreSpec
  import opened Aggregation

  datatype Receipt = Receipt(state: string, errorCode: int, doneAt: Time)

  /** A message sent in |keys| segments; the upstream gave each its own id, and sends one receipt each. */
  datatype Batch = Batch(gatewayId: string, keys: seq<PendingKey>, receipts: seq<Receipt>, locks: seq<nat>) {
    ghost predicate Valid() {
      && keys != [] && |receipts| == |keys| == |locks|
      && (forall i, j :: 0 <= i < j < |keys| ==> keys[i] != keys[j])
      && (forall i :: 0 <= i < |receipts| ==> IsFinalState(receipts[i].state))
    }
  }

  /** The stages of one receipt handler. */
  datatype Pc =
    | Waiting              // for the lock on its provider id
    | Locked               // looking the receipt row up
    | Found                // recording the receipt
    | Recorded             // listing the segments
    | Judged(a: Aggregate) // updating the message if that was final
    | Delivering           // handing the receipt to the client, then marking it delivered
    | Marked               // listing the segments again
    | Rejudged(b: Aggregate) // clearing the rows if all are delivered
    | Finished

  function Stage(pc: Pc): nat {
    match pc
    case Waiting => 0
    case Locked => 1
    case Found => 2
    case Recorded => 3
    case Judged(_) => 4
    case Delivering => 5
    case Marked => 6
    case Rejudged(_) => 7
    case Finished => 8
  }

  datatype Sys = Sys(store: Store, pcs: seq<Pc>)

  predicate Holding(pc: Pc) {
    !pc.Waiting? && !pc.Finished?
  }

  predicate Ours(c: Batch, p: Pending) {
    p.gatewayId == c.gatewayId
  }

  /** No receipt row of this message has expired at that instant. */
  ghost predicate NoneExpired(c: Batch, st: Store, now: Time) {
    forall k :: k in st.pending && Ours(c, st.pending[k]) ==> !Expired(st.pending[k], now)
  }

  /** A listing at some instant: expired rows of other messages may go. */
  ghost predicate Judges(c: Batch, st: Store, st': Store, now: Time, a: Aggregate) {
    && NoneExpired(c, st, now)
    && st' == Sweep(st, now)
    && exists rows :: Listing(st'.pending, c.gatewayId, rows) && Verdict(rows, a)
  }

  ghost predicate TakesLock(c: Batch, s: Sys, i: nat)
    requires i < |s.pcs| == |c.locks|
  {
    forall j :: 0 <= j < |s.pcs| && j != i && c.locks[j] == c.locks[i] ==> !Holding(s.pcs[j])
  }

  ghost predicate Looks(c: Batch, st: Store, i: nat, now: Time, st': Store)
    requires i < |c.keys|
  {
    NoneExpired(c, st, now) && st' == Sweep(st, now) && c.keys[i] in st'.pending
  }

  ghost predicate Records(c: Batch, st: Store, i: nat, st': Store)
    requires i < |c.keys| == |c.receipts|
  {
    var r := c.receipts[i];
    var u := UpdatePendingDLR(st, c.keys[i], r.state, r.errorCode, r.doneAt);
    u.Ok? && st' == u.value
  }

  ghost predicate Settles(c: Batch, st: Store, a: Aggregate, st': Store) {
    var u := UpdateMessageState(st, c.gatewayId, a.state, a.errorCode);
    st' == if a.final && u.Ok? then u.value else st
  }

  ghost predicate Marks(c: Batch, st: Store, i: nat, st': Store, pc': Pc)
    requires i < |c.keys|
  {
    var u := MarkDLRDelivered(st, c.keys[i]);
    if u.Ok? then st' == u.value && pc' == Marked else st' == st && pc' == Finished
  }

  ghost predicate Clears(c: Batch, st: Store, b: Aggregate, st': Store) {
    st' == if b.final && b.allDelivered then DeletePendingByGatewayId(st, c.gatewayId) else st
  }

  /** One step of handler i. */
  ghost predicate Step(c: Batch, s: Sys, i: nat, now: Time, s': Sys)
    requires c.Valid()
  {
    && i < |s.pcs| == |c.keys| && |s'.pcs| == |s.pcs| && s'.pcs == s.pcs[i := s'.pcs[i]]
    && match s.pcs[i]
       case Waiting => TakesLock(c, s, i) && s'.pcs[i] == Locked && s'.store == s.store
       case Locked => Looks(c, s.store, i, now, s'.store) && s'.pcs[i] == Found
       case Found => Records(c, s.store, i, s'.store) && s'.pcs[i] == Recorded
       case Recorded => s'.pcs[i].Judged? && Judges(c, s.store, s'.store, now, s'.pcs[i].a)
       case Judged(a) => Settles(c, s.store, a, s'.store) && s'.pcs[i] == Delivering
       case Delivering => Marks(c, s.store, i, s'.store, s'.pcs[i])
       case Marked => s'.pcs[i].Rejudged? && Judges(c, s.store, s'.store, now, s'.pcs[i].b)
       case Rejudged(b) => Clears(c, s.store, b, s'.store) && s'.pcs[i] == Finished
       case Finished => false
  }

  ghost function MessageOf(c: Batch, st: Store): Option<Message> {
    MessageWith(st, c.gatewayId)
  }

  ghost predicate SameRows(c: Batch, st: Store, st': Store) {
    && (forall k :: k in st.pending && Ours(c, st.pending[k]) ==> k in st'.pending && st'.pending[k] == st.pending[k])
    && (forall k :: k in st'.pending && Ours(c, st'.pending[k]) ==> k in st.pending && st.pending[k] == st'.pending[k])
  }

  /** Anything else the gateway does meanwhile: it leaves this message and its rows alone. */
  ghost predicate Elsewhere(c: Batch, s: Sys, s': Sys) {
    s'.pcs == s.pcs && MessageOf(c, s'.store) == MessageOf(c, s.store) && SameRows(c, s.store, s'.store)
  }

  datatype Label = Handle(i: nat, now: Time) | Else

  ghost predicate Next(c: Batch, s: Sys, l: Label, s': Sys)
    requires c.Valid()
  {
    match l
    case Handle(i, now) => Step(c, s, i, now, s')
    case Else => Elsewhere(c, s, s')
  }

  /** The row of segment i is there. */
  ghost predicate HasRow(c: Batch, st: Store, i: int)
    requires 0 <= i < |c.keys|
  {
    && c.keys[i] in st.pending
    && var p := st.pending[c.keys[i]];
    && Ours(c, p) && KeyOf(p) == c.keys[i]
    && p.segmentIndex == i + 1 && p.segmentCount == |c.keys|
  }

  /** It is there, before or after its receipt was recorded and delivered. */
  ghost predicate RowIs(c: Batch, st: Store, i: int, recorded: bool, delivered: bool)
    requires c.Valid() && 0 <= i < |c.keys|
  {
    && HasRow(c, st, i)
    && var p := st.pending[c.keys[i]];
    && p.dlrDelivered == delivered
    && (if recorded then p.dlrState == c.receipts[i].state && p.dlrErrorCode == c.receipts[i].errorCode
        else p.dlrState == "")
  }

  ghost predicate HasRows(c: Batch, st: Store) {
    && (forall i :: 0 <= i < |c.keys| ==> HasRow(c, st, i))
    && (forall k :: k in st.pending && Ours(c, st.pending[k]) ==> k in c.keys)
  }

  /** Right after the send was completed: all rows are there, nothing has arrived. */
  ghost predicate Init(c: Batch, s: Sys)
    requires c.Valid()
  {
    && s.pcs == seq(|c.keys|, _ => Waiting)
    && HasRows(c, s.store)
    && (forall i :: 0 <= i < |c.keys| ==> RowIs(c, s.store, i, false, false))
    && MessageOf(c, s.store).Some?
  }

  ghost predicate IsRun(c: Batch, run: seq<Sys>, labels: seq<Label>)
    requires c.Valid()
  {
    && |run| == |labels| + 1
    && Init(c, run[0])
    && forall i :: 0 <= i < |labels| ==> StepAt(c, run, labels, i)
  }

  ghost predicate StepAt(c: Batch, run: seq<Sys>, labels: seq<Label>, i: nat)
    requires c.Valid() && i < |labels| < |run|
  {
    Next(c, run[i], labels[i], run[i + 1])
  }

  // ----- the verdict on all receipts together

  function Rank(r: Receipt): nat {
    FailureRank(Canonical(r.state))
  }

  /** The worst failure among the receipts, with the error code of the first segment that has it. */
  ghost predicate WorstOf(rs: seq<Receipt>, state: string, errorCode: int) {
    if forall i :: 0 <= i < |rs| ==> Rank(rs[i]) == 0
    then state == DELIVRD && errorCode == 0
    else exists k :: 0 <= k < |rs| && WorstAt(rs, k) && state == Canonical(rs[k].state) && errorCode == rs[k].errorCode
  }

  ghost predicate WorstAt(rs: seq<Receipt>, k: nat)
    requires k < |rs|
  {
    (forall i :: 0 <= i < |rs| ==> Rank(rs[i]) <= Rank(rs[k])) && forall i :: 0 <= i < k ==> Rank(rs[i]) < Rank(rs[k])
  }

  ghost predicate Settled(c: Batch, st: Store)
    requires c.Valid()
  {
    var m := MessageOf(c, st);
    m.Some? && WorstOf(c.receipts, m.value.state, m.value.errorCode)
  }

  ghost predicate Cleared(c: Batch, st: Store) {
    forall k :: k in st.pending ==> !Ours(c, st.pending[k])
  }

  // ----- the invariant

  /** What handler i's stage says about its row. */
  ghost predicate RowInv(c: Batch, s: Sys, i: int)
    requires c.Valid() && 0 <= i < |c.keys| == |s.pcs|
  {
    var n := Stage(s.pcs[i]);
    RowIs(c, s.store, i, n >= 3, n >= 6)
  }

  ghost predicate RowsInv(c: Batch, s: Sys)
    requires c.Valid() && |c.keys| == |s.pcs|
  {
    if Cleared(c, s.store) then AllPast(s, 6)
    else HasRows(c, s.store) && forall i :: 0 <= i < |s.pcs| ==> RowInv(c, s, i)
  }

  ghost predicate VerdictsInv(c: Batch, s: Sys)
    requires c.Valid()
  {
    forall i :: 0 <= i < |s.pcs| ==>
      && (s.pcs[i].Judged? && s.pcs[i].a.final ==> WorstOf(c.receipts, s.pcs[i].a.state, s.pcs[i].a.errorCode))
      && (s.pcs[i].Rejudged? && s.pcs[i].b.final && s.pcs[i].b.allDelivered ==> AllPast(s, 6))
  }

  ghost predicate AllPast(s: Sys, n: nat) {
    forall i :: 0 <= i < |s.pcs| ==> Stage(s.pcs[i]) >= n
  }

  ghost predicate SettlesInv(c: Batch, s: Sys)
    requires c.Valid()
  {
    || (exists i :: 0 <= i < |s.pcs| && Stage(s.pcs[i]) <= 3)
    || (exists i :: 0 <= i < |s.pcs| && s.pcs[i].Judged? && s.pcs[i].a.final)
    || Settled(c, s.store)
  }

  ghost predicate ClearsInv(c: Batch, s: Sys)
    requires c.Valid()
  {
    || (exists i :: 0 <= i < |s.pcs| && Stage(s.pcs[i]) <= 6)
    || (exists i :: 0 <= i < |s.pcs| && s.pcs[i].Rejudged? && s.pcs[i].b.final && s.pcs[i].b.allDelivered)
    || Cleared(c, s.store)
  }

  ghost predicate Inv(c: Batch, s: Sys)
    requires c.Valid()
  {
    && |s.pcs| == |c.keys| && MessageOf(c, s.store).Some?
    && RowsInv(c, s) && VerdictsInv(c, s) && SettlesInv(c, s) && ClearsInv(c, s)
  }

  // ----- what a listing of these rows says

  ghost predicate Rising(rows: seq<Pending>) {
    forall a, b :: 0 <= a < b < |rows| ==> rows[a].segmentIndex < rows[b].segmentIndex
  }

  ghost predicate Lists(rows: seq<Pending>, v: int) {
    exists a :: 0 <= a < |rows| && rows[a].segmentIndex == v
  }

  /** Rows that rise through exactly the numbers 1 to n count them off. */
  lemma {:induction false} CountsOff(rows: seq<Pending>, n: nat, i: nat)
    requires Rising(rows)
    requires forall a :: 0 <= a < |rows| ==> 1 <= rows[a].segmentIndex <= n
    requires forall v :: 1 <= v <= n ==> Lists(rows, v)
    requires i <= n
    ensures i <= |rows| && forall a :: 0 <= a < i ==> rows[a].segmentIndex == a + 1
  {
    if i > 0 {
      CountsOff(rows, n, i - 1);
      assert Lists(rows, i);
      var p :| 0 <= p < |rows| && rows[p].segmentIndex == i;
      if i >= 2 { assert rows[i - 2].segmentIndex < rows[i - 1].segmentIndex; }
    }
  }

  lemma {:induction false} RisesAtLeast(rows: seq<Pending>, i: nat)
    requires Rising(rows) && i < |rows| && rows[0].segmentIndex >= 1
    ensures rows[i].segmentIndex >= i + 1
  {
    if i > 0 { RisesAtLeast(rows, i - 1); }
  }

  ghost predicate ListedAt(c: Batch, st: Store, p: Pending) {
    1 <= p.segmentIndex <= |c.keys| && HasRow(c, st, p.segmentIndex - 1) && p == st.pending[c.keys[p.segmentIndex - 1]]
  }

  lemma ListedOnce(c: Batch, st: Store, rows: seq<Pending>)
    requires c.Valid() && Listing(st.pending, c.gatewayId, rows) && HasRows(c, st)
    ensures forall a :: 0 <= a < |rows| ==> ListedAt(c, st, rows[a])
    ensures forall v :: 1 <= v <= |c.keys| ==> Lists(rows, v)
    ensures Rising(rows)
  {
    forall a | 0 <= a < |rows|
      ensures ListedAt(c, st, rows[a])
    {
      var i :| 0 <= i < |c.keys| && c.keys[i] == KeyOf(rows[a]);
      assert HasRow(c, st, i);
    }
    forall v | 1 <= v <= |c.keys|
      ensures Lists(rows, v)
    {
      assert HasRow(c, st, v - 1) && c.keys[v - 1] in KeysOfGateway(st.pending, c.gatewayId);
      var a :| 0 <= a < |rows| && rows[a] == st.pending[c.keys[v - 1]];
    }
    forall a, b | 0 <= a < b < |rows|
      ensures rows[a].segmentIndex < rows[b].segmentIndex
    {
      assert KeyOf(rows[a]) != KeyOf(rows[b]) && ListedAt(c, st, rows[a]) && ListedAt(c, st, rows[b]);
    }
  }

  lemma InSegmentOrder(c: Batch, st: Store, rows: seq<Pending>)
    requires c.keys != [] && Rising(rows)
    requires forall a :: 0 <= a < |rows| ==> ListedAt(c, st, rows[a])
    requires forall v :: 1 <= v <= |c.keys| ==> Lists(rows, v)
    ensures |rows| == |c.keys|
    ensures forall i :: 0 <= i < |rows| ==> HasRow(c, st, i) && rows[i] == st.pending[c.keys[i]]
  {
    CountsOff(rows, |c.keys|, |c.keys|);
    RisesAtLeast(rows, |rows| - 1);
    forall i | 0 <= i < |rows|
      ensures HasRow(c, st, i) && rows[i] == st.pending[c.keys[i]]
    {
      assert ListedAt(c, st, rows[i]);
    }
  }

  /** As long as the rows exist, they are listed segment by segment. */
  lemma ListingIsInOrder(c: Batch, st: Store, rows: seq<Pending>)
    requires c.Valid() && Listing(st.pending, c.gatewayId, rows) && HasRows(c, st)
    ensures |rows| == |c.keys|
    ensures forall i :: 0 <= i < |rows| ==> HasRow(c, st, i) && rows[i] == st.pending[c.keys[i]]
  {
    ListedOnce(c, st, rows);
    InSegmentOrder(c, st, rows);
  }

  lemma {:induction false} PresentAll(rows: seq<Pending>)
    requires forall i :: 0 <= i < |rows| ==> rows[i].segmentIndex == i + 1
    ensures |Present(rows)| == |rows| && forall x :: x in Present(rows) ==> x <= |rows|
  {
    if rows != [] {
      var n := |rows| - 1;
      var front, last := rows[..n], rows[n];
      PresentAll(front);
      assert Present(rows) == Present(front) + {n + 1} by {
        PresentMore(front, last);
        assert rows == front + [last];
      }
    }
  }

  /** Listed rows that carry the batch's receipts are judged like the receipts. */
  lemma WorstMatches(c: Batch, rows: seq<Pending>, a: Aggregate)
    requires c.Valid() && |rows| == |c.receipts|
    requires forall i :: 0 <= i < |rows| ==>
               rows[i].dlrState == c.receipts[i].state && rows[i].dlrErrorCode == c.receipts[i].errorCode
    requires Verdict(rows, a) && a.final
    ensures WorstOf(c.receipts, a.state, a.errorCode)
  {
    assert forall i :: 0 <= i < |rows| ==> RankOf(rows[i]) == Rank(c.receipts[i]);
    if !NoFailure(rows) {
      var k := HasFirstWorst(rows);
      assert WorstAt(c.receipts, k);
    }
  }

  /** While the rows exist, a listing shows each handler's progress. */
  lemma ListedProgress(c: Batch, s: Sys, rows: seq<Pending>)
    requires c.Valid() && |s.pcs| == |c.keys| && RowsInv(c, s) && !Cleared(c, s.store)
    requires Listing(s.store.pending, c.gatewayId, rows)
    ensures |rows| == |c.keys|
    ensures forall i :: 0 <= i < |rows| ==>
              && rows[i].segmentIndex == i + 1 && rows[i].segmentCount == |rows|
              && rows[i].dlrDelivered == (Stage(s.pcs[i]) >= 6)
              && IsFinalState(rows[i].dlrState) == (Stage(s.pcs[i]) >= 3)
              && (Stage(s.pcs[i]) >= 3 ==>
                    rows[i].dlrState == c.receipts[i].state && rows[i].dlrErrorCode == c.receipts[i].errorCode)
  {
    ListingIsInOrder(c, s.store, rows);
    forall i | 0 <= i < |rows|
      ensures RowInv(c, s, i) && rows[i] == s.store.pending[c.keys[i]]
    {
    }
  }

  /** A listing is final exactly when every receipt has been recorded, and then it is the verdict on them all. */
  lemma Judgement(c: Batch, s: Sys, rows: seq<Pending>, a: Aggregate)
    requires c.Valid() && |s.pcs| == |c.keys| && RowsInv(c, s)
    requires Listing(s.store.pending, c.gatewayId, rows) && Verdict(rows, a)
    ensures a.final <==> !Cleared(c, s.store) && AllPast(s, 3)
    ensures a.final ==> WorstOf(c.receipts, a.state, a.errorCode)
    ensures a.final && a.allDelivered <==> !Cleared(c, s.store) && AllPast(s, 6)
  {
    if Cleared(c, s.store) {
      if rows != [] { assert KeyOf(rows[0]) in KeysOfGateway(s.store.pending, c.gatewayId); }
    } else {
      ListedProgress(c, s, rows);
      CompleteListing(rows);
      assert AllFinal(rows) <==> AllPast(s, 3);
      assert AllDelivered(rows) <==> AllPast(s, 6);
      if a.final { WorstMatches(c, rows, a); }
    }
  }

  lemma CompleteListing(rows: seq<Pending>)
    requires rows != []
    requires forall i :: 0 <= i < |rows| ==> rows[i].segmentIndex == i + 1 && rows[i].segmentCount == |rows|
    ensures |Present(rows)| == |rows| && IsExpected(rows, |rows|) && forall n :: IsExpected(rows, n) ==> n == |rows|
  {
    PresentAll(rows);
    assert rows[0].segmentCount == |rows|;
    ExpectedUnique(rows, |rows|);
  }

  // ----- every step keeps the invariant

  lemma SweepSpares(c: Batch, st: Store, now: Time)
    requires NoneExpired(c, st, now)
    ensures SameRows(c, st, Sweep(st, now)) && MessageOf(c, Sweep(st, now)) == MessageOf(c, st)
  {
  }

  lemma SameRowsSame(c: Batch, st: Store, st': Store)
    requires c.Valid() && SameRows(c, st, st')
    ensures Cleared(c, st') == Cleared(c, st) && HasRows(c, st') == HasRows(c, st)
    ensures forall i, r, d :: 0 <= i < |c.keys| ==> RowIs(c, st', i, r, d) == RowIs(c, st, i, r, d)
  {
    forall i | 0 <= i < |c.keys|
      ensures HasRow(c, st', i) == HasRow(c, st, i)
    {
    }
  }

  /** Settling and clearing are still to come, or done; seen from handler i's next stage. */
  lemma SettlesKept(c: Batch, s: Sys, i: nat, s': Sys)
    requires c.Valid() && SettlesInv(c, s) && i < |s.pcs| == |s'.pcs| && s'.pcs == s.pcs[i := s'.pcs[i]]
    requires Settled(c, s.store) ==> Settled(c, s'.store)
    requires s'.pcs[i].Judged? ==> s.pcs[i].Recorded?
    requires Stage(s.pcs[i]) <= 3 ==>
               Stage(s'.pcs[i]) <= 3 || (s'.pcs[i].Judged? && (AllPast(s, 3) ==> s'.pcs[i].a.final))
    requires s.pcs[i].Judged? && s.pcs[i].a.final ==> Settled(c, s'.store)
    ensures SettlesInv(c, s')
  {
    if j :| 0 <= j < |s.pcs| && Stage(s.pcs[j]) <= 3 {
      if Stage(s'.pcs[i]) > 3 && !AllPast(s, 3) {
        var k :| 0 <= k < |s.pcs| && Stage(s.pcs[k]) < 3;
        assert k != i ==> s'.pcs[k] == s.pcs[k];
      }
      assert j != i ==> s'.pcs[j] == s.pcs[j];
    } else if j :| 0 <= j < |s.pcs| && s.pcs[j].Judged? && s.pcs[j].a.final {
      assert j != i ==> s'.pcs[j] == s.pcs[j];
    }
  }

  lemma ClearsKept(c: Batch, s: Sys, i: nat, s': Sys)
    requires c.Valid() && ClearsInv(c, s) && i < |s.pcs| == |s'.pcs| && s'.pcs == s.pcs[i := s'.pcs[i]]
    requires Cleared(c, s.store) ==> Cleared(c, s'.store)
    requires s'.pcs[i].Rejudged? ==> s.pcs[i].Marked?
    requires Stage(s.pcs[i]) <= 6 ==>
               || Stage(s'.pcs[i]) <= 6
               || (s'.pcs[i].Rejudged?
                   && (AllPast(s, 6) && !Cleared(c, s'.store) ==> s'.pcs[i].b.final && s'.pcs[i].b.allDelivered))
    requires s.pcs[i].Rejudged? && s.pcs[i].b.final && s.pcs[i].b.allDelivered ==> Cleared(c, s'.store)
    ensures ClearsInv(c, s')
  {
    if j :| 0 <= j < |s.pcs| && Stage(s.pcs[j]) <= 6 {
      if Stage(s'.pcs[i]) > 6 && !AllPast(s, 6) {
        var k :| 0 <= k < |s.pcs| && Stage(s.pcs[k]) < 6;
        assert k != i ==> s'.pcs[k] == s.pcs[k];
      }
      assert j != i ==> s'.pcs[j] == s.pcs[j];
    } else if j :| 0 <= j < |s.pcs| && s.pcs[j].Rejudged? && s.pcs[j].b.final && s.pcs[j].b.allDelivered {
      assert j != i ==> s'.pcs[j] == s.pcs[j];
    }
  }

  lemma VerdictsKept(c: Batch, s: Sys, i: nat, s': Sys)
    requires c.Valid() && VerdictsInv(c, s) && i < |s.pcs| == |s'.pcs| && s'.pcs == s.pcs[i := s'.pcs[i]]
    requires Stage(s'.pcs[i]) >= Stage(s.pcs[i])
    requires s'.pcs[i].Judged? && s'.pcs[i].a.final ==> WorstOf(c.receipts, s'.pcs[i].a.state, s'.pcs[i].a.errorCode)
    requires s'.pcs[i].Rejudged? && s'.pcs[i].b.final && s'.pcs[i].b.allDelivered ==> AllPast(s', 6)
    ensures VerdictsInv(c, s')
  {
    forall j | 0 <= j < |s'.pcs|
      ensures s'.pcs[j].Judged? && s'.pcs[j].a.final ==> WorstOf(c.receipts, s'.pcs[j].a.state, s'.pcs[j].a.errorCode)
      ensures s'.pcs[j].Rejudged? && s'.pcs[j].b.final && s'.pcs[j].b.allDelivered ==> AllPast(s', 6)
    {
      assert j != i ==> s'.pcs[j] == s.pcs[j];
    }
  }

  lemma SameStoreRows(c: Batch, s: Sys, i: nat, s': Sys)
    requires c.Valid() && |s.pcs| == |c.keys| && RowsInv(c, s) && SameRows(c, s.store, s'.store)
    requires i < |s.pcs| == |s'.pcs| && s'.pcs == s.pcs[i := s'.pcs[i]]
    requires Stage(s.pcs[i]) <= Stage(s'.pcs[i])
    requires (Stage(s.pcs[i]) >= 3) == (Stage(s'.pcs[i]) >= 3) && (Stage(s.pcs[i]) >= 6) == (Stage(s'.pcs[i]) >= 6)
    ensures RowsInv(c, s') && Cleared(c, s'.store) == Cleared(c, s.store)
  {
    SameRowsSame(c, s.store, s'.store);
    if !Cleared(c, s.store) {
      forall j | 0 <= j < |s'.pcs|
        ensures RowInv(c, s', j)
      {
        assert RowInv(c, s, j) && (j != i ==> s'.pcs[j] == s.pcs[j]);
      }
    }
  }

  /** Handler i changed its own row, and nothing else. */
  lemma OwnRow(c: Batch, s: Sys, i: nat, p: Pending, s': Sys)
    requires c.Valid() && |s.pcs| == |c.keys| && RowsInv(c, s) && !Cleared(c, s.store)
    requires i < |s.pcs| == |s'.pcs| && s'.pcs == s.pcs[i := s'.pcs[i]]
    requires s'.store.pending == s.store.pending[c.keys[i] := p]
    requires HasRow(c, s.store, i) && p.provider == c.keys[i].provider && p.providerId == c.keys[i].providerId
    requires Ours(c, p) && p.segmentIndex == i + 1 && p.segmentCount == |c.keys|
    requires RowIs(c, s'.store, i, Stage(s'.pcs[i]) >= 3, Stage(s'.pcs[i]) >= 6)
    ensures RowsInv(c, s') && !Cleared(c, s'.store)
  {
    forall j | 0 <= j < |s'.pcs|
      ensures HasRow(c, s'.store, j) && RowInv(c, s', j)
    {
      assert RowInv(c, s, j) && HasRow(c, s.store, j);
      assert j != i ==> s'.pcs[j] == s.pcs[j] && c.keys[j] != c.keys[i];
    }
    assert Ours(c, s'.store.pending[c.keys[i]]);
  }

  lemma QuietKept(c: Batch, s: Sys, i: nat, now: Time, s': Sys)
    requires c.Valid() && Inv(c, s) && Step(c, s, i, now, s') && Stage(s.pcs[i]) <= 1
    ensures Inv(c, s')
  {
    if s.pcs[i].Locked? { SweepSpares(c, s.store, now); }
    SameStoreRows(c, s, i, s');
    SettlesKept(c, s, i, s');
    ClearsKept(c, s, i, s');
    VerdictsKept(c, s, i, s');
  }

  lemma RecordKept(c: Batch, s: Sys, i: nat, now: Time, s': Sys)
    requires c.Valid() && Inv(c, s) && Step(c, s, i, now, s') && s.pcs[i].Found?
    ensures Inv(c, s')
  {
    assert RowInv(c, s, i);
    OwnRow(c, s, i, s'.store.pending[c.keys[i]], s');
    SettlesKept(c, s, i, s');
    ClearsKept(c, s, i, s');
    VerdictsKept(c, s, i, s');
  }

  /** Listing sweeps first, which leaves these rows alone. */
  lemma SweptRows(c: Batch, s: Sys, i: nat, now: Time, s': Sys)
    requires c.Valid() && |s.pcs| == |c.keys| && RowsInv(c, s) && NoneExpired(c, s.store, now)
             && s'.store == Sweep(s.store, now)
    requires i < |s.pcs| == |s'.pcs| && s'.pcs == s.pcs[i := s'.pcs[i]]
    requires (s.pcs[i].Recorded? && s'.pcs[i].Judged?) || (s.pcs[i].Marked? && s'.pcs[i].Rejudged?)
    ensures RowsInv(c, s') && Cleared(c, s'.store) == Cleared(c, s.store)
            && MessageOf(c, s'.store) == MessageOf(c, s.store)
  {
    SweepSpares(c, s.store, now);
    SameStoreRows(c, s, i, s');
  }

  /** A handler that lists the rows gets the verdict on them. */
  lemma JudgedAs(c: Batch, s: Sys, st: Store, now: Time, a: Aggregate)
    requires c.Valid() && |s.pcs| == |c.keys| && RowsInv(c, s) && Judges(c, st, s.store, now, a)
    ensures a.final <==> !Cleared(c, s.store) && AllPast(s, 3)
    ensures a.final ==> WorstOf(c.receipts, a.state, a.errorCode)
    ensures a.final && a.allDelivered <==> !Cleared(c, s.store) && AllPast(s, 6)
  {
    var rows :| Listing(s.store.pending, c.gatewayId, rows) && Verdict(rows, a);
    Judgement(c, s, rows, a);
  }

  lemma JudgedKept(c: Batch, s: Sys, i: nat, now: Time, s': Sys)
    requires c.Valid() && Inv(c, s) && Step(c, s, i, now, s') && s.pcs[i].Recorded?
    ensures Inv(c, s')
  {
    SweptRows(c, s, i, now, s');
    JudgedAs(c, s', s.store, now, s'.pcs[i].a);
    AfterListing(c, s, i, s', s'.pcs[i].a);
  }

  lemma RejudgedKept(c: Batch, s: Sys, i: nat, now: Time, s': Sys)
    requires c.Valid() && Inv(c, s) && Step(c, s, i, now, s') && s.pcs[i].Marked?
    ensures Inv(c, s')
  {
    SweptRows(c, s, i, now, s');
    JudgedAs(c, s', s.store, now, s'.pcs[i].b);
    AfterListing(c, s, i, s', s'.pcs[i].b);
  }

  lemma AfterListing(c: Batch, s: Sys, i: nat, s': Sys, a: Aggregate)
    requires c.Valid() && VerdictsInv(c, s) && SettlesInv(c, s) && ClearsInv(c, s)
    requires (AllPast(s', 6) && Cleared(c, s'.store)) || !Cleared(c, s'.store)
    requires MessageOf(c, s.store).Some? && MessageOf(c, s'.store) == MessageOf(c, s.store)
             && Cleared(c, s'.store) == Cleared(c, s.store)
    requires i < |s.pcs| == |s'.pcs| && s'.pcs == s.pcs[i := s'.pcs[i]]
    requires (s.pcs[i].Recorded? && s'.pcs[i] == Judged(a)) || (s.pcs[i].Marked? && s'.pcs[i] == Rejudged(a))
    requires a.final <==> !Cleared(c, s'.store) && AllPast(s', 3)
    requires a.final ==> WorstOf(c.receipts, a.state, a.errorCode)
    requires a.final && a.allDelivered <==> !Cleared(c, s'.store) && AllPast(s', 6)
    ensures VerdictsInv(c, s') && SettlesInv(c, s') && ClearsInv(c, s')
  {
    AllPastSame(s, i, s', 3);
    if s.pcs[i].Marked? { AllPastSame(s, i, s', 6); }
    SettlesKept(c, s, i, s');
    ClearsKept(c, s, i, s');
    VerdictsKept(c, s, i, s');
  }

  lemma AllPastSame(s: Sys, i: nat, s': Sys, n: nat)
    requires i < |s.pcs| == |s'.pcs| && s'.pcs == s.pcs[i := s'.pcs[i]]
    requires Stage(s.pcs[i]) >= n && Stage(s'.pcs[i]) >= n
    ensures AllPast(s, n) == AllPast(s', n)
  {
    assert forall j :: 0 <= j < |s.pcs| && j != i ==> s'.pcs[j] == s.pcs[j];
    if AllPast(s', n) {
      forall j | 0 <= j < |s.pcs|
        ensures Stage(s.pcs[j]) >= n
      {
        assert Stage(s'.pcs[j]) >= n;
      }
    }
  }

  lemma SettledNow(c: Batch, st: Store, a: Aggregate, st': Store)
    requires c.Valid() && MessageOf(c, st).Some? && Settles(c, st, a, st')
    requires a.final ==> WorstOf(c.receipts, a.state, a.errorCode)
    ensures MessageOf(c, st').Some? && st'.pending == st.pending
    ensures a.final ==> Settled(c, st')
    ensures !a.final ==> st' == st
  {
    var m := FindMessage(st.messages, c.gatewayId);
    if a.final { FoundAfter(st.messages, m, st'.messages[m], c.gatewayId); }
  }

  lemma SettleKept(c: Batch, s: Sys, i: nat, now: Time, s': Sys)
    requires c.Valid() && Inv(c, s) && Step(c, s, i, now, s') && s.pcs[i].Judged?
    ensures Inv(c, s')
  {
    SettledNow(c, s.store, s.pcs[i].a, s'.store);
    SameStoreRows(c, s, i, s');
    SettlesKept(c, s, i, s');
    ClearsKept(c, s, i, s');
    VerdictsKept(c, s, i, s');
  }

  lemma MarkKept(c: Batch, s: Sys, i: nat, now: Time, s': Sys)
    requires c.Valid() && Inv(c, s) && Step(c, s, i, now, s') && s.pcs[i].Delivering?
    ensures Inv(c, s')
  {
    assert RowInv(c, s, i);
    OwnRow(c, s, i, s'.store.pending[c.keys[i]], s');
    SettlesKept(c, s, i, s');
    ClearsKept(c, s, i, s');
    VerdictsKept(c, s, i, s');
  }

  lemma ClearKept(c: Batch, s: Sys, i: nat, now: Time, s': Sys)
    requires c.Valid() && Inv(c, s) && Step(c, s, i, now, s') && s.pcs[i].Rejudged?
    ensures Inv(c, s')
  {
    AllPastSame(s, i, s', 6);
    if !(s.pcs[i].b.final && s.pcs[i].b.allDelivered) { SameStoreRows(c, s, i, s'); }
    SettlesKept(c, s, i, s');
    ClearsKept(c, s, i, s');
    VerdictsKept(c, s, i, s');
  }

  lemma InvKept(c: Batch, s: Sys, l: Label, s': Sys)
    requires c.Valid() && Inv(c, s) && Next(c, s, l, s')
    ensures Inv(c, s')
  {
    match l
    case Else =>
      SameStoreRows(c, s, 0, s');
    case Handle(i, now) =>
      match s.pcs[i]
      case Found => RecordKept(c, s, i, now, s');
      case Recorded => JudgedKept(c, s, i, now, s');
      case Judged(_) => SettleKept(c, s, i, now, s');
      case Delivering => MarkKept(c, s, i, now, s');
      case Marked => RejudgedKept(c, s, i, now, s');
      case Rejudged(_) => ClearKept(c, s, i, now, s');
      case _ => QuietKept(c, s, i, now, s');
  }

  lemma InvAtFirst(c: Batch, s: Sys)
    requires c.Valid() && Init(c, s)
    ensures Inv(c, s)
  {
    assert Stage(s.pcs[0]) <= 3;
    assert HasRow(c, s.store, 0);
  }

  lemma {:induction false} InvOfRun(c: Batch, run: seq<Sys>, labels: seq<Label>, n: nat)
    requires c.Valid() && IsRun(c, run, labels) && n < |run|
    ensures Inv(c, run[n])
  {
    if n == 0 { InvAtFirst(c, run[0]); }
    else {
      InvOfRun(c, run, labels, n - 1);
      assert StepAt(c, run, labels, n - 1);
      InvKept(c, run[n - 1], labels[n - 1], run[n]);
    }
  }

  // ----- the results

  ghost predicate AllFinished(s: Sys) {
    forall i :: 0 <= i < |s.pcs| ==> s.pcs[i].Finished?
  }

  /**
    Confluence: however the handlers interleave, once all have finished no receipt row is
    left and the message carries the worst failure, or DELIVRD if there was none.
   */
  lemma ReceiptsConfluent(c: Batch, run: seq<Sys>, labels: seq<Label>)
    requires c.Valid() && IsRun(c, run, labels) && AllFinished(run[|labels|])
    ensures Cleared(c, run[|labels|].store)
    ensures Settled(c, run[|labels|].store)
    ensures Summarised(c, MessageOf(c, run[|labels|].store).value)
  {
    InvOfRun(c, run, labels, |labels|);
    var m := MessageOf(c, run[|labels|].store).value;
    WorstSummary(c, m);
  }

  /** In words: rejected if any receipt says so, else undelivered, expired, deleted or unknown, else delivered. */
  ghost predicate Summarised(c: Batch, m: Message) {
    Summary(seq(|c.receipts|, i requires 0 <= i < |c.receipts| => c.receipts[i].state),
            seq(|c.receipts|, i requires 0 <= i < |c.receipts| => c.receipts[i].errorCode), m.state, m.errorCode)
  }

  lemma WorstSummary(c: Batch, m: Message)
    requires WorstOf(c.receipts, m.state, m.errorCode)
    ensures Summarised(c, m)
  {
    var states := seq(|c.receipts|, i requires 0 <= i < |c.receipts| => c.receipts[i].state);
    var codes := seq(|c.receipts|, i requires 0 <= i < |c.receipts| => c.receipts[i].errorCode);
    assert forall i :: 0 <= i < |states| ==> Rank(c.receipts[i]) == FailureRank(Canonical(states[i]));
    if forall i :: 0 <= i < |states| ==> Rank(c.receipts[i]) == 0 { DeliveredSummary(states, codes); }
    else {
      var k :| 0 <= k < |states| && WorstAt(c.receipts, k) && m.state == Canonical(states[k])
               && m.errorCode == codes[k];
      assert Leads(states, k);
      LeaderSummary(states, codes, k);
    }
  }

  /** No deadlock: while rows are unexpired, some unfinished handler can always take its next step. */
  lemma SomeHandlerCanStep(c: Batch, s: Sys, now: Time) returns (i: nat, s': Sys)
    requires c.Valid() && Inv(c, s) && !AllFinished(s) && NoneExpired(c, s.store, now)
    ensures Step(c, s, i, now, s')
  {
    if j :| 0 <= j < |s.pcs| && Holding(s.pcs[j]) {
      i := j;
      s' := HolderCanStep(c, s, j, now);
    } else {
      i :| 0 <= i < |s.pcs| && !s.pcs[i].Finished?;
      s' := s.(pcs := s.pcs[i := Locked]);
    }
  }

  lemma HolderCanStep(c: Batch, s: Sys, i: nat, now: Time) returns (s': Sys)
    requires c.Valid() && Inv(c, s) && NoneExpired(c, s.store, now) && i < |s.pcs| && Holding(s.pcs[i])
    ensures Step(c, s, i, now, s')
  {
    SweepSpares(c, s.store, now);
    if !Cleared(c, s.store) { assert RowInv(c, s, i); }
    match s.pcs[i]
    case Locked =>
      s' := Sys(Sweep(s.store, now), s.pcs[i := Found]);
    case Found =>
      s' := Sys(UpdatePendingDLR(s.store, c.keys[i], c.receipts[i].state, c.receipts[i].errorCode,
                                 c.receipts[i].doneAt).value,
                s.pcs[i := Recorded]);
    case Recorded =>
      var a := CanJudge(c, s, now);
      s' := Sys(Sweep(s.store, now), s.pcs[i := Judged(a)]);
    case Judged(a) =>
      var u := UpdateMessageState(s.store, c.gatewayId, a.state, a.errorCode);
      s' := Sys(if a.final && u.Ok? then u.value else s.store, s.pcs[i := Delivering]);
    case Delivering =>
      s' := Sys(MarkDLRDelivered(s.store, c.keys[i]).value, s.pcs[i := Marked]);
    case Marked =>
      var b := CanJudge(c, s, now);
      s' := Sys(Sweep(s.store, now), s.pcs[i := Rejudged(b)]);
    case Rejudged(b) =>
      s' := Sys(if b.final && b.allDelivered then DeletePendingByGatewayId(s.store, c.gatewayId) else s.store,
                s.pcs[i := Finished]);
  }

  lemma CanJudge(c: Batch, s: Sys, now: Time) returns (a: Aggregate)
    requires c.Valid() && |s.pcs| == |c.keys| && RowsInv(c, s) && NoneExpired(c, s.store, now)
    ensures Judges(c, s.store, Sweep(s.store, now), now, a)
  {
    SweepSpares(c, s.store, now);
    var st := Sweep(s.store, now);
    SameRowsSame(c, s.store, st);
    var rows: seq<Pending> := [];
    if Cleared(c, st) { assert Listing(st.pending, c.gatewayId, rows); } else { rows := CanList(c, st); }
    a := HasVerdict(rows);
  }

  lemma CanList(c: Batch, st: Store) returns (rows: seq<Pending>)
    requires c.Valid() && HasRows(c, st)
    ensures Listing(st.pending, c.gatewayId, rows)
  {
    assert forall i :: 0 <= i < |c.keys| ==> HasRow(c, st, i);
    rows := seq(|c.keys|, i requires 0 <= i < |c.keys| && HasRow(c, st, i) => st.pending[c.keys[i]]);
    assert forall i :: 0 <= i < |rows| ==> HasRow(c, st, i) && rows[i] == st.pending[c.keys[i]];
    forall k | k in KeysOfGateway(st.pending, c.gatewayId)
      ensures st.pending[k] in rows
    {
      var i :| 0 <= i < |c.keys| && c.keys[i] == k;
      assert rows[i] == st.pending[k];
    }
  }

  lemma HasVerdict(rows: seq<Pending>) returns (a: Aggregate)
    ensures Verdict(rows, a)
  {
    if !Complete(rows) {
      a := Aggregate(PENDING, 0, false, false);
    } else if NoFailure(rows) {
      a := Aggregate(DELIVRD, 0, true, AllDelivered(rows));
    } else {
      var k := HasFirstWorst(rows);
      a := Aggregate(Canonical(rows[k].dlrState), rows[k].dlrErrorCode, true, AllDelivered(rows));
    }
  }

  ghost function Total(pcs: seq<Pc>): nat {
    if pcs == [] then 0 else Stage(pcs[0]) + Total(pcs[1..])
  }

  lemma {:induction false} TotalMoves(pcs: seq<Pc>, i: nat, pc: Pc)
    requires i < |pcs|
    ensures Total(pcs[i := pc]) == Total(pcs) - Stage(pcs[i]) + Stage(pc)
  {
    if i == 0 { assert pcs[i := pc][1..] == pcs[1..]; }
    else {
      TotalMoves(pcs[1..], i - 1, pc);
      assert pcs[i := pc][1..] == pcs[1..][i - 1 := pc];
    }
  }

  lemma {:induction false} TotalBound(pcs: seq<Pc>)
    ensures Total(pcs) <= 8 * |pcs|
  {
    if pcs != [] { TotalBound(pcs[1..]); }
  }

  ghost function Handled(labels: seq<Label>): nat {
    if labels == [] then 0
    else Handled(labels[..|labels| - 1]) + if labels[|labels| - 1].Handle? then 1 else 0
  }

  /** Termination: a run has at most eight handler steps per segment. */
  lemma {:induction false} StepsBounded(c: Batch, run: seq<Sys>, labels: seq<Label>, n: nat)
    requires c.Valid() && IsRun(c, run, labels) && n <= |labels|
    ensures Handled(labels[..n]) <= Total(run[n].pcs) <= 8 * |c.keys|
  {
    InvOfRun(c, run, labels, n);
    TotalBound(run[n].pcs);
    if n > 0 {
      StepsBounded(c, run, labels, n - 1);
      assert labels[..n][..n - 1] == labels[..n - 1];
      assert StepAt(c, run, labels, n - 1);
      if labels[n - 1].Handle? { StepMoves(c, run[n - 1], labels[n - 1].i, labels[n - 1].now, run[n]); }
    }
  }

  lemma StepMoves(c: Batch, s: Sys, i: nat, now: Time, s': Sys)
    requires c.Valid() && Step(c, s, i, now, s')
    ensures Total(s'.pcs) > Total(s.pcs)
  {
    TotalMoves(s.pcs, i, s'.pcs[i]);
  }
}
