/**
  Delivery receipts with nothing ruled out: any number of receipts of any state for the segments of a message, rows
  that expire under the handlers' feet, handlers that stop early, receipts deferred and flushed later.
 */
module ReceiptExpiry {
  import opened Aggregation
  import opened Collections
  import Receipts
  import opened StoreSpec
  import opened Wrappers

  type Receipt = Receipts.Receipt

  /** Where a receipt handler is; Left is wherever it returns. */
  datatype Place = Arrived | Looked | Noted | Judging | Passing | Delivered | Closing(b: Aggregate) | Left

  /** rows and verdict: what it listed and made of it, once it has. */
  datatype Handler = Handler(key: PendingKey, receipt: Receipt, at: Place, rows: seq<Pending>,
                             verdict: Option<Aggregate>)

  datatype World = World(store: Store, handlers: seq<Handler>)

  /** The message under regard: its id and in how many segments it was sent. */
  datatype Sent = Sent(gatewayId: string, n: nat)

  predicate Of(m: Sent, p: Pending) {
    p.gatewayId == m.gatewayId
  }

  ghost predicate Lists(m: Sent, st: Store, rows: seq<Pending>, a: Aggregate) {
    Listing(st.pending, m.gatewayId, rows) && Verdict(rows, a)
  }

  ghost predicate LooksUp(m: Sent, st: Store, h: Handler, now: Time, st': Store, h': Handler) {
    st' == Sweep(st, now)
    && h' == h.(at := if h.key in st'.pending && Of(m, st'.pending[h.key]) then Looked else Left)
  }

  ghost predicate Notes(st: Store, h: Handler, st': Store, h': Handler) {
    var u := UpdatePendingDLR(st, h.key, h.receipt.state, h.receipt.errorCode, h.receipt.doneAt);
    if u.Ok? then st' == u.value && h' == h.(at := Noted) else st' == st && h' == h.(at := Left)
  }

  ghost predicate Judged(m: Sent, st: Store, h: Handler, now: Time, st': Store, h': Handler) {
    st' == Sweep(st, now) && h'.verdict.Some? && Lists(m, st', h'.rows, h'.verdict.value)
    && h' == h.(at := Judging, rows := h'.rows, verdict := h'.verdict)
  }

  ghost predicate Settles(m: Sent, st: Store, h: Handler, st': Store, h': Handler) {
    h' == h.(at := Passing)
    && if h.verdict.Some? && h.verdict.value.final
       then
         var u := UpdateMessageState(st, m.gatewayId, h.verdict.value.state, h.verdict.value.errorCode);
         st' == if u.Ok? then u.value else st
       else st' == st
  }

  /** The client cannot be reached: the receipt is put by for later. */
  ghost predicate Defers(st: Store, h: Handler, st': Store, h': Handler) {
    var u := MarkDLRReady(st, h.key, h.receipt.state, h.receipt.errorCode, h.receipt.doneAt);
    h' == h.(at := Left) && st' == if u.Ok? then u.value else st
  }

  ghost predicate Delivers(st: Store, h: Handler, st': Store, h': Handler) {
    var u := MarkDLRDelivered(st, h.key);
    if u.Ok? then st' == u.value && h' == h.(at := Delivered) else st' == st && h' == h.(at := Left)
  }

  ghost predicate JudgesAgain(m: Sent, st: Store, h: Handler, now: Time, st': Store, h': Handler) {
    st' == Sweep(st, now) && exists rows, b :: Lists(m, st', rows, b) && h' == h.(at := Closing(b))
  }

  ghost predicate Closes(m: Sent, st: Store, h: Handler, st': Store, h': Handler)
    requires h.at.Closing?
  {
    h' == h.(at := Left)
    && st' == if h.at.b.final && h.at.b.allDelivered then DeletePendingByGatewayId(st, m.gatewayId) else st
  }

  ghost predicate HandlerStep(m: Sent, st: Store, h: Handler, now: Time, st': Store, h': Handler) {
    match h.at
    case Arrived => LooksUp(m, st, h, now, st', h')
    case Looked => Notes(st, h, st', h')
    case Noted => Judged(m, st, h, now, st', h')
    case Judging => Settles(m, st, h, st', h')
    case Passing => Defers(st, h, st', h') || Delivers(st, h, st', h') || (st' == st && h' == h.(at := Left))
    case Delivered => JudgesAgain(m, st, h, now, st', h')
    case Closing(_) => Closes(m, st, h, st', h')
    case Left => false
  }

  /** The same row, but for whether its receipt waits for delivery or has been delivered. */
  predicate SameReceipt(p: Pending, q: Pending) {
    q == p.(dlrReady := q.dlrReady, dlrDelivered := q.dlrDelivered)
  }

  /** Sweeps and flushes, and all work on other messages: rows may go or be marked, the message is left alone. */
  ghost predicate Elsewhere(m: Sent, st: Store, st': Store) {
    MessageWith(st', m.gatewayId) == MessageWith(st, m.gatewayId)
    && forall k :: k in st'.pending && Of(m, st'.pending[k]) ==>
         k in st.pending && SameReceipt(st.pending[k], st'.pending[k])
  }

  datatype Move = Arrive(key: PendingKey, receipt: Receipt) | Handle(h: nat, now: Time) | Else

  ghost predicate Next(m: Sent, w: World, l: Move, w': World) {
    match l
    case Arrive(key, receipt) => w' == w.(handlers := w.handlers + [Handler(key, receipt, Arrived, [], None)])
    case Handle(h, now) =>
      h < |w.handlers| == |w'.handlers| && w'.handlers == w.handlers[h := w'.handlers[h]]
      && HandlerStep(m, w.store, w.handlers[h], now, w'.store, w'.handlers[h])
    case Else => w'.handlers == w.handlers && Elsewhere(m, w.store, w'.store)
  }

  /** The message has been sent in n segments and no receipt has come. */
  ghost predicate Start(m: Sent, w: World) {
    w.handlers == []
    && forall k :: k in w.store.pending && Of(m, w.store.pending[k]) ==>
         var p := w.store.pending[k];
         KeyOf(p) == k && 1 <= p.segmentIndex <= m.n && p.segmentCount == m.n && p.dlrState == ""
  }

  ghost predicate IsHistory(m: Sent, run: seq<World>, moves: seq<Move>) {
    |run| == |moves| + 1 && Start(m, run[0]) && forall i :: 0 <= i < |moves| ==> MoveAt(m, run, moves, i)
  }

  ghost predicate MoveAt(m: Sent, run: seq<World>, moves: seq<Move>, i: nat)
    requires i < |moves| < |run|
  {
    Next(m, run[i], moves[i], run[i + 1])
  }

  // ----- what holds throughout

  /** A receipt with a final state has come for the row. */
  ghost predicate FinalCame(handlers: seq<Handler>, k: PendingKey) {
    exists h :: 0 <= h < |handlers| && handlers[h].key == k && IsFinalState(handlers[h].receipt.state)
  }

  /** The row is one of those there were at the start, in shape, and final only by a receipt. */
  ghost predicate RowOk(m: Sent, first: Store, handlers: seq<Handler>, k: PendingKey, p: Pending) {
    k in first.pending && Of(m, first.pending[k]) && KeyOf(p) == k
    && p.segmentIndex == first.pending[k].segmentIndex && 1 <= p.segmentIndex <= m.n && p.segmentCount == m.n
    && (IsFinalState(p.dlrState) ==> FinalCame(handlers, k))
  }

  ghost predicate RowsOk(m: Sent, first: Store, w: World) {
    forall k :: k in w.store.pending && Of(m, w.store.pending[k]) ==>
      RowOk(m, first, w.handlers, k, w.store.pending[k])
  }

  /** Segment v of the message had a row at the start for which a final receipt has come. */
  ghost predicate SegmentCame(m: Sent, first: Store, handlers: seq<Handler>, v: int) {
    exists k ::
      k in first.pending && Of(m, first.pending[k]) && first.pending[k].segmentIndex == v && FinalCame(handlers, k)
  }

  ghost predicate AllCame(m: Sent, first: Store, handlers: seq<Handler>) {
    forall v :: 1 <= v <= m.n ==> SegmentCame(m, first, handlers, v)
  }

  /** All n segments stand in the listing in final states. */
  ghost predicate AllListed(m: Sent, rows: seq<Pending>) {
    forall v :: 1 <= v <= m.n ==> FinalIn(rows, v)
  }

  ghost predicate FinalIn(rows: seq<Pending>, v: int) {
    exists i :: 0 <= i < |rows| && rows[i].segmentIndex == v && IsFinalState(rows[i].dlrState)
  }

  ghost predicate FinalVerdict(h: Handler) {
    h.verdict.Some? && h.verdict.value.final
  }

  ghost predicate VerdictsOk(m: Sent, first: Store, handlers: seq<Handler>) {
    forall h :: 0 <= h < |handlers| && FinalVerdict(handlers[h]) ==>
      AllListed(m, handlers[h].rows) && AllCame(m, first, handlers)
  }

  ghost predicate MessageOk(m: Sent, first: Store, w: World) {
    MessageWith(w.store, m.gatewayId) == MessageWith(first, m.gatewayId)
    || exists h :: 0 <= h < |w.handlers| && FinalVerdict(w.handlers[h])
  }

  /** Nobody has a verdict before listing. */
  ghost predicate NoneEarly(handlers: seq<Handler>) {
    forall h :: 0 <= h < |handlers| && (handlers[h].at.Arrived? || handlers[h].at.Looked? || handlers[h].at.Noted?) ==>
      handlers[h].verdict.None?
  }

  ghost predicate Inv(m: Sent, first: Store, w: World) {
    RowsOk(m, first, w) && VerdictsOk(m, first, w.handlers) && MessageOk(m, first, w) && NoneEarly(w.handlers)
  }

  // ----- every step keeps it

  /** The row with the receipt's state written to it. */
  predicate ReceiptSet(p: Pending, q: Pending, state: string) {
    q == p.(dlrReady := q.dlrReady, dlrDelivered := q.dlrDelivered, dlrState := state,
            dlrErrorCode := q.dlrErrorCode, dlrDoneAt := q.dlrDoneAt)
  }

  /** What one step may do to the message's rows on behalf of a handler. */
  ghost predicate RowsMoved(m: Sent, st: Store, h: Handler, st': Store) {
    forall k :: k in st'.pending && Of(m, st'.pending[k]) ==>
      k in st.pending
      && (SameReceipt(st.pending[k], st'.pending[k])
          || (k == h.key && ReceiptSet(st.pending[k], st'.pending[k], h.receipt.state)))
  }

  lemma SweptRows(m: Sent, st: Store, h: Handler, now: Time)
    ensures RowsMoved(m, st, h, Sweep(st, now)) && RowsMoved(m, st, h, DeletePendingByGatewayId(st, m.gatewayId))
  {
  }

  lemma NotedRow(m: Sent, st: Store, h: Handler, errorCode: int, doneAt: Time)
    requires h.key in st.pending
    ensures RowsMoved(m, st, h, UpdatePendingDLR(st, h.key, h.receipt.state, errorCode, doneAt).value)
    ensures RowsMoved(m, st, h, MarkDLRReady(st, h.key, h.receipt.state, errorCode, doneAt).value)
    ensures RowsMoved(m, st, h, MarkDLRDelivered(st, h.key).value)
  {
  }

  lemma StepMovesRows(m: Sent, st: Store, h: Handler, now: Time, st': Store, h': Handler)
    requires HandlerStep(m, st, h, now, st', h')
    ensures RowsMoved(m, st, h, st')
  {
    SweptRows(m, st, h, now);
    if h.key in st.pending { NotedRow(m, st, h, h.receipt.errorCode, h.receipt.doneAt); }
    assert RowsMoved(m, st, h, st);
    if h.at.Judging? { assert st'.pending == st.pending; }
  }

  lemma StepKeepsReceipt(m: Sent, st: Store, h: Handler, now: Time, st': Store, h': Handler)
    requires HandlerStep(m, st, h, now, st', h')
    ensures h'.key == h.key && h'.receipt == h.receipt
  {
  }

  /** Later handlers are the earlier ones, further on, and new ones. */
  ghost predicate Later(hs: seq<Handler>, hs': seq<Handler>) {
    |hs| <= |hs'| && forall i :: 0 <= i < |hs| ==> hs'[i].key == hs[i].key && hs'[i].receipt == hs[i].receipt
  }

  lemma StillCame(hs: seq<Handler>, hs': seq<Handler>, k: PendingKey)
    requires Later(hs, hs') && FinalCame(hs, k)
    ensures FinalCame(hs', k)
  {
    var h :| 0 <= h < |hs| && hs[h].key == k && IsFinalState(hs[h].receipt.state);
    assert hs'[h].key == k && IsFinalState(hs'[h].receipt.state);
  }

  lemma AllStillCame(m: Sent, first: Store, hs: seq<Handler>, hs': seq<Handler>)
    requires Later(hs, hs') && AllCame(m, first, hs)
    ensures AllCame(m, first, hs')
  {
    forall v | 1 <= v <= m.n
      ensures SegmentCame(m, first, hs', v)
    {
      assert SegmentCame(m, first, hs, v);
      var k :| k in first.pending && Of(m, first.pending[k]) && first.pending[k].segmentIndex == v && FinalCame(hs, k);
      StillCame(hs, hs', k);
    }
  }

  lemma RowKept(m: Sent, first: Store, hs: seq<Handler>, hs': seq<Handler>, k: PendingKey, p: Pending, q: Pending)
    requires Later(hs, hs') && RowOk(m, first, hs, k, p)
    requires SameReceipt(p, q) || (ReceiptSet(p, q, q.dlrState) && (IsFinalState(q.dlrState) ==> FinalCame(hs', k)))
    ensures RowOk(m, first, hs', k, q)
  {
    if SameReceipt(p, q) && IsFinalState(q.dlrState) { StillCame(hs, hs', k); }
  }

  lemma RowsKept(m: Sent, first: Store, w: World, h: nat, w': World)
    requires RowsOk(m, first, w) && h < |w.handlers| && RowsMoved(m, w.store, w.handlers[h], w'.store)
    requires Later(w.handlers, w'.handlers)
    ensures RowsOk(m, first, w')
  {
    forall k | k in w'.store.pending && Of(m, w'.store.pending[k])
      ensures RowOk(m, first, w'.handlers, k, w'.store.pending[k])
    {
      var p, q := w.store.pending[k], w'.store.pending[k];
      assert Of(m, p);
      if !SameReceipt(p, q) {
        assert w'.handlers[h].key == k && w'.handlers[h].receipt.state == q.dlrState;
      }
      RowKept(m, first, w.handlers, w'.handlers, k, p, q);
    }
  }

  /** A complete listing of rows in shape holds every segment. */
  lemma CompleteHasAll(rows: seq<Pending>, n: nat, v: int)
    requires Complete(rows) && 1 <= v <= n
    requires forall i :: 0 <= i < |rows| ==> 1 <= rows[i].segmentIndex <= n && rows[i].segmentCount == n
    ensures FinalIn(rows, v)
  {
    assert rows[0].segmentCount == n;
    assert IsExpected(rows, n);
    NumbersAre(1, n + 1);
    SubsetSize(Present(rows), Numbers(1, n + 1));
    assert v in Present(rows);
  }

  lemma FinalMeansAll(m: Sent, first: Store, w: World, rows: seq<Pending>, a: Aggregate)
    requires RowsOk(m, first, w) && Lists(m, w.store, rows, a) && a.final
    ensures AllListed(m, rows) && AllCame(m, first, w.handlers)
  {
    forall i | 0 <= i < |rows|
      ensures RowOk(m, first, w.handlers, KeyOf(rows[i]), rows[i])
    {
      assert KeyOf(rows[i]) in KeysOfGateway(w.store.pending, m.gatewayId);
    }
    forall v | 1 <= v <= m.n
      ensures FinalIn(rows, v) && SegmentCame(m, first, w.handlers, v)
    {
      CompleteHasAll(rows, m.n, v);
      var i :| 0 <= i < |rows| && rows[i].segmentIndex == v && IsFinalState(rows[i].dlrState);
      assert RowOk(m, first, w.handlers, KeyOf(rows[i]), rows[i]);
    }
  }

  lemma VerdictsKept(m: Sent, first: Store, hs: seq<Handler>, hs': seq<Handler>)
    requires VerdictsOk(m, first, hs) && Later(hs, hs')
    requires forall h :: 0 <= h < |hs'| && FinalVerdict(hs'[h]) ==>
               (h < |hs| && FinalVerdict(hs[h]) && hs'[h].rows == hs[h].rows)
               || (AllListed(m, hs'[h].rows) && AllCame(m, first, hs'))
    ensures VerdictsOk(m, first, hs')
  {
    forall h | 0 <= h < |hs'| && FinalVerdict(hs'[h])
      ensures AllListed(m, hs'[h].rows) && AllCame(m, first, hs')
    {
      if h < |hs| && FinalVerdict(hs[h]) && hs'[h].rows == hs[h].rows { AllStillCame(m, first, hs, hs'); }
    }
  }

  /** Only the settling of a final verdict touches the message. */
  lemma StepMessage(m: Sent, st: Store, h: Handler, now: Time, st': Store, h': Handler)
    requires HandlerStep(m, st, h, now, st', h')
    ensures MessageWith(st', m.gatewayId) == MessageWith(st, m.gatewayId) || FinalVerdict(h')
  {
    if !h.at.Judging? { assert st'.messages == st.messages; }
  }

  lemma StepKeepsVerdict(m: Sent, st: Store, h: Handler, now: Time, st': Store, h': Handler)
    requires HandlerStep(m, st, h, now, st', h') && !h.at.Noted?
    ensures h'.rows == h.rows && h'.verdict == h.verdict
  {
  }

  lemma NoneEarlyKept(m: Sent, w: World, h: nat, now: Time, w': World)
    requires NoneEarly(w.handlers) && Next(m, w, Handle(h, now), w')
    ensures NoneEarly(w'.handlers)
  {
    assert NoneEarly([w.handlers[h]]);
    assert NoneEarly([w'.handlers[h]]);
    forall i | 0 <= i < |w'.handlers| && i != h ensures w'.handlers[i] == w.handlers[i] {}
  }

  lemma HandledLater(m: Sent, w: World, h: nat, now: Time, w': World)
    requires Next(m, w, Handle(h, now), w')
    ensures Later(w.handlers, w'.handlers)
  {
    StepKeepsReceipt(m, w.store, w.handlers[h], now, w'.store, w'.handlers[h]);
  }

  lemma HandledVerdicts(m: Sent, first: Store, w: World, h: nat, now: Time, w': World)
    requires Inv(m, first, w) && Next(m, w, Handle(h, now), w') && RowsOk(m, first, w')
    ensures VerdictsOk(m, first, w'.handlers)
  {
    var me := w'.handlers[h];
    HandledLater(m, w, h, now, w');
    if w.handlers[h].at.Noted? {
      if FinalVerdict(me) { FinalMeansAll(m, first, w', me.rows, me.verdict.value); }
    } else {
      StepKeepsVerdict(m, w.store, w.handlers[h], now, w'.store, me);
    }
    VerdictsKept(m, first, w.handlers, w'.handlers);
  }

  lemma HandledMessage(m: Sent, first: Store, w: World, h: nat, now: Time, w': World)
    requires Inv(m, first, w) && Next(m, w, Handle(h, now), w')
    ensures MessageOk(m, first, w')
  {
    StepMessage(m, w.store, w.handlers[h], now, w'.store, w'.handlers[h]);
    if !w.handlers[h].at.Noted? { StepKeepsVerdict(m, w.store, w.handlers[h], now, w'.store, w'.handlers[h]); }
    if g :| 0 <= g < |w.handlers| && FinalVerdict(w.handlers[g]) { assert FinalVerdict(w'.handlers[g]); }
  }

  lemma HandleKept(m: Sent, first: Store, w: World, h: nat, now: Time, w': World)
    requires Inv(m, first, w) && Next(m, w, Handle(h, now), w')
    ensures Inv(m, first, w')
  {
    HandledLater(m, w, h, now, w');
    StepMovesRows(m, w.store, w.handlers[h], now, w'.store, w'.handlers[h]);
    RowsKept(m, first, w, h, w');
    HandledVerdicts(m, first, w, h, now, w');
    HandledMessage(m, first, w, h, now, w');
    NoneEarlyKept(m, w, h, now, w');
  }

  lemma ArriveKept(m: Sent, first: Store, w: World, key: PendingKey, receipt: Receipt, w': World)
    requires Inv(m, first, w) && Next(m, w, Arrive(key, receipt), w')
    ensures Inv(m, first, w')
  {
    assert Later(w.handlers, w'.handlers);
    forall k | k in w'.store.pending && Of(m, w'.store.pending[k])
      ensures RowOk(m, first, w'.handlers, k, w'.store.pending[k])
    {
      RowKept(m, first, w.handlers, w'.handlers, k, w.store.pending[k], w'.store.pending[k]);
    }
    VerdictsKept(m, first, w.handlers, w'.handlers);
    if g :| 0 <= g < |w.handlers| && FinalVerdict(w.handlers[g]) { assert FinalVerdict(w'.handlers[g]); }
  }

  lemma ElseKept(m: Sent, first: Store, w: World, w': World)
    requires Inv(m, first, w) && Next(m, w, Else, w')
    ensures Inv(m, first, w')
  {
    forall k | k in w'.store.pending && Of(m, w'.store.pending[k])
      ensures RowOk(m, first, w'.handlers, k, w'.store.pending[k])
    {
      RowKept(m, first, w.handlers, w'.handlers, k, w.store.pending[k], w'.store.pending[k]);
    }
  }

  lemma {:induction false} InvOfHistory(m: Sent, run: seq<World>, moves: seq<Move>, i: nat)
    requires IsHistory(m, run, moves) && i < |run|
    ensures Inv(m, run[0].store, run[i])
  {
    if i == 0 { assert !IsFinalState(""); }
    else {
      InvOfHistory(m, run, moves, i - 1);
      assert MoveAt(m, run, moves, i - 1);
      match moves[i - 1]
      case Arrive(key, receipt) => ArriveKept(m, run[0].store, run[i - 1], key, receipt, run[i]);
      case Handle(h, now) => HandleKept(m, run[0].store, run[i - 1], h, now, run[i]);
      case Else => ElseKept(m, run[0].store, run[i - 1], run[i]);
    }
  }

  // ----- never final early

  /**
    In every history, expiry, early exits and deferrals included: a final verdict was made on a listing with all n
    segments in final states, after a final receipt had come for each of them.
   */
  lemma FinalOnlyWhenAll(m: Sent, run: seq<World>, moves: seq<Move>, i: nat, h: nat)
    requires IsHistory(m, run, moves) && i < |run| && h < |run[i].handlers| && FinalVerdict(run[i].handlers[h])
    ensures AllListed(m, run[i].handlers[h].rows) && AllCame(m, run[0].store, run[i].handlers)
  {
    InvOfHistory(m, run, moves, i);
  }

  /** The message is as it was sent until a final receipt has come for every segment. */
  lemma UnsettledUntilAll(m: Sent, run: seq<World>, moves: seq<Move>, i: nat)
    requires IsHistory(m, run, moves) && i < |run|
    ensures MessageWith(run[i].store, m.gatewayId) == MessageWith(run[0].store, m.gatewayId)
            || AllCame(m, run[0].store, run[i].handlers)
  {
    InvOfHistory(m, run, moves, i);
  }

  /** No row of segment v is left. */
  ghost predicate Lost(m: Sent, st: Store, v: int) {
    forall k :: k in st.pending && Of(m, st.pending[k]) ==> st.pending[k].segmentIndex != v
  }

  lemma LostStays(m: Sent, w: World, l: Move, w': World, v: int)
    requires Next(m, w, l, w') && Lost(m, w.store, v)
    ensures Lost(m, w'.store, v)
  {
    if l.Handle? { StepMovesRows(m, w.store, w.handlers[l.h], l.now, w'.store, w'.handlers[l.h]); }
  }

  lemma {:induction false} LostForGood(m: Sent, run: seq<World>, moves: seq<Move>, i: nat, k: nat, v: int)
    requires IsHistory(m, run, moves) && i <= k < |run| && Lost(m, run[i].store, v)
    ensures Lost(m, run[k].store, v)
  {
    if i < k {
      LostForGood(m, run, moves, i, k - 1, v);
      assert MoveAt(m, run, moves, k - 1);
      LostStays(m, run[k - 1], moves[k - 1], run[k], v);
    }
  }

  lemma FinalIsNotLost(m: Sent, first: Store, w: World, rows: seq<Pending>, a: Aggregate, v: int)
    requires RowsOk(m, first, w) && Lists(m, w.store, rows, a) && a.final && 1 <= v <= m.n
    ensures !Lost(m, w.store, v)
  {
    FinalMeansAll(m, first, w, rows, a);
    assert FinalIn(rows, v);
    var j :| 0 <= j < |rows| && rows[j].segmentIndex == v;
    assert KeyOf(rows[j]) in KeysOfGateway(w.store.pending, m.gatewayId);
  }

  /** Once the row of a segment has expired, no later listing is judged final: the message stays unsettled. */
  lemma LostNeverFinal(m: Sent, run: seq<World>, moves: seq<Move>, i: nat, k: nat, h: nat, v: int)
    requires IsHistory(m, run, moves) && i <= k < |moves| && 1 <= v <= m.n && Lost(m, run[i].store, v)
    requires moves[k].Handle? && moves[k].h == h < |run[k].handlers| && run[k].handlers[h].at.Noted?
    ensures h < |run[k + 1].handlers| && !FinalVerdict(run[k + 1].handlers[h])
  {
    assert MoveAt(m, run, moves, k);
    InvOfHistory(m, run, moves, k + 1);
    LostForGood(m, run, moves, i, k + 1, v);
    var me := run[k + 1].handlers[h];
    if FinalVerdict(me) { FinalIsNotLost(m, run[0].store, run[k + 1], me.rows, me.verdict.value, v); }
  }
}
