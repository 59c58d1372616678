/**
  The outbox protocol: any number of workers claim rows, mark them `sending`, call the
  provider and record the outcome, while claims go stale and are requeued, stale workers
  fail rows they no longer own, writes to disk fail, and the process crashes and reloads.

  Every store call is one step. With the file store, marking a row returns to the worker
  only after a snapshot taken later than the mark has replaced the file.
 */
module OutboxProtocol {
  import opened Wrappers
  import opened StoreSpec
  import opened FileSpec
  import opened StoreLaws

  /** Where one delivery job of a worker stands. */
  datatype Pc =
    | Fetched      // holds a claimed row, has not marked it
    | MarkApplied  // marked in memory, snapshot not yet taken
    | Persisting   // its snapshot is being written
    | Cleared      // the mark has returned; the next thing is the provider call
    | Called       // the provider has been called; recording the outcome
    | Stopped

  datatype Job = Job(row: int, worker: string, pc: Pc)

  datatype Call = Call(row: int, worker: string)

  /** A snapshot on its way to disk, and the job waiting for it, if any. */
  datatype Write = Write(snap: Store, owner: Option<nat>)

  datatype Sys = Sys(
    file: bool,
    store: Store,
    disk: Store,
    aside: bool,
    writing: Option<Write>,
    jobs: seq<Job>,
    calls: seq<Call>)

  datatype Label =
    | Submit(sub: Submission, now: Time, maxMessages: int)
    | Claim(worker: string, limit: int, now: Time, items: seq<OutboxItem>, handed: nat)
    | Requeue(before: Time, rlimit: int, ids: set<int>)
    | Mark(j: nat)
    | Abandon(j: nat)
    | BeginWrite(owner: Option<nat>)
    | MoveAside
    | EndWrite
    | FailWrite
    | CallProvider(j: nat)
    | Complete(j: nat, recs: seq<Pending>)
    | Uncertain(j: nat, reason: string)
    | FailRow(j: nat, reason: string, next: Time)
    | Ack(id: int)
    | Other
    | Crash

  predicate PreCall(pc: Pc) {
    pc.Fetched? || pc.MarkApplied? || pc.Persisting? || pc.Cleared?
  }

  predicate Closed(state: RowState) {
    state.RowSending? || state.RowDone? || state.RowFailed? || state.RowUncertain?
  }

  ghost predicate WellKeyed(st: Store) {
    && st.nextOutbox >= 0
    && forall id :: id in st.outbox ==> st.outbox[id].id == id && id <= st.nextOutbox
  }

  /** A memory store starts empty; a file store starts from whatever the last process left. */
  ghost predicate Init(s: Sys) {
    && WellKeyed(s.disk)
    && (if s.file then Loaded(s.disk, s.store) else s.store == EMPTY)
    && !s.aside && s.writing.None? && s.jobs == [] && s.calls == []
  }

  ghost predicate At(s: Sys, j: nat, pc: Pc) {
    j < |s.jobs| && s.jobs[j].pc == pc
  }

  function Moved(s: Sys, j: nat, pc: Pc): Sys
    requires j < |s.jobs|
  {
    s.(jobs := s.jobs[j := s.jobs[j].(pc := pc)])
  }

  function StoreOr(r: Result<Store>, st: Store): Store {
    if r.Ok? then r.value else st
  }

  ghost predicate DoClaim(s: Sys, worker: string, limit: int, now: Time, items: seq<OutboxItem>, handed: nat, s': Sys) {
    && handed <= |items|
    && ClaimStep(s.store.outbox, s'.store.outbox, worker, limit, now, items)
    && s' == s.(store := s.store.(outbox := s'.store.outbox),
                jobs := s.jobs + seq(handed, i requires 0 <= i < handed => Job(items[i].id, worker, Fetched)))
  }

  ghost predicate DoMark(s: Sys, j: nat, s': Sys) {
    && At(s, j, Fetched)
    && var r := MarkSending(s.store, s.jobs[j].row, s.jobs[j].worker);
    && r.Ok?
    && s' == Moved(s, j, if s.file then MarkApplied else Cleared).(store := r.value)
  }

  ghost predicate DoBeginWrite(s: Sys, owner: Option<nat>, s': Sys) {
    && s.file && s.writing.None?
    && (owner.Some? ==> At(s, owner.value, MarkApplied))
    && s' == (if owner.Some? then Moved(s, owner.value, Persisting) else s).(writing := Some(Write(s.store, owner)))
  }

  /** Before the new file takes its place the old one is renamed away; from then on there is no file to load. */
  ghost predicate DoMoveAside(s: Sys, s': Sys) {
    s.writing.Some? && s' == s.(aside := true)
  }

  ghost predicate DoFinishWrite(s: Sys, ok: bool, s': Sys) {
    && s.writing.Some?
    && var owner := s.writing.value.owner;
    && (owner.Some? ==> owner.value < |s.jobs|)
    && s' == (if owner.Some? then Moved(s, owner.value, if ok then Cleared else Fetched) else s)
             .(writing := None, disk := if ok then s.writing.value.snap else s.disk, aside := s.aside && !ok)
  }

  ghost predicate DoCall(s: Sys, j: nat, s': Sys) {
    && At(s, j, Cleared)
    && s' == Moved(s, j, Called).(calls := s.calls + [Call(s.jobs[j].row, s.jobs[j].worker)])
  }

  ghost predicate DoFail(s: Sys, j: nat, reason: string, next: Time, s': Sys) {
    && (At(s, j, Fetched) || At(s, j, Called))
    && s' == Moved(s, j, Stopped).(store := StoreOr(FailOutbox(s.store, s.jobs[j].row, reason, next), s.store))
  }

  /** Without a file the store starts empty. */
  ghost predicate DoCrash(s: Sys, s': Sys) {
    && s.file
    && if s.aside then s' == s.(store := EMPTY, disk := EMPTY, aside := false, writing := None, jobs := [])
       else Loaded(s.disk, s'.store) && s' == s.(store := s'.store, writing := None, jobs := [])
  }

  /** The steps that change nothing but the store. */
  ghost predicate StoreOnly(s: Sys, l: Label, st': Store) {
    match l
    case Submit(sub, now, max) => st' == SubmitAtomic(s.store, sub, now, max).0
    case Requeue(before, limit, ids) =>
      RequeueStep(s.store.outbox, st'.outbox, before, limit, ids) && st' == s.store.(outbox := st'.outbox)
    case Complete(j, recs) =>
      At(s, j, Called) && st' == StoreOr(CompleteSend(s.store, s.jobs[j].row, s.jobs[j].worker, recs), s.store)
    case Uncertain(j, reason) =>
      At(s, j, Called) && st' == StoreOr(MarkUncertain(s.store, s.jobs[j].row, s.jobs[j].worker, reason), s.store)
    case Ack(id) => st' == StoreOr(AckOutbox(s.store, id), s.store)
    case Other => st'.outbox == s.store.outbox && st'.nextOutbox == s.store.nextOutbox
    case _ => false
  }

  ghost predicate Next(s: Sys, l: Label, s': Sys) {
    match l
    case Claim(worker, limit, now, items, handed) => DoClaim(s, worker, limit, now, items, handed, s')
    case Mark(j) => DoMark(s, j, s')
    case Abandon(j) => (At(s, j, Fetched) || At(s, j, Called)) && s' == Moved(s, j, Stopped)
    case BeginWrite(owner) => DoBeginWrite(s, owner, s')
    case MoveAside => DoMoveAside(s, s')
    case EndWrite => DoFinishWrite(s, true, s')
    case FailWrite => DoFinishWrite(s, false, s')
    case CallProvider(j) => DoCall(s, j, s')
    case FailRow(j, reason, next) => DoFail(s, j, reason, next, s')
    case Crash => DoCrash(s, s')
    case _ => StoreOnly(s, l, s'.store) && s' == s.(store := s'.store)
  }

  ghost predicate IsRun(run: seq<Sys>, labels: seq<Label>) {
    && |run| == |labels| + 1
    && Init(run[0])
    && forall i :: 0 <= i < |labels| ==> StepAt(run, labels, i)
  }

  ghost predicate StepAt(run: seq<Sys>, labels: seq<Label>, i: nat)
    requires i < |labels| < |run|
  {
    Next(run[i], labels[i], run[i + 1])
  }

  /** No crash falls between renaming the old file away and putting the new one in its place. */
  ghost predicate FileThere(s: Sys, l: Label) {
    l.Crash? ==> !s.aside
  }

  ghost predicate FileAlwaysThere(run: seq<Sys>, labels: seq<Label>)
    requires |run| > |labels|
  {
    forall i :: 0 <= i < |labels| ==> FileThere(run[i], labels[i])
  }

  // ----- the invariant of every such run

  /** The row is past the point of no return, and it is this worker's. */
  ghost predicate Owned(st: Store, row: int, worker: string) {
    row in st.outbox && Closed(st.outbox[row].state) && st.outbox[row].claimedBy == worker
  }

  /** So it is on disk, and in any snapshot about to replace the disk. */
  ghost predicate OwnedOnDisk(s: Sys, row: int, worker: string) {
    && Owned(s.disk, row, worker)
    && (s.writing.Some? ==> Owned(s.writing.value.snap, row, worker))
  }

  ghost predicate KeysInv(s: Sys) {
    WellKeyed(s.store) && WellKeyed(s.disk) && (s.writing.Some? ==> WellKeyed(s.writing.value.snap))
  }

  ghost predicate JobInv(s: Sys, j: nat)
    requires j < |s.jobs|
  {
    var job := s.jobs[j];
    && (!job.pc.Fetched? && !job.pc.Stopped? ==> Owned(s.store, job.row, job.worker))
    && (s.file && (job.pc.Cleared? || job.pc.Called?) ==> OwnedOnDisk(s, job.row, job.worker))
    && (job.pc.MarkApplied? ==> s.file)
    && (job.pc.Persisting? ==> s.writing.Some? && s.writing.value.owner == Some(j))
  }

  ghost predicate WriteInv(s: Sys) {
    s.writing.Some? ==>
      && s.file
      && var owner := s.writing.value.owner;
      owner.Some? ==>
        && At(s, owner.value, Persisting)
        && Owned(s.writing.value.snap, s.jobs[owner.value].row, s.jobs[owner.value].worker)
  }

  ghost predicate CallInv(s: Sys) {
    forall c :: c in s.calls ==>
      Owned(s.store, c.row, c.worker) && (s.file ==> OwnedOnDisk(s, c.row, c.worker))
  }

  ghost predicate Inv(s: Sys) {
    KeysInv(s) && WriteInv(s) && CallInv(s) && forall j :: 0 <= j < |s.jobs| ==> JobInv(s, j)
  }

  predicate SameDuty(a: OutboxItem, b: OutboxItem) {
    a.id == b.id && a.gatewayId == b.gatewayId && a.provider == b.provider
  }

  /** How the store's rows may move: numbers are never reused, and a closed row stays closed and owned. */
  ghost predicate RowsMove(a: Store, b: Store) {
    && a.nextOutbox <= b.nextOutbox
    && a.outbox.Keys <= b.outbox.Keys
    && (forall id :: id in a.outbox ==> SameDuty(a.outbox[id], b.outbox[id]))
    && (forall id :: id in a.outbox && Closed(a.outbox[id].state) ==>
          Closed(b.outbox[id].state) && b.outbox[id].claimedBy == a.outbox[id].claimedBy)
    && (forall id :: id in b.outbox && id !in a.outbox ==> b.outbox[id].id == id && id <= b.nextOutbox)
  }

  lemma SubmitMoves(st: Store, sub: Submission, now: Time, max: int)
    requires WellKeyed(st)
    ensures RowsMove(st, SubmitAtomic(st, sub, now, max).0)
  {
  }

  lemma ClaimMoves(st: Store, st': Store, worker: string, limit: int, now: Time, items: seq<OutboxItem>)
    requires ClaimStep(st.outbox, st'.outbox, worker, limit, now, items) && st' == st.(outbox := st'.outbox)
    ensures RowsMove(st, st')
  {
    forall id | id in st.outbox && Closed(st.outbox[id].state)
      ensures st'.outbox[id] == st.outbox[id]
    {
      assert id !in ClaimableIds(st.outbox, now);
    }
  }

  lemma OneRowMoves(st: Store, id: int, item: OutboxItem, st': Store)
    requires id in st.outbox && st'.outbox == st.outbox[id := item] && st'.nextOutbox == st.nextOutbox
    requires SameDuty(st.outbox[id], item)
    requires Closed(st.outbox[id].state) ==> Closed(item.state) && item.claimedBy == st.outbox[id].claimedBy
    ensures RowsMove(st, st')
  {
  }

  lemma CompleteMoves(st: Store, row: int, worker: string, recs: seq<Pending>)
    ensures RowsMove(st, StoreOr(CompleteSend(st, row, worker, recs), st))
  {
    var r := CompleteSend(st, row, worker, recs);
    if r.Ok? && r.value != st { OneRowMoves(st, row, st.outbox[row].(state := RowDone), r.value); }
  }

  lemma UncertainMoves(st: Store, row: int, worker: string, reason: string)
    ensures RowsMove(st, StoreOr(MarkUncertain(st, row, worker, reason), st))
  {
    var r := MarkUncertain(st, row, worker, reason);
    if r.Ok? { OneRowMoves(st, row, r.value.outbox[row], r.value); }
  }

  lemma FailMoves(st: Store, row: int, reason: string, next: Time)
    ensures RowsMove(st, StoreOr(FailOutbox(st, row, reason, next), st))
    ensures RowsMove(st, StoreOr(AckOutbox(st, row), st))
  {
    var r, a := FailOutbox(st, row, reason, next), AckOutbox(st, row);
    if r.Ok? { OneRowMoves(st, row, r.value.outbox[row], r.value); }
    if a.Ok? { OneRowMoves(st, row, a.value.outbox[row], a.value); }
  }

  lemma MarkMoves(st: Store, row: int, worker: string)
    ensures RowsMove(st, StoreOr(MarkSending(st, row, worker), st))
  {
    var r := MarkSending(st, row, worker);
    if r.Ok? && r.value != st { OneRowMoves(st, row, r.value.outbox[row], r.value); }
  }

  lemma RequeueMoves(st: Store, st': Store, before: Time, limit: int, ids: set<int>)
    requires RequeueStep(st.outbox, st'.outbox, before, limit, ids) && st' == st.(outbox := st'.outbox)
    ensures RowsMove(st, st')
  {
  }

  lemma StoreOnlyMoves(s: Sys, l: Label, st': Store)
    requires WellKeyed(s.store) && StoreOnly(s, l, st')
    ensures RowsMove(s.store, st')
  {
    match l
    case Submit(sub, now, max) => SubmitMoves(s.store, sub, now, max);
    case Requeue(before, limit, ids) => RequeueMoves(s.store, st', before, limit, ids);
    case Complete(j, recs) => CompleteMoves(s.store, s.jobs[j].row, s.jobs[j].worker, recs);
    case Uncertain(j, reason) => UncertainMoves(s.store, s.jobs[j].row, s.jobs[j].worker, reason);
    case Ack(id) => FailMoves(s.store, id, "", 0);
    case _ =>
  }

  /** Every step but a crash moves rows forward only. */
  lemma RowsMoveForward(s: Sys, l: Label, s': Sys)
    requires WellKeyed(s.store) && Next(s, l, s') && !l.Crash?
    ensures RowsMove(s.store, s'.store)
  {
    match l
    case Claim(worker, limit, now, items, _) => ClaimMoves(s.store, s'.store, worker, limit, now, items);
    case Mark(j) => MarkMoves(s.store, s.jobs[j].row, s.jobs[j].worker);
    case Abandon(_) =>
    case BeginWrite(_) =>
    case MoveAside =>
    case EndWrite =>
    case FailWrite =>
    case CallProvider(_) =>
    case FailRow(j, reason, next) => FailMoves(s.store, s.jobs[j].row, reason, next);
    case _ => StoreOnlyMoves(s, l, s'.store);
  }

  /** What a step that only moves rows forward and stops jobs keeps. */
  lemma StoreStepKeeps(s: Sys, s': Sys)
    requires Inv(s) && RowsMove(s.store, s'.store)
    requires s' == s.(store := s'.store, jobs := s'.jobs)
    requires |s'.jobs| >= |s.jobs|
    requires forall j :: 0 <= j < |s'.jobs| ==>
               if j >= |s.jobs| then s'.jobs[j].pc.Fetched?
               else s'.jobs[j] == s.jobs[j] || (s'.jobs[j].pc.Stopped? && !s.jobs[j].pc.Persisting?)
    ensures Inv(s')
  {
    forall j | 0 <= j < |s'.jobs|
      ensures JobInv(s', j)
    {
      if j < |s.jobs| { assert JobInv(s, j); }
    }
  }

  lemma MarkKeeps(s: Sys, j: nat, s': Sys)
    requires Inv(s) && DoMark(s, j, s')
    ensures Inv(s')
  {
    forall k | 0 <= k < |s'.jobs|
      ensures JobInv(s', k)
    {
      assert JobInv(s, k);
    }
  }

  lemma WriteKeeps(s: Sys, owner: Option<nat>, s': Sys)
    requires Inv(s) && DoBeginWrite(s, owner, s')
    ensures Inv(s')
  {
    forall k | 0 <= k < |s'.jobs|
      ensures JobInv(s', k)
    {
      assert JobInv(s, k);
    }
    if owner.Some? { assert JobInv(s, owner.value); }
  }

  lemma FinishWriteKeeps(s: Sys, ok: bool, s': Sys)
    requires Inv(s) && DoFinishWrite(s, ok, s')
    ensures Inv(s')
  {
    forall k | 0 <= k < |s'.jobs|
      ensures JobInv(s', k)
    {
      assert JobInv(s, k);
    }
  }

  lemma CallKeeps(s: Sys, j: nat, s': Sys)
    requires Inv(s) && DoCall(s, j, s')
    ensures Inv(s')
  {
    forall k | 0 <= k < |s'.jobs|
      ensures JobInv(s', k)
    {
      assert JobInv(s, k);
    }
    assert JobInv(s, j);
  }

  lemma CrashKeeps(s: Sys, s': Sys)
    requires Inv(s) && DoCrash(s, s') && !s.aside
    ensures Inv(s')
  {
  }

  lemma MoveAsideKeeps(s: Sys, s': Sys)
    requires Inv(s) && DoMoveAside(s, s')
    ensures Inv(s')
  {
    forall k | 0 <= k < |s'.jobs|
      ensures JobInv(s', k)
    {
      assert JobInv(s, k);
    }
  }

  lemma InvKept(s: Sys, l: Label, s': Sys)
    requires Inv(s) && Next(s, l, s') && FileThere(s, l)
    ensures Inv(s')
  {
    if !l.Crash? { RowsMoveForward(s, l, s'); }
    match l
    case Mark(j) => MarkKeeps(s, j, s');
    case BeginWrite(owner) => WriteKeeps(s, owner, s');
    case MoveAside => MoveAsideKeeps(s, s');
    case EndWrite => FinishWriteKeeps(s, true, s');
    case FailWrite => FinishWriteKeeps(s, false, s');
    case CallProvider(j) => CallKeeps(s, j, s');
    case Crash => CrashKeeps(s, s');
    case _ => StoreStepKeeps(s, s');
  }

  lemma {:induction false} InvOfRun(run: seq<Sys>, labels: seq<Label>, n: nat)
    requires IsRun(run, labels) && FileAlwaysThere(run, labels) && n < |run|
    ensures Inv(run[n])
  {
    if n > 0 {
      InvOfRun(run, labels, n - 1);
      assert StepAt(run, labels, n - 1);
      InvKept(run[n - 1], labels[n - 1], run[n]);
    }
  }

  // ----- what a restart finds on disk

  /** What is on disk, or on its way there, is an earlier stage of what is in memory. */
  ghost predicate DiskBehind(s: Sys) {
    s.file ==> RowsMove(s.disk, s.store) && (s.writing.Some? ==> RowsMove(s.writing.value.snap, s.store))
  }

  lemma RowsMoveOn(a: Store, b: Store, c: Store)
    requires RowsMove(a, b) && RowsMove(b, c)
    ensures RowsMove(a, c)
  {
    forall id | id in a.outbox
      ensures SameDuty(a.outbox[id], c.outbox[id])
    {
      assert SameDuty(a.outbox[id], b.outbox[id]) && SameDuty(b.outbox[id], c.outbox[id]);
    }
    forall id | id in c.outbox && id !in a.outbox
      ensures c.outbox[id].id == id && id <= c.nextOutbox
    {
      if id in b.outbox { assert SameDuty(b.outbox[id], c.outbox[id]); }
    }
  }

  lemma DiskBehindKept(s: Sys, l: Label, s': Sys)
    requires KeysInv(s) && DiskBehind(s) && Next(s, l, s')
    ensures KeysInv(s') && DiskBehind(s')
  {
    if !l.Crash? {
      RowsMoveForward(s, l, s');
      if s.file {
        RowsMoveOn(s.disk, s.store, s'.store);
        if s.writing.Some? { RowsMoveOn(s.writing.value.snap, s.store, s'.store); }
      }
    }
  }

  lemma {:induction false} DiskBehindOfRun(run: seq<Sys>, labels: seq<Label>, n: nat)
    requires IsRun(run, labels) && n < |run|
    ensures KeysInv(run[n]) && DiskBehind(run[n])
  {
    if n > 0 {
      DiskBehindOfRun(run, labels, n - 1);
      assert StepAt(run, labels, n - 1);
      DiskBehindKept(run[n - 1], labels[n - 1], run[n]);
    }
  }

  /**
    A restart that finds its file brings back the rows in it and no others. A row that was pending or claimed at the
    crash is pending again, for the same message and provider, and is due from the time in the file on; a row is closed
    after the restart only if it was closed, by the same worker, before.
   */
  lemma RestartClosesNothing(run: seq<Sys>, labels: seq<Label>, i: nat, row: int)
    requires IsRun(run, labels) && i < |labels| && labels[i].Crash? && !run[i].aside
    ensures row in run[i + 1].store.outbox <==> row in run[i].disk.outbox
    ensures row in run[i + 1].store.outbox ==>
              && row in run[i].store.outbox
              && var before, after := run[i].store.outbox[row], run[i + 1].store.outbox[row];
              && SameDuty(before, after)
              && (Closed(after.state) ==> Closed(before.state) && after.claimedBy == before.claimedBy)
              && (!Closed(before.state) ==>
                    DueFrom(run[i + 1].store.outbox, row, run[i].disk.outbox[row].nextRetryAt))
  {
    DiskBehindOfRun(run, labels, i);
    assert StepAt(run, labels, i);
    var disk, st, st' := run[i].disk, run[i].store, run[i + 1].store;
    if row in disk.outbox { RestartedRow(disk, st, st', row); }
  }

  lemma RestartedRow(disk: Store, st: Store, st': Store, row: int)
    requires RowsMove(disk, st) && Loaded(disk, st') && row in disk.outbox
    ensures row in st.outbox && row in st'.outbox && SameDuty(st.outbox[row], st'.outbox[row])
    ensures Closed(st'.outbox[row].state) ==>
              Closed(st.outbox[row].state) && st'.outbox[row].claimedBy == st.outbox[row].claimedBy
    ensures !Closed(st.outbox[row].state) ==> DueFrom(st'.outbox, row, disk.outbox[row].nextRetryAt)
  {
    RestartKeepsRows(disk, st', row);
    assert SameDuty(disk.outbox[row], st.outbox[row]);
    assert Closed(disk.outbox[row].state) <==> !Open(disk.outbox[row]);
  }

  // ----- what every run keeps

  /** Fail-closed: between crashes a row that reached `sending` is never pending or claimed again. */
  lemma {:induction false} FailClosed(run: seq<Sys>, labels: seq<Label>, i: nat, k: nat, row: int)
    requires IsRun(run, labels) && FileAlwaysThere(run, labels) && i <= k < |run|
    requires forall m :: i <= m < k ==> !labels[m].Crash?
    requires row in run[i].store.outbox && Closed(run[i].store.outbox[row].state)
    ensures Owned(run[k].store, row, run[i].store.outbox[row].claimedBy)
  {
    if i < k {
      FailClosed(run, labels, i, k - 1, row);
      RowsMoveInRun(run, labels, k - 1);
    }
  }

  lemma RowsMoveInRun(run: seq<Sys>, labels: seq<Label>, k: nat)
    requires IsRun(run, labels) && FileAlwaysThere(run, labels) && k < |labels| && !labels[k].Crash?
    ensures RowsMove(run[k].store, run[k + 1].store)
  {
    InvOfRun(run, labels, k);
    assert StepAt(run, labels, k);
    RowsMoveForward(run[k], labels[k], run[k + 1]);
  }

  lemma {:induction false} CallsGrow(run: seq<Sys>, labels: seq<Label>, i: nat, k: nat)
    requires IsRun(run, labels) && i <= k < |run|
    ensures run[i].calls <= run[k].calls && run[i].file == run[k].file
  {
    if i < k {
      CallsGrow(run, labels, i, k - 1);
      assert StepAt(run, labels, k - 1);
      CallsOnlyGrow(run[k - 1], labels[k - 1], run[k]);
    }
  }

  lemma CallsOnlyGrow(s: Sys, l: Label, s': Sys)
    requires Next(s, l, s')
    ensures s.calls <= s'.calls && s.file == s'.file
  {
  }

  /** Once the provider has been called for a row, no later state, crash or reload makes it claimable. */
  lemma CalledRowNeverClaimable(run: seq<Sys>, labels: seq<Label>, i: nat, k: nat, c: Call)
    requires IsRun(run, labels) && FileAlwaysThere(run, labels) && i <= k < |run|
    requires c in run[i].calls
    ensures Owned(run[k].store, c.row, c.worker)
    ensures run[k].file ==> Owned(run[k].disk, c.row, c.worker)
    ensures run[k].file ==> forall st :: Loaded(run[k].disk, st) ==> Owned(st, c.row, c.worker)
    ensures forall now :: c.row !in ClaimableIds(run[k].store.outbox, now)
  {
    CallsGrow(run, labels, i, k);
    InvOfRun(run, labels, k);
  }

  /** At most one worker identity ever calls the provider for a row, crashes included. */
  lemma OneCallerPerRow(run: seq<Sys>, labels: seq<Label>, n: nat, c: Call, d: Call)
    requires IsRun(run, labels) && FileAlwaysThere(run, labels) && n < |run|
    requires c in run[n].calls && d in run[n].calls && c.row == d.row
    ensures c.worker == d.worker
  {
    InvOfRun(run, labels, n);
  }

  /** A restart keeps the rows whose provider was called exactly when it finds the file. */
  lemma CrashKeepsCalledRowIff(s: Sys, s': Sys, c: Call)
    requires Inv(s) && Next(s, Crash, s') && c in s.calls
    ensures Owned(s'.store, c.row, c.worker) <==> !s.aside
  {
  }

  // ----- exactly one call

  /** The claim hands its item i to a worker whose job j on that row has not called yet. */
  ghost predicate Reclaims(s: Sys, l: Label, i: int, j: int)
    requires l.Claim?
  {
    0 <= i < l.handed && i < |l.items| && 0 <= j < |s.jobs|
    && s.jobs[j].row == l.items[i].id && s.jobs[j].worker == l.worker && PreCall(s.jobs[j].pc)
  }

  /** A claim does not hand a row to a worker that still has an uncalled job on that row. */
  ghost predicate NoSelfReclaim(s: Sys, l: Label) {
    l.Claim? ==> forall i, j :: !Reclaims(s, l, i, j)
  }

  ghost predicate SingleInv(s: Sys) {
    && (forall j, k :: 0 <= j < k < |s.jobs| && PreCall(s.jobs[j].pc) && PreCall(s.jobs[k].pc) ==>
          s.jobs[j].row != s.jobs[k].row || s.jobs[j].worker != s.jobs[k].worker)
    && (forall j, c :: 0 <= j < |s.jobs| && c in s.calls && PreCall(s.jobs[j].pc) ==>
          s.jobs[j].row != c.row || s.jobs[j].worker != c.worker)
    && (forall a, b :: 0 <= a < b < |s.calls| ==> s.calls[a].row != s.calls[b].row)
  }

  /** Only claims make jobs, and only claims and provider calls matter to the uniqueness of calls. */
  lemma QuietStep(s: Sys, l: Label, s': Sys)
    requires Inv(s) && Next(s, l, s') && !l.Claim? && !l.CallProvider? && !l.Crash?
    ensures s'.calls == s.calls && |s'.jobs| == |s.jobs|
    ensures forall j :: 0 <= j < |s.jobs| ==>
              && s'.jobs[j].row == s.jobs[j].row && s'.jobs[j].worker == s.jobs[j].worker
              && (PreCall(s'.jobs[j].pc) ==> PreCall(s.jobs[j].pc))
  {
    if (l.EndWrite? || l.FailWrite?) && s.writing.value.owner.Some? {
      assert At(s, s.writing.value.owner.value, Persisting);
    }
  }

  lemma SingleAfterClaim(s: Sys, l: Label, s': Sys)
    requires Inv(s) && SingleInv(s) && Next(s, l, s') && l.Claim? && NoSelfReclaim(s, l)
    ensures SingleInv(s')
  {
    forall j | |s.jobs| <= j < |s'.jobs|
      ensures s'.jobs[j] == Job(l.items[j - |s.jobs|].id, l.worker, Fetched)
      ensures s'.jobs[j].row in ClaimableIds(s.store.outbox, l.now)
    {
    }
    forall j, k | 0 <= j < |s.jobs| <= k < |s'.jobs| && PreCall(s.jobs[j].pc)
      ensures s.jobs[j].row != s'.jobs[k].row || s.jobs[j].worker != s'.jobs[k].worker
    {
      assert !Reclaims(s, l, k - |s.jobs|, j);
    }
  }

  lemma SingleAfterCall(s: Sys, j: nat, s': Sys)
    requires Inv(s) && SingleInv(s) && Next(s, CallProvider(j), s')
    ensures SingleInv(s')
  {
    assert JobInv(s, j);
  }

  lemma SingleKept(s: Sys, l: Label, s': Sys)
    requires FileThere(s, l) && Inv(s) && SingleInv(s) && Next(s, l, s') && NoSelfReclaim(s, l)
    ensures SingleInv(s')
  {
    match l
    case Claim(_, _, _, _, _) => SingleAfterClaim(s, l, s');
    case CallProvider(j) => SingleAfterCall(s, j, s');
    case Crash =>
    case _ => SingleWhenQuiet(s, l, s');
  }

  lemma SingleWhenQuiet(s: Sys, l: Label, s': Sys)
    requires Inv(s) && SingleInv(s) && Next(s, l, s') && !l.Claim? && !l.CallProvider? && !l.Crash?
    ensures SingleInv(s')
  {
    QuietStep(s, l, s');
  }

  /** With that guard no row is ever called twice, through any interleaving and any crash. */
  lemma {:induction false} AtMostOneCall(run: seq<Sys>, labels: seq<Label>, n: nat)
    requires IsRun(run, labels) && FileAlwaysThere(run, labels) && n < |run|
    requires forall i :: 0 <= i < n ==> NoSelfReclaim(run[i], labels[i])
    ensures SingleInv(run[n])
    ensures forall a, b :: 0 <= a < b < |run[n].calls| ==> run[n].calls[a].row != run[n].calls[b].row
  {
    if n > 0 {
      AtMostOneCall(run, labels, n - 1);
      InvOfRun(run, labels, n - 1);
      assert StepAt(run, labels, n - 1);
      SingleKept(run[n - 1], labels[n - 1], run[n]);
    }
  }

  // ----- and without it

  ghost predicate Path(path: seq<Sys>, labels: seq<Label>, s: Sys, s': Sys) {
    && |path| == |labels| + 1 && path[0] == s && path[|labels|] == s'
    && forall i :: 0 <= i < |labels| ==> Next(path[i], labels[i], path[i + 1])
  }

  ghost predicate Leads(s: Sys, s': Sys) {
    exists path, labels :: Path(path, labels, s, s')
  }

  lemma LeadsOne(s: Sys, l: Label, s': Sys)
    requires Next(s, l, s')
    ensures Leads(s, s')
  {
    assert Path([s, s'], [l], s, s');
  }

  lemma LeadsOn(s: Sys, t: Sys, u: Sys)
    requires Leads(s, t) && Leads(t, u)
    ensures Leads(s, u)
  {
    var p, ls :| Path(p, ls, s, t);
    var q, ms :| Path(q, ms, t, u);
    var path, labels := p + q[1..], ls + ms;
    forall i | 0 <= i < |labels|
      ensures Next(path[i], labels[i], path[i + 1])
    {
      if i >= |ls| { assert Next(q[i - |ls|], ms[i - |ls|], q[i - |ls| + 1]); }
    }
    assert Path(path, labels, s, u);
  }

  /** The row is still this job's to send, as far as the store can tell. */
  ghost predicate Sendable(s: Sys, j: nat) {
    && At(s, j, Fetched) && s.jobs[j].row in s.store.outbox
    && var item := s.store.outbox[s.jobs[j].row];
    (item.state.RowClaimed? || item.state.RowSending?) && item.claimedBy == s.jobs[j].worker
  }

  /** On the way nothing is claimed and the process does not stop. */
  ghost predicate GoesOn(s: Sys, s': Sys) {
    exists path, labels :: Path(path, labels, s, s') && Onward(labels)
  }

  ghost predicate Onward(labels: seq<Label>) {
    forall i :: 0 <= i < |labels| ==> !labels[i].Claim? && !labels[i].Crash?
  }

  lemma GoesNowhere(s: Sys)
    ensures GoesOn(s, s)
  {
    assert Path([s], [], s, s);
  }

  lemma OneOn(s: Sys, t: Sys, l: Label, u: Sys)
    requires Inv(t) && GoesOn(s, t) && Next(t, l, u) && !l.Claim? && !l.Crash?
    ensures Inv(u) && GoesOn(s, u)
  {
    InvKept(t, l, u);
    var path, labels :| Path(path, labels, s, t) && Onward(labels);
    PathMore(path, labels, s, t, l, u);
    assert Onward(labels + [l]);
  }

  lemma PathMore(path: seq<Sys>, labels: seq<Label>, s: Sys, t: Sys, l: Label, u: Sys)
    requires Path(path, labels, s, t) && Next(t, l, u)
    ensures Path(path + [u], labels + [l], s, u)
  {
    forall i | 0 <= i < |labels + [l]|
      ensures Next((path + [u])[i], (labels + [l])[i], (path + [u])[i + 1])
    {
      if i < |labels| { assert Next(path[i], labels[i], path[i + 1]); }
    }
  }

  lemma CanFlush(s: Sys, t: Sys, j: nat) returns (u: Sys)
    requires Inv(t) && GoesOn(s, t) && At(t, j, Fetched)
    ensures Inv(u) && GoesOn(s, u) && u.writing.None?
    ensures u.store == t.store && u.calls == t.calls && u.file == t.file && |u.jobs| == |t.jobs|
    ensures forall k :: 0 <= k < |t.jobs| && t.jobs[k].pc.Fetched? ==> u.jobs[k] == t.jobs[k]
  {
    u := t;
    if t.writing.Some? {
      var owner := t.writing.value.owner;
      u := (if owner.Some? then Moved(t, owner.value, Fetched) else t).(writing := None);
      OneOn(s, t, FailWrite, u);
    }
  }

  lemma CanMark(s: Sys, t: Sys, j: nat) returns (u: Sys)
    requires Inv(t) && GoesOn(s, t) && t.writing.None? && Sendable(t, j)
    ensures Inv(u) && GoesOn(s, u) && u.writing.None? && u.calls == t.calls && u.file == t.file
    ensures u.jobs == t.jobs[j := t.jobs[j].(pc := Cleared)]
    ensures u.store == MarkSending(t.store, t.jobs[j].row, t.jobs[j].worker).value
  {
    u := Moved(t, j, if t.file then MarkApplied else Cleared)
         .(store := MarkSending(t.store, t.jobs[j].row, t.jobs[j].worker).value);
    OneOn(s, t, Mark(j), u);
    if t.file {
      var v := Moved(u, j, Persisting).(writing := Some(Write(u.store, Some(j))));
      OneOn(s, u, BeginWrite(Some(j)), v);
      var w := Moved(v, j, Cleared).(writing := None, disk := u.store, aside := false);
      OneOn(s, v, EndWrite, w);
      u := w;
    }
  }

  /** Such a job can go on to call the provider while every other unmarked job stands still. */
  lemma CanCall(s: Sys, t: Sys, j: nat) returns (u: Sys)
    requires Inv(t) && GoesOn(s, t) && Sendable(t, j)
    ensures Inv(u) && GoesOn(s, u) && u.writing.None? && u.file == t.file
    ensures u.calls == t.calls + [Call(t.jobs[j].row, t.jobs[j].worker)]
    ensures |u.jobs| == |t.jobs|
    ensures forall k :: 0 <= k < |t.jobs| && k != j && t.jobs[k].pc.Fetched? ==> u.jobs[k] == t.jobs[k]
    ensures u.store == MarkSending(t.store, t.jobs[j].row, t.jobs[j].worker).value
  {
    var v := CanFlush(s, t, j);
    var w := CanMark(s, v, j);
    u := Moved(w, j, Called).(calls := w.calls + [Call(w.jobs[j].row, w.jobs[j].worker)]);
    OneOn(s, w, CallProvider(j), u);
  }

  lemma LeadsRefl(s: Sys)
    ensures Leads(s, s)
  {
    assert Path([s], [], s, s);
  }

  lemma Advance(s: Sys, t: Sys, l: Label, u: Sys)
    requires Inv(t) && Leads(s, t) && Next(t, l, u) && !l.Crash?
    ensures Inv(u) && Leads(s, u)
  {
    InvKept(t, l, u);
    LeadsOne(t, l, u);
    LeadsOn(s, t, u);
  }

  /**
    The guard is necessary: a claim that breaks it for one of its items can be followed, without another claim and
    without a restart, by two provider calls for that row, because marking succeeds again for the same worker.
   */
  lemma SelfReclaimAllowsTwoCalls(s: Sys, l: Label, s': Sys, i: nat, j: nat)
    requires Inv(s) && Next(s, l, s') && l.Claim? && Reclaims(s, l, i, j)
    ensures var call := Call(l.items[i].id, l.worker);
            exists t :: GoesOn(s', t) && t.calls == s.calls + [call, call]
  {
    InvKept(s, l, s');
    ReclaimedTwice(s, l, s', i, j);
    var t := CanCallTwice(s', j, |s.jobs| + i);
  }

  lemma CanCallTwice(s: Sys, j: nat, k: nat) returns (u: Sys)
    requires Inv(s) && Sendable(s, j) && Sendable(s, k) && j != k && s.jobs[j] == s.jobs[k]
    ensures var call := Call(s.jobs[j].row, s.jobs[j].worker); GoesOn(s, u) && u.calls == s.calls + [call, call]
  {
    GoesNowhere(s);
    var t := CanCall(s, s, j);
    u := CanCall(s, t, k);
  }

  ghost predicate CalledTwice(s: Sys) {
    exists a, b :: 0 <= a < b < |s.calls| && s.calls[a].row == s.calls[b].row
  }

  lemma {:induction false} SingleAlong(path: seq<Sys>, labels: seq<Label>, s: Sys, t: Sys, n: nat)
    requires Path(path, labels, s, t) && Onward(labels) && Inv(s) && SingleInv(s) && n <= |labels|
    ensures Inv(path[n]) && SingleInv(path[n])
  {
    if n > 0 {
      SingleAlong(path, labels, s, t, n - 1);
      assert Next(path[n - 1], labels[n - 1], path[n - 1 + 1]);
      InvKept(path[n - 1], labels[n - 1], path[n]);
      SingleKept(path[n - 1], labels[n - 1], path[n]);
    }
  }

  /**
    And it is exact: from a state in which no row has two calls made or pending, a claim can be followed by two calls
    for one row, without another claim and without a restart, if and only if it breaks the guard.
   */
  lemma TwoCallsIffSelfReclaim(s: Sys, l: Label, s': Sys)
    requires Inv(s) && SingleInv(s) && Next(s, l, s') && l.Claim?
    ensures (exists t :: GoesOn(s', t) && CalledTwice(t)) <==> !NoSelfReclaim(s, l)
  {
    if NoSelfReclaim(s, l) {
      InvKept(s, l, s');
      SingleKept(s, l, s');
      forall t | GoesOn(s', t)
        ensures !CalledTwice(t)
      {
        var path, labels :| Path(path, labels, s', t) && Onward(labels);
        SingleAlong(path, labels, s', t, |labels|);
      }
    } else {
      var i, j :| Reclaims(s, l, i, j);
      SelfReclaimAllowsTwoCalls(s, l, s', i, j);
      var t :| GoesOn(s', t) && |t.calls| == |s.calls| + 2 && t.calls[|s.calls|] == t.calls[|s.calls| + 1];
      assert CalledTwice(t);
    }
  }

  lemma ReclaimedTwice(s: Sys, l: Label, s': Sys, i: nat, j: nat)
    requires Inv(s) && Next(s, l, s') && l.Claim? && Reclaims(s, l, i, j)
    ensures Sendable(s', j) && Sendable(s', |s.jobs| + i)
    ensures s'.jobs[|s.jobs| + i] == s'.jobs[j] == s.jobs[j]
  {
    assert JobInv(s, j) && l.items[i].id in ClaimableIds(s.store.outbox, l.now);
  }

  lemma ClaimTheRow(s: Sys, item: OutboxItem, worker: string, now: Time) returns (s': Sys, l: Label)
    requires s.store.outbox == map[item.id := item] && Claimable(item, now)
    ensures l.Claim? && Next(s, l, s') && l.worker == worker && l.handed == 1 && |l.items| == 1
            && l.items[0].id == item.id
    ensures s' == s.(store := s.store.(outbox := map[item.id := ClaimedItem(item, worker, now)]),
                     jobs := s.jobs + [Job(item.id, worker, Fetched)])
  {
    var items := [ClaimedItem(item, worker, now)];
    l := Claim(worker, 1, now, items, 1);
    s' := s.(store := s.store.(outbox := map[item.id := ClaimedItem(item, worker, now)]),
             jobs := s.jobs + [Job(item.id, worker, Fetched)]);
    assert Holds(items, item.id) by { assert items[0].id == item.id; }
    assert ClaimStep(s.store.outbox, s'.store.outbox, worker, 1, now, items);
    assert seq(1, i requires 0 <= i < 1 => Job(items[i].id, worker, Fetched)) == [Job(item.id, worker, Fetched)];
  }

  lemma RequeueTheRow(s: Sys, item: OutboxItem, before: Time) returns (s': Sys, l: Label)
    requires s.store.outbox == map[item.id := item] && Stale(item, before)
    ensures l.Requeue? && Next(s, l, s')
    ensures s' == s.(store := s.store.(outbox := map[item.id := RequeuedItem(item, before)]))
  {
    l := Requeue(before, 0, {item.id});
    s' := s.(store := s.store.(outbox := map[item.id := RequeuedItem(item, before)]));
    assert StaleIds(s.store.outbox, before) == {item.id};
  }

  lemma RequeuedRow(sub: Submission) returns (s0: Sys, s3: Sys, item: OutboxItem)
    requires !Keyed(sub) && !Charged(sub)
    ensures Init(s0) && Leads(s0, s3) && Inv(s3) && s3.jobs == [Job(1, "worker-1", Fetched)] && s3.calls == []
    ensures item.id == 1 && Claimable(item, 7) && s3.store.outbox == map[1 := item]
  {
    s0 := Sys(false, EMPTY, EMPTY, false, None, [], []);
    LeadsRefl(s0);
    var first := NewRow(sub, 1, 5);
    var s1 := s0.(store := SubmitAtomic(EMPTY, sub, 5, 0).0);
    Advance(s0, s0, Submit(sub, 5, 0), s1);
    assert s1.store.outbox == map[1 := first];
    var s2, l2 := ClaimTheRow(s1, first, "worker-1", 5);
    Advance(s0, s1, l2, s2);
    var l3;
    s3, l3 := RequeueTheRow(s2, ClaimedItem(first, "worker-1", 5), 6);
    Advance(s0, s2, l3, s3);
    item := RequeuedItem(ClaimedItem(first, "worker-1", 5), 6);
  }

  /** And it does happen: one row, claimed, gone stale, requeued and claimed again by the same worker. */
  lemma TwoCallsHappen(sub: Submission)
    requires !Keyed(sub) && !Charged(sub)
    ensures exists s, t :: Init(s) && Leads(s, t) && t.calls == [Call(1, "worker-1"), Call(1, "worker-1")]
  {
    var s0, s3, item := RequeuedRow(sub);
    var s4, l4 := ClaimTheRow(s3, item, "worker-1", 7);
    Advance(s0, s3, l4, s4);
    assert s3.jobs[0] == Job(1, "worker-1", Fetched);
    SelfReclaimAllowsTwoCalls(s3, l4, s4, 0, 0);
    var t :| GoesOn(s4, t) && t.calls == s3.calls + [Call(1, "worker-1"), Call(1, "worker-1")];
    LeadsOn(s0, s4, t);
  }

  lemma CalledRow(sub: Submission) returns (s0: Sys, s: Sys)
    requires !Keyed(sub) && !Charged(sub)
    ensures Init(s0) && Leads(s0, s) && Inv(s) && s.file && s.writing.None? && s.calls == [Call(1, "worker-1")]
  {
    s0 := Sys(true, EMPTY, EMPTY, false, None, [], []);
    LeadsRefl(s0);
    var first := NewRow(sub, 1, 5);
    var s1 := s0.(store := SubmitAtomic(EMPTY, sub, 5, 0).0);
    Advance(s0, s0, Submit(sub, 5, 0), s1);
    assert s1.store.outbox == map[1 := first];
    var s2, l2 := ClaimTheRow(s1, first, "worker-1", 5);
    Advance(s0, s1, l2, s2);
    GoesNowhere(s2);
    s := CanCall(s2, s2, 0);
    LeadsOn(s0, s2, s);
  }

  /**
    And a called row does get lost: submitted, claimed, marked on disk and called, then the process stops while the
    old file is renamed away for the next write.
   */
  lemma CalledRowLost(sub: Submission)
    requires !Keyed(sub) && !Charged(sub)
    ensures exists s, t, c :: Init(s) && Leads(s, t) && c in t.calls && !Owned(t.store, c.row, c.worker)
  {
    var s0, s3 := CalledRow(sub);
    var s4 := s3.(writing := Some(Write(s3.store, None)));
    Advance(s0, s3, BeginWrite(None), s4);
    var s5 := s4.(aside := true);
    Advance(s0, s4, MoveAside, s5);
    var s6 := s5.(store := EMPTY, disk := EMPTY, aside := false, writing := None, jobs := []);
    LeadsOne(s5, Crash, s6);
    LeadsOn(s0, s5, s6);
    assert Call(1, "worker-1") in s6.calls;
  }
}
