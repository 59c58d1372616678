/** The store on disk: a snapshot of the memory store, replaced by renaming. */
module FileStores {
  import opened Collections
  import opened FileSpec
  import opened GatewayIds
  import opened MemoryStores
  import opened StoreSpec
  import opened Wrappers

  /** Where writing a snapshot stops: anywhere before the renames, at the first, at the second, or nowhere. */
  datatype Fault = BeforeRename | FirstRename | SecondRename | NoFault

  /** Snapshots come from Persist, so rows sit under their own keys and messages are listed once. */
  ghost predicate Consistent(snap: Store) {
    DistinctIds(snap.messages) && WellKeyed(snap.pending) && KeyedById(snap.outbox)
  }

  ghost predicate WellKeyed(pending: map<PendingKey, Pending>) {
    forall k :: k in pending ==> KeyOf(pending[k]) == k
  }

  class FileStore {
    const memory: MemoryStore
    /** The file, and the one it last replaced. */
    var disk: Option<Store>
    var backup: Option<Store>

    ghost predicate Valid()
      reads this, memory
    {
      memory.Valid() && (disk.Some? ==> Consistent(disk.value))
    }

    /** Opening: whatever the file says, or an empty store when there is none. */
    constructor (max: int, file: Option<Store>, previous: Option<Store>)
      requires file.Some? ==> Consistent(file.value)
      ensures Valid() && disk == file && backup == previous && fresh(memory)
      ensures file.None? ==> memory.Value() == EMPTY
      ensures file.Some? ==> Loaded(file.value, memory.Value())
    {
      memory := new MemoryStore(max);
      disk, backup := file, previous;
      new;
      if file.Some? { Load(file.value); }
    }

    method Load(snap: Store)
      requires memory.Valid() && Consistent(snap)
      modifies memory
      ensures memory.Valid() && Loaded(snap, memory.Value())
    {
      var st, index := ReadSnapshot(snap);
      memory.messages, memory.messageById, memory.pending := st.messages, index, st.pending;
      memory.outbox, memory.nextOutbox, memory.gatewaySeq := st.outbox, st.nextOutbox, st.gatewaySeq;
      memory.idempotency, memory.quota := st.idempotency, st.quota;
      assert memory.Value() == st;
    }

    /** The file is the memory store exactly when nothing failed; if the second rename fails there is no file at all. */
    method Persist(fault: Fault) returns (ok: bool)
      requires Valid()
      modifies this
      ensures Valid() && ok == fault.NoFault?
      ensures match fault
              case NoFault => disk == Some(memory.Value()) && (old(disk).Some? ==> backup == old(disk))
              case SecondRename => disk == None && (old(disk).Some? ==> backup == old(disk))
              case _ => disk == old(disk)
    {
      var snap := memory.Snapshot();
      if fault.BeforeRename? { return false; }
      if disk.Some? {
        backup := None;
        if fault.FirstRename? { return false; }
        backup := disk;
        disk := None;
      } else if fault.FirstRename? {
        return false;
      }
      if fault.SecondRename? {
        disk := None;
        return false;
      }
      disk := Some(snap);
      return true;
    }

    /** A worker is told to go ahead only when the mark is in the file. */
    method MarkOutboxSending(id: int, worker: string, fault: Fault) returns (ok: bool)
      requires Valid()
      modifies this, memory
      ensures Valid()
      ensures var r := MarkSending(old(memory.Value()), id, worker);
              if r.Err? then !ok && memory.Value() == old(memory.Value()) && disk == old(disk)
              else memory.Value() == r.value && ok == fault.NoFault? && (ok ==> disk == Some(r.value))
    {
      ok := memory.MarkOutboxSending(id, worker);
      if ok { ok := Persist(fault); }
    }
  }

  /** Reading a snapshot into the fields of an empty store. */
  method ReadSnapshot(snap: Store) returns (st: Store, index: map<string, int>)
    requires Consistent(snap)
    ensures Loaded(snap, st) && Consistent(st) && MemoryStore.IndexOf(st.messages, index)
  {
    index := IndexMessages(snap.messages);
    var pending := LoadPending(snap.pending);
    var outbox, next := LoadOutbox(snap.outbox);
    var largest := LargestNumber(snap.messages, snap.gatewaySeq);
    if snap.nextOutbox > next { next := snap.nextOutbox; }
    st := Store(snap.messages, pending, outbox, next, snap.idempotency, snap.quota, largest);
  }

  method LoadPending(rows: map<PendingKey, Pending>) returns (pending: map<PendingKey, Pending>)
    requires WellKeyed(rows)
    ensures PendingLoaded(rows, pending) && WellKeyed(pending)
  {
    pending := map[];
    var todo := rows.Keys;
    while todo != {}
      invariant todo <= rows.Keys && pending == map k | k in rows && k !in todo :: NormalizePending(rows[k])
      decreases todo
    {
      var k := Pick(todo);
      var v := NormalizePending(rows[k]);
      pending := pending[KeyOf(v) := v];
      todo := todo - {k};
    }
    PendingIsLoaded(rows, pending);
  }

  method LoadOutbox(rows: map<int, OutboxItem>) returns (outbox: map<int, OutboxItem>, next: int)
    requires KeyedById(rows)
    ensures OutboxLoaded(rows, outbox) && KeyedById(outbox) && IsLargest(next, 0, rows.Keys)
  {
    outbox, next := map[], 0;
    var todo := rows.Keys;
    while todo != {}
      invariant todo <= rows.Keys && outbox == map id | id in rows && id !in todo :: ReloadedItem(rows[id])
      invariant next >= 0 && (next == 0 || next in rows) && forall id :: id in rows && id !in todo ==> id <= next
      decreases todo
    {
      var id := Pick(todo);
      outbox := outbox[id := ReloadedItem(rows[id])];
      if id > next { next := id; }
      todo := todo - {id};
    }
  }

  /** No id among the messages is larger than the number to go on from. */
  method LargestNumber(ms: seq<Message>, low: nat) returns (n: nat)
    ensures IsLargestNumber(n, low, ms)
  {
    n := low;
    for i := 0 to |ms|
      invariant n >= low && (forall k :: 0 <= k < i ==> NumberOf(ms[k].id) <= n)
      invariant n == low || exists k :: 0 <= k < i && NumberOf(ms[k].id) == n
    {
      var parsed := ParseGatewaySeq(ms[i].id);
      if parsed.Ok? && parsed.value > n { n := parsed.value; }
    }
  }

  lemma PendingIsLoaded(rows: map<PendingKey, Pending>, pending: map<PendingKey, Pending>)
    requires WellKeyed(rows)
    requires pending == map k | k in rows :: NormalizePending(rows[k])
    ensures PendingLoaded(rows, pending) && WellKeyed(pending)
  {
  }
}
