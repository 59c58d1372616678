/**
  Handing out gateway numbers. Allocators reserve ranges from one store and hand them out one by one; with the
  file store a range may be used only after a snapshot that covers it has replaced the file, and a restart goes
  on from what the file says.
 */
module IdAllocation {
  import opened Wrappers
  import opened StoreSpec
  import opened MemoryStores
  import FileSpec
  import GatewayIds

  // ----- any number of allocators, and restarts

  /** Ready: numbers lo..hi may be handed out. Reserved and Writing: they wait for the file. */
  datatype Stage = Ready | Reserved | Writing

  datatype Range = Range(lo: nat, hi: nat, stage: Stage)

  datatype Write = Write(snap: nat, owner: Option<nat>)

  datatype Sys = Sys(file: bool, memory: nat, disk: nat, aside: bool, writing: Option<Write>, ranges: seq<Range>,
                     handed: seq<nat>)

  datatype Step =
    | Start
    | Reserve(a: nat, span: nat)
    | BeginWrite(owner: Option<nat>)
    | MoveAside
    | EndWrite(ok: bool)
    | Hand(a: nat)
    | Crash

  predicate Used(r: Range) {
    r.lo == 0 || r.lo > r.hi
  }

  /** The numbers after seq that a reservation takes. */
  function After(last: nat, span: nat, stage: Stage): Range {
    Range(last + 1, last + Span(span), stage)
  }

  /** The range once its first number has been handed out. */
  function Taken(r: Range): Range {
    r.(lo := r.lo + 1)
  }

  const FRESH := Range(0, 0, Ready)

  ghost predicate DoReserve(s: Sys, s': Sys, a: nat, span: nat) {
    a < |s.ranges| && s.ranges[a].stage.Ready? && Used(s.ranges[a])
    && s' == s.(memory := s.memory + Span(span),
                ranges := s.ranges[a := After(s.memory, span, if s.file then Reserved else Ready)])
  }

  ghost predicate DoBeginWrite(s: Sys, s': Sys, owner: Option<nat>) {
    s.file && s.writing.None?
    && (owner.Some? ==> owner.value < |s.ranges| && s.ranges[owner.value].stage.Reserved?)
    && s' == s.(writing := Some(Write(s.memory, owner)),
                ranges := if owner.Some? then s.ranges[owner.value := s.ranges[owner.value].(stage := Writing)]
                          else s.ranges)
  }

  /** The old file is renamed away before the new one takes its place. */
  ghost predicate DoMoveAside(s: Sys, s': Sys) {
    s.writing.Some? && s' == s.(aside := true)
  }

  /** A reservation whose write fails is given up; the numbers are lost. */
  ghost predicate DoEndWrite(s: Sys, s': Sys, ok: bool) {
    s.writing.Some?
    && var w := s.writing.value;
       (w.owner.Some? ==> w.owner.value < |s.ranges|)
       && s' == s.(writing := None, disk := if ok then w.snap else s.disk, aside := s.aside && !ok,
                   ranges := if w.owner.None? then s.ranges
                             else
                               var a := w.owner.value;
                               s.ranges[a := if ok then s.ranges[a].(stage := Ready) else FRESH])
  }

  ghost predicate DoHand(s: Sys, s': Sys, a: nat) {
    a < |s.ranges| && s.ranges[a].stage.Ready? && !Used(s.ranges[a])
    && s' == s.(handed := s.handed + [s.ranges[a].lo], ranges := s.ranges[a := Taken(s.ranges[a])])
  }

  /** Some snapshot with that number loads to a store that goes on from this one. */
  ghost predicate Reloads(disk: nat, memory: nat) {
    exists snap, st :: FileSpec.Loaded(snap, st) && snap.gatewaySeq == disk && st.gatewaySeq == memory
  }

  /** A restart loads what is in the file; without a file it starts over. */
  ghost predicate DoCrash(s: Sys, s': Sys) {
    s.file
    && if s.aside then s' == s.(memory := 0, disk := 0, aside := false, writing := None, ranges := [])
       else Reloads(s.disk, s'.memory) && s' == s.(memory := s'.memory, writing := None, ranges := [])
  }

  ghost predicate Next(s: Sys, s': Sys, step: Step) {
    match step
    case Start => s' == s.(ranges := s.ranges + [FRESH])
    case Reserve(a, span) => DoReserve(s, s', a, span)
    case BeginWrite(owner) => DoBeginWrite(s, s', owner)
    case MoveAside => DoMoveAside(s, s')
    case EndWrite(ok) => DoEndWrite(s, s', ok)
    case Hand(a) => DoHand(s, s', a)
    case Crash => DoCrash(s, s')
  }

  ghost predicate Init(s: Sys) {
    s.disk <= s.memory && s == Sys(s.file, s.memory, s.disk, false, None, [], [])
  }

  ghost predicate IsRun(run: seq<Sys>, steps: seq<Step>) {
    |run| == |steps| + 1 && Init(run[0]) && forall i :: 0 <= i < |steps| ==> Next(run[i], run[i + 1], steps[i])
  }

  /** No crash falls between renaming the old file away and putting the new one in its place. */
  ghost predicate FileAlwaysThere(run: seq<Sys>, steps: seq<Step>)
    requires |run| > |steps|
  {
    forall i :: 0 <= i < |steps| && steps[i].Crash? ==> !run[i].aside
  }

  /** Loading takes the number in the file, or a larger one found among the messages. */
  lemma LoadedGoesOn(disk: nat, memory: nat)
    requires Reloads(disk, memory)
    ensures memory >= disk
  {
  }

  // ----- the invariant

  /** Numbers that count as safe: those a restart will not give out again. */
  function Safe(s: Sys): nat {
    if s.file then s.disk else s.memory
  }

  ghost predicate RangeOk(s: Sys, a: nat, r: Range) {
    !Used(r) ==>
      r.hi <= s.memory
      && (r.stage.Ready? ==> r.hi <= Safe(s))
      && (r.stage.Writing? ==> s.writing.Some? && s.writing.value.owner == Some(a) && r.hi <= s.writing.value.snap)
  }

  predicate Apart(r: Range, q: Range) {
    Used(r) || Used(q) || r.hi < q.lo || q.hi < r.lo
  }

  predicate NotIn(h: nat, r: Range) {
    Used(r) || h < r.lo || h > r.hi
  }

  predicate OwnerWaits(ranges: seq<Range>, owner: Option<nat>) {
    owner.Some? ==> owner.value < |ranges| && ranges[owner.value].stage.Writing?
  }

  ghost predicate Inv(s: Sys) {
    s.disk <= s.memory
    && (s.writing.Some? ==>
          s.file && s.disk <= s.writing.value.snap <= s.memory && OwnerWaits(s.ranges, s.writing.value.owner))
    && (forall a :: 0 <= a < |s.ranges| ==> RangeOk(s, a, s.ranges[a]))
    && (forall a, b :: 0 <= a < b < |s.ranges| ==> Apart(s.ranges[a], s.ranges[b]))
    && (forall i :: 0 <= i < |s.handed| ==> 0 < s.handed[i] <= Safe(s))
    && (forall i, a :: 0 <= i < |s.handed| && 0 <= a < |s.ranges| ==> NotIn(s.handed[i], s.ranges[a]))
    && forall i, k :: 0 <= i < k < |s.handed| ==> s.handed[i] != s.handed[k]
  }

  lemma InvKept(s: Sys, s': Sys, step: Step)
    requires Inv(s) && Next(s, s', step) && (step.Crash? ==> !s.aside)
    ensures Inv(s')
  {
    match step
    case Start =>
    case Reserve(a, span) => ReserveKeeps(s, s', a, span);
    case BeginWrite(owner) => BeginWriteKeeps(s, s', owner);
    case MoveAside => MoveAsideKeeps(s, s');
    case EndWrite(ok) => EndWriteKeeps(s, s', ok);
    case Hand(a) => HandKeeps(s, s', a);
    case Crash => LoadedGoesOn(s.disk, s'.memory);
  }

  lemma ReserveKeeps(s: Sys, s': Sys, a: nat, span: nat)
    requires Inv(s) && DoReserve(s, s', a, span)
    ensures Inv(s')
  {
    forall b | 0 <= b < |s'.ranges|
      ensures RangeOk(s', b, s'.ranges[b])
    {
      assert RangeOk(s, b, s.ranges[b]);
    }
    forall b, c | 0 <= b < c < |s'.ranges|
      ensures Apart(s'.ranges[b], s'.ranges[c])
    {
      assert Apart(s.ranges[b], s.ranges[c]) && RangeOk(s, b, s.ranges[b]) && RangeOk(s, c, s.ranges[c]);
    }
  }

  lemma BeginWriteKeeps(s: Sys, s': Sys, owner: Option<nat>)
    requires Inv(s) && DoBeginWrite(s, s', owner)
    ensures Inv(s')
  {
    forall b | 0 <= b < |s'.ranges|
      ensures RangeOk(s', b, s'.ranges[b])
    {
      assert RangeOk(s, b, s.ranges[b]);
    }
    SameBounds(s, s');
  }

  lemma MoveAsideKeeps(s: Sys, s': Sys)
    requires Inv(s) && DoMoveAside(s, s')
    ensures Inv(s')
  {
    forall b | 0 <= b < |s'.ranges|
      ensures RangeOk(s', b, s'.ranges[b])
    {
      assert RangeOk(s, b, s.ranges[b]);
    }
    SameBounds(s, s');
  }

  lemma EndWriteKeeps(s: Sys, s': Sys, ok: bool)
    requires Inv(s) && DoEndWrite(s, s', ok)
    ensures Inv(s')
  {
    forall b | 0 <= b < |s'.ranges|
      ensures RangeOk(s', b, s'.ranges[b])
    {
      assert RangeOk(s, b, s.ranges[b]);
    }
    SameBounds(s, s');
  }

  /** Ranges that keep their bounds, or are given up, stay apart. */
  lemma SameBounds(s: Sys, s': Sys)
    requires Inv(s) && |s'.ranges| == |s.ranges| && s'.handed == s.handed
    requires forall b :: 0 <= b < |s.ranges| ==>
               s'.ranges[b] == FRESH || (s'.ranges[b].lo == s.ranges[b].lo && s'.ranges[b].hi == s.ranges[b].hi)
    ensures forall b, c :: 0 <= b < c < |s'.ranges| ==> Apart(s'.ranges[b], s'.ranges[c])
    ensures forall i, b :: 0 <= i < |s'.handed| && 0 <= b < |s'.ranges| ==> NotIn(s'.handed[i], s'.ranges[b])
  {
    forall b, c | 0 <= b < c < |s'.ranges|
      ensures Apart(s'.ranges[b], s'.ranges[c])
    {
      assert Apart(s.ranges[b], s.ranges[c]);
    }
    forall i, b | 0 <= i < |s'.handed| && 0 <= b < |s'.ranges|
      ensures NotIn(s'.handed[i], s'.ranges[b])
    {
      assert NotIn(s.handed[i], s.ranges[b]);
    }
  }

  lemma HandKeeps(s: Sys, s': Sys, a: nat)
    requires Inv(s) && DoHand(s, s', a)
    ensures Inv(s')
  {
    var n, h := |s.handed|, s.ranges[a].lo;
    assert RangeOk(s, a, s.ranges[a]);
    forall i, b | 0 <= i < |s'.handed| && 0 <= b < |s'.ranges|
      ensures NotIn(s'.handed[i], s'.ranges[b])
    {
      if i < n { assert NotIn(s.handed[i], s.ranges[b]); }
      else if b != a { assert Apart(s.ranges[if a < b then a else b], s.ranges[if a < b then b else a]); }
    }
    forall i, k | 0 <= i < k < |s'.handed|
      ensures s'.handed[i] != s'.handed[k]
    {
      if k == n { assert NotIn(s.handed[i], s.ranges[a]); }
    }
    forall b, c | 0 <= b < c < |s'.ranges|
      ensures Apart(s'.ranges[b], s'.ranges[c])
    {
      assert Apart(s.ranges[b], s.ranges[c]);
    }
  }

  lemma {:induction false} InvOfRun(run: seq<Sys>, steps: seq<Step>, n: nat)
    requires IsRun(run, steps) && FileAlwaysThere(run, steps) && n < |run|
    ensures Inv(run[n])
  {
    if n > 0 {
      InvOfRun(run, steps, n - 1);
      assert Next(run[n - 1], run[n - 1 + 1], steps[n - 1]);
      InvKept(run[n - 1], run[n], steps[n - 1]);
    }
  }

  /** No gateway number is ever handed out twice, by any allocator, before or after any number of restarts. */
  lemma NumbersNeverRepeat(run: seq<Sys>, steps: seq<Step>, n: nat, i: nat, k: nat)
    requires IsRun(run, steps) && FileAlwaysThere(run, steps) && n < |run| && i < k < |run[n].handed|
    ensures run[n].handed[i] != run[n].handed[k]
  {
    InvOfRun(run, steps, n);
  }

  /** Nor is a gateway id, which is the number written out. */
  lemma IdsNeverRepeat(run: seq<Sys>, steps: seq<Step>, n: nat, i: nat, k: nat)
    requires IsRun(run, steps) && FileAlwaysThere(run, steps) && n < |run| && i < k < |run[n].handed|
    requires GatewayIds.NewGatewayId(run[n].handed[i]).Ok? && GatewayIds.NewGatewayId(run[n].handed[k]).Ok?
    ensures GatewayIds.NewGatewayId(run[n].handed[i]) != GatewayIds.NewGatewayId(run[n].handed[k])
  {
    NumbersNeverRepeat(run, steps, n, i, k);
    GatewayIds.GatewayIdRoundTrip(run[n].handed[i]);
    GatewayIds.GatewayIdRoundTrip(run[n].handed[k]);
  }

  /** Whatever has been handed out is in the file by then. */
  lemma HandedIsDurable(run: seq<Sys>, steps: seq<Step>, n: nat, i: nat)
    requires IsRun(run, steps) && FileAlwaysThere(run, steps) && n < |run| && run[n].file && i < |run[n].handed|
    ensures run[n].handed[i] <= run[n].disk
  {
    InvOfRun(run, steps, n);
  }

  // ----- and when the file was not there

  ghost predicate Path(path: seq<Sys>, steps: seq<Step>, s: Sys, s': Sys) {
    |path| == |steps| + 1 && path[0] == s && path[|steps|] == s'
    && forall i :: 0 <= i < |steps| ==> Next(path[i], path[i + 1], steps[i])
  }

  ghost predicate Leads(s: Sys, s': Sys) {
    exists path, steps :: Path(path, steps, s, s')
  }

  /** On the way the process does not stop. */
  ghost predicate GoesOn(s: Sys, s': Sys) {
    exists path, steps :: Path(path, steps, s, s') && NoCrash(steps)
  }

  ghost predicate NoCrash(steps: seq<Step>) {
    forall i :: 0 <= i < |steps| ==> !steps[i].Crash?
  }

  lemma PathMore(path: seq<Sys>, steps: seq<Step>, s: Sys, t: Sys, step: Step, u: Sys)
    requires Path(path, steps, s, t) && Next(t, u, step)
    ensures Path(path + [u], steps + [step], s, u)
  {
    forall i | 0 <= i < |steps + [step]|
      ensures Next((path + [u])[i], (path + [u])[i + 1], (steps + [step])[i])
    {
      if i < |steps| { assert Next(path[i], path[i + 1], steps[i]); }
    }
  }

  lemma LeadsOne(s: Sys, t: Sys, step: Step, u: Sys)
    requires Leads(s, t) && Next(t, u, step)
    ensures Leads(s, u)
  {
    var path, steps :| Path(path, steps, s, t);
    PathMore(path, steps, s, t, step, u);
  }

  lemma LeadsOn(s: Sys, t: Sys, u: Sys)
    requires Leads(s, t) && GoesOn(t, u)
    ensures Leads(s, u)
  {
    var p, ps :| Path(p, ps, s, t);
    var q, qs :| Path(q, qs, t, u);
    var path, steps := p + q[1..], ps + qs;
    forall i | 0 <= i < |steps|
      ensures Next(path[i], path[i + 1], steps[i])
    {
      if i >= |ps| { assert Next(q[i - |ps|], q[i - |ps| + 1], qs[i - |ps|]); }
    }
    assert Path(path, steps, s, u);
  }

  lemma GoesNowhere(s: Sys)
    ensures GoesOn(s, s)
  {
    assert Path([s], [], s, s);
  }

  lemma OneOn(s: Sys, t: Sys, step: Step, u: Sys)
    requires GoesOn(s, t) && Next(t, u, step) && !step.Crash?
    ensures GoesOn(s, u)
  {
    var path, steps :| Path(path, steps, s, t) && NoCrash(steps);
    PathMore(path, steps, s, t, step, u);
    assert NoCrash(steps + [step]);
  }

  /** A new allocator reserves n numbers, and they reach the file. */
  lemma CanReserve(s: Sys, t: Sys, n: nat) returns (u: Sys)
    requires GoesOn(s, t) && t.file && t.writing.None? && n > 0
    ensures GoesOn(s, u) && u.file && u.writing.None? && u.handed == t.handed && u.memory == t.memory + n
    ensures u.ranges == t.ranges + [Range(t.memory + 1, t.memory + n, Ready)]
  {
    var a := |t.ranges|;
    var t1 := t.(ranges := t.ranges + [FRESH]);
    OneOn(s, t, Start, t1);
    var t2 := t1.(memory := t.memory + n, ranges := t1.ranges[a := Range(t.memory + 1, t.memory + n, Reserved)]);
    OneOn(s, t1, Reserve(a, n), t2);
    var t3 := t2.(writing := Some(Write(t2.memory, Some(a))),
                  ranges := t2.ranges[a := t2.ranges[a].(stage := Writing)]);
    OneOn(s, t2, BeginWrite(Some(a)), t3);
    u := t3.(writing := None, disk := t2.memory, aside := false,
             ranges := t3.ranges[a := t3.ranges[a].(stage := Ready)]);
    OneOn(s, t3, EndWrite(true), u);
  }

  /** From a store that starts over, any number can be the next one handed out. */
  lemma CanHand(s: Sys, h: nat) returns (t: Sys)
    requires s.file && s.writing.None? && s.memory == 0 && h > 0
    ensures GoesOn(s, t) && t.handed == s.handed + [h] && t.file && t.writing.None?
  {
    GoesNowhere(s);
    var u := s;
    if h > 1 { u := CanReserve(s, s, h - 1); }
    var v := CanReserve(s, u, 1);
    var a := |u.ranges|;
    assert v.ranges[a] == Range(h, h, Ready);
    t := v.(handed := v.handed + [h], ranges := v.ranges[a := v.ranges[a].(lo := h + 1)]);
    OneOn(s, v, Hand(a), t);
  }

  lemma {:induction false} InvAlong(path: seq<Sys>, steps: seq<Step>, s: Sys, t: Sys, n: nat)
    requires Path(path, steps, s, t) && NoCrash(steps) && Inv(s) && n <= |steps|
    ensures Inv(path[n])
  {
    if n > 0 {
      InvAlong(path, steps, s, t, n - 1);
      assert Next(path[n - 1], path[n - 1 + 1], steps[n - 1]);
      InvKept(path[n - 1], path[n], steps[n - 1]);
    }
  }

  /**
    A restart can be followed, without another one, by handing out again any number handed out before it, if and only
    if it fell into that window.
   */
  lemma LostFileRepeatsNumbers(s: Sys, s': Sys, i: nat)
    requires Inv(s) && Next(s, s', Crash) && i < |s.handed|
    ensures (exists t :: GoesOn(s', t) && t.handed == s.handed + [s.handed[i]]) <==> s.aside
  {
    if s.aside {
      var t := CanHand(s', s.handed[i]);
    } else {
      InvKept(s, s', Crash);
      forall t | GoesOn(s', t)
        ensures t.handed != s.handed + [s.handed[i]]
      {
        var path, steps :| Path(path, steps, s', t) && NoCrash(steps);
        InvAlong(path, steps, s', t, |steps|);
        assert Inv(t);
        assert |t.handed| > |s.handed| > i ==> t.handed[i] != t.handed[|s.handed|];
      }
    }
  }

  lemma LoseTheFile(s: Sys, t: Sys) returns (u: Sys)
    requires Leads(s, t) && t.file && t.writing.None?
    ensures Leads(s, u) && u == t.(memory := 0, disk := 0, aside := false, ranges := [])
  {
    var t1 := t.(writing := Some(Write(t.memory, None)));
    LeadsOne(s, t, BeginWrite(None), t1);
    var t2 := t1.(aside := true);
    LeadsOne(s, t1, MoveAside, t2);
    u := t2.(memory := 0, disk := 0, aside := false, writing := None, ranges := []);
    LeadsOne(s, t2, Crash, u);
  }

  /**
    And it does happen: number 1 is handed out, the file is lost while it is renamed away, and 1 is handed out again.
   */
  lemma NumberRepeats()
    ensures exists s, t :: Init(s) && Leads(s, t) && t.handed == [1, 1]
  {
    var s0 := Sys(true, 0, 0, false, None, [], []);
    assert Path([s0], [], s0, s0);
    GoesNowhere(s0);
    var s1 := CanHand(s0, 1);
    LeadsOn(s0, s0, s1);
    var s2 := LoseTheFile(s0, s1);
    var s3 := CanHand(s2, 1);
    LeadsOn(s0, s2, s3);
  }

  // ----- one allocator over a memory store

  /** The machine with this allocator alone. */
  function Alone(memory: nat, r: Range, handed: seq<nat>): Sys {
    Sys(false, memory, 0, false, None, [r], handed)
  }

  class IdAllocator {
    var next: nat
    var end: nat
    const span: nat

    constructor (requested: nat)
      ensures Held() == FRESH && span == if requested == 0 then 1000 else requested
    {
      next, end := 0, 0;
      span := if requested == 0 then 1000 else requested;
    }

    /** What is left of the current range. */
    function Held(): Range
      reads this
    {
      Range(next, end, Ready)
    }

    /** A reservation if the range is used up, and then the next number: two steps of the machine, or one. */
    method Next(store: MemoryStore) returns (id: nat)
      requires store.Valid()
      modifies this, store`gatewaySeq
      ensures store.Valid() && store.Value() == old(store.Value()).(gatewaySeq := store.gatewaySeq)
      ensures forall handed :: Leads(Alone(old(store.gatewaySeq), old(Held()), handed),
                                     Alone(store.gatewaySeq, Held(), handed + [id]))
    {
      ghost var seq0, r0 := store.gatewaySeq, Held();
      if next == 0 || next > end {
        var start, last := store.ReserveGatewayIdRange(span);
        next, end := start, last;
      }
      ghost var r1 := Held();
      id := next;
      next := next + 1;
      forall handed
        ensures Leads(Alone(seq0, r0, handed), Alone(store.gatewaySeq, Held(), handed + [id]))
      {
        OneCall(seq0, r0, handed, store.gatewaySeq, r1, span);
      }
    }
  }

  lemma OneCall(memory: nat, r: Range, handed: seq<nat>, memory': nat, r': Range, span: nat)
    requires r.stage.Ready?
    requires if Used(r) then memory' == memory + Span(span) && r' == After(memory, span, Ready)
             else memory' == memory && r' == r
    ensures Leads(Alone(memory, r, handed), Alone(memory', Taken(r'), handed + [r'.lo]))
  {
    var s, t := Alone(memory, r, handed), Alone(memory', r', handed);
    assert Path([s], [], s, s);
    if Used(r) {
      assert s.ranges[0 := r'] == t.ranges;
      LeadsOne(s, s, Reserve(0, span), t);
    }
    assert t.ranges[0 := Taken(r')] == [Taken(r')];
    LeadsOne(s, t, Hand(0), Alone(memory', Taken(r'), handed + [r'.lo]));
  }
}
