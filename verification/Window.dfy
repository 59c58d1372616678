/**
  The send window of an upstream connection. A submit takes a slot, registers under its sequence number and
  waits on its own channel; a response, a failure, a timeout or the loss of the connection takes it out of the
  window, puts a result on that channel and gives the slot back. Any number of goroutines do this at once.
 */
module Window {
  import opened Wrappers

  // ----- the shared object

  datatype Core = Core(size: nat, slots: nat, pending: map<nat, nat>)

  function New(size: int): Core {
    Core(if size <= 0 then 1 else size, 0, map[])
  }

  predicate HasRoom(c: Core) {
    c.slots < c.size
  }

  function SlotTaken(c: Core): Core {
    c.(slots := c.slots + 1)
  }

  function Entered(c: Core, seqNo: nat, channel: nat): Core {
    c.(pending := c.pending[seqNo := channel])
  }

  function Dropped(c: Core, seqNo: nat): Core {
    c.(pending := c.pending - {seqNo})
  }

  function AllDropped(c: Core): Core {
    c.(pending := map[])
  }

  function Freed(c: Core): Core
    requires c.slots > 0
  {
    c.(slots := c.slots - 1)
  }

  /** A buffered channel of slots and a map from sequence numbers to channels. */
  class SendWindow {
    var size: nat
    var slots: nat
    var pending: map<nat, nat>

    function Value(): Core
      reads this
    {
      Core(size, slots, pending)
    }

    constructor (requested: int)
      ensures Value() == New(requested)
    {
      size := if requested <= 0 then 1 else requested;
      slots := 0;
      pending := map[];
    }

    method Acquire() returns (ok: bool)
      modifies this
      ensures ok == HasRoom(old(Value()))
      ensures Value() == if ok then SlotTaken(old(Value())) else old(Value())
    {
      ok := slots < size;
      if ok { slots := slots + 1; }
    }

    method Register(seqNo: nat, channel: nat)
      modifies this
      ensures Value() == Entered(old(Value()), seqNo, channel)
    {
      pending := pending[seqNo := channel];
    }

    /** The locked part of complete and fail. */
    method Remove(seqNo: nat) returns (channel: Option<nat>)
      modifies this
      ensures channel == if seqNo in old(pending) then Some(old(pending)[seqNo]) else None
      ensures Value() == Dropped(old(Value()), seqNo)
    {
      channel := None;
      if seqNo in pending { channel := Some(pending[seqNo]); }
      pending := pending - {seqNo};
    }

    /** The locked part of failAll. */
    method RemoveAll() returns (removed: map<nat, nat>)
      modifies this
      ensures removed == old(pending) && Value() == AllDropped(old(Value()))
    {
      removed := pending;
      pending := map[];
    }

    method Free()
      requires slots > 0
      modifies this
      ensures Value() == Freed(old(Value()))
    {
      slots := slots - 1;
    }
  }

  // ----- all interleavings

  /** Where a submit, named by its channel, stands; m is the goroutine that took it out of the window. */
  datatype Phase = Acquired | Registered(seqNo: nat) | Removed(m: nat) | Answered(m: nat) | Released

  /** A goroutine with channels to answer; sent: the first has its result but its slot is still to be freed. */
  datatype Job = Job(queue: seq<nat>, sent: bool)

  /** buffers: results waiting in each channel; answers: results ever put there. */
  datatype Sys = Sys(core: Core, phases: map<nat, Phase>, jobs: map<nat, Job>, buffers: map<nat, nat>,
                     answers: map<nat, nat>)

  datatype Step =
    | Acquire(t: nat)
    | Register(t: nat, seqNo: nat)
    | Remove(m: nat, seqNo: nat)
    | RemoveAll(m: nat, queue: seq<nat>)
    | Answer(m: nat)
    | Free(m: nat)
    | Receive(t: nat)

  ghost predicate Init(s: Sys) {
    exists size :: s == Sys(New(size), map[], map[], map[], map[])
  }

  /** One slot, and a channel of capacity one. */
  ghost predicate DoAcquire(s: Sys, s': Sys, t: nat) {
    t !in s.phases && HasRoom(s.core)
    && s' == Sys(SlotTaken(s.core), s.phases[t := Acquired], s.jobs, s.buffers[t := 0], s.answers[t := 0])
  }

  /** Outstanding sequence numbers are distinct. */
  ghost predicate DoRegister(s: Sys, s': Sys, t: nat, seqNo: nat) {
    t in s.phases && s.phases[t].Acquired? && seqNo !in s.core.pending
    && s' == s.(core := Entered(s.core, seqNo, t), phases := s.phases[t := Registered(seqNo)])
  }

  /** A response, a failed send, a timeout or a cancelled context; nothing happens to a number not registered. */
  ghost predicate DoRemove(s: Sys, s': Sys, m: nat, seqNo: nat) {
    if seqNo !in s.core.pending then s' == s
    else
      m !in s.jobs
      && s' == s.(core := Dropped(s.core, seqNo),
                  phases := s.phases[s.core.pending[seqNo] := Removed(m)],
                  jobs := s.jobs[m := Job([s.core.pending[seqNo]], false)])
  }

  ghost predicate Lists(queue: seq<nat>, pending: map<nat, nat>) {
    (forall i, k :: 0 <= i < k < |queue| ==> queue[i] != queue[k])
    && forall t :: t in queue <==> t in pending.Values
  }

  function AllRemoved(phases: map<nat, Phase>, removed: set<nat>, m: nat): map<nat, Phase> {
    map t | t in phases :: if t in removed then Removed(m) else phases[t]
  }

  ghost predicate DoRemoveAll(s: Sys, s': Sys, m: nat, queue: seq<nat>) {
    m !in s.jobs && Lists(queue, s.core.pending)
    && s' == s.(core := AllDropped(s.core),
                phases := AllRemoved(s.phases, s.core.pending.Values, m),
                jobs := if queue == [] then s.jobs else s.jobs[m := Job(queue, false)])
  }

  ghost predicate ToAnswer(s: Sys, m: nat) {
    m in s.jobs && s.jobs[m].queue != [] && !s.jobs[m].sent && s.jobs[m].queue[0] in s.buffers
    && s.jobs[m].queue[0] in s.answers
  }

  ghost predicate ToFree(s: Sys, m: nat) {
    m in s.jobs && s.jobs[m].queue != [] && s.jobs[m].sent
  }

  /** Sending on a channel of capacity one waits until it is empty. */
  ghost predicate DoAnswer(s: Sys, s': Sys, m: nat) {
    ToAnswer(s, m)
    && var t := s.jobs[m].queue[0];
       s.buffers[t] == 0
       && s' == s.(jobs := s.jobs[m := s.jobs[m].(sent := true)], phases := s.phases[t := Answered(m)],
                   buffers := s.buffers[t := s.buffers[t] + 1], answers := s.answers[t := s.answers[t] + 1])
  }

  /** Taking a slot out of the channel waits until there is one. */
  ghost predicate DoFree(s: Sys, s': Sys, m: nat) {
    ToFree(s, m) && s.core.slots > 0
    && var job := s.jobs[m];
       s' == s.(core := Freed(s.core), phases := s.phases[job.queue[0] := Released],
                jobs := if |job.queue| == 1 then s.jobs - {m} else s.jobs[m := Job(job.queue[1..], false)])
  }

  /** The waiter takes a result, unless it has given up. */
  ghost predicate DoReceive(s: Sys, s': Sys, t: nat) {
    t in s.buffers && s.buffers[t] > 0 && s' == s.(buffers := s.buffers[t := s.buffers[t] - 1])
  }

  ghost predicate Next(s: Sys, s': Sys, step: Step) {
    match step
    case Acquire(t) => DoAcquire(s, s', t)
    case Register(t, q) => DoRegister(s, s', t, q)
    case Remove(m, q) => DoRemove(s, s', m, q)
    case RemoveAll(m, queue) => DoRemoveAll(s, s', m, queue)
    case Answer(m) => DoAnswer(s, s', m)
    case Free(m) => DoFree(s, s', m)
    case Receive(t) => DoReceive(s, s', t)
  }

  ghost predicate IsRun(run: seq<Sys>, steps: seq<Step>) {
    |run| == |steps| + 1 && Init(run[0]) && forall i :: 0 <= i < |steps| ==> StepAt(run, steps, i)
  }

  ghost predicate StepAt(run: seq<Sys>, steps: seq<Step>, i: nat)
    requires i < |steps| < |run|
  {
    Next(run[i], run[i + 1], steps[i])
  }

  // ----- the invariant

  ghost predicate PendingInv(s: Sys) {
    (forall q :: q in s.core.pending ==> s.core.pending[q] in s.phases && s.phases[s.core.pending[q]] == Registered(q))
    && forall t :: t in s.phases && s.phases[t].Registered? ==>
         s.phases[t].seqNo in s.core.pending && s.core.pending[s.phases[t].seqNo] == t
  }

  function PhaseIn(job: Job, m: nat, i: nat): Phase {
    if i == 0 && job.sent then Answered(m) else Removed(m)
  }

  ghost predicate JobOk(s: Sys, m: nat, job: Job) {
    job.queue != []
    && (forall i, k :: 0 <= i < k < |job.queue| ==> job.queue[i] != job.queue[k])
    && forall i :: 0 <= i < |job.queue| ==> job.queue[i] in s.phases && s.phases[job.queue[i]] == PhaseIn(job, m, i)
  }

  ghost predicate JobsInv(s: Sys) {
    (forall m :: m in s.jobs ==> JobOk(s, m, s.jobs[m]))
    && forall t :: t in s.phases && (s.phases[t].Removed? || s.phases[t].Answered?) ==>
         s.phases[t].m in s.jobs && t in s.jobs[s.phases[t].m].queue
  }

  predicate HasAnswer(p: Phase) {
    p.Answered? || p.Released?
  }

  /** A channel is sent one result, when its submit is answered. */
  ghost predicate AnswerInv(s: Sys) {
    s.answers.Keys == s.phases.Keys && s.buffers.Keys == s.phases.Keys
    && forall t :: t in s.phases ==>
         s.answers[t] == (if HasAnswer(s.phases[t]) then 1 else 0) && s.buffers[t] <= s.answers[t]
  }

  /** The submits that hold a slot. */
  ghost function Holders(s: Sys): set<nat> {
    set t | t in s.phases && !s.phases[t].Released?
  }

  ghost predicate SlotInv(s: Sys) {
    s.core.slots == |Holders(s)| <= s.core.size
  }

  ghost predicate Inv(s: Sys) {
    PendingInv(s) && JobsInv(s) && AnswerInv(s) && SlotInv(s)
  }

  lemma SameHolders(s: Sys, s': Sys)
    requires s'.phases.Keys == s.phases.Keys && forall t :: t in s.phases ==>
               (s'.phases[t].Released? <==> s.phases[t].Released?)
    ensures Holders(s') == Holders(s)
  {
  }

  lemma AcquireJobs(s: Sys, s': Sys, t: nat)
    requires Inv(s) && DoAcquire(s, s', t)
    ensures PendingInv(s') && JobsInv(s')
  {
    forall m | m in s'.jobs
      ensures JobOk(s', m, s'.jobs[m])
    {
      assert JobOk(s, m, s.jobs[m]);
    }
  }

  lemma AcquireKeeps(s: Sys, s': Sys, t: nat)
    requires Inv(s) && DoAcquire(s, s', t)
    ensures Inv(s')
  {
    AcquireJobs(s, s', t);
    assert Holders(s') == Holders(s) + {t};
  }

  lemma RegisterKeeps(s: Sys, s': Sys, t: nat, q: nat)
    requires Inv(s) && DoRegister(s, s', t, q)
    ensures Inv(s')
  {
    SameHolders(s, s');
    forall m | m in s'.jobs
      ensures JobOk(s', m, s'.jobs[m])
    {
      assert JobOk(s, m, s.jobs[m]);
    }
  }

  lemma RemoveKeeps(s: Sys, s': Sys, m: nat, q: nat)
    requires Inv(s) && DoRemove(s, s', m, q)
    ensures Inv(s')
  {
    if q in s.core.pending {
      SameHolders(s, s');
      RemoveJobs(s, s', m, q);
    }
  }

  lemma RemoveJobs(s: Sys, s': Sys, m: nat, q: nat)
    requires Inv(s) && DoRemove(s, s', m, q) && q in s.core.pending
    ensures JobsInv(s')
  {
    assert s'.jobs[m].queue[0] == s.core.pending[q];
    forall k | k in s'.jobs
      ensures JobOk(s', k, s'.jobs[k])
    {
      if k != m { assert JobOk(s, k, s.jobs[k]); }
    }
  }

  lemma RemoveAllKeeps(s: Sys, s': Sys, m: nat, queue: seq<nat>)
    requires Inv(s) && DoRemoveAll(s, s', m, queue)
    ensures Inv(s')
  {
    SameHolders(s, s');
    RemoveAllJobs(s, s', m, queue);
  }

  lemma RemoveAllJobs(s: Sys, s': Sys, m: nat, queue: seq<nat>)
    requires Inv(s) && DoRemoveAll(s, s', m, queue)
    ensures JobsInv(s')
  {
    var gone := s.core.pending.Values;
    forall k | k in s'.jobs
      ensures JobOk(s', k, s'.jobs[k])
    {
      if k != m { OtherJob(s, s', m, k); }
      else {
        forall i | 0 <= i < |queue|
          ensures queue[i] in s'.phases && s'.phases[queue[i]] == Removed(m)
        {
          assert queue[i] in queue && queue[i] in gone;
        }
      }
    }
    forall t | t in s'.phases && (s'.phases[t].Removed? || s'.phases[t].Answered?)
      ensures s'.phases[t].m in s'.jobs && t in s'.jobs[s'.phases[t].m].queue
    {
      assert t in gone <==> t in queue;
    }
  }

  lemma OtherJob(s: Sys, s': Sys, m: nat, k: nat)
    requires Inv(s) && k in s.jobs && s'.phases == AllRemoved(s.phases, s.core.pending.Values, m)
    ensures JobOk(s', k, s.jobs[k])
  {
    var job := s.jobs[k];
    assert JobOk(s, k, job);
    forall i | 0 <= i < |job.queue|
      ensures job.queue[i] in s'.phases && s'.phases[job.queue[i]] == PhaseIn(job, k, i)
    {
      assert job.queue[i] !in s.core.pending.Values;
    }
  }

  lemma AnswerKeeps(s: Sys, s': Sys, m: nat)
    requires Inv(s) && DoAnswer(s, s', m)
    ensures Inv(s')
  {
    assert JobOk(s, m, s.jobs[m]);
    SameHolders(s, s');
    AnswerJobs(s, s', m);
  }

  lemma AnswerJobs(s: Sys, s': Sys, m: nat)
    requires Inv(s) && DoAnswer(s, s', m)
    ensures JobsInv(s')
  {
    assert JobOk(s, m, s.jobs[m]);
    forall k | k in s'.jobs
      ensures JobOk(s', k, s'.jobs[k])
    {
      assert JobOk(s, k, s.jobs[k]);
    }
  }

  lemma FreeKeeps(s: Sys, s': Sys, m: nat)
    requires Inv(s) && DoFree(s, s', m)
    ensures Inv(s')
  {
    assert JobOk(s, m, s.jobs[m]);
    FreeJobs(s, s', m);
    assert Holders(s') == Holders(s) - {s.jobs[m].queue[0]};
  }

  lemma FreeJobs(s: Sys, s': Sys, m: nat)
    requires Inv(s) && DoFree(s, s', m)
    ensures JobsInv(s')
  {
    var queue := s.jobs[m].queue;
    assert JobOk(s, m, s.jobs[m]);
    forall k | k in s'.jobs
      ensures JobOk(s', k, s'.jobs[k])
    {
      assert JobOk(s, k, s.jobs[k]);
    }
    forall t | t in s'.phases && (s'.phases[t].Removed? || s'.phases[t].Answered?)
      ensures s'.phases[t].m in s'.jobs && t in s'.jobs[s'.phases[t].m].queue
    {
      assert t in queue ==> t == queue[0] || t in queue[1..];
    }
  }

  lemma ReceiveKeeps(s: Sys, s': Sys, t: nat)
    requires Inv(s) && DoReceive(s, s', t)
    ensures Inv(s')
  {
    SameHolders(s, s');
    forall k | k in s'.jobs
      ensures JobOk(s', k, s'.jobs[k])
    {
      assert JobOk(s, k, s.jobs[k]);
    }
  }

  lemma InvKept(s: Sys, s': Sys, step: Step)
    requires Inv(s) && Next(s, s', step)
    ensures Inv(s')
  {
    match step
    case Acquire(t) => AcquireKeeps(s, s', t);
    case Register(t, q) => RegisterKeeps(s, s', t, q);
    case Remove(m, q) => RemoveKeeps(s, s', m, q);
    case RemoveAll(m, queue) => RemoveAllKeeps(s, s', m, queue);
    case Answer(m) => AnswerKeeps(s, s', m);
    case Free(m) => FreeKeeps(s, s', m);
    case Receive(t) => ReceiveKeeps(s, s', t);
  }

  lemma {:induction false} InvOfRun(run: seq<Sys>, steps: seq<Step>, n: nat)
    requires IsRun(run, steps) && n < |run|
    ensures Inv(run[n])
  {
    if n == 0 { assert Holders(run[0]) == {}; }
    else {
      InvOfRun(run, steps, n - 1);
      assert StepAt(run, steps, n - 1);
      InvKept(run[n - 1], run[n], steps[n - 1]);
    }
  }

  // ----- what holds in every interleaving

  ghost function AboutToRegister(s: Sys): set<nat> {
    set t | t in s.phases && s.phases[t].Acquired?
  }

  ghost function InWindow(s: Sys): set<nat> {
    set t | t in s.phases && s.phases[t].Registered?
  }

  ghost function TakenOut(s: Sys): set<nat> {
    set t | t in s.phases && (s.phases[t].Removed? || s.phases[t].Answered?)
  }

  /** Slots in use are the submits registered, those about to register, and those taken out but not yet freed. */
  lemma SlotsConserved(run: seq<Sys>, steps: seq<Step>, n: nat)
    requires IsRun(run, steps) && n < |run|
    ensures var s := run[n];
            s.core.slots == |s.core.pending| + |AboutToRegister(s)| + |TakenOut(s)|
            && s.core.slots <= s.core.size
  {
    InvOfRun(run, steps, n);
    Conserved(run[n]);
  }

  lemma Conserved(s: Sys)
    requires PendingInv(s) && SlotInv(s)
    ensures s.core.slots == |s.core.pending| + |AboutToRegister(s)| + |TakenOut(s)|
  {
    var a, r, x := AboutToRegister(s), InWindow(s), TakenOut(s);
    assert Holders(s) == a + r + x;
    ThreeWays(a, r, x);
    RegisteredCount(s);
  }

  lemma ThreeWays(a: set<nat>, b: set<nat>, c: set<nat>)
    requires a !! b !! c
    ensures |a + b + c| == |a| + |b| + |c|
  {
  }

  lemma RegisteredCount(s: Sys)
    requires PendingInv(s)
    ensures |s.core.pending| == |InWindow(s)|
  {
    var back := map t | t in InWindow(s) :: s.phases[t].seqNo;
    OneToOne(s.core.pending.Keys, InWindow(s), s.core.pending, back);
    assert |s.core.pending| == |s.core.pending.Keys|;
  }

  lemma {:induction false} OneToOne(a: set<nat>, b: set<nat>, f: map<nat, nat>, g: map<nat, nat>)
    requires forall q :: q in a ==> q in f && f[q] in b && f[q] in g && g[f[q]] == q
    requires forall t :: t in b ==> t in g && g[t] in a && g[t] in f && f[g[t]] == t
    ensures |a| == |b|
    decreases b
  {
    if b == {} { assert a == {}; }
    else {
      var t :| t in b;
      OneToOne(a - {g[t]}, b - {t}, f, g);
    }
  }

  /**
    No channel operation blocks: whoever has an answer to give can give it, and whoever has a slot to free can free it.
   */
  lemma NothingBlocks(run: seq<Sys>, steps: seq<Step>, n: nat, m: nat)
    requires IsRun(run, steps) && n < |run| && m in run[n].jobs
    ensures exists s' :: DoAnswer(run[n], s', m) || DoFree(run[n], s', m)
  {
    InvOfRun(run, steps, n);
    var s := run[n];
    var job := s.jobs[m];
    assert JobOk(s, m, job);
    var t := job.queue[0];
    if job.sent {
      assert t in Holders(s);
      var s' := s.(core := Freed(s.core), phases := s.phases[t := Released],
                   jobs := if |job.queue| == 1 then s.jobs - {m} else s.jobs[m := Job(job.queue[1..], false)]);
      assert DoFree(s, s', m);
    } else {
      var s' := s.(jobs := s.jobs[m := job.(sent := true)], phases := s.phases[t := Answered(m)],
                   buffers := s.buffers[t := s.buffers[t] + 1], answers := s.answers[t := s.answers[t] + 1]);
      assert DoAnswer(s, s', m);
    }
  }

  /** Each submit is answered once, and not before it was taken out of the window; its slot is freed only after that. */
  lemma AnsweredOnce(run: seq<Sys>, steps: seq<Step>, n: nat, t: nat)
    requires IsRun(run, steps) && n < |run| && t in run[n].phases
    ensures t in run[n].answers && t in run[n].buffers
    ensures run[n].answers[t] == if HasAnswer(run[n].phases[t]) then 1 else 0
    ensures run[n].buffers[t] <= run[n].answers[t]
  {
    InvOfRun(run, steps, n);
  }

  /** How far a submit has come. */
  function Stage(p: Phase): nat {
    match p case Acquired => 0 case Registered(_) => 1 case Removed(_) => 2 case Answered(_) => 3 case Released => 4
  }

  /** Phases only move forward, one at a time, so no slot is freed twice. */
  lemma OneStage(s: Sys, s': Sys, step: Step, t: nat)
    requires Inv(s) && Next(s, s', step) && t in s.phases
    ensures t in s'.phases && (s'.phases[t] == s.phases[t] || Stage(s'.phases[t]) == Stage(s.phases[t]) + 1)
  {
    if step.Answer? || step.Free? { assert JobOk(s, step.m, s.jobs[step.m]); }
  }

  lemma {:induction false} ReleasedForGood(run: seq<Sys>, steps: seq<Step>, i: nat, k: nat, t: nat)
    requires IsRun(run, steps) && i <= k < |run| && t in run[i].phases
    ensures t in run[k].phases && Stage(run[i].phases[t]) <= Stage(run[k].phases[t])
    decreases k - i
  {
    if i < k {
      ReleasedForGood(run, steps, i, k - 1, t);
      OneStageOfRun(run, steps, k - 1, t);
    }
  }

  lemma OneStageOfRun(run: seq<Sys>, steps: seq<Step>, k: nat, t: nat)
    requires IsRun(run, steps) && k < |steps| && t in run[k].phases
    ensures t in run[k + 1].phases
            && Stage(run[k].phases[t]) <= Stage(run[k + 1].phases[t]) <= Stage(run[k].phases[t]) + 1
  {
    InvOfRun(run, steps, k);
    assert StepAt(run, steps, k);
    OneStage(run[k], run[k + 1], steps[k], t);
  }

  /** When every goroutine has finished and nothing is registered or about to be, all slots are free. */
  lemma QuietMeansFree(run: seq<Sys>, steps: seq<Step>, n: nat)
    requires IsRun(run, steps) && n < |run|
    requires run[n].jobs == map[] && run[n].core.pending == map[] && forall t :: t in run[n].phases ==>
               !run[n].phases[t].Acquired?
    ensures run[n].core.slots == 0 && forall t :: t in run[n].phases ==>
              run[n].phases[t].Released? && t in run[n].answers && run[n].answers[t] == 1
  {
    InvOfRun(run, steps, n);
    assert Holders(run[n]) == {};
  }

  // ----- sequence numbers

  const SEQ_MAX: nat := 0xFFFF_FFFF

  /** A 32-bit counter that skips zero. */
  function NextSeq(seqNo: nat): nat {
    if seqNo >= SEQ_MAX then 1 else seqNo + 1
  }

  function Drawn(seqNo: nat, k: nat): nat {
    if k == 0 then seqNo else NextSeq(Drawn(seqNo, k - 1))
  }

  lemma {:induction false} DrawnIs(seqNo: nat, k: nat)
    requires 1 <= seqNo <= SEQ_MAX && k < SEQ_MAX
    ensures Drawn(seqNo, k) == if seqNo + k <= SEQ_MAX then seqNo + k else seqNo + k - SEQ_MAX
  {
    if k > 0 { DrawnIs(seqNo, k - 1); }
  }

  /** Numbers drawn within 2^32 - 1 draws of each other differ, so those of outstanding submits do. */
  lemma DrawnDistinct(seqNo: nat, i: nat, k: nat)
    requires 1 <= seqNo <= SEQ_MAX && i < k && k - i < SEQ_MAX
    ensures Drawn(seqNo, i) != Drawn(seqNo, k)
  {
    DrawnInRange(seqNo, i);
    DrawnOn(seqNo, i, k - i);
    DrawnIs(Drawn(seqNo, i), k - i);
  }

  lemma {:induction false} DrawnInRange(seqNo: nat, k: nat)
    requires 1 <= seqNo <= SEQ_MAX
    ensures 1 <= Drawn(seqNo, k) <= SEQ_MAX
  {
    if k > 0 { DrawnInRange(seqNo, k - 1); }
  }

  lemma {:induction false} DrawnOn(seqNo: nat, i: nat, k: nat)
    ensures Drawn(Drawn(seqNo, i), k) == Drawn(seqNo, i + k)
  {
    if k > 0 { DrawnOn(seqNo, i, k - 1); }
  }
}
