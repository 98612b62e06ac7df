/** The write-back block cache as a transition function on its slots and jobs. */
module CacheSpec {
  import opened NodeCodec

  datatype Op = Read | Write | Sync

  datatype Prim = Prim(valid: bool, op: Op, success: bool, blk: U64, index: nat)

  datatype SlotState = Invalid | ReadGenerated | ReadInProgress | Clean | Dirty | WriteGenerated | WriteInProgress

  datatype Slot = Slot(state: SlotState, prim: Prim, pba: U64)

  datatype JobState = Free | Submitted | Completed

  datatype Job = Job(state: JobState, prim: Prim, pba: U64)

  /** Slots with their data, jobs with their data. */
  datatype Cache = Cache(slots: seq<Slot>, slotData: seq<Block>, jobs: seq<Job>, jobData: seq<Block>)

  /** The result of a procedure: a new state, or Program_Error. */
  datatype Result = Ok(c: Cache, progress: bool) | ProgramError

  predicate Sized(c: Cache)
  {
    |c.slotData| == |c.slots| && |c.jobData| == |c.jobs|
  }

  function InvalidPrim(): Prim
  {
    Prim(false, Read, false, 0, 0)
  }

  function GeneratedPrim(op: Op, pba: U64, i: nat): Prim
  {
    Prim(true, op, false, pba, i)
  }

  // ---------------------------------------------------------------- submitting

  predicate Busy(job: Job)
  {
    job.state != Free
  }

  /** A job that makes submitting a write for pba raise. */
  predicate Affects(job: Job, pba: U64)
  {
    Busy(job) && (job.prim.op == Sync || job.pba == pba)
  }

  /** A job that makes submitting a read or sync for pba raise. */
  predicate WritesTo(job: Job, pba: U64)
  {
    Busy(job) && job.prim.op == Write && job.pba == pba
  }

  predicate SubmitAllowed(jobs: seq<Job>, prim: Prim)
  {
    && prim.valid && !prim.success
    && forall j | 0 <= j < |jobs| :: if prim.op == Write then !Affects(jobs[j], prim.blk) else !WritesTo(jobs[j], prim.blk)
  }

  function FirstFree(jobs: seq<Job>, from: nat): (j: nat)
    requires from <= |jobs|
    ensures from <= j <= |jobs|
    ensures forall k | from <= k < j :: jobs[k].state != Free
    ensures j < |jobs| ==> jobs[j].state == Free
    decreases |jobs| - from
  {
    if from == |jobs| || jobs[from].state == Free then from else FirstFree(jobs, from + 1)
  }

  /** Submit a primitive; the caller fills the job data afterwards. */
  function Submit(c: Cache, prim: Prim): Result
    requires Sized(c)
  {
    var j := FirstFree(c.jobs, 0);
    if SubmitAllowed(c.jobs, prim) && j < |c.jobs| then
      Ok(c.(jobs := c.jobs[j := Job(Submitted, prim, prim.blk)]), true)
    else ProgramError
  }

  // ---------------------------------------------------------------- slot lookup

  predicate Matches(slot: Slot, pba: U64)
  {
    slot.state != Invalid && slot.pba == pba
  }

  function FirstMatch(slots: seq<Slot>, pba: U64, from: nat): (i: nat)
    requires from <= |slots|
    ensures from <= i <= |slots|
    ensures forall k | from <= k < i :: !Matches(slots[k], pba)
    ensures i < |slots| ==> Matches(slots[i], pba)
    decreases |slots| - from
  {
    if from == |slots| || Matches(slots[from], pba) then from else FirstMatch(slots, pba, from + 1)
  }

  /** Some job, of whatever state, works on the block of the slot. */
  predicate Pinned(slot: Slot, jobs: seq<Job>)
  {
    exists j :: 0 <= j < |jobs| && jobs[j].prim.op != Sync && jobs[j].pba == slot.pba
  }

  predicate Evictable(slot: Slot, jobs: seq<Job>)
  {
    slot.state == Invalid || (slot.state == Clean && !Pinned(slot, jobs))
  }

  function FirstEvictable(slots: seq<Slot>, jobs: seq<Job>, from: nat): (i: nat)
    requires from <= |slots|
    ensures from <= i <= |slots|
    ensures forall k | from <= k < i :: !Evictable(slots[k], jobs)
    ensures i < |slots| ==> Evictable(slots[i], jobs)
    decreases |slots| - from
  {
    if from == |slots| || Evictable(slots[from], jobs) then from else FirstEvictable(slots, jobs, from + 1)
  }

  predicate WritingBack(slot: Slot)
  {
    slot.state == WriteGenerated || slot.state == WriteInProgress
  }

  predicate WriteBackInProgress(slots: seq<Slot>)
  {
    exists i :: 0 <= i < |slots| && WritingBack(slots[i])
  }

  function FirstDirty(slots: seq<Slot>, from: nat): (i: nat)
    requires from <= |slots|
    ensures from <= i <= |slots|
    ensures forall k | from <= k < i :: slots[k].state != Dirty
    ensures i < |slots| ==> slots[i].state == Dirty
    decreases |slots| - from
  {
    if from == |slots| || slots[from].state == Dirty then from else FirstDirty(slots, from + 1)
  }

  // -------------------------------------------------------------- executing jobs

  function GenerateWrite(slot: Slot, i: nat): Slot
  {
    slot.(state := WriteGenerated, prim := GeneratedPrim(Write, slot.pba, i))
  }

  function WriteBackOneDirtySlot(c: Cache): Result
  {
    var i := FirstDirty(c.slots, 0);
    if i < |c.slots| then Ok(c.(slots := c.slots[i := GenerateWrite(c.slots[i], i)]), true) else ProgramError
  }

  function CompleteJob(job: Job): Job
  {
    job.(state := Completed, prim := job.prim.(success := true))
  }

  /** Make room: nothing to evict means waiting for a write back or starting one. */
  function AwaitRoom(c: Cache): Result
  {
    if WriteBackInProgress(c.slots) then Ok(c, false) else WriteBackOneDirtySlot(c)
  }

  function ExecuteRead(c: Cache, j: nat): Result
    requires Sized(c) && j < |c.jobs|
  {
    var pba := c.jobs[j].pba;
    var i := FirstMatch(c.slots, pba, 0);
    var e := FirstEvictable(c.slots, c.jobs, 0);
    if i < |c.slots| then
      if c.slots[i].state == ReadGenerated || c.slots[i].state == ReadInProgress then Ok(c, false)
      else Ok(c.(jobData := c.jobData[j := c.slotData[i]], jobs := c.jobs[j := CompleteJob(c.jobs[j])]), true)
    else if e < |c.slots| then
      Ok(c.(slots := c.slots[e := Slot(ReadGenerated, GeneratedPrim(Read, pba, e), pba)]), true)
    else AwaitRoom(c)
  }

  /** The data of write job j goes to slot i. */
  function StoreInSlot(c: Cache, j: nat, i: nat): Cache
    requires Sized(c) && j < |c.jobs| && i < |c.slots|
  {
    c.(slotData := c.slotData[i := c.jobData[j]],
       slots := c.slots[i := c.slots[i].(state := Dirty, pba := c.jobs[j].pba)],
       jobs := c.jobs[j := CompleteJob(c.jobs[j])])
  }

  function ExecuteWrite(c: Cache, j: nat): Result
    requires Sized(c) && j < |c.jobs|
  {
    var pba := c.jobs[j].pba;
    var i := FirstMatch(c.slots, pba, 0);
    var e := FirstEvictable(c.slots, c.jobs, 0);
    if i < |c.slots| then
      if c.slots[i].state == Clean || c.slots[i].state == Dirty then Ok(StoreInSlot(c, j, i), true) else Ok(c, false)
    else if e < |c.slots| then Ok(StoreInSlot(c, j, e), true)
    else AwaitRoom(c)
  }

  /** All dirty slots from index `from` on start their write back. */
  function FlushFrom(slots: seq<Slot>, from: nat): (r: seq<Slot>)
    requires from <= |slots|
    ensures |r| == |slots|
    ensures forall i | 0 <= i < |slots| ::
      r[i] == if from <= i && slots[i].state == Dirty then GenerateWrite(slots[i], i) else slots[i]
    decreases |slots| - from
  {
    if from == |slots| then slots
    else FlushFrom(if slots[from].state == Dirty then slots[from := GenerateWrite(slots[from], from)] else slots, from + 1)
  }

  predicate Unwritten(slot: Slot)
  {
    slot.state == Dirty || WritingBack(slot)
  }

  predicate AnyUnwritten(slots: seq<Slot>)
  {
    exists i :: 0 <= i < |slots| && Unwritten(slots[i])
  }

  function ExecuteSync(c: Cache, j: nat): Result
    requires Sized(c) && j < |c.jobs|
  {
    if AnyUnwritten(c.slots) then Ok(c.(slots := FlushFrom(c.slots, 0)), FirstDirty(c.slots, 0) < |c.slots|)
    else Ok(c.(jobs := c.jobs[j := CompleteJob(c.jobs[j])]), true)
  }

  function ExecuteJob(c: Cache, j: nat): Result
    requires Sized(c) && j < |c.jobs|
  {
    if c.jobs[j].state != Submitted then Ok(c, false)
    else match c.jobs[j].prim.op
      case Sync => ExecuteSync(c, j)
      case Read => ExecuteRead(c, j)
      case Write => ExecuteWrite(c, j)
  }

  lemma ExecuteJobKeepsSizes(c: Cache, j: nat)
    requires Sized(c) && j < |c.jobs| && ExecuteJob(c, j).Ok?
    ensures var c' := ExecuteJob(c, j).c; Sized(c') && |c'.jobs| == |c.jobs| && |c'.slots| == |c.slots|
  {
  }

  /** Jobs from index `from` on, one after the other. */
  function ExecuteFrom(c: Cache, from: nat, progress: bool): Result
    requires Sized(c) && from <= |c.jobs|
    decreases |c.jobs| - from
  {
    if from == |c.jobs| then Ok(c, progress)
    else
      var r := ExecuteJob(c, from);
      if r.ProgramError? then r
      else ExecuteJobKeepsSizes(c, from); ExecuteFrom(r.c, from + 1, progress || r.progress)
  }

  // ------------------------------------------------- generated and completed ones

  predicate Generated(slot: Slot)
  {
    slot.state == ReadGenerated || slot.state == WriteGenerated
  }

  function DropGenerated(c: Cache, i: nat): Result
    requires i < |c.slots|
  {
    match c.slots[i].state
    case ReadGenerated => Ok(c.(slots := c.slots[i := c.slots[i].(state := ReadInProgress)]), true)
    case WriteGenerated => Ok(c.(slots := c.slots[i := c.slots[i].(state := WriteInProgress)]), true)
    case _ => ProgramError
  }

  function MarkGeneratedComplete(c: Cache, i: nat, success: bool): Result
    requires i < |c.slots|
  {
    var s := c.slots[i];
    if success && (s.state == ReadInProgress || s.state == WriteInProgress) then
      Ok(c.(slots := c.slots[i := s.(state := Clean, prim := s.prim.(success := true))]), true)
    else ProgramError
  }

  function DropCompleted(c: Cache, j: nat): Result
    requires j < |c.jobs|
  {
    if c.jobs[j].state == Completed then Ok(c.(jobs := c.jobs[j := c.jobs[j].(state := Free)]), true) else ProgramError
  }
}
