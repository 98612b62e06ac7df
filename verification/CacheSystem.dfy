/** The block cache together with its clients and the block device, as a system of
    interleaved steps.  */
module CacheSystem {
  import opened NodeCodec
  import opened CacheSpec

  /** Contents of the block device. */
  type Device = map<U64, Block>

  function At(dev: Device, p: U64): Block
  {
    if p in dev then dev[p] else Zeros(BLOCK_BYTES)
  }

  /** Transfer buffer of a slot: idle, waiting for the device, or done. */
  datatype Io = Idle | Waiting(buf: Block) | Arrived(buf: Block)

  datatype Sys = Sys(c: Cache, dev: Device, io: seq<Io>)

  datatype Step =
    | Submit(prim: Prim, data: Block)  // a client submits a primitive and its data
    | RunJob(j: nat)                   // the cache executes one job
    | Issue(i: nat)                    // the primitive generated for a slot goes to the device
    | Transfer(i: nat)                 // the device carries it out
    | Finish(i: nat)                   // its completion reaches the cache
    | Ack(j: nat)                      // the client takes the result of a job

  /** What a step means for the block map that clients see. */
  datatype Event =
    | NoEvent
    | DidRead(pba: U64, data: Block)
    | DidWrite(pba: U64, data: Block)
    | DidSync(dev: Device)

  datatype Outcome = Stepped(s: Sys, event: Event, progress: bool) | Refused | Raised

  predicate Shaped(s: Sys)
  {
    Sized(s.c) && |s.io| == |s.c.slots|
  }

  function SubmitStep(s: Sys, prim: Prim, data: Block): Outcome
    requires Shaped(s)
  {
    var j := FirstFree(s.c.jobs, 0);
    match CacheSpec.Submit(s.c, prim)
    case Ok(c, p) => Stepped(s.(c := c.(jobData := c.jobData[j := data])), NoEvent, p)
    case ProgramError => Refused
  }

  /** The event of a job execution: nothing unless the job completes. */
  function JobEvent(s: Sys, j: nat, c: Cache): Event
    requires Sized(s.c) && Sized(c) && j < |s.c.jobs| == |c.jobs|
  {
    if s.c.jobs[j].state == Completed || c.jobs[j].state != Completed then NoEvent
    else match s.c.jobs[j].prim.op
      case Read => DidRead(s.c.jobs[j].pba, c.jobData[j])
      case Write => DidWrite(s.c.jobs[j].pba, s.c.jobData[j])
      case Sync => DidSync(s.dev)
  }

  function RunJobStep(s: Sys, j: nat): Outcome
    requires Shaped(s)
  {
    if j >= |s.c.jobs| then Refused
    else match ExecuteJob(s.c, j)
      case Ok(c, p) => ExecuteJobKeepsSizes(s.c, j); Stepped(s.(c := c), JobEvent(s, j, c), p)
      case ProgramError => Raised
  }

  /** For a write the slot data is copied into the transfer buffer. */
  function IssueStep(s: Sys, i: nat): Outcome
    requires Shaped(s)
  {
    if i >= |s.c.slots| || !Generated(s.c.slots[i]) then Refused
    else match DropGenerated(s.c, i)
      case Ok(c, p) => Stepped(s.(c := c, io := s.io[i := Waiting(s.c.slotData[i])]), NoEvent, p)
      case ProgramError => Raised
  }

  /** The device reads or writes the block the generated primitive names. */
  function TransferStep(s: Sys, i: nat): Outcome
    requires Shaped(s)
  {
    if i >= |s.c.slots| || !s.io[i].Waiting? then Refused
    else
      var prim := s.c.slots[i].prim;
      if prim.op == Write then Stepped(s.(dev := s.dev[prim.blk := s.io[i].buf], io := s.io[i := Arrived(s.io[i].buf)]), NoEvent, true)
      else Stepped(s.(io := s.io[i := Arrived(At(s.dev, prim.blk))]), NoEvent, true)
  }

  function FinishStep(s: Sys, i: nat): Outcome
    requires Shaped(s)
  {
    if i >= |s.c.slots| || !s.io[i].Arrived? then Refused
    else
      var data := if s.c.slots[i].prim.op == Read then s.c.slotData[i := s.io[i].buf] else s.c.slotData;
      match MarkGeneratedComplete(s.c.(slotData := data), i, true)
      case Ok(c, p) => Stepped(s.(c := c, io := s.io[i := Idle]), NoEvent, p)
      case ProgramError => Raised
  }

  function AckStep(s: Sys, j: nat): Outcome
    requires Shaped(s)
  {
    if j >= |s.c.jobs| || s.c.jobs[j].state != Completed then Refused
    else match DropCompleted(s.c, j)
      case Ok(c, p) => Stepped(s.(c := c), NoEvent, p)
      case ProgramError => Raised
  }

  function Do(s: Sys, step: Step): Outcome
    requires Shaped(s)
  {
    match step
    case Submit(prim, data) => SubmitStep(s, prim, data)
    case RunJob(j) => RunJobStep(s, j)
    case Issue(i) => IssueStep(s, i)
    case Transfer(i) => TransferStep(s, i)
    case Finish(i) => FinishStep(s, i)
    case Ack(j) => AckStep(s, j)
  }

  // ------------------------------------------------------------- the invariant

  predicate Reading(slot: Slot)
  {
    slot.state == ReadGenerated || slot.state == ReadInProgress
  }

  /** A slot whose data is the current content of its block. */
  predicate Holding(slot: Slot)
  {
    slot.state != Invalid && !Reading(slot)
  }

  predicate SlotsDistinct(slots: seq<Slot>)
  {
    forall i, k | 0 <= i < |slots| && 0 <= k < |slots| && i != k && slots[i].state != Invalid && slots[k].state != Invalid ::
      slots[i].pba != slots[k].pba
  }

  predicate ReadJobFor(job: Job, pba: U64)
  {
    job.state == Submitted && job.prim.op == Read && job.pba == pba
  }

  predicate ReadingOwned(c: Cache)
  {
    forall i | 0 <= i < |c.slots| && Reading(c.slots[i]) :: exists j :: 0 <= j < |c.jobs| && ReadJobFor(c.jobs[j], c.slots[i].pba)
  }

  /** A slot agrees with its generated primitive, its buffer and the device. */
  predicate SlotOk(slot: Slot, data: Block, io: Io, dev: Device, i: nat)
  {
    match slot.state
    case Invalid => io.Idle?
    case ReadGenerated => io.Idle? && slot.prim == GeneratedPrim(Read, slot.pba, i)
    case ReadInProgress =>
      && slot.prim == GeneratedPrim(Read, slot.pba, i) && !io.Idle?
      && (io.Arrived? ==> io.buf == At(dev, slot.pba))
    case Clean => io.Idle? && data == At(dev, slot.pba)
    case Dirty => io.Idle?
    case WriteGenerated => io.Idle? && slot.prim == GeneratedPrim(Write, slot.pba, i)
    case WriteInProgress =>
      && slot.prim == GeneratedPrim(Write, slot.pba, i) && !io.Idle? && io.buf == data
      && (io.Arrived? ==> data == At(dev, slot.pba))
  }

  predicate SlotsOk(s: Sys)
    requires Shaped(s)
  {
    forall i | 0 <= i < |s.c.slots| :: SlotOk(s.c.slots[i], s.c.slotData[i], s.io[i], s.dev, i)
  }

  /** The content of block p as clients see it: a holding slot, else the device. */
  function LogicalIn(slots: seq<Slot>, data: seq<Block>, dev: Device, p: U64, from: nat): Block
    requires |slots| == |data| && from <= |slots|
    decreases |slots| - from
  {
    if from == |slots| then At(dev, p)
    else if Holding(slots[from]) && slots[from].pba == p then data[from]
    else LogicalIn(slots, data, dev, p, from + 1)
  }

  function Logical(s: Sys, p: U64): Block
    requires Shaped(s)
  {
    LogicalIn(s.c.slots, s.c.slotData, s.dev, p, 0)
  }

  predicate JobsCompatible(jobs: seq<Job>)
  {
    forall j, k | 0 <= j < |jobs| && 0 <= k < |jobs| && j != k && WritesTo(jobs[j], jobs[j].pba) && Busy(jobs[k])
                  && jobs[k].prim.op != Sync :: jobs[k].pba != jobs[j].pba
  }

  /** A job is submitted unsuccessful; a completed one has succeeded and its data
      is the current content of its block. */
  predicate JobOk(s: Sys, j: nat)
    requires Shaped(s) && j < |s.c.jobs|
  {
    var job := s.c.jobs[j];
    && (Busy(job) ==> job.prim.valid && job.pba == job.prim.blk)
    && (job.state == Submitted ==> !job.prim.success)
    && (job.state == Completed ==> job.prim.success && (job.prim.op != Sync ==> s.c.jobData[j] == Logical(s, job.pba)))
  }

  predicate JobsOk(s: Sys)
    requires Shaped(s)
  {
    forall j | 0 <= j < |s.c.jobs| :: JobOk(s, j)
  }

  predicate Inv(s: Sys)
  {
    && Shaped(s) && |s.c.jobs| <= |s.c.slots|
    && SlotsDistinct(s.c.slots)
    && ReadingOwned(s.c)
    && SlotsOk(s)
    && JobsCompatible(s.c.jobs)
    && JobsOk(s)
  }

  /** The state after initialisation. */
  predicate Initial(s: Sys)
  {
    && Shaped(s) && |s.c.jobs| <= |s.c.slots|
    && (forall i | 0 <= i < |s.c.slots| :: s.c.slots[i] == Slot(Invalid, InvalidPrim(), 0) && s.io[i] == Idle)
    && (forall j | 0 <= j < |s.c.jobs| :: s.c.jobs[j] == Job(Free, InvalidPrim(), 0))
  }

  lemma InitialInv(s: Sys)
    requires Initial(s)
    ensures Inv(s)
  {
  }

  // ------------------------------------------------------------- logical content

  lemma {:induction false} LogicalHeld(s: Sys, i: nat, from: nat)
    requires Shaped(s) && SlotsDistinct(s.c.slots) && from <= i < |s.c.slots| && Holding(s.c.slots[i])
    ensures LogicalIn(s.c.slots, s.c.slotData, s.dev, s.c.slots[i].pba, from) == s.c.slotData[i]
    decreases i - from
  {
    if from < i {
      LogicalHeld(s, i, from + 1);
    }
  }

  lemma {:induction false} LogicalFree(s: Sys, p: U64, from: nat)
    requires Shaped(s) && from <= |s.c.slots|
    requires forall i | from <= i < |s.c.slots| && Holding(s.c.slots[i]) :: s.c.slots[i].pba != p
    ensures LogicalIn(s.c.slots, s.c.slotData, s.dev, p, from) == At(s.dev, p)
    decreases |s.c.slots| - from
  {
    if from < |s.c.slots| {
      LogicalFree(s, p, from + 1);
    }
  }

  /** Either a unique slot holds block p, or the device alone does. */
  lemma LogicalCases(s: Sys, p: U64)
    requires Shaped(s) && SlotsDistinct(s.c.slots)
    ensures forall i | 0 <= i < |s.c.slots| && Holding(s.c.slots[i]) && s.c.slots[i].pba == p :: Logical(s, p) == s.c.slotData[i]
    ensures (forall i | 0 <= i < |s.c.slots| && Holding(s.c.slots[i]) :: s.c.slots[i].pba != p) ==> Logical(s, p) == At(s.dev, p)
  {
    if forall i | 0 <= i < |s.c.slots| && Holding(s.c.slots[i]) :: s.c.slots[i].pba != p {
      LogicalFree(s, p, 0);
    } else {
      var i :| 0 <= i < |s.c.slots| && Holding(s.c.slots[i]) && s.c.slots[i].pba == p;
      LogicalHeld(s, i, 0);
    }
  }
}
