/** What executing a job does to slots and jobs, said with the states and addresses of
    slots and jobs alone.  */
module CacheEffects {
  import opened NodeCodec
  import opened CacheSpec

  ghost predicate Holds(slot: Slot, p: U64)
  {
    slot.state != Invalid && slot.pba == p
  }

  /** A slot that may be given to another block: it is unused, or clean and no job
      works on its block, not even one that is free again. */
  ghost predicate Replaceable(slot: Slot, jobs: seq<Job>)
  {
    slot.state == Invalid
    || (slot.state == Clean && forall k | 0 <= k < |jobs| :: jobs[k].prim.op == Sync || jobs[k].pba != slot.pba)
  }

  ghost predicate FirstHolder(slots: seq<Slot>, p: U64, i: nat)
  {
    i < |slots| && Holds(slots[i], p) && forall k | 0 <= k < i :: !Holds(slots[k], p)
  }

  ghost predicate FirstReplaceable(c: Cache, i: nat)
  {
    i < |c.slots| && Replaceable(c.slots[i], c.jobs) && forall k | 0 <= k < i :: !Replaceable(c.slots[k], c.jobs)
  }

  ghost predicate FirstDirtySlot(slots: seq<Slot>, i: nat)
  {
    i < |slots| && slots[i].state == Dirty && forall k | 0 <= k < i :: slots[k].state != Dirty
  }

  ghost predicate Working(c: Cache, j: nat, op: Op)
  {
    Sized(c) && j < |c.jobs| && c.jobs[j].state == Submitted && c.jobs[j].prim.op == op
  }

  function Completed(c: Cache, j: nat): seq<Job>
    requires j < |c.jobs|
  {
    c.jobs[j := Job(JobState.Completed, c.jobs[j].prim.(success := true), c.jobs[j].pba)]
  }

  lemma SearchesFind(c: Cache, p: U64)
    ensures forall i | FirstHolder(c.slots, p, i) :: FirstMatch(c.slots, p, 0) == i
    ensures forall i | FirstReplaceable(c, i) :: FirstEvictable(c.slots, c.jobs, 0) == i
    ensures forall i | FirstDirtySlot(c.slots, i) :: FirstDirty(c.slots, 0) == i
    ensures (forall i | 0 <= i < |c.slots| :: !Holds(c.slots[i], p)) ==> FirstMatch(c.slots, p, 0) == |c.slots|
    ensures (forall i | 0 <= i < |c.slots| :: !Replaceable(c.slots[i], c.jobs)) ==> FirstEvictable(c.slots, c.jobs, 0) == |c.slots|
  {
    forall i | 0 <= i < |c.slots|
      ensures Matches(c.slots[i], p) <==> Holds(c.slots[i], p)
      ensures Evictable(c.slots[i], c.jobs) <==> Replaceable(c.slots[i], c.jobs)
    {
    }
  }

  /** A read of a block that some slot holds takes the slot's data and completes; while
      the slot is being read it waits. */
  lemma ReadHit(c: Cache, j: nat, i: nat)
    requires Working(c, j, Read) && FirstHolder(c.slots, c.jobs[j].pba, i)
    ensures ExecuteJob(c, j) ==
      if c.slots[i].state == ReadGenerated || c.slots[i].state == ReadInProgress then Ok(c, false)
      else Ok(c.(jobs := Completed(c, j), jobData := c.jobData[j := c.slotData[i]]), true)
  {
    SearchesFind(c, c.jobs[j].pba);
  }

  /** A write of a block that some slot holds stores its data there and completes; while
      the slot is read or written back it waits. */
  lemma WriteHit(c: Cache, j: nat, i: nat)
    requires Working(c, j, Write) && FirstHolder(c.slots, c.jobs[j].pba, i)
    ensures ExecuteJob(c, j) ==
      if c.slots[i].state == Clean || c.slots[i].state == Dirty then
        Ok(c.(slots := c.slots[i := c.slots[i].(state := Dirty)], slotData := c.slotData[i := c.jobData[j]], jobs := Completed(c, j)), true)
      else Ok(c, false)
  {
    SearchesFind(c, c.jobs[j].pba);
  }

  ghost predicate Missed(c: Cache, j: nat)
    requires j < |c.jobs|
  {
    forall k | 0 <= k < |c.slots| :: !Holds(c.slots[k], c.jobs[j].pba)
  }

  /** A read of any other block asks the device for it, in the first replaceable slot. */
  lemma ReadMiss(c: Cache, j: nat, i: nat)
    requires Working(c, j, Read) && Missed(c, j) && FirstReplaceable(c, i)
    ensures var p := c.jobs[j].pba;
            ExecuteJob(c, j) == Ok(c.(slots := c.slots[i := Slot(ReadGenerated, Prim(true, Read, false, p, i), p)]), true)
  {
    SearchesFind(c, c.jobs[j].pba);
  }

  /** A write of any other block stores its data in the first replaceable slot. */
  lemma WriteMiss(c: Cache, j: nat, i: nat)
    requires Working(c, j, Write) && Missed(c, j) && FirstReplaceable(c, i)
    ensures ExecuteJob(c, j) ==
      Ok(c.(slots := c.slots[i := Slot(Dirty, c.slots[i].prim, c.jobs[j].pba)], slotData := c.slotData[i := c.jobData[j]],
            jobs := Completed(c, j)), true)
  {
    SearchesFind(c, c.jobs[j].pba);
  }

  /** Where no slot is replaceable, a read or write waits for a write back, and starts
      one, that of the first dirty slot, if there is none. */
  lemma NoRoom(c: Cache, j: nat, i: nat)
    requires (Working(c, j, Read) || Working(c, j, Write)) && Missed(c, j)
    requires forall k | 0 <= k < |c.slots| :: !Replaceable(c.slots[k], c.jobs)
    requires FirstDirtySlot(c.slots, i)
    ensures ExecuteJob(c, j) ==
      if exists k | 0 <= k < |c.slots| :: c.slots[k].state == WriteGenerated || c.slots[k].state == WriteInProgress then Ok(c, false)
      else Ok(c.(slots := c.slots[i := Slot(WriteGenerated, Prim(true, Write, false, c.slots[i].pba, i), c.slots[i].pba)]), true)
  {
    SearchesFind(c, c.jobs[j].pba);
  }

  /** A sync starts the write back of every dirty slot, and completes exactly if no slot
      is dirty or being written back. */
  lemma SyncEffect(c: Cache, j: nat)
    requires Working(c, j, Sync)
    ensures ExecuteJob(c, j).Ok?
    ensures var r := ExecuteJob(c, j);
            if forall i | 0 <= i < |c.slots| ::
                 c.slots[i].state != Dirty && c.slots[i].state != WriteGenerated && c.slots[i].state != WriteInProgress
            then r == Ok(c.(jobs := Completed(c, j)), true)
            else
              && r.c == c.(slots := r.c.slots) && |r.c.slots| == |c.slots|
              && (r.progress <==> exists i | 0 <= i < |c.slots| :: c.slots[i].state == Dirty)
              && forall i | 0 <= i < |c.slots| :: r.c.slots[i] ==
                   if c.slots[i].state == Dirty then Slot(WriteGenerated, Prim(true, Write, false, c.slots[i].pba, i), c.slots[i].pba)
                   else c.slots[i]
  {
  }

  /** A generated primitive can be taken once; what it asks for does not change. */
  lemma GeneratedIsTaken(c: Cache, i: nat)
    requires i < |c.slots|
    ensures var r, s := DropGenerated(c, i), c.slots[i];
            && (r.Ok? <==> s.state == ReadGenerated || s.state == WriteGenerated)
            && (r.Ok? ==> r.c == c.(slots := c.slots[i := Slot(if s.state == ReadGenerated then ReadInProgress else WriteInProgress,
                                                              s.prim, s.pba)]))
  {
  }

  /** A completion is accepted for a primitive in progress that succeeded, and makes the
      slot clean. */
  lemma CompletionIsTaken(c: Cache, i: nat, success: bool)
    requires i < |c.slots|
    ensures var r, s := MarkGeneratedComplete(c, i, success), c.slots[i];
            && (r.Ok? <==> success && (s.state == ReadInProgress || s.state == WriteInProgress))
            && (r.Ok? ==> r.c == c.(slots := c.slots[i := Slot(Clean, Prim(s.prim.valid, s.prim.op, true, s.prim.blk, s.prim.index), s.pba)]))
  {
  }

  /** A completed job can be acknowledged; it is free then and otherwise as before. */
  lemma CompletedIsTaken(c: Cache, j: nat)
    requires j < |c.jobs|
    ensures var r, job := DropCompleted(c, j), c.jobs[j];
            && (r.Ok? <==> job.state == JobState.Completed)
            && (r.Ok? ==> r.c == c.(jobs := c.jobs[j := Job(Free, job.prim, job.pba)]))
  {
  }
}
