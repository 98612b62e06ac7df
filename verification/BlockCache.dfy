/** The block cache module in its imperative form. */
module BlockCache {
  import opened NodeCodec
  import opened CacheSpec
  import opened CacheSubmit

  /** Each method returns ok == false where the source raises Program_Error. */
  class BlockCache {
    const slots: array<Slot>
    const slotData: array<Block>
    const jobs: array<Job>
    const jobData: array<Block>

    ghost predicate Valid()
    {
      slots.Length == slotData.Length && jobs.Length == jobData.Length && slotData != jobData
    }

    ghost function View(): Cache
      reads slots, slotData, jobs, jobData
    {
      Cache(slots[..], slotData[..], jobs[..], jobData[..])
    }

    /** The outcome of a method is the one of the transition function. */
    twostate predicate Meets(r: CacheSpec.Result, ok: bool, progress: bool)
      reads slots, slotData, jobs, jobData
    {
      match r
      case Ok(c, p) => ok && View() == c && progress == p
      case ProgramError => !ok && View() == old(View())
    }

    constructor (nrOfSlots: nat, nrOfJobs: nat)
      ensures Valid() && fresh(slots) && fresh(slotData) && fresh(jobs) && fresh(jobData)
      ensures slots.Length == nrOfSlots && jobs.Length == nrOfJobs
      ensures forall i | 0 <= i < nrOfSlots :: slots[i] == Slot(Invalid, InvalidPrim(), 0)
      ensures forall j | 0 <= j < nrOfJobs :: jobs[j] == Job(Free, InvalidPrim(), 0)
    {
      slots := new Slot[nrOfSlots](_ => Slot(Invalid, InvalidPrim(), 0));
      slotData := new Block[nrOfSlots](_ => Zeros(BLOCK_BYTES));
      jobs := new Job[nrOfJobs](_ => Job(Free, InvalidPrim(), 0));
      jobData := new Block[nrOfJobs](_ => Zeros(BLOCK_BYTES));
    }

    // -------------------------------------------------------------- submitting

    method PrimitiveAcceptable() returns (acceptable: bool)
      ensures acceptable == (FirstFree(jobs[..], 0) < jobs.Length)
    {
      var j := 0;
      while j < jobs.Length
        invariant 0 <= j <= jobs.Length && FirstFree(jobs[..], 0) == FirstFree(jobs[..], j)
      {
        if jobs[j].state == Free {
          return true;
        }
        j := j + 1;
      }
      acceptable := false;
    }

    method NotAffectedByAnyJob(pba: U64) returns (ok: bool)
      ensures ok == forall j | 0 <= j < jobs.Length :: !Affects(jobs[j], pba)
      ensures ok == forall j | 0 <= j < jobs.Length && jobs[j].state != Free :: jobs[j].prim.op != Sync && jobs[j].pba != pba
    {
      var j := 0;
      while j < jobs.Length
        invariant 0 <= j <= jobs.Length
        invariant forall k | 0 <= k < j :: !Affects(jobs[k], pba)
      {
        if jobs[j].state != Free && (jobs[j].prim.op == Sync || jobs[j].pba == pba) {
          return false;
        }
        j := j + 1;
      }
      ok := true;
    }

    method NotWrittenByAnyJob(pba: U64) returns (ok: bool)
      ensures ok == forall j | 0 <= j < jobs.Length :: !WritesTo(jobs[j], pba)
      ensures ok == forall j | 0 <= j < jobs.Length && jobs[j].state != Free && jobs[j].pba == pba :: jobs[j].prim.op != Write
    {
      var j := 0;
      while j < jobs.Length
        invariant 0 <= j <= jobs.Length
        invariant forall k | 0 <= k < j :: !WritesTo(jobs[k], pba)
      {
        if jobs[j].state != Free && jobs[j].prim.op == Write && jobs[j].pba == pba {
          return false;
        }
        j := j + 1;
      }
      ok := true;
    }

    method SubmitPrimitive(prim: Prim) returns (ok: bool, jobIdx: nat)
      requires Valid()
      modifies jobs
      ensures Meets(Submit(old(View()), prim), ok, true)
      ensures ok ==> jobIdx == FirstFree(old(jobs[..]), 0)
      ensures ok == (&& prim.valid && !prim.success
                     && (exists j | 0 <= j < jobs.Length :: old(jobs[j]).state == Free)
                     && Admissible(old(jobs[..]), prim))
      ensures ok ==> jobIdx < jobs.Length && jobs[..] == old(jobs[..])[jobIdx := Job(Submitted, prim, prim.blk)]
    {
      ok, jobIdx := false, 0;
      if !prim.valid || prim.success {
        return;
      }
      var allowed;
      if prim.op == Write {
        allowed := NotAffectedByAnyJob(prim.blk);
      } else {
        allowed := NotWrittenByAnyJob(prim.blk);
      }
      if !allowed {
        return;
      }
      assert SubmitAllowed(jobs[..], prim);
      while jobIdx < jobs.Length
        invariant 0 <= jobIdx <= jobs.Length && !ok && View() == old(View())
        invariant FirstFree(jobs[..], 0) == FirstFree(jobs[..], jobIdx)
      {
        if jobs[jobIdx].state == Free {
          jobs[jobIdx] := Job(Submitted, prim, prim.blk);
          assert jobs[..] == old(jobs[..])[jobIdx := jobs[jobIdx]];
          ok := true;
          return;
        }
        jobIdx := jobIdx + 1;
      }
    }

    // ------------------------------------------------------------ executing jobs

    method CleanSlotEvictable(slot: Slot) returns (evictable: bool)
      ensures evictable == !Pinned(slot, jobs[..])
    {
      var j := 0;
      while j < jobs.Length
        invariant 0 <= j <= jobs.Length
        invariant forall k | 0 <= k < j :: !(jobs[k].prim.op != Sync && jobs[k].pba == slot.pba)
      {
        if jobs[j].prim.op != Sync && jobs[j].pba == slot.pba {
          assert jobs[..][j] == jobs[j];
          return false;
        }
        j := j + 1;
      }
      evictable := true;
    }

    method WriteBackOneDirtySlot() returns (ok: bool)
      requires Valid()
      modifies slots
      ensures Meets(CacheSpec.WriteBackOneDirtySlot(old(View())), ok, true)
    {
      var i := 0;
      while i < slots.Length
        invariant 0 <= i <= slots.Length && View() == old(View())
        invariant FirstDirty(slots[..], 0) == FirstDirty(slots[..], i)
      {
        if slots[i].state == Dirty {
          slots[i] := slots[i].(state := WriteGenerated, prim := GeneratedPrim(Write, slots[i].pba, i));
          assert slots[..] == old(slots[..])[i := slots[i]];
          return true;
        }
        i := i + 1;
      }
      ok := false;
    }

    method JobExecuteSync(j: nat) returns (progress: bool)
      requires Valid() && j < jobs.Length
      modifies slots, jobs
      ensures Meets(ExecuteSync(old(View()), j), true, progress)
    {
      progress := false;
      var dirtySlotFound := false;
      var i := 0;
      while i < slots.Length
        invariant 0 <= i <= slots.Length && jobs[..] == old(jobs[..])
        invariant forall k | i <= k < slots.Length :: slots[k] == old(slots[k])
        invariant forall k | 0 <= k < i ::
          slots[k] == if old(slots[k]).state == Dirty then GenerateWrite(old(slots[k]), k) else old(slots[k])
        invariant dirtySlotFound == exists k | 0 <= k < i :: Unwritten(old(slots[k]))
        invariant progress == exists k | 0 <= k < i :: old(slots[k]).state == Dirty
        modifies slots
      {
        if slots[i].state == Dirty {
          slots[i] := slots[i].(state := WriteGenerated, prim := GeneratedPrim(Write, slots[i].pba, i));
          progress := true;
          dirtySlotFound := true;
        } else if slots[i].state == WriteGenerated || slots[i].state == WriteInProgress {
          dirtySlotFound := true;
        }
        i := i + 1;
      }
      assert slots[..] == FlushFrom(old(slots[..]), 0);
      assert dirtySlotFound == AnyUnwritten(old(slots[..])) by {
        if k: nat :| k < slots.Length && Unwritten(old(slots[k])) {
          assert Unwritten(old(slots[..])[k]);
        }
      }
      if !dirtySlotFound {
        jobs[j] := CompleteJob(jobs[j]);
        progress := true;
        assert jobs[..] == old(jobs[..])[j := jobs[j]];
        assert slots[..] == old(slots[..]);
      }
    }

    /** First slot that caches block pba, if any. */
    method FindMatchingSlot(pba: U64) returns (i: nat)
      ensures i == FirstMatch(slots[..], pba, 0)
    {
      i := 0;
      while i < slots.Length
        invariant 0 <= i <= slots.Length && FirstMatch(slots[..], pba, 0) == FirstMatch(slots[..], pba, i)
      {
        if slots[i].state != Invalid && slots[i].pba == pba {
          return;
        }
        i := i + 1;
      }
    }

    /** First slot that can be reused, and whether a write back was seen before it. */
    method FindEvictableSlot() returns (i: nat, writeBackInProgress: bool)
      ensures i == FirstEvictable(slots[..], jobs[..], 0)
      ensures i == slots.Length ==> writeBackInProgress == WriteBackInProgress(slots[..])
    {
      i, writeBackInProgress := 0, false;
      while i < slots.Length
        invariant 0 <= i <= slots.Length
        invariant FirstEvictable(slots[..], jobs[..], 0) == FirstEvictable(slots[..], jobs[..], i)
        invariant writeBackInProgress == exists k :: 0 <= k < i && WritingBack(slots[..][k])
      {
        var evictable := slots[i].state == Invalid;
        if slots[i].state == Clean {
          evictable := CleanSlotEvictable(slots[i]);
        }
        if evictable {
          return;
        }
        if slots[i].state == WriteGenerated || slots[i].state == WriteInProgress {
          writeBackInProgress := true;
          assert WritingBack(slots[..][i]);
        }
        i := i + 1;
      }
    }

    method JobExecuteRead(j: nat) returns (ok: bool, progress: bool)
      requires Valid() && j < jobs.Length
      modifies slots, jobs, jobData
      ensures Meets(ExecuteRead(old(View()), j), ok, progress)
    {
      ok, progress := true, false;
      var pba := jobs[j].pba;
      var i := FindMatchingSlot(pba);
      if i < slots.Length {
        if slots[i].state != ReadGenerated && slots[i].state != ReadInProgress {
          jobData[j] := slotData[i];
          jobs[j] := CompleteJob(jobs[j]);
          progress := true;
          assert jobData[..] == old(jobData[..])[j := jobData[j]] && jobs[..] == old(jobs[..])[j := jobs[j]];
        }
        return;
      }
      var e, writeBackInProgress := FindEvictableSlot();
      if e < slots.Length {
        slots[e] := Slot(ReadGenerated, GeneratedPrim(Read, pba, e), pba);
        progress := true;
        assert slots[..] == old(slots[..])[e := slots[e]];
      } else if !writeBackInProgress {
        ok := WriteBackOneDirtySlot();
        progress := true;
      }
    }

    method JobExecuteWrite(j: nat) returns (ok: bool, progress: bool)
      requires Valid() && j < jobs.Length
      modifies slots, slotData, jobs
      ensures Meets(ExecuteWrite(old(View()), j), ok, progress)
    {
      ok, progress := true, false;
      var i := FindMatchingSlot(jobs[j].pba);
      if i < slots.Length {
        if slots[i].state == Clean || slots[i].state == Dirty {
          StoreJobInSlot(j, i);
          progress := true;
        }
        return;
      }
      var e, writeBackInProgress := FindEvictableSlot();
      if e < slots.Length {
        StoreJobInSlot(j, e);
        progress := true;
      } else if !writeBackInProgress {
        ok := WriteBackOneDirtySlot();
        progress := true;
      }
    }

    method StoreJobInSlot(j: nat, i: nat)
      requires Valid() && j < jobs.Length && i < slots.Length
      modifies slots, slotData, jobs
      ensures View() == StoreInSlot(old(View()), j, i)
    {
      slotData[i] := jobData[j];
      slots[i] := slots[i].(state := Dirty, pba := jobs[j].pba);
      jobs[j] := CompleteJob(jobs[j]);
      assert slotData[..] == old(slotData[..])[i := slotData[i]];
      assert slots[..] == old(slots[..])[i := slots[i]];
      assert jobs[..] == old(jobs[..])[j := jobs[j]];
    }

    method JobExecute(j: nat) returns (ok: bool, progress: bool)
      requires Valid() && j < jobs.Length
      modifies slots, slotData, jobs, jobData
      ensures Meets(ExecuteJob(old(View()), j), ok, progress)
    {
      ok, progress := true, false;
      if jobs[j].state == Submitted {
        match jobs[j].prim.op {
          case Sync => progress := JobExecuteSync(j);
          case Read => ok, progress := JobExecuteRead(j);
          case Write => ok, progress := JobExecuteWrite(j);
        }
      }
    }

    method Execute() returns (ok: bool, progress: bool)
      requires Valid()
      modifies slots, slotData, jobs, jobData
      ensures ok == ExecuteFrom(old(View()), 0, false).Ok?
      ensures ok ==> Ok(View(), progress) == ExecuteFrom(old(View()), 0, false)
    {
      ok, progress := true, false;
      var j := 0;
      while j < jobs.Length
        invariant 0 <= j <= jobs.Length && ok
        invariant ExecuteFrom(View(), j, progress) == ExecuteFrom(old(View()), 0, false)
      {
        var moved;
        ok, moved := JobExecute(j);
        if !ok {
          return;
        }
        progress := progress || moved;
        j := j + 1;
      }
    }

    // ------------------------------------------------- generated and completed ones

    method PeekCompletedPrimitive() returns (prim: Prim, jobIdx: nat)
      ensures (exists j | 0 <= j < jobs.Length :: jobs[j].state == Completed) ==>
        && jobIdx < jobs.Length && jobs[jobIdx].state == Completed && prim == jobs[jobIdx].prim
        && forall k | 0 <= k < jobIdx :: jobs[k].state != Completed
      ensures !(exists j | 0 <= j < jobs.Length :: jobs[j].state == Completed) ==> prim == InvalidPrim()
    {
      jobIdx := 0;
      while jobIdx < jobs.Length
        invariant 0 <= jobIdx <= jobs.Length
        invariant forall k | 0 <= k < jobIdx :: jobs[k].state != Completed
      {
        if jobs[jobIdx].state == Completed {
          prim := jobs[jobIdx].prim;
          return;
        }
        jobIdx := jobIdx + 1;
      }
      prim, jobIdx := InvalidPrim(), 0;
    }

    method DropCompletedPrimitive(j: nat) returns (ok: bool)
      requires Valid() && j < jobs.Length
      modifies jobs
      ensures Meets(DropCompleted(old(View()), j), ok, true)
    {
      ok := jobs[j].state == Completed;
      if ok {
        jobs[j] := jobs[j].(state := Free);
        assert jobs[..] == old(jobs[..])[j := jobs[j]];
      }
    }

    method PeekGeneratedPrimitive() returns (prim: Prim, slotIdx: nat)
      ensures (exists i | 0 <= i < slots.Length :: Generated(slots[i])) ==>
        && slotIdx < slots.Length && Generated(slots[slotIdx]) && prim == slots[slotIdx].prim
        && forall k | 0 <= k < slotIdx :: !Generated(slots[k])
      ensures !(exists i | 0 <= i < slots.Length :: Generated(slots[i])) ==> prim == InvalidPrim()
    {
      slotIdx := 0;
      while slotIdx < slots.Length
        invariant 0 <= slotIdx <= slots.Length
        invariant forall k | 0 <= k < slotIdx :: !Generated(slots[k])
      {
        if Generated(slots[slotIdx]) {
          prim := slots[slotIdx].prim;
          return;
        }
        slotIdx := slotIdx + 1;
      }
      prim, slotIdx := InvalidPrim(), 0;
    }

    method DropGeneratedPrimitive(i: nat) returns (ok: bool)
      requires Valid() && i < slots.Length
      modifies slots
      ensures Meets(DropGenerated(old(View()), i), ok, true)
    {
      match slots[i].state {
        case ReadGenerated =>
          slots[i] := slots[i].(state := ReadInProgress);
          ok := true;
        case WriteGenerated =>
          slots[i] := slots[i].(state := WriteInProgress);
          ok := true;
        case _ =>
          ok := false;
      }
      assert slots[..] == old(slots[..])[i := slots[i]];
    }

    method MarkGeneratedPrimitiveComplete(i: nat, success: bool) returns (ok: bool)
      requires Valid() && i < slots.Length
      modifies slots
      ensures Meets(MarkGeneratedComplete(old(View()), i, success), ok, true)
    {
      ok := success && (slots[i].state == ReadInProgress || slots[i].state == WriteInProgress);
      if ok {
        slots[i] := slots[i].(state := Clean, prim := slots[i].prim.(success := true));
        assert slots[..] == old(slots[..])[i := slots[i]];
      }
    }
  }
}
