/** Executing a job keeps the invariant, never raises, and reads or writes the
    logical block map.  */
module CacheJobs {
  import opened NodeCodec
  import opened CacheSpec
  import opened CacheSystem
  import opened CacheSteps

  // ------------------------------------- a dirty slot exists whenever one is needed

  function SlotPbas(slots: seq<Slot>, n: nat): set<U64>
    requires n <= |slots|
  {
    if n == 0 then {} else SlotPbas(slots, n - 1) + {slots[n - 1].pba}
  }

  function JobPbas(jobs: seq<Job>, n: nat): set<U64>
    requires n <= |jobs|
  {
    if n == 0 then {} else JobPbas(jobs, n - 1) + {jobs[n - 1].pba}
  }

  lemma {:induction false} SlotPbasCount(slots: seq<Slot>, n: nat)
    requires n <= |slots| && SlotsDistinct(slots) && forall i | 0 <= i < |slots| :: slots[i].state != Invalid
    ensures |SlotPbas(slots, n)| == n
    ensures forall p | p in SlotPbas(slots, n) :: exists i :: 0 <= i < n && slots[i].pba == p
  {
    if n > 0 {
      SlotPbasCount(slots, n - 1);
      assert forall i | 0 <= i < n - 1 :: slots[i].pba != slots[n - 1].pba;
    }
  }

  lemma {:induction false} JobPbasCount(jobs: seq<Job>, n: nat)
    requires n <= |jobs|
    ensures |JobPbas(jobs, n)| <= n
    ensures forall j | 0 <= j < n :: jobs[j].pba in JobPbas(jobs, n)
  {
    if n > 0 {
      JobPbasCount(jobs, n - 1);
    }
  }

  lemma {:induction false} SubsetCount(a: set<U64>, b: set<U64>)
    requires a <= b
    ensures |a| <= |b|
  {
    if a != {} {
      var x :| x in a;
      SubsetCount(a - {x}, b - {x});
    }
  }

  /** If a job finds neither its block nor room nor a write back under way, some
      slot is dirty: the jobs pin at most one slot each, and this one pins none.  */
  lemma DirtySlotExists(s: Sys, j: nat)
    requires Inv(s) && j < |s.c.jobs|
    requires FirstMatch(s.c.slots, s.c.jobs[j].pba, 0) == |s.c.slots|
    requires FirstEvictable(s.c.slots, s.c.jobs, 0) == |s.c.slots|
    requires !WriteBackInProgress(s.c.slots)
    ensures FirstDirty(s.c.slots, 0) < |s.c.slots|
  {
    var slots, jobs := s.c.slots, s.c.jobs;
    if FirstDirty(slots, 0) == |slots| {
      forall i | 0 <= i < |slots|
        ensures slots[i].state != Invalid && slots[i].pba != jobs[j].pba
        ensures exists k :: 0 <= k < |jobs| && jobs[k].pba == slots[i].pba
      {
        assert !Matches(slots[i], jobs[j].pba) && !Evictable(slots[i], jobs) && slots[i].state != Dirty && !WritingBack(slots[i]);
      }
      var held, wanted := SlotPbas(slots, |slots|), JobPbas(jobs, |jobs|);
      SlotPbasCount(slots, |slots|);
      JobPbasCount(jobs, |jobs|);
      SubsetCount(held, wanted - {jobs[j].pba});
      assert false;
    }
  }

  // -------------------------------------------------------------- making room

  lemma AwaitRoomGood(s: Sys, j: nat)
    requires Inv(s) && j < |s.c.jobs| && s.c.jobs[j].state == Submitted && s.c.jobs[j].prim.op != Sync
    requires FirstMatch(s.c.slots, s.c.jobs[j].pba, 0) == |s.c.slots|
    requires FirstEvictable(s.c.slots, s.c.jobs, 0) == |s.c.slots|
    ensures AwaitRoom(s.c).Ok?
    ensures var s' := s.(c := AwaitRoom(s.c).c);
            Inv(s') && Refines(s, s', NoEvent) && JobEvent(s, j, s'.c) == NoEvent
  {
    if WriteBackInProgress(s.c.slots) {
    } else {
      DirtySlotExists(s, j);
      var s' := s.(c := AwaitRoom(s.c).c);
      SameContents(s, s', FirstDirty(s.c.slots, 0));
      forall k | 0 <= k < |s.c.jobs| ensures JobOk(s', k) {
        assert JobOk(s, k);
      }
    }
  }

  // -------------------------------------------------------------- read jobs

  lemma ReadHitGood(s: Sys, j: nat, i: nat)
    requires Inv(s) && j < |s.c.jobs| && s.c.jobs[j].state == Submitted && s.c.jobs[j].prim.op == Read
    requires i < |s.c.slots| && Holding(s.c.slots[i]) && s.c.slots[i].pba == s.c.jobs[j].pba
    ensures var s' := s.(c := s.c.(jobData := s.c.jobData[j := s.c.slotData[i]], jobs := s.c.jobs[j := CompleteJob(s.c.jobs[j])]));
            Inv(s') && Refines(s, s', DidRead(s.c.jobs[j].pba, s.c.slotData[i]))
  {
    var s' := s.(c := s.c.(jobData := s.c.jobData[j := s.c.slotData[i]], jobs := s.c.jobs[j := CompleteJob(s.c.jobs[j])]));
    LogicalCases(s, s.c.jobs[j].pba);
    assert JobOk(s, j);
    forall p ensures Logical(s', p) == Logical(s, p) {
      LogicalCases(s, p);
      LogicalCases(s', p);
    }
    forall k | 0 <= k < |s.c.slots| && Reading(s.c.slots[k])
      ensures exists m :: 0 <= m < |s'.c.jobs| && ReadJobFor(s'.c.jobs[m], s.c.slots[k].pba)
    {
      var m :| 0 <= m < |s.c.jobs| && ReadJobFor(s.c.jobs[m], s.c.slots[k].pba);
      assert ReadJobFor(s'.c.jobs[m], s.c.slots[k].pba);
    }
    forall k | 0 <= k < |s.c.jobs| ensures JobOk(s', k) {
      assert JobOk(s, k);
    }
  }

  lemma ReadMissGood(s: Sys, j: nat, e: nat)
    requires Inv(s) && j < |s.c.jobs| && s.c.jobs[j].state == Submitted && s.c.jobs[j].prim.op == Read
    requires FirstMatch(s.c.slots, s.c.jobs[j].pba, 0) == |s.c.slots|
    requires e < |s.c.slots| && Evictable(s.c.slots[e], s.c.jobs)
    ensures var pba := s.c.jobs[j].pba;
            var s' := s.(c := s.c.(slots := s.c.slots[e := Slot(ReadGenerated, GeneratedPrim(Read, pba, e), pba)]));
            Inv(s') && Refines(s, s', NoEvent)
  {
    var pba := s.c.jobs[j].pba;
    var s' := s.(c := s.c.(slots := s.c.slots[e := Slot(ReadGenerated, GeneratedPrim(Read, pba, e), pba)]));
    assert forall k | 0 <= k < |s.c.slots| :: !Matches(s.c.slots[k], pba);
    assert SlotOk(s.c.slots[e], s.c.slotData[e], s.io[e], s.dev, e);
    assert SlotsDistinct(s'.c.slots);
    forall p ensures Logical(s', p) == Logical(s, p) {
      LogicalCases(s, p);
      LogicalCases(s', p);
      if k: nat :| k < |s.c.slots| && Holding(s.c.slots[k]) && s.c.slots[k].pba == p && k != e {
        assert Holding(s'.c.slots[k]) && s'.c.slots[k].pba == p;
      }
    }
    assert ReadJobFor(s'.c.jobs[j], pba);
    forall k | 0 <= k < |s.c.jobs| ensures JobOk(s', k) {
      assert JobOk(s, k);
    }
  }

  lemma ReadGood(s: Sys, j: nat)
    requires Inv(s) && j < |s.c.jobs| && s.c.jobs[j].state == Submitted && s.c.jobs[j].prim.op == Read
    ensures Good(s, RunJobStep(s, j))
  {
    var i := FirstMatch(s.c.slots, s.c.jobs[j].pba, 0);
    var e := FirstEvictable(s.c.slots, s.c.jobs, 0);
    if i < |s.c.slots| {
      if Holding(s.c.slots[i]) {
        ReadHitGood(s, j, i);
      }
    } else if e < |s.c.slots| {
      ReadMissGood(s, j, e);
    } else {
      AwaitRoomGood(s, j);
    }
  }

  // -------------------------------------------------------------- write jobs

  /** Slot i may take the data of write job j: it caches the block already, or no
      slot does and slot i can be evicted. */
  ghost predicate MayStore(s: Sys, j: nat, i: nat)
  {
    && Inv(s) && j < |s.c.jobs| && s.c.jobs[j].state == Submitted && s.c.jobs[j].prim.op == Write
    && i < |s.c.slots|
    && (|| ((s.c.slots[i].state == Clean || s.c.slots[i].state == Dirty) && s.c.slots[i].pba == s.c.jobs[j].pba)
        || (FirstMatch(s.c.slots, s.c.jobs[j].pba, 0) == |s.c.slots| && Evictable(s.c.slots[i], s.c.jobs)))
  }

  lemma StoreLogical(s: Sys, s': Sys, j: nat, i: nat, p: U64)
    requires MayStore(s, j, i) && s' == s.(c := StoreInSlot(s.c, j, i)) && SlotsDistinct(s'.c.slots)
    ensures Logical(s', p) == if p == s.c.jobs[j].pba then s.c.jobData[j] else Logical(s, p)
  {
    LogicalCases(s, p);
    LogicalCases(s', p);
    assert SlotOk(s.c.slots[i], s.c.slotData[i], s.io[i], s.dev, i);
    if p == s.c.jobs[j].pba {
      assert Holding(s'.c.slots[i]) && s'.c.slots[i].pba == p;
    } else if k: nat :| k < |s.c.slots| && Holding(s.c.slots[k]) && s.c.slots[k].pba == p && k != i {
      assert Holding(s'.c.slots[k]) && s'.c.slots[k].pba == p;
    } else {
      assert forall k | 0 <= k < |s.c.slots| && Holding(s'.c.slots[k]) :: s'.c.slots[k].pba != p;
    }
  }

  lemma StoreKeepsSlots(s: Sys, s': Sys, j: nat, i: nat)
    requires MayStore(s, j, i) && s' == s.(c := StoreInSlot(s.c, j, i))
    ensures SlotsDistinct(s'.c.slots) && ReadingOwned(s'.c) && SlotsOk(s')
  {
    assert SlotOk(s.c.slots[i], s.c.slotData[i], s.io[i], s.dev, i);
    assert forall k | 0 <= k < |s.c.slots| && k != i :: !Matches(s.c.slots[k], s.c.jobs[j].pba);
    forall k | 0 <= k < |s'.c.slots| && Reading(s'.c.slots[k])
      ensures exists m :: 0 <= m < |s'.c.jobs| && ReadJobFor(s'.c.jobs[m], s'.c.slots[k].pba)
    {
      var m :| 0 <= m < |s.c.jobs| && ReadJobFor(s.c.jobs[m], s.c.slots[k].pba);
      assert ReadJobFor(s'.c.jobs[m], s.c.slots[k].pba);
    }
  }

  lemma StoreGood(s: Sys, j: nat, i: nat)
    requires MayStore(s, j, i)
    ensures var s' := s.(c := StoreInSlot(s.c, j, i));
            Inv(s') && Refines(s, s', DidWrite(s.c.jobs[j].pba, s.c.jobData[j]))
  {
    var pba := s.c.jobs[j].pba;
    var s' := s.(c := StoreInSlot(s.c, j, i));
    StoreKeepsSlots(s, s', j, i);
    forall p ensures Logical(s', p) == if p == pba then s.c.jobData[j] else Logical(s, p) {
      StoreLogical(s, s', j, i, p);
    }
    assert JobOk(s, j);
    forall k | 0 <= k < |s.c.jobs| ensures JobOk(s', k) {
      assert JobOk(s, k);
      assert k != j && Busy(s.c.jobs[k]) && s.c.jobs[k].prim.op != Sync ==> s.c.jobs[k].pba != pba;
    }
  }

  lemma WriteGood(s: Sys, j: nat)
    requires Inv(s) && j < |s.c.jobs| && s.c.jobs[j].state == Submitted && s.c.jobs[j].prim.op == Write
    ensures Good(s, RunJobStep(s, j))
  {
    var i := FirstMatch(s.c.slots, s.c.jobs[j].pba, 0);
    var e := FirstEvictable(s.c.slots, s.c.jobs, 0);
    if i < |s.c.slots| {
      if s.c.slots[i].state == Clean || s.c.slots[i].state == Dirty {
        StoreGood(s, j, i);
      }
    } else if e < |s.c.slots| {
      StoreGood(s, j, e);
    } else {
      AwaitRoomGood(s, j);
    }
  }

  // -------------------------------------------------------------- sync jobs

  lemma FlushLogical(s: Sys, s': Sys, p: U64)
    requires Shaped(s) && SlotsDistinct(s.c.slots) && s' == s.(c := s.c.(slots := FlushFrom(s.c.slots, 0)))
    ensures SlotsDistinct(s'.c.slots) && Logical(s', p) == Logical(s, p)
  {
    LogicalCases(s, p);
    LogicalCases(s', p);
    if k: nat :| k < |s.c.slots| && Holding(s.c.slots[k]) && s.c.slots[k].pba == p {
      assert Holding(s'.c.slots[k]) && s'.c.slots[k].pba == p;
    }
  }

  lemma FlushGood(s: Sys)
    requires Inv(s)
    ensures var s' := s.(c := s.c.(slots := FlushFrom(s.c.slots, 0))); Inv(s') && Refines(s, s', NoEvent)
  {
    var s' := s.(c := s.c.(slots := FlushFrom(s.c.slots, 0)));
    forall p ensures SlotsDistinct(s'.c.slots) && Logical(s', p) == Logical(s, p) {
      FlushLogical(s, s', p);
    }
    forall i | 0 <= i < |s'.c.slots| ensures SlotOk(s'.c.slots[i], s'.c.slotData[i], s'.io[i], s'.dev, i) {
      assert SlotOk(s.c.slots[i], s.c.slotData[i], s.io[i], s.dev, i);
    }
    forall k | 0 <= k < |s.c.jobs| ensures JobOk(s', k) {
      assert JobOk(s, k);
    }
  }

  lemma SyncDoneGood(s: Sys, j: nat)
    requires Inv(s) && j < |s.c.jobs| && s.c.jobs[j].state == Submitted && s.c.jobs[j].prim.op == Sync
    requires !AnyUnwritten(s.c.slots)
    ensures var s' := s.(c := s.c.(jobs := s.c.jobs[j := CompleteJob(s.c.jobs[j])]));
            Inv(s') && Refines(s, s', DidSync(s.dev))
  {
    var s' := s.(c := s.c.(jobs := s.c.jobs[j := CompleteJob(s.c.jobs[j])]));
    forall p ensures Logical(s, p) == At(s.dev, p) && Logical(s', p) == Logical(s, p) {
      LogicalCases(s, p);
      LogicalCases(s', p);
      if i: nat :| i < |s.c.slots| && Holding(s.c.slots[i]) && s.c.slots[i].pba == p {
        assert !Unwritten(s.c.slots[i]);
        assert SlotOk(s.c.slots[i], s.c.slotData[i], s.io[i], s.dev, i);
      }
    }
    forall k | 0 <= k < |s.c.slots| && Reading(s.c.slots[k])
      ensures exists m :: 0 <= m < |s'.c.jobs| && ReadJobFor(s'.c.jobs[m], s.c.slots[k].pba)
    {
      var m :| 0 <= m < |s.c.jobs| && ReadJobFor(s.c.jobs[m], s.c.slots[k].pba);
      assert ReadJobFor(s'.c.jobs[m], s.c.slots[k].pba);
    }
    forall k | 0 <= k < |s.c.jobs| ensures JobOk(s', k) {
      assert JobOk(s, k);
    }
  }

  /** No job execution raises; each is a step of the logical block map. */
  lemma RunJobGood(s: Sys, j: nat)
    requires Inv(s)
    ensures Good(s, RunJobStep(s, j))
  {
    if j < |s.c.jobs| {
      if s.c.jobs[j].state == Submitted {
        match s.c.jobs[j].prim.op
        case Read => ReadGood(s, j);
        case Write => WriteGood(s, j);
        case Sync =>
          if AnyUnwritten(s.c.slots) { FlushGood(s); } else { SyncDoneGood(s, j); }
      }
    }
  }

  lemma DoGood(s: Sys, step: Step)
    requires Inv(s)
    ensures Good(s, Do(s, step))
  {
    match step
    case Submit(prim, data) => SubmitGood(s, prim, data);
    case RunJob(j) => RunJobGood(s, j);
    case Issue(i) => IssueGood(s, i);
    case Transfer(i) => TransferGood(s, i);
    case Finish(i) => FinishGood(s, i);
    case Ack(j) => AckGood(s, j);
  }

  // -------------------------------------------------------------- one Execute call

  /** The system after executing the jobs from index `from` on, one after the other. */
  ghost function AfterJobs(s: Sys, from: nat): Sys
    requires Inv(s) && from <= |s.c.jobs|
    decreases |s.c.jobs| - from
  {
    if from == |s.c.jobs| then s
    else
      RunJobGood(s, from);
      AfterJobs(RunJobStep(s, from).s, from + 1)
  }

  /** A call of Execute never raises, and is the same as stepping every job once. */
  lemma {:induction false} ExecuteStepsEveryJob(s: Sys, from: nat, progress: bool)
    requires Inv(s) && from <= |s.c.jobs|
    ensures ExecuteFrom(s.c, from, progress).Ok?
    ensures Inv(AfterJobs(s, from)) && AfterJobs(s, from) == s.(c := ExecuteFrom(s.c, from, progress).c)
    decreases |s.c.jobs| - from
  {
    if from < |s.c.jobs| {
      RunJobGood(s, from);
      var o := RunJobStep(s, from);
      ExecuteStepsEveryJob(o.s, from + 1, progress || o.progress);
    }
  }
}
