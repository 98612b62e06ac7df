/** A sync is not starved by clients that keep reading. */
module CacheSync {
  import opened NodeCodec
  import opened CacheSpec
  import opened CacheSystem
  import opened CacheSteps
  import opened CacheJobs
  import opened CacheProgress

  predicate SyncWaiting(s: Sys, j: nat)
  {
    j < |s.c.jobs| && s.c.jobs[j].state == Submitted && s.c.jobs[j].prim.op == Sync
  }

  // ----------------------------------------------------- writes not yet on the device

  function SlotDebt(slot: Slot, io: Io): nat
  {
    if Unwritten(slot) then SlotWork(slot, io) else 0
  }

  function JobDebt(job: Job): nat
  {
    if job.state == Submitted && job.prim.op == Write then 5 else 0
  }

  function SlotDebts(s: Sys): (ws: seq<nat>)
    requires Shaped(s)
    ensures |ws| == |s.c.slots| && forall i | 0 <= i < |ws| :: ws[i] == SlotDebt(s.c.slots[i], s.io[i])
  {
    seq(|s.c.slots|, i requires 0 <= i < |s.c.slots| => SlotDebt(s.c.slots[i], s.io[i]))
  }

  function JobDebts(s: Sys): (ws: seq<nat>)
    ensures |ws| == |s.c.jobs| && forall j | 0 <= j < |ws| :: ws[j] == JobDebt(s.c.jobs[j])
  {
    seq(|s.c.jobs|, j requires 0 <= j < |s.c.jobs| => JobDebt(s.c.jobs[j]))
  }

  /** Weighted number of accepted writes that are not on the device yet. */
  function Debt(s: Sys): nat
    requires Shaped(s)
  {
    Sum(SlotDebts(s)) + Sum(JobDebts(s))
  }

  lemma {:induction false} SumZero(ws: seq<nat>, i: nat)
    requires Sum(ws) == 0 && i < |ws|
    ensures ws[i] == 0
  {
    if i > 0 {
      SumZero(ws[1..], i - 1);
    }
  }

  lemma {:induction false} SumOfZeros(ws: seq<nat>)
    requires forall i | 0 <= i < |ws| :: ws[i] == 0
    ensures Sum(ws) == 0
  {
    if ws != [] {
      SumOfZeros(ws[1..]);
    }
  }

  lemma {:induction false} SumSame(ws: seq<nat>, vs: seq<nat>)
    requires |ws| == |vs| && forall k | 0 <= k < |ws| :: vs[k] <= ws[k]
    ensures Sum(vs) <= Sum(ws)
  {
    if ws != [] {
      SumSame(ws[1..], vs[1..]);
    }
  }

  // ------------------------------------------------------------ the debt only falls

  /** While a sync waits, no write is accepted. */
  lemma NoWriteAccepted(s: Sys, j: nat, prim: Prim, data: Block)
    requires Inv(s) && SyncWaiting(s, j) && prim.op == Write
    ensures SubmitStep(s, prim, data).Refused?
  {
    assert Affects(s.c.jobs[j], prim.blk);
  }

  lemma PointwiseDebt(s: Sys, s': Sys)
    requires Shaped(s) && Shaped(s') && |s'.c.slots| == |s.c.slots| && |s'.c.jobs| == |s.c.jobs|
    requires forall i | 0 <= i < |s.c.slots| :: SlotDebt(s'.c.slots[i], s'.io[i]) <= SlotDebt(s.c.slots[i], s.io[i])
    requires forall j | 0 <= j < |s.c.jobs| :: JobDebt(s'.c.jobs[j]) <= JobDebt(s.c.jobs[j])
    ensures Debt(s') <= Debt(s)
    ensures forall i | 0 <= i < |s.c.slots| && SlotDebt(s'.c.slots[i], s'.io[i]) < SlotDebt(s.c.slots[i], s.io[i]) :: Debt(s') < Debt(s)
  {
    SumSame(SlotDebts(s), SlotDebts(s'));
    SumSame(JobDebts(s), JobDebts(s'));
    if i: nat :| i < |s.c.slots| && SlotDebt(s'.c.slots[i], s'.io[i]) < SlotDebt(s.c.slots[i], s.io[i]) {
      SumDrop(SlotDebts(s), SlotDebts(s'), i, 1);
    }
  }

  lemma StoreLowersDebt(s: Sys, j: nat, i: nat)
    requires MayStore(s, j, i)
    ensures var s' := s.(c := StoreInSlot(s.c, j, i)); Shaped(s') && Debt(s') < Debt(s)
  {
    var s' := s.(c := StoreInSlot(s.c, j, i));
    assert SlotOk(s.c.slots[i], s.c.slotData[i], s.io[i], s.dev, i);
    SumDrop(JobDebts(s), JobDebts(s'), j, 5);
    SumRise(SlotDebts(s), SlotDebts(s'), i, 4);
  }

  /** Making room, flushing, reading or completing adds no unwritten data. */
  lemma RunOtherDebt(s: Sys, k: nat)
    requires Inv(s) && RunJobStep(s, k).Stepped? && s.c.jobs[k].prim.op != Write
    ensures Shaped(RunJobStep(s, k).s) && Debt(RunJobStep(s, k).s) <= Debt(s)
  {
    PointwiseDebt(s, RunJobStep(s, k).s);
  }

  lemma RunWriteDebt(s: Sys, k: nat)
    requires Inv(s) && RunJobStep(s, k).Stepped? && s.c.jobs[k].prim.op == Write
    ensures Shaped(RunJobStep(s, k).s) && Debt(RunJobStep(s, k).s) <= Debt(s)
  {
    var job := s.c.jobs[k];
    var i := FirstMatch(s.c.slots, job.pba, 0);
    var e := FirstEvictable(s.c.slots, s.c.jobs, 0);
    if job.state == Submitted && i < |s.c.slots| && (s.c.slots[i].state == Clean || s.c.slots[i].state == Dirty) {
      StoreLowersDebt(s, k, i);
    } else if job.state == Submitted && i == |s.c.slots| && e < |s.c.slots| {
      StoreLowersDebt(s, k, e);
    } else {
      PointwiseDebt(s, RunJobStep(s, k).s);
    }
  }

  lemma RunJobDebt(s: Sys, k: nat)
    requires Inv(s) && RunJobStep(s, k).Stepped?
    ensures Shaped(RunJobStep(s, k).s) && Debt(RunJobStep(s, k).s) <= Debt(s)
  {
    if s.c.jobs[k].prim.op == Write {
      RunWriteDebt(s, k);
    } else {
      RunOtherDebt(s, k);
    }
  }

  lemma SubmitDebt(s: Sys, j: nat, prim: Prim, data: Block)
    requires Inv(s) && SyncWaiting(s, j) && SubmitStep(s, prim, data).Stepped?
    ensures Shaped(SubmitStep(s, prim, data).s) && Debt(SubmitStep(s, prim, data).s) <= Debt(s)
  {
    if prim.op == Write {
      NoWriteAccepted(s, j, prim, data);
      assert false;
    }
    PointwiseDebt(s, SubmitStep(s, prim, data).s);
  }

  lemma DeviceDebt(s: Sys, step: Step)
    requires Inv(s) && (step.Issue? || step.Transfer? || step.Finish?) && Do(s, step).Stepped?
    ensures Shaped(Do(s, step).s) && Debt(Do(s, step).s) <= Debt(s)
  {
    assert SlotOk(s.c.slots[step.i], s.c.slotData[step.i], s.io[step.i], s.dev, step.i);
    PointwiseDebt(s, Do(s, step).s);
  }

  /** While a sync waits, no step adds to the writes that are not on the device,
      not even the submission of further reads. */
  lemma DebtOnlyFalls(s: Sys, j: nat, step: Step)
    requires Inv(s) && SyncWaiting(s, j) && Do(s, step).Stepped?
    ensures Shaped(Do(s, step).s) && Debt(Do(s, step).s) <= Debt(s)
  {
    match step
    case Submit(prim, data) => SubmitDebt(s, j, prim, data);
    case RunJob(k) => RunJobDebt(s, k);
    case Issue(_) | Transfer(_) | Finish(_) => DeviceDebt(s, step);
    case Ack(k) => PointwiseDebt(s, Do(s, step).s);
  }

  // ------------------------------------------------------------ and it can fall

  lemma WriteBackMoves(s: Sys, i: nat) returns (step: Step)
    requires Inv(s) && i < |s.c.slots| && WritingBack(s.c.slots[i])
    ensures !step.Submit? && Do(s, step).Stepped? && Shaped(Do(s, step).s) && Debt(Do(s, step).s) < Debt(s)
  {
    assert SlotOk(s.c.slots[i], s.c.slotData[i], s.io[i], s.dev, i);
    step := PendingSlotMoves(s, i);
    var s' := Do(s, step).s;
    PointwiseDebt(s, s');
    assert SlotDebt(s'.c.slots[i], s'.io[i]) < SlotDebt(s.c.slots[i], s.io[i]);
  }

  lemma FlushMoves(s: Sys, j: nat, i: nat)
    requires Inv(s) && SyncWaiting(s, j) && i < |s.c.slots| && s.c.slots[i].state == Dirty
    ensures RunJobStep(s, j).Stepped? && Shaped(RunJobStep(s, j).s) && Debt(RunJobStep(s, j).s) < Debt(s)
  {
    assert Unwritten(s.c.slots[i]);
    FlushEffect(s, j);
    FlushLowersDebt(s, i);
  }

  lemma FlushEffect(s: Sys, j: nat)
    requires Inv(s) && SyncWaiting(s, j) && AnyUnwritten(s.c.slots)
    ensures RunJobStep(s, j).Stepped? && RunJobStep(s, j).s == s.(c := s.c.(slots := FlushFrom(s.c.slots, 0)))
  {
    RunJobGood(s, j);
  }

  lemma FlushLowersDebt(s: Sys, i: nat)
    requires Inv(s) && i < |s.c.slots| && s.c.slots[i].state == Dirty
    ensures var s' := s.(c := s.c.(slots := FlushFrom(s.c.slots, 0)));
            Shaped(s') && Debt(s') < Debt(s)
  {
    var s' := s.(c := s.c.(slots := FlushFrom(s.c.slots, 0)));
    PointwiseDebt(s, s');
    assert SlotDebt(s'.c.slots[i], s'.io[i]) < SlotDebt(s.c.slots[i], s.io[i]);
  }

  lemma JobsDiffer(jobs: seq<Job>, k: nat, m: nat)
    requires JobsCompatible(jobs) && k < |jobs| && m < |jobs| && k != m
    requires WritesTo(jobs[k], jobs[k].pba) && Busy(jobs[m]) && jobs[m].prim.op != Sync
    ensures jobs[m].pba != jobs[k].pba
  {
  }

  /** A slot being read belongs to a read job, and no write job runs beside it. */
  lemma WriterFindsNoReader(s: Sys, k: nat, i: nat)
    requires Inv(s) && k < |s.c.jobs| && JobDebt(s.c.jobs[k]) > 0
    requires i < |s.c.slots| && s.c.slots[i].pba == s.c.jobs[k].pba
    ensures !Reading(s.c.slots[i])
  {
    if Reading(s.c.slots[i]) {
      var m: nat :| m < |s.c.jobs| && ReadJobFor(s.c.jobs[m], s.c.slots[i].pba);
      if m != k {
        JobsDiffer(s.c.jobs, k, m);
      }
    }
  }

  /** With everything on the device, a submitted write finds a slot at once. */
  lemma WriteJobMoves(s: Sys, k: nat)
    requires Inv(s) && k < |s.c.jobs| && JobDebt(s.c.jobs[k]) > 0 && !AnyUnwritten(s.c.slots)
    ensures RunJobStep(s, k).Stepped? && Shaped(RunJobStep(s, k).s) && Debt(RunJobStep(s, k).s) < Debt(s)
  {
    RunJobGood(s, k);
    var i := FirstMatch(s.c.slots, s.c.jobs[k].pba, 0);
    var e := FirstEvictable(s.c.slots, s.c.jobs, 0);
    assert forall d | 0 <= d < |s.c.slots| :: !Unwritten(s.c.slots[d]);
    if i < |s.c.slots| {
      assert !Unwritten(s.c.slots[i]);
      WriterFindsNoReader(s, k, i);
      StoreLowersDebt(s, k, i);
    } else if e < |s.c.slots| {
      StoreLowersDebt(s, k, e);
    } else {
      DirtySlotExists(s, k);
      assert false;
    }
  }

  /** While writes are missing on the device, some step brings one closer to it, and
      without any missing write the next execution of the sync completes it.  */
  lemma SyncIsNotStarved(s: Sys, j: nat) returns (step: Step)
    requires Inv(s) && SyncWaiting(s, j)
    ensures !step.Submit? && Do(s, step).Stepped? && Shaped(Do(s, step).s)
    ensures Debt(s) > 0 ==> Debt(Do(s, step).s) < Debt(s)
    ensures Debt(s) == 0 ==> step == RunJob(j) && Do(s, step).event == DidSync(s.dev)
    ensures Helps(s, j, step)
  {
    if i: nat :| i < |s.c.slots| && WritingBack(s.c.slots[i]) {
      assert Unwritten(s.c.slots[i]);
      assert SlotDebt(s.c.slots[i], s.io[i]) > 0;
      if Debt(s) == 0 { SumZero(SlotDebts(s), i); }
      step := WriteBackMoves(s, i);
    } else if i: nat :| i < |s.c.slots| && s.c.slots[i].state == Dirty {
      assert Unwritten(s.c.slots[i]);
      if Debt(s) == 0 { SumZero(SlotDebts(s), i); }
      step := RunJob(j);
      FlushMoves(s, j, i);
    } else if k: nat :| k < |s.c.jobs| && JobDebt(s.c.jobs[k]) > 0 {
      if Debt(s) == 0 { SumZero(JobDebts(s), k); }
      step := RunJob(k);
      WriteJobMoves(s, k);
    } else {
      step := RunJob(j);
      RunJobGood(s, j);
      SumOfZeros(SlotDebts(s));
      SumOfZeros(JobDebts(s));
    }
  }

  // ------------------------------------------------------------------- whole runs

  /** The state after a step; one that is not enabled is skipped. */
  function After(s: Sys, step: Step): Sys
    requires Shaped(s)
  {
    match Do(s, step)
    case Stepped(s', _, _) => s'
    case _ => s
  }

  /** The execution of sync j that completes it. */
  predicate Completes(s: Sys, j: nat, step: Step)
    requires Shaped(s)
  {
    step == RunJob(j) && Do(s, step).Stepped? && Do(s, step).event == DidSync(s.dev)
  }

  /** A step that brings a missing write closer to the device, or completes the sync. */
  predicate Helps(s: Sys, j: nat, step: Step)
    requires Shaped(s)
  {
    (Shaped(After(s, step)) && Debt(After(s, step)) < Debt(s)) || Completes(s, j, step)
  }

  /** How many steps of a run help. */
  function Helpful(s: Sys, steps: seq<Step>, j: nat): nat
    requires Shaped(s)
    decreases |steps|
  {
    if steps == [] || !Shaped(After(s, steps[0])) then 0
    else (if Helps(s, j, steps[0]) then 1 else 0) + Helpful(After(s, steps[0]), steps[1..], j)
  }

  predicate CompletesIn(s: Sys, steps: seq<Step>, j: nat)
    requires Shaped(s)
    decreases |steps|
  {
    && steps != []
    && (Completes(s, j, steps[0]) || (Shaped(After(s, steps[0])) && CompletesIn(After(s, steps[0]), steps[1..], j)))
  }

  lemma OnlyRunChanges(s: Sys, j: nat, step: Step)
    requires Inv(s) && SyncWaiting(s, j) && Do(s, step).Stepped? && step != RunJob(j)
    ensures SyncWaiting(Do(s, step).s, j)
  {
    if step.RunJob? {
      RunKeepsOthers(s, step.j, j);
    }
  }

  /** Executing one job leaves the other jobs alone. */
  lemma RunKeepsOthers(s: Sys, k: nat, j: nat)
    requires Inv(s) && RunJobStep(s, k).Stepped? && j < |s.c.jobs| && j != k
    ensures |RunJobStep(s, k).s.c.jobs| == |s.c.jobs| && RunJobStep(s, k).s.c.jobs[j] == s.c.jobs[j]
  {
  }

  lemma RunSyncCases(s: Sys, j: nat)
    requires Inv(s) && SyncWaiting(s, j) && RunJobStep(s, j).Stepped?
    ensures SyncWaiting(RunJobStep(s, j).s, j) || Completes(s, j, RunJob(j))
  {
  }

  /** A sync waits until it completes. */
  lemma WaitsOn(s: Sys, j: nat, step: Step)
    requires Inv(s) && SyncWaiting(s, j) && !Completes(s, j, step)
    ensures Inv(After(s, step)) && SyncWaiting(After(s, step), j)
    ensures Debt(After(s, step)) + (if Helps(s, j, step) then 1 else 0) <= Debt(s)
  {
    DoGood(s, step);
    if Do(s, step).Stepped? {
      DebtOnlyFalls(s, j, step);
      if step == RunJob(j) {
        RunSyncCases(s, j);
      } else {
        OnlyRunChanges(s, j, step);
      }
    }
  }

  /** Whatever steps a run consists of, in whatever order, and whatever reads arrive:
      if more than Debt(s) of its steps help, the waiting sync is completed by one of
      them.  By SyncIsNotStarved there is always a step that helps. */
  lemma {:induction false} SyncCompletesWithin(s: Sys, steps: seq<Step>, j: nat)
    requires Inv(s) && SyncWaiting(s, j) && Helpful(s, steps, j) > Debt(s)
    ensures CompletesIn(s, steps, j)
    decreases |steps|
  {
    if !Completes(s, j, steps[0]) {
      WaitsOn(s, j, steps[0]);
      SyncCompletesWithin(After(s, steps[0]), steps[1..], j);
    }
  }
}
