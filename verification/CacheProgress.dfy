/** The block cache drains, is never stuck, and cannot starve a sync. */
module CacheProgress {
  import opened NodeCodec
  import opened CacheSpec
  import opened CacheSystem
  import opened CacheSteps
  import opened CacheJobs

  // --------------------------------------------------------------------- sums

  function Sum(ws: seq<nat>): nat
  {
    if ws == [] then 0 else ws[0] + Sum(ws[1..])
  }

  lemma {:induction false} SumDrop(ws: seq<nat>, vs: seq<nat>, i: nat, d: nat)
    requires |vs| == |ws| && i < |ws| && vs[i] + d <= ws[i]
    requires forall k | 0 <= k < |ws| :: vs[k] <= ws[k]
    ensures Sum(vs) + d <= Sum(ws)
  {
    if i > 0 {
      SumDrop(ws[1..], vs[1..], i - 1, d);
    } else if |ws| > 1 {
      SumDrop(ws[1..], vs[1..], 0, 0);
    }
  }

  lemma {:induction false} SumRise(ws: seq<nat>, vs: seq<nat>, i: nat, d: nat)
    requires |vs| == |ws| && i < |ws| && vs[i] <= ws[i] + d
    requires forall k | 0 <= k < |ws| && k != i :: vs[k] <= ws[k]
    ensures Sum(vs) <= Sum(ws) + d
  {
    if i > 0 {
      SumRise(ws[1..], vs[1..], i - 1, d);
    } else if |ws| > 1 {
      SumDrop(ws[1..], vs[1..], 0, 0);
    }
  }

  // ------------------------------------------------------------- work left to do

  predicate Cached(slots: seq<Slot>, pba: U64)
  {
    exists i :: 0 <= i < |slots| && Matches(slots[i], pba)
  }

  function SlotWork(slot: Slot, io: Io): nat
  {
    match slot.state
    case Invalid => 0
    case Clean => 0
    case Dirty => 4
    case ReadGenerated => 3
    case WriteGenerated => 3
    case ReadInProgress => if io.Waiting? then 2 else 1
    case WriteInProgress => if io.Waiting? then 2 else 1
  }

  function JobWork(job: Job, slots: seq<Slot>): nat
  {
    match job.state
    case Free => 0
    case Completed => 1
    case Submitted =>
      match job.prim.op
      case Sync => 2
      case Write => 6
      case Read => if Cached(slots, job.pba) then 2 else 6
  }

  function SlotWorks(s: Sys): (ws: seq<nat>)
    requires Shaped(s)
    ensures |ws| == |s.c.slots| && forall i | 0 <= i < |ws| :: ws[i] == SlotWork(s.c.slots[i], s.io[i])
  {
    seq(|s.c.slots|, i requires 0 <= i < |s.c.slots| => SlotWork(s.c.slots[i], s.io[i]))
  }

  function JobWorks(s: Sys): (ws: seq<nat>)
    ensures |ws| == |s.c.jobs| && forall j | 0 <= j < |ws| :: ws[j] == JobWork(s.c.jobs[j], s.c.slots)
  {
    seq(|s.c.jobs|, j requires 0 <= j < |s.c.jobs| => JobWork(s.c.jobs[j], s.c.slots))
  }

  /** An upper bound on the steps with progress that can still happen. */
  function Work(s: Sys): nat
    requires Shaped(s)
  {
    Sum(SlotWorks(s)) + Sum(JobWorks(s))
  }

  /** A step of the work on slot i alone. */
  lemma SlotStepWorks(s: Sys, s': Sys, i: nat)
    requires OneSlot(s, s', i) && s'.c.slots[i].state != Invalid && s.c.slots[i].state != Invalid
    requires s'.c.slots[i].pba == s.c.slots[i].pba
    requires SlotWork(s'.c.slots[i], s'.io[i]) < SlotWork(s.c.slots[i], s.io[i])
    ensures Shaped(s') && Work(s') < Work(s)
  {
    forall p ensures Cached(s'.c.slots, p) == Cached(s.c.slots, p) {
      if k: nat :| k < |s.c.slots| && Matches(s.c.slots[k], p) {
        assert Matches(s'.c.slots[k], p);
      }
      if k: nat :| k < |s.c.slots| && Matches(s'.c.slots[k], p) {
        assert Matches(s.c.slots[k], p);
      }
    }
    SumDrop(SlotWorks(s), SlotWorks(s'), i, 1);
    assert JobWorks(s) == JobWorks(s');
  }

  lemma IssueWorks(s: Sys, i: nat)
    requires Inv(s) && IssueStep(s, i).Stepped?
    ensures Shaped(IssueStep(s, i).s) && Work(IssueStep(s, i).s) < Work(s)
  {
    SlotStepWorks(s, IssueStep(s, i).s, i);
  }

  lemma TransferWorks(s: Sys, i: nat)
    requires Inv(s) && TransferStep(s, i).Stepped?
    ensures Shaped(TransferStep(s, i).s) && Work(TransferStep(s, i).s) < Work(s)
  {
    assert SlotOk(s.c.slots[i], s.c.slotData[i], s.io[i], s.dev, i);
    SlotStepWorks(s, TransferStep(s, i).s, i);
  }

  lemma FinishWorks(s: Sys, i: nat)
    requires Inv(s) && FinishStep(s, i).Stepped?
    ensures Shaped(FinishStep(s, i).s) && Work(FinishStep(s, i).s) < Work(s)
  {
    assert SlotOk(s.c.slots[i], s.c.slotData[i], s.io[i], s.dev, i);
    SlotStepWorks(s, FinishStep(s, i).s, i);
  }

  /** A job step that leaves the slots alone. */
  lemma JobStepWorks(s: Sys, s': Sys, j: nat)
    requires Shaped(s) && Shaped(s') && s'.c.slots == s.c.slots && s'.io == s.io
    requires j < |s.c.jobs| == |s'.c.jobs| && s'.c.jobs == s.c.jobs[j := s'.c.jobs[j]]
    requires JobWork(s'.c.jobs[j], s.c.slots) < JobWork(s.c.jobs[j], s.c.slots)
    ensures Work(s') < Work(s)
  {
    SumDrop(JobWorks(s), JobWorks(s'), j, 1);
    assert SlotWorks(s) == SlotWorks(s');
  }

  /** Blocks other jobs wait for stay cached when slot e is reused. */
  lemma ReuseKeepsCached(s: Sys, slots': seq<Slot>, e: nat, k: nat)
    requires e < |s.c.slots| == |slots'| && Evictable(s.c.slots[e], s.c.jobs)
    requires forall i | 0 <= i < |slots'| && i != e :: slots'[i] == s.c.slots[i]
    requires k < |s.c.jobs| && s.c.jobs[k].prim.op != Sync && Cached(s.c.slots, s.c.jobs[k].pba)
    ensures Cached(slots', s.c.jobs[k].pba)
  {
    var i :| 0 <= i < |s.c.slots| && Matches(s.c.slots[i], s.c.jobs[k].pba);
    if i == e {
      assert Pinned(s.c.slots[e], s.c.jobs);
      assert false;
    }
    assert Matches(slots'[i], s.c.jobs[k].pba);
  }

  lemma ReadMissWorks(s: Sys, j: nat)
    requires Inv(s) && j < |s.c.jobs| && s.c.jobs[j].state == Submitted && s.c.jobs[j].prim.op == Read
    requires FirstMatch(s.c.slots, s.c.jobs[j].pba, 0) == |s.c.slots|
    requires FirstEvictable(s.c.slots, s.c.jobs, 0) < |s.c.slots|
    ensures RunJobStep(s, j).Stepped? && Shaped(RunJobStep(s, j).s) && Work(RunJobStep(s, j).s) < Work(s)
  {
    var e := FirstEvictable(s.c.slots, s.c.jobs, 0);
    var s' := RunJobStep(s, j).s;
    assert SlotOk(s.c.slots[e], s.c.slotData[e], s.io[e], s.dev, e);
    forall k | 0 <= k < |s.c.jobs| ensures JobWorks(s')[k] <= JobWorks(s)[k] {
      if s.c.jobs[k].prim.op != Sync && Cached(s.c.slots, s.c.jobs[k].pba) {
        ReuseKeepsCached(s, s'.c.slots, e, k);
      }
    }
    assert !Cached(s.c.slots, s.c.jobs[j].pba);
    assert Matches(s'.c.slots[e], s.c.jobs[j].pba);
    SumDrop(JobWorks(s), JobWorks(s'), j, 4);
    SumRise(SlotWorks(s), SlotWorks(s'), e, 3);
  }

  lemma StoreWorks(s: Sys, j: nat, i: nat)
    requires MayStore(s, j, i)
    ensures var s' := s.(c := StoreInSlot(s.c, j, i)); Shaped(s') && Work(s') < Work(s)
  {
    var s' := s.(c := StoreInSlot(s.c, j, i));
    assert SlotOk(s.c.slots[i], s.c.slotData[i], s.io[i], s.dev, i);
    forall k | 0 <= k < |s.c.jobs| ensures JobWorks(s')[k] <= JobWorks(s)[k] {
      if s.c.jobs[k].prim.op != Sync && Cached(s.c.slots, s.c.jobs[k].pba) {
        if s.c.slots[i].pba == s.c.jobs[j].pba && s.c.slots[i].state != Invalid {
          var m :| 0 <= m < |s.c.slots| && Matches(s.c.slots[m], s.c.jobs[k].pba);
          assert Matches(s'.c.slots[m], s.c.jobs[k].pba);
        } else {
          ReuseKeepsCached(s, s'.c.slots, i, k);
        }
      }
    }
    SumDrop(JobWorks(s), JobWorks(s'), j, 5);
    SumRise(SlotWorks(s), SlotWorks(s'), i, 4);
  }

  lemma AwaitRoomWorks(s: Sys)
    requires Inv(s) && AwaitRoom(s.c).Ok?
    ensures var s' := s.(c := AwaitRoom(s.c).c);
            Shaped(s') && if AwaitRoom(s.c).progress then Work(s') < Work(s) else s' == s
  {
    if !WriteBackInProgress(s.c.slots) {
      SlotStepWorks(s, s.(c := AwaitRoom(s.c).c), FirstDirty(s.c.slots, 0));
    }
  }

  lemma FlushKeepsCached(slots: seq<Slot>, p: U64)
    ensures Cached(FlushFrom(slots, 0), p) == Cached(slots, p)
  {
    var r := FlushFrom(slots, 0);
    if k: nat :| k < |slots| && Matches(slots[k], p) {
      assert Matches(r[k], p);
    }
    if k: nat :| k < |slots| && Matches(r[k], p) {
      assert Matches(slots[k], p);
    }
  }

  lemma FlushKeepsJobWorks(s: Sys, s': Sys)
    requires Shaped(s) && s' == s.(c := s.c.(slots := FlushFrom(s.c.slots, 0)))
    ensures JobWorks(s) == JobWorks(s')
  {
    forall j | 0 <= j < |s.c.jobs| ensures JobWorks(s)[j] == JobWorks(s')[j] {
      FlushKeepsCached(s.c.slots, s.c.jobs[j].pba);
    }
  }

  lemma FlushWorks(s: Sys)
    requires Inv(s)
    ensures var s' := s.(c := s.c.(slots := FlushFrom(s.c.slots, 0)));
            Shaped(s') && if FirstDirty(s.c.slots, 0) < |s.c.slots| then Work(s') < Work(s) else s' == s
  {
    var s' := s.(c := s.c.(slots := FlushFrom(s.c.slots, 0)));
    var i := FirstDirty(s.c.slots, 0);
    if i < |s.c.slots| {
      SumDrop(SlotWorks(s), SlotWorks(s'), i, 1);
      FlushKeepsJobWorks(s, s');
    } else {
      assert s'.c.slots == s.c.slots;
    }
  }

  /** What a job step is to show: progress is less work, no progress no change. */
  ghost predicate StepWorks(s: Sys, j: nat)
    requires Shaped(s)
  {
    var o := RunJobStep(s, j);
    o.Stepped? ==> Shaped(o.s) && if o.progress then Work(o.s) < Work(s) else o.s == s
  }

  lemma RunSyncWorks(s: Sys, j: nat)
    requires Inv(s) && j < |s.c.jobs| && s.c.jobs[j].state == Submitted && s.c.jobs[j].prim.op == Sync
    ensures StepWorks(s, j)
  {
    if AnyUnwritten(s.c.slots) {
      FlushWorks(s);
    } else {
      JobStepWorks(s, RunJobStep(s, j).s, j);
    }
  }

  lemma RunReadWorks(s: Sys, j: nat)
    requires Inv(s) && j < |s.c.jobs| && s.c.jobs[j].state == Submitted && s.c.jobs[j].prim.op == Read
    requires RunJobStep(s, j).Stepped?
    ensures StepWorks(s, j)
  {
    var i := FirstMatch(s.c.slots, s.c.jobs[j].pba, 0);
    if i < |s.c.slots| {
      if Holding(s.c.slots[i]) {
        JobStepWorks(s, RunJobStep(s, j).s, j);
      }
    } else if FirstEvictable(s.c.slots, s.c.jobs, 0) == |s.c.slots| {
      AwaitRoomWorks(s);
    } else {
      ReadMissWorks(s, j);
    }
  }

  lemma RunWriteWorks(s: Sys, j: nat)
    requires Inv(s) && j < |s.c.jobs| && s.c.jobs[j].state == Submitted && s.c.jobs[j].prim.op == Write
    requires RunJobStep(s, j).Stepped?
    ensures StepWorks(s, j)
  {
    var i := FirstMatch(s.c.slots, s.c.jobs[j].pba, 0);
    var e := FirstEvictable(s.c.slots, s.c.jobs, 0);
    if i < |s.c.slots| {
      if s.c.slots[i].state == Clean || s.c.slots[i].state == Dirty {
        StoreWorks(s, j, i);
      }
    } else if e == |s.c.slots| {
      AwaitRoomWorks(s);
    } else {
      StoreWorks(s, j, e);
    }
  }

  lemma RunJobWorks(s: Sys, j: nat)
    requires Inv(s) && RunJobStep(s, j).Stepped?
    ensures StepWorks(s, j)
  {
    var job := s.c.jobs[j];
    if job.state == Submitted {
      match job.prim.op
      case Sync => RunSyncWorks(s, j);
      case Read => RunReadWorks(s, j);
      case Write => RunWriteWorks(s, j);
    }
  }

  /** All jobs from index `from` on: progress is reported exactly if there is less work
      afterwards, and otherwise nothing has changed. */
  lemma {:induction false} ExecuteWorks(s: Sys, from: nat, progress: bool)
    requires Inv(s) && from <= |s.c.jobs|
    ensures ExecuteFrom(s.c, from, progress).Ok? && ExecuteFrom(s.c, from, false).Ok?
    ensures var r := AfterJobs(s, from);
            && Shaped(r) && r == s.(c := ExecuteFrom(s.c, from, progress).c)
            && (if ExecuteFrom(s.c, from, false).progress then Work(r) < Work(s) else r == s)
            && ExecuteFrom(s.c, from, progress).progress == (progress || ExecuteFrom(s.c, from, false).progress)
    decreases |s.c.jobs| - from
  {
    ExecuteStepsEveryJob(s, from, progress);
    ExecuteStepsEveryJob(s, from, false);
    if from < |s.c.jobs| {
      RunJobGood(s, from);
      RunJobWorks(s, from);
      var o := RunJobStep(s, from);
      ExecuteWorks(o.s, from + 1, progress || o.progress);
      ExecuteWorks(o.s, from + 1, o.progress);
    }
  }

  /** An Execute call reports progress if and only if it has changed something. */
  lemma ExecuteReportsProgress(s: Sys)
    requires Inv(s)
    ensures var r := ExecuteFrom(s.c, 0, false);
            r.Ok? && (r.progress <==> r.c != s.c)
  {
    ExecuteWorks(s, 0, false);
  }

  /** Without new submissions, every step that reports progress leaves less work,
      and every other step changes nothing: the cache drains. */
  lemma ProgressDrains(s: Sys, step: Step)
    requires Inv(s) && !step.Submit? && Do(s, step).Stepped?
    ensures var o := Do(s, step); Shaped(o.s) && if o.progress then Work(o.s) < Work(s) else o.s == s
  {
    match step
    case RunJob(j) => RunJobWorks(s, j);
    case Issue(i) => IssueWorks(s, i);
    case Transfer(i) => TransferWorks(s, i);
    case Finish(i) => FinishWorks(s, i);
    case Ack(j) => JobStepWorks(s, Do(s, step).s, j);
  }

  // ------------------------------------------------------------------ never stuck

  /** Some operation of slot i is under way: handing it to the device, the device
      carrying it out, or its completion is possible. */
  lemma PendingSlotMoves(s: Sys, i: nat) returns (step: Step)
    requires Inv(s) && i < |s.c.slots| && (Reading(s.c.slots[i]) || WritingBack(s.c.slots[i]))
    ensures step in {Issue(i), Transfer(i), Finish(i)} && Do(s, step).Stepped? && Do(s, step).progress
  {
    assert SlotOk(s.c.slots[i], s.c.slotData[i], s.io[i], s.dev, i);
    step := if Generated(s.c.slots[i]) then Issue(i) else if s.io[i].Waiting? then Transfer(i) else Finish(i);
  }

  /** As long as a job is submitted, the cache makes progress: its execution does,
      or an operation of a slot is outstanding at the device. */
  lemma SubmittedJobMoves(s: Sys, j: nat) returns (step: Step)
    requires Inv(s) && j < |s.c.jobs| && s.c.jobs[j].state == Submitted
    ensures !step.Submit? && Do(s, step).Stepped? && Do(s, step).progress
    ensures step == RunJob(j) || exists i :: 0 <= i < |s.c.slots| && step in {Issue(i), Transfer(i), Finish(i)}
  {
    if i: nat :| i < |s.c.slots| && (Reading(s.c.slots[i]) || WritingBack(s.c.slots[i])) {
      step := PendingSlotMoves(s, i);
    } else {
      step := RunJob(j);
      RunJobGood(s, j);
      var k := FirstMatch(s.c.slots, s.c.jobs[j].pba, 0);
      assert k < |s.c.slots| ==> !Reading(s.c.slots[k]) && !WritingBack(s.c.slots[k]);
      if AnyUnwritten(s.c.slots) {
        var d :| 0 <= d < |s.c.slots| && Unwritten(s.c.slots[d]);
        assert s.c.slots[d].state == Dirty;
      }
    }
  }

  /** Steps that all make progress and submit nothing: there are at most Work(s) of
      them, and when no more are possible no job is submitted or unacknowledged. */
  ghost predicate Draining(s: Sys, steps: seq<Step>)
    requires Inv(s)
    decreases |steps|
  {
    steps == [] ||
    (var o := Do(s, steps[0]);
     !steps[0].Submit? && o.Stepped? && o.progress && (DoGood(s, steps[0]); Draining(o.s, steps[1..])))
  }

  ghost function Drained(s: Sys, steps: seq<Step>): Sys
    requires Inv(s) && Draining(s, steps)
    decreases |steps|
  {
    if steps == [] then s else (DoGood(s, steps[0]); Drained(Do(s, steps[0]).s, steps[1..]))
  }

  lemma {:induction false} DrainIsBounded(s: Sys, steps: seq<Step>)
    requires Inv(s) && Draining(s, steps)
    ensures Inv(Drained(s, steps)) && Work(Drained(s, steps)) + |steps| <= Work(s)
    decreases |steps|
  {
    if steps != [] {
      DoGood(s, steps[0]);
      ProgressDrains(s, steps[0]);
      DrainIsBounded(Do(s, steps[0]).s, steps[1..]);
    }
  }

  lemma DrainCompletesEveryJob(s: Sys, steps: seq<Step>)
    requires Inv(s) && Draining(s, steps)
    ensures var r := Drained(s, steps);
            Inv(r) &&
            (|| (forall j | 0 <= j < |r.c.jobs| :: r.c.jobs[j].state == Free)
             || exists step: Step :: !step.Submit? && Do(r, step).Stepped? && Do(r, step).progress)
  {
    DrainIsBounded(s, steps);
    var r := Drained(s, steps);
    if j: nat :| j < |r.c.jobs| && r.c.jobs[j].state != Free {
      if r.c.jobs[j].state == Completed {
        assert Do(r, Ack(j)).Stepped? && Do(r, Ack(j)).progress;
      } else {
        var step := SubmittedJobMoves(r, j);
      }
    }
  }
}
