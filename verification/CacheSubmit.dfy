/** Which submissions the cache accepts, and what becomes of them. */
module CacheSubmit {
  import opened NodeCodec
  import opened CacheSpec
  import S = CacheSystem

  /** No job under work keeps the primitive out: a write waits for syncs and for all
      work on its block, a read or sync waits for writes of its block only. */
  ghost predicate Admissible(jobs: seq<Job>, prim: Prim)
  {
    forall j | 0 <= j < |jobs| && jobs[j].state != Free ::
      if prim.op == Write then jobs[j].prim.op != Sync && jobs[j].pba != prim.blk
      else !(jobs[j].prim.op == Write && jobs[j].pba == prim.blk)
  }

  ghost predicate HasFree(jobs: seq<Job>)
  {
    exists j :: 0 <= j < |jobs| && jobs[j].state == Free
  }

  /** A primitive is accepted if and only if it is valid and not carried out yet,
      some job is free, and no job under work conflicts with it. */
  lemma AcceptedIff(c: Cache, prim: Prim)
    requires Sized(c)
    ensures Submit(c, prim).Ok? <==> prim.valid && !prim.success && HasFree(c.jobs) && Admissible(c.jobs, prim)
  {
  }

  /** The first free job takes an accepted primitive; nothing else changes. */
  lemma AcceptedTakesFirstFree(c: Cache, prim: Prim) returns (j: nat)
    requires Sized(c) && Submit(c, prim).Ok?
    ensures j < |c.jobs| && c.jobs[j].state == Free && forall k | 0 <= k < j :: c.jobs[k].state != Free
    ensures var r := Submit(c, prim).c;
            && r.slots == c.slots && r.slotData == c.slotData && r.jobData == c.jobData
            && |r.jobs| == |c.jobs| && r.jobs[j] == Job(Submitted, prim, prim.blk)
            && forall k | 0 <= k < |c.jobs| && k != j :: r.jobs[k] == c.jobs[k]
  {
    j := FirstFree(c.jobs, 0);
  }

  /** The client's data goes to that job, and to no other one. */
  lemma AcceptedTakesData(s: S.Sys, prim: Prim, data: Block) returns (j: nat)
    requires S.Shaped(s) && prim.valid && !prim.success && HasFree(s.c.jobs) && Admissible(s.c.jobs, prim)
    ensures j < |s.c.jobs| && s.c.jobs[j].state == Free
    ensures var o := S.Do(s, S.Submit(prim, data));
            && o.Stepped? && S.Shaped(o.s) && o.event == S.NoEvent
            && o.s.c.jobs[j] == Job(Submitted, prim, prim.blk) && o.s.c.jobData[j] == data
            && (forall k | 0 <= k < |s.c.jobs| && k != j :: o.s.c.jobs[k] == s.c.jobs[k] && o.s.c.jobData[k] == s.c.jobData[k])
            && o.s.c.slots == s.c.slots && o.s.c.slotData == s.c.slotData && o.s.dev == s.dev && o.s.io == s.io
  {
    AcceptedIff(s.c, prim);
    j := AcceptedTakesFirstFree(s.c, prim);
  }

  // ------------------------------------------------------------ many at a time

  function FreeJobs(jobs: seq<Job>): nat
  {
    if jobs == [] then 0 else (if jobs[0].state == Free then 1 else 0) + FreeJobs(jobs[1..])
  }

  lemma {:induction false} FreeJobsUpdate(jobs: seq<Job>, j: nat, job: Job)
    requires j < |jobs| && jobs[j].state == Free && job.state != Free
    ensures FreeJobs(jobs) == FreeJobs(jobs[j := job]) + 1
  {
    if j == 0 {
      assert jobs[0 := job][1..] == jobs[1..];
    } else {
      FreeJobsUpdate(jobs[1..], j - 1, job);
      assert jobs[j := job][1..] == jobs[1..][j - 1 := job];
    }
  }

  lemma {:induction false} SomeFree(jobs: seq<Job>)
    requires FreeJobs(jobs) > 0
    ensures HasFree(jobs)
  {
    if jobs[0].state != Free {
      SomeFree(jobs[1..]);
      var j :| 0 <= j < |jobs[1..]| && jobs[1..][j].state == Free;
      assert jobs[j + 1].state == Free;
    }
  }

  /** Submit one primitive after the other; stops at the first refused one. */
  function SubmitAll(c: Cache, prims: seq<Prim>): Result
    requires Sized(c)
    decreases |prims|
  {
    if prims == [] then Ok(c, true)
    else match Submit(c, prims[0])
      case Ok(c', _) => SubmitAll(c', prims[1..])
      case ProgramError => ProgramError
  }

  ghost predicate Harmless(jobs: seq<Job>, prims: seq<Prim>)
  {
    forall i | 0 <= i < |prims| ::
      prims[i].valid && !prims[i].success && prims[i].op != Write && Admissible(jobs, prims[i])
  }

  /** The number of jobs that hold a primitive as submitted. */
  ghost function Holding(jobs: seq<Job>, prim: Prim): nat
  {
    multiset(jobs)[Job(Submitted, prim, prim.blk)]
  }

  lemma HarmlessStays(jobs: seq<Job>, j: nat, prims: seq<Prim>)
    requires Harmless(jobs, prims) && prims != [] && j < |jobs|
    ensures Harmless(jobs[j := Job(Submitted, prims[0], prims[0].blk)], prims[1..])
  {
    var jobs' := jobs[j := Job(Submitted, prims[0], prims[0].blk)];
    forall i | 0 <= i < |prims[1..]| ensures Admissible(jobs', prims[1..][i]) {
      assert Admissible(jobs, prims[i + 1]) && prims[1..][i] == prims[i + 1];
    }
  }

  /** As long as there are free jobs, any number of reads and syncs is accepted, of one
      block as of many, whatever reads and syncs are under work already; only a write
      of the same block keeps them out.  */
  lemma {:induction false} ReadsAndSyncsAreAccepted(c: Cache, prims: seq<Prim>)
    requires Sized(c) && Harmless(c.jobs, prims) && |prims| <= FreeJobs(c.jobs)
    ensures var r := SubmitAll(c, prims);
            && r.Ok? && |r.c.jobs| == |c.jobs| && FreeJobs(r.c.jobs) == FreeJobs(c.jobs) - |prims|
            && (forall k | 0 <= k < |c.jobs| && c.jobs[k].state != Free :: r.c.jobs[k] == c.jobs[k])
            && (forall prim :: Holding(r.c.jobs, prim) == Holding(c.jobs, prim) + multiset(prims)[prim])
    decreases |prims|
  {
    if prims != [] {
      var p := prims[0];
      SomeFree(c.jobs);
      AcceptedIff(c, p);
      var j := AcceptedTakesFirstFree(c, p);
      var c' := Submit(c, p).c;
      assert c'.jobs == c.jobs[j := Job(Submitted, p, p.blk)];
      FreeJobsUpdate(c.jobs, j, Job(Submitted, p, p.blk));
      HarmlessStays(c.jobs, j, prims);
      ReadsAndSyncsAreAccepted(c', prims[1..]);
      assert prims == [p] + prims[1..];
      HoldingUpdate(c.jobs, j, p);
    }
  }

  lemma HoldingUpdate(jobs: seq<Job>, j: nat, p: Prim)
    requires j < |jobs| && jobs[j].state == Free
    ensures forall prim :: Holding(jobs[j := Job(Submitted, p, p.blk)], prim) == Holding(jobs, prim) + multiset{p}[prim]
  {
    var job := Job(Submitted, p, p.blk);
    assert multiset(jobs[j := job]) == multiset(jobs) - multiset{jobs[j]} + multiset{job} by {
      assert jobs == jobs[..j] + [jobs[j]] + jobs[j + 1..];
      assert jobs[j := job] == jobs[..j] + [job] + jobs[j + 1..];
    }
  }

  /** While a sync waits, one block can be read by as many jobs as are free. */
  lemma ReadsWhileSyncWaits(c: Cache, blk: U64, index: nat, n: nat, s: nat)
    requires Sized(c) && s < |c.jobs| && c.jobs[s].state == Submitted && c.jobs[s].prim.op == Sync
    requires n <= FreeJobs(c.jobs)
    requires forall j | 0 <= j < |c.jobs| && c.jobs[j].state != Free && c.jobs[j].prim.op == Write :: c.jobs[j].pba != blk
    ensures var p := Prim(true, Read, false, blk, index);
            var r := SubmitAll(c, seq(n, _ => p));
            r.Ok? && s < |r.c.jobs| && r.c.jobs[s] == c.jobs[s] && Holding(r.c.jobs, p) == Holding(c.jobs, p) + n
  {
    var p := Prim(true, Read, false, blk, index);
    ReadsAndSyncsAreAccepted(c, seq(n, _ => p));
    Repeated(p, n);
  }

  lemma {:induction false} Repeated(p: Prim, n: nat)
    ensures multiset(seq(n, _ => p))[p] == n
  {
    if n > 0 {
      Repeated(p, n - 1);
      assert seq(n, _ => p) == seq(n - 1, _ => p) + [p];
    }
  }
}
