/** A step that waits for an address, and the same step with that address.

    The meta tree changes the device while the step waits.  As the step has only read
    nodes of its own tree by then, it is in the state that it had reached on the
    changed device, too, with the new address in its supply.  */
module FtSupply {
  import opened NodeCodec
  import opened HashTree
  import opened TreeIndex
  import opened FtSpec
  import opened FtInv
  import opened FtTheorems
  import opened Iteration
  import R = FtRead

  /** The same request on another device, with an address more. */
  ghost predicate Supplement(o: World, o': World, t: Tree, x: U64)
  {
    && o' == o.(disk := o'.disk, supply := o.supply + [x]) && ValidDegree(o.job.edges)
    && forall p :: Uses(t, o.job.edges, Every, p) > 0 ==> SameBlock(o.disk, o'.disk, p)
  }

  /** The state w of the one run as a state of the other. */
  function Supplemented(w: World, disk: Disk, x: U64): World
  {
    w.(disk := disk, supply := w.supply + [x])
  }

  /** The state of the other run: one that waits here is served there. */
  function Counterpart(c: Codec, w: World, disk: Disk, x: U64): World
    requires Shaped(w.job)
  {
    var w' := Supplemented(w, disk, x);
    if Waiting(w) then Serve(c, w') else w'
  }

  /** Before the first write a step has only read. */
  ghost predicate Before(c: Codec, o: World, t: Tree, w: World)
  {
    IsRunning(c, o, t, w) && w.written == []
  }

  lemma BeforeWrites(c: Codec, o: World, t: Tree, w: World)
    requires Before(c, o, t, w)
    ensures w.disk == o.disk && Shaped(w.job) && Shaped(o.job)
  {
    RunningState(c, o, t, w);
    if !(w == o && Request(c, o, t)) {
      var g, u :| Running(c, o, t, w, g, u);
      RunningShaped(c, o, t, w, g, u);
    }
    SameEverywhere(o.disk, w.disk, w.written);
  }

  lemma SameEverywhere(a: Disk, b: Disk, written: seq<U64>)
    requires written == []
    requires forall p :: p !in written ==> (p in a <==> p in b) && (p in a ==> b[p] == a[p])
    ensures a == b
  {
    assert a.Keys == b.Keys;
  }

  // -------------------------------------------------- blocks read belong to the tree

  lemma ReadsRoot(c: Codec, o: World, t: Tree)
    requires Request(c, o, t)
    ensures CanExecute(o.job)
    ensures var j := Execute(c, o.job);
            Reading(j.state) ==> Uses(t, o.job.edges, Every, j.block) > 0
  {
  }

  lemma ReadsChild(c: Codec, o: World, t: Tree, w: World, g: Ghost)
    requires ReadingInv(c, o, t, w, g) && CanExecute(w.job) && Reading(Execute(c, w.job).state)
    ensures Uses(t, o.job.edges, Every, Execute(c, w.job).block) > 0
  {
    ReadsNext(c, o, t, w, g);
    var next := R.Descends(c, o, t, w, g);
    var w' := Advance(c, w);
    R.PathNodeUsed(c, o, t, w', next, w'.job.lvl);
  }

  /** A round that reads has met a child. */
  lemma ReadsNext(c: Codec, o: World, t: Tree, w: World, g: Ghost)
    requires ReadingInv(c, o, t, w, g) && CanExecute(w.job) && Reading(Execute(c, w.job).state)
    ensures w.job.lvl > 1 && w.job.t1[w.job.lvl][ChildIndex(w.job.vba, w.job.lvl, w.job.edges)].pba != 0
    ensures Advance(c, w).job.lvl <= w.job.maxLevel
    ensures Execute(c, w.job).block == Advance(c, w).job.oldPbas[Advance(c, w).job.lvl]
  {
  }

  lemma ReadsOwnBlock(c: Codec, o: World, t: Tree, w: World)
    requires IsRunning(c, o, t, w) && CanExecute(w.job)
    ensures var j := Execute(c, w.job);
            Reading(j.state) ==> Uses(t, o.job.edges, Every, j.block) > 0
  {
    if w == o && Request(c, o, t) {
      ReadsRoot(c, o, t);
    } else if Reading(Execute(c, w.job).state) {
      var g, u :| Running(c, o, t, w, g, u);
      ReadingState(c, o, t, w, g, u);
      ReadsChild(c, o, t, w, g);
    }
  }

  lemma ReadingState(c: Codec, o: World, t: Tree, w: World, g: Ghost, u: Tree)
    requires Running(c, o, t, w, g, u) && CanExecute(w.job) && Reading(Execute(c, w.job).state)
    ensures ReadingInv(c, o, t, w, g)
  {
    ReadsAfterReading(c, w.job);
  }

  lemma ReadsAfterReading(c: Codec, j: Job)
    requires CanExecute(j) && Reading(Execute(c, j).state)
    ensures !j.state.AllocCompleted? && !j.state.AllocPending? && !j.state.WriteInnerCompleted? && !j.state.WriteRootCompleted?
  {
  }

  // ------------------------------------------------------------------- both runs

  lemma ServeSame(c: Codec, w: World, disk: Disk, x: U64)
    requires Shaped(w.job) && !Writing(w.job.state)
    requires Reading(w.job.state) ==> SameBlock(w.disk, disk, w.job.block)
    ensures Shaped(Serve(c, w).job)
    ensures Serve(c, Supplemented(w, disk, x)) == Counterpart(c, Serve(c, w), disk, x)
  {
    if w.job.state.AllocPending? && w.supply != [] {
      assert (w.supply + [x])[1..] == w.supply[1..] + [x];
    }
  }

  /** One round on both devices. */
  lemma SameRound(c: Codec, o: World, o': World, t: Tree, w: World, x: U64)
    requires Before(c, o, t, w) && !Waiting(w) && CanExecute(w.job) && Advance(c, w).written == []
    requires Supplement(o, o', t, x)
    ensures Shaped(Advance(c, w).job)
    ensures Advance(c, Supplemented(w, o'.disk, x)) == Counterpart(c, Advance(c, w), o'.disk, x)
  {
    BeforeWrites(c, o, t, w);
    ReadsOwnBlock(c, o, t, w);
    ServeSame(c, w.(job := Execute(c, w.job)), o'.disk, x);
  }

  /** One step of either run from corresponding states. */
  lemma SameStep(c: Codec, o: World, o': World, t: Tree, w: World, v: World, x: U64)
    requires Before(c, o, t, w) && !Waiting(w) && CanExecute(w.job) && Stepper(c)(w).written == []
    requires Supplement(o, o', t, x) && v == Counterpart(c, w, o'.disk, x)
    ensures Shaped(Stepper(c)(w).job) && Stepper(c)(v) == Counterpart(c, Stepper(c)(w), o'.disk, x)
  {
    SameRound(c, o, o', t, w, x);
  }

  /** A step that runs has been running, and has not written before. */
  lemma StaysBefore(c: Codec, o: World, t: Tree, w: World)
    requires IsRunning(c, o, t, w) || HasEnded(c, o, t, w)
    requires Before(c, o, t, Stepper(c)(w)) && !Waiting(w)
    ensures Before(c, o, t, w) && CanExecute(w.job)
  {
    if HasEnded(c, o, t, w) {
      NotBoth(c, o, t, w);
    }
    RunningExecutes(c, o, t, w);
    WritesOnlyGrow(c, w);
  }

  lemma NotBoth(c: Codec, o: World, t: Tree, w: World)
    requires HasEnded(c, o, t, w)
    ensures !IsRunning(c, o, t, Stepper(c)(w))
  {
    StaysAtEnd(c, o, t, w);
    EndedState(c, o, t, w);
    if IsRunning(c, o, t, w) {
      RunningState(c, o, t, w);
    }
  }

  lemma WritesOnlyGrow(c: Codec, w: World)
    requires CanExecute(w.job)
    ensures Advance(c, w).written == [] ==> w.written == []
  {
  }

  lemma RunningExecutes(c: Codec, o: World, t: Tree, w: World)
    requires IsRunning(c, o, t, w) && !Waiting(w)
    ensures CanExecute(w.job) && Stepper(c)(w) == Advance(c, w)
  {
    if w == o && Request(c, o, t) {
    } else {
      var g, u :| Running(c, o, t, w, g, u);
      var g', v := Round(c, o, t, w, g, u);
    }
  }

  lemma BeforeAll(c: Codec, o: World, t: Tree, i: nat, k: nat)
    requires Request(c, o, t) && Before(c, o, t, Run(c, o, k)) && i <= k
    requires forall n | 0 <= n < k :: !Waiting(Run(c, o, n))
    ensures Before(c, o, t, Run(c, o, i)) && (i < k ==> Before(c, o, t, Stepper(c)(Run(c, o, i))))
  {
    var prop := (w: World) => Before(c, o, t, w);
    var side := (w: World) => (IsRunning(c, o, t, w) || HasEnded(c, o, t, w)) && !Waiting(w);
    forall n: nat | n < k ensures side(Iterate(Stepper(c), o, n)) {
      RunEnds(c, o, t, n);
      assert !Waiting(Run(c, o, n));
    }
    forall w | side(w) && prop(Stepper(c)(w)) ensures prop(w) {
      StaysBefore(c, o, t, w);
    }
    IterateBack(Stepper(c), o, prop, side, i, k);
  }

  /** A state that the run passes on its way to a later one before the first write. */
  ghost predicate Passed(c: Codec, o: World, t: Tree, w: World)
  {
    Before(c, o, t, w) && !Waiting(w) && CanExecute(w.job) && Stepper(c)(w).written == []
  }

  lemma PassedBefore(c: Codec, o: World, t: Tree, i: nat, k: nat)
    requires Request(c, o, t) && Before(c, o, t, Run(c, o, k)) && i < k
    requires forall n | 0 <= n < k :: !Waiting(Run(c, o, n))
    ensures Passed(c, o, t, Run(c, o, i))
  {
    BeforeAll(c, o, t, i, k);
    PassedOne(c, o, t, Run(c, o, i));
  }

  lemma PassedOne(c: Codec, o: World, t: Tree, w: World)
    requires Before(c, o, t, w) && Before(c, o, t, Stepper(c)(w)) && !Waiting(w)
    ensures Passed(c, o, t, w)
  {
    StaysBefore(c, o, t, w);
  }

  /** The first k rounds of both runs, if the one has neither written nor waited. */
  lemma SameRun(c: Codec, o: World, o': World, t: Tree, x: U64, k: nat)
    requires Request(c, o, t) && Supplement(o, o', t, x)
    requires Before(c, o, t, Run(c, o, k)) && forall i | 0 <= i < k :: !Waiting(Run(c, o, i))
    ensures Shaped(Run(c, o, k).job) && Run(c, o', k) == Counterpart(c, Run(c, o, k), o'.disk, x)
  {
    var rel := (w: World, v: World) => Shaped(w.job) && v == Counterpart(c, w, o'.disk, x);
    var ok := (w: World) => Passed(c, o, t, w);
    forall i: nat | i < k ensures ok(Iterate(Stepper(c), o, i)) {
      PassedBefore(c, o, t, i, k);
    }
    forall w, v | rel(w, v) && ok(w) ensures rel(Stepper(c)(w), Stepper(c)(v)) {
      SameStep(c, o, o', t, w, v, x);
    }
    IterateRelated(Stepper(c), Stepper(c), o, o', rel, ok, k);
  }

  /** A step that waits for the first time, and its state once it has the address. */
  lemma WaitEnds(c: Codec, o: World, o': World, t: Tree, x: U64, k: nat)
    requires Request(c, o, t) && Supplement(o, o', t, x)
    requires Before(c, o, t, Run(c, o, k)) && Waiting(Run(c, o, k)) && forall i | 0 <= i < k :: !Waiting(Run(c, o, i))
    ensures Shaped(Run(c, o, k).job)
    ensures Run(c, o', k) == Serve(c, Run(c, o, k).(disk := o'.disk, supply := [x]))
    ensures forall i | 0 <= i < k :: !Waiting(Run(c, o', i))
  {
    SameRun(c, o, o', t, x, k);
    assert Run(c, o, k).supply + [x] == [x];
    forall i | 0 <= i < k ensures !Waiting(Run(c, o', i)) {
      BeforeAll(c, o, t, i, k);
      NotWaitingEither(c, o, o', t, x, i);
    }
  }

  lemma NotWaitingEither(c: Codec, o: World, o': World, t: Tree, x: U64, i: nat)
    requires Request(c, o, t) && Supplement(o, o', t, x)
    requires Before(c, o, t, Run(c, o, i)) && forall n | 0 <= n <= i :: !Waiting(Run(c, o, n))
    ensures !Waiting(Run(c, o', i))
  {
    SameRun(c, o, o', t, x, i);
  }
}
