/** What an extension step promises, over whole runs. */
module FtTheorems {
  import opened NodeCodec
  import opened HashTree
  import opened TreeIndex
  import opened FreeTree
  import opened FtSpec
  import opened FtBuild
  import opened FtInv
  import opened FtWrite
  import opened Iteration
  import R = FtRead
  import A = FtAlloc
  import N = FtRoot

  // ------------------------------------------------------------------- the end of a run

  /** u is the tree on the device: it holds the old leaves and the added ones. */
  ghost predicate NewTree(c: Codec, o: World, t: Tree, w: World, u: Tree)
  {
    var j := w.job;
    && SameStep(o, j)
    && !u.Nil? && u.node == j.root && Stored(c, w.disk, u, j.maxLevel, j.edges)
    && u.node.gen == o.job.gen && (Youngest(o, t).Some? ==> GensFall(u))
    && LeftPacked(u, j.maxLevel, j.nrLeaves, j.edges)
    && j.nrLeaves == o.job.nrLeaves + j.newLeaves <= MAX_LEAVES
    && j.nrPbas + j.newLeaves <= o.job.nrPbas
    && Leaves(u, j.edges) == Leaves(t, j.edges) + Added(o, j)
  }

  /** No address was lost or shared, no old node overwritten. */
  ghost predicate AddressesKept(o: World, t: Tree, w: World, u: Tree)
    requires Shaped(w.job) && w.job.edges == o.job.edges && w.job.nrPbas <= o.job.nrPbas
  {
    && PbaAfter(w.job.pba, o.job.pba + (o.job.nrPbas - w.job.nrPbas))
    && (o.job.nrPbas > 0 ==> w.job.nrPbas < o.job.nrPbas)
    && SupplyLeft(o, w) && OldKept(o, t, w) && Exchanged(o, t, w, w.job.maxLevel)
    && forall p :: Balance(o, t, w, Uses(u, w.job.edges, Every, p), p)
  }

  /** The step is complete. */
  ghost predicate Outcome(c: Codec, o: World, t: Tree, w: World, u: Tree)
  {
    w.job.state.Completed? && Request(c, o, t) && NewTree(c, o, t, w, u) && AddressesKept(o, t, w, u)
  }

  ghost predicate SameStep(o: World, j: Job)
  {
    Shaped(j) && j.edges == o.job.edges && j.gen == o.job.gen && o.job.maxLevel <= j.maxLevel <= o.job.maxLevel + 1
  }

  /** The step does not raise: checked before it is submitted. */
  predicate Finishes(j: Job)
    requires Shaped(j)
  {
    match MaxMaxVba(j.edges, j.maxLevel)
    case None => false
    case Some(m) =>
      || j.nrLeaves <= m
      || (j.maxLevel < MAX_LEVEL && j.nrPbas > 0 && (j.nrLeaves < MAX_LEAVES || j.nrPbas <= j.maxLevel + 1))
  }

  // ------------------------------------------------------------------------ counting leaves

  lemma PowersOfTwo()
    ensures Pow(2, 29) == MAX_LEAVES / 2 && Pow(2, 30) == MAX_LEAVES && Pow(2, 31) == 2 * MAX_LEAVES
  {
    assert Pow(2, 5) == 32 && Pow(2, 10) == 1024 by {
      assert Pow(2, 1) == 2 && Pow(2, 3) == 8 && Pow(2, 5) == 32 && Pow(2, 7) == 128 && Pow(2, 9) == 512;
    }
    PowAdd(2, 10, 10);
    PowAdd(2, 10, 20);
    assert Pow(2, 30) == 2 * Pow(2, 29) && Pow(2, 31) == 2 * Pow(2, 30);
  }

  lemma PowerOfTwoGap(a: nat)
    requires PowerOfTwo(a)
    ensures a <= MAX_LEAVES + 1 ==> a <= MAX_LEAVES
    ensures a < MAX_LEAVES ==> a + NODES_PER_BLOCK <= MAX_LEAVES
  {
    var k: nat :| Pow(2, k) == a;
    PowersOfTwo();
    if k <= 29 {
      PowMonotone(2, k, 29);
    } else if k >= 31 {
      PowMonotone(2, 31, k);
    }
  }

  lemma PowerOfPower(edges: nat, level: nat)
    requires PowerOfTwo(edges)
    ensures PowerOfTwo(Pow(edges, level))
  {
    var k: nat :| Pow(2, k) == edges;
    PowMul(2, k, level);
  }

  /** Which tree height the step works on. */
  ghost predicate Case(c: Codec, o: World, t: Tree, j: Job)
  {
    && Shaped(o.job) && MaxMaxVba(o.job.edges, o.job.maxLevel).Some?
    && if o.job.nrLeaves <= MaxMaxVba(o.job.edges, o.job.maxLevel).value then j.maxLevel == o.job.maxLevel
       else
         && N.NeedsRoot(c, o, t) && j.maxLevel == o.job.maxLevel + 1
         && j.newLeaves <= o.job.edges && (j.newLeaves > 0 <==> o.job.nrPbas > o.job.maxLevel + 1)
  }

  /** The leaf count stays in range exactly when the step was predicted to finish. */
  lemma LeavesFit(c: Codec, o: World, t: Tree, j: Job, u: Tree)
    requires Request(c, o, t) && Case(c, o, t, j) && Shaped(j) && j.edges == o.job.edges
    requires LeftPacked(u, j.maxLevel, o.job.nrLeaves + j.newLeaves, j.edges)
    ensures o.job.nrLeaves + j.newLeaves <= MAX_LEAVES <==> Finishes(o.job)
  {
    PowerOfPower(o.job.edges, o.job.maxLevel);
    PowerOfTwoGap(Pow(o.job.edges, o.job.maxLevel));
    if j.maxLevel == o.job.maxLevel {
      PackedCount(u, j.maxLevel, o.job.nrLeaves + j.newLeaves, j.edges);
      CapacityPow(j.edges, j.maxLevel);
    } else {
      N.FullTree(c, o, t);
    }
  }

  // ------------------------------------------------------------------------- one round

  ghost predicate Running(c: Codec, o: World, t: Tree, w: World, g: Ghost, u: Tree)
  {
    && Case(c, o, t, w.job)
    && (ReadingInv(c, o, t, w, g) || AllocInv(c, o, t, w, g) || WaitInv(c, o, t, w, g) || WriteInv(c, o, t, w, g, u))
  }

  ghost predicate Ended(c: Codec, o: World, t: Tree, w: World, u: Tree)
    requires Shaped(o.job)
  {
    OldKept(o, t, w) && if Finishes(o.job) then Outcome(c, o, t, w, u) else w.job.state.Raised? && Shaped(w.job)
  }

  /** An upper bound of the rounds to come. */
  function Left(j: Job): nat
    requires Shaped(j)
  {
    if j.state.Submitted? then 3 * j.maxLevel + 3
    else if j.state.ReadRootCompleted? || j.state.ReadInnerCompleted? then 2 * j.maxLevel + 2 + j.lvl
    else if (j.state.AllocCompleted? || j.state.AllocPending?) && j.allocLvl <= j.maxLevel then 2 * j.maxLevel + 2 - j.allocLvl
    else if (j.state.WriteInnerCompleted? || j.state.WriteRootCompleted?) && j.lvl <= j.maxLevel then j.maxLevel - j.lvl + 1
    else 0
  }

  lemma ReadRound(c: Codec, o: World, t: Tree, w: World, g: Ghost) returns (g': Ghost)
    requires ReadingInv(c, o, t, w, g) && Case(c, o, t, w.job)
    ensures CanExecute(w.job)
    ensures Running(c, o, t, Advance(c, w), g', Nil) && Left(Advance(c, w).job) < Left(w.job)
  {
    if R.NextIsMissing(c, o, t, w, g) {
      g' := A.StartsPlacing(c, o, t, w, g);
      var r := Mount(w.job, w.job.lvl, g.path[w.job.lvl - 1]);
      PlacedIsRunning(c, o, t, w.(job := r), Advance(c, w), g', w.job.lvl);
    } else {
      g' := R.Descends(c, o, t, w, g);
    }
  }

  lemma AllocRound(c: Codec, o: World, t: Tree, w: World, g: Ghost) returns (u: Tree)
    requires AllocInv(c, o, t, w, g) && Case(c, o, t, w.job)
    ensures CanExecute(w.job)
    ensures Running(c, o, t, Advance(c, w), g, u) && Left(Advance(c, w).job) < Left(w.job)
  {
    u := Nil;
    if w.job.allocLvl < w.job.maxLevel {
      A.PlacesNext(c, o, t, w, g);
      PlacedIsRunning(c, o, t, w, Advance(c, w), g, w.job.allocLvl + 1);
    } else {
      u := LastAllocRound(c, o, t, w, g);
    }
  }

  lemma PlacedIsRunning(c: Codec, o: World, t: Tree, w: World, w': World, g: Ghost, l: nat)
    requires A.PlacedAt(c, o, t, w, w', g, l) && Shaped(w.job) && Case(c, o, t, w.job) && 1 <= l
    ensures Running(c, o, t, w', g, Nil) && Left(w'.job) == 2 * w.job.maxLevel + 2 - l
  {
  }

  lemma LastAllocRound(c: Codec, o: World, t: Tree, w: World, g: Ghost) returns (u: Tree)
    requires AllocInv(c, o, t, w, g) && Case(c, o, t, w.job) && w.job.allocLvl == w.job.maxLevel
    ensures CanExecute(w.job)
    ensures Running(c, o, t, Advance(c, w), g, u) && Left(Advance(c, w).job) < Left(w.job)
  {
    u := FirstWrite(c, o, t, w, g);
    FirstWriteEffect(c, w);
    LastAllocEffect(c, w);
  }

  lemma LastAllocEffect(c: Codec, w: World)
    requires Shaped(w.job) && w.job.state.AllocCompleted? && w.job.allocLvl == w.job.maxLevel
    ensures CanExecute(w.job) && Advance(c, w) == FirstWriteRound(c, w)
  {
  }

  lemma FinishEffect(c: Codec, o: World, w: World)
    requires CanExecute(w.job) && w.job.state.WriteRootCompleted? && w.job.nrLeaves == o.job.nrLeaves
    ensures Advance(c, w) == w.(job := Finish(c, w.job))
    ensures var r := Finish(c, w.job);
            if o.job.nrLeaves + w.job.newLeaves <= MAX_LEAVES
            then r == w.job.(root := WrittenNode(c, w.job), nrLeaves := o.job.nrLeaves + w.job.newLeaves, state := Completed)
            else r.state.Raised?
  {
  }

  ghost predicate FinishedFrom(c: Codec, o: World, w: World, w': World)
    requires Shaped(w.job)
  {
    w' == w.(job := w.job.(root := WrittenNode(c, w.job), nrLeaves := o.job.nrLeaves + w.job.newLeaves, state := Completed))
  }

  lemma FinishTree(c: Codec, o: World, t: Tree, w: World, w': World, g: Ghost, u: Tree)
    requires WriteInv(c, o, t, w, g, u) && w.job.lvl == w.job.maxLevel && o.job.maxLevel <= w.job.maxLevel
    requires o.job.nrLeaves + w.job.newLeaves <= MAX_LEAVES && FinishedFrom(c, o, w, w')
    ensures NewTree(c, o, t, w', u)
  {
    FinishGrows(o, w, w', g, u);
  }

  lemma FinishGrows(o: World, w: World, w': World, g: Ghost, u: Tree)
    requires Sized(o, w, g) && w.job.lvl == w.job.maxLevel && SameRequest(o, w.job) && w.job.maxLevel <= MAX_LEVEL
    requires Grown(w.job, g, u, w.job.lvl, Added(o, w.job)) && Position(g.path, w.job.maxLevel, w.job.edges) == w.job.nrLeaves
    requires w'.job == w.job.(root := w'.job.root, nrLeaves := o.job.nrLeaves + w.job.newLeaves, state := Completed)
    ensures LeftPacked(u, w'.job.maxLevel, w'.job.nrLeaves, w'.job.edges)
    ensures Leaves(u, w'.job.edges) == Leaves(g.base[w.job.maxLevel], w.job.edges) + Added(o, w'.job)
  {
    assert Added(o, w'.job) == Added(o, w.job);
  }

  lemma FinishAddresses(c: Codec, o: World, t: Tree, w: World, w': World, g: Ghost, u: Tree)
    requires WriteInv(c, o, t, w, g, u) && w.job.lvl == w.job.maxLevel && FinishedFrom(c, o, w, w')
    ensures AddressesKept(o, t, w', u)
  {
    FinishBalance(c, o, t, w, g, u);
    forall p ensures Balance(o, t, w', Uses(u, w'.job.edges, Every, p), p) {
      assert Balance(o, t, w, Uses(u, w.job.edges, Every, p), p);
    }
  }

  lemma FinishBalance(c: Codec, o: World, t: Tree, w: World, g: Ghost, u: Tree)
    requires WriteInv(c, o, t, w, g, u) && w.job.lvl == w.job.maxLevel
    ensures forall p :: Balance(o, t, w, Uses(u, w.job.edges, Every, p), p)
  {
    forall p ensures Balance(o, t, w, Uses(u, w.job.edges, Every, p), p) {
      assert WriteBalance(o, t, w, g, u, p);
      assert Above(w.job.newPbas, g.base, g.path, w.job.edges, w.job.lvl + 1, w.job.maxLevel, p) == 0;
    }
  }

  lemma FinishRound(c: Codec, o: World, t: Tree, w: World, g: Ghost, u: Tree)
    requires WriteInv(c, o, t, w, g, u) && Case(c, o, t, w.job) && w.job.lvl == w.job.maxLevel
    ensures CanExecute(w.job) && Ended(c, o, t, Advance(c, w), u)
  {
    LeavesFit(c, o, t, w.job, u);
    FinishEffect(c, o, w);
    if Finishes(o.job) {
      FinishTree(c, o, t, w, Advance(c, w), g, u);
      FinishAddresses(c, o, t, w, Advance(c, w), g, u);
    }
  }

  lemma WriteRound(c: Codec, o: World, t: Tree, w: World, g: Ghost, u: Tree) returns (v: Tree)
    requires WriteInv(c, o, t, w, g, u) && Case(c, o, t, w.job) && w.job.lvl < w.job.maxLevel
    ensures CanExecute(w.job)
    ensures Running(c, o, t, Advance(c, w), g, v) && Left(Advance(c, w).job) < Left(w.job)
  {
    v := NextWrite(c, o, t, w, g, u);
    WroteIsRunning(c, o, t, w, Advance(c, w), g, v);
  }

  lemma WroteIsRunning(c: Codec, o: World, t: Tree, w: World, w': World, g: Ghost, v: Tree)
    requires Shaped(w.job) && Case(c, o, t, w.job) && w.job.state.WriteInnerCompleted? && w.job.lvl < w.job.maxLevel
    requires WriteInv(c, o, t, w', g, v) && w'.job.lvl == w.job.lvl + 1
    requires w'.job.maxLevel == w.job.maxLevel && w'.job.newLeaves == w.job.newLeaves
    ensures Running(c, o, t, w', g, v) && Left(w'.job) < Left(w.job)
  {
  }

  lemma FirstReadRound(c: Codec, o: World, t: Tree) returns (g: Ghost)
    requires Request(c, o, t) && MaxMaxVba(o.job.edges, o.job.maxLevel).Some?
    requires o.job.nrLeaves <= MaxMaxVba(o.job.edges, o.job.maxLevel).value
    ensures CanExecute(o.job) && Running(c, o, t, Advance(c, o), g, Nil) && Left(Advance(c, o).job) < Left(o.job)
  {
    g := R.StartsReading(c, o, t);
  }

  lemma FirstRootRound(c: Codec, o: World, t: Tree) returns (g: Ghost, u: Tree)
    requires N.NeedsRoot(c, o, t)
    ensures CanExecute(o.job) && Running(c, o, t, Advance(c, o), g, u) && Left(Advance(c, o).job) < Left(o.job)
  {
    g, u := N.StartsRoot(c, o, t);
    N.RootLeaves(c, o, t);
    RootIsRunning(c, o, t, Advance(c, o), g, u);
  }

  lemma RootIsRunning(c: Codec, o: World, t: Tree, w: World, g: Ghost, u: Tree)
    requires N.NeedsRoot(c, o, t) && WriteInv(c, o, t, w, g, u) && w.job.maxLevel == o.job.maxLevel + 1
    requires w.job.newLeaves <= o.job.edges && (w.job.newLeaves > 0 <==> o.job.nrPbas > o.job.maxLevel + 1)
    ensures Running(c, o, t, w, g, u) && Left(w.job) < Left(o.job)
  {
  }

  lemma FirstRaise(c: Codec, o: World, t: Tree)
    requires Request(c, o, t) && !N.NeedsRoot(c, o, t)
    requires var m := MaxMaxVba(o.job.edges, o.job.maxLevel); m.None? || o.job.nrLeaves > m.value
    ensures CanExecute(o.job)
    ensures var w := Advance(c, o);
            !Finishes(o.job) && w.job.state.Raised? && Shaped(w.job) && OldKept(o, t, w)
  {
  }

  lemma FirstRound(c: Codec, o: World, t: Tree) returns (g: Ghost, u: Tree)
    requires Request(c, o, t)
    ensures CanExecute(o.job)
    ensures var w := Advance(c, o);
            if Running(c, o, t, w, g, u) then Left(w.job) < Left(o.job)
            else !Finishes(o.job) && w.job.state.Raised? && Shaped(w.job) && OldKept(o, t, w)
  {
    u := Nil;
    g := Ghost([], [], None);
    var m := MaxMaxVba(o.job.edges, o.job.maxLevel);
    if m.Some? && o.job.nrLeaves <= m.value {
      g := FirstReadRound(c, o, t);
    } else if N.NeedsRoot(c, o, t) {
      g, u := FirstRootRound(c, o, t);
    } else {
      FirstRaise(c, o, t);
    }
  }

  // ------------------------------------------------------------------------- whole runs

  /** One round; a completed or raised step does not move any more. */
  function Stepper(c: Codec): World -> World
  {
    (w: World) => if CanExecute(w.job) then Advance(c, w) else w
  }

  /** k rounds. */
  function Run(c: Codec, w: World, k: nat): World
  {
    Iterate(Stepper(c), w, k)
  }

  ghost predicate IsRunning(c: Codec, o: World, t: Tree, w: World)
  {
    || (w == o && Request(c, o, t))
    || exists g, u :: Running(c, o, t, w, g, u)
  }

  ghost predicate HasEnded(c: Codec, o: World, t: Tree, w: World)
  {
    Shaped(o.job) && exists u :: Ended(c, o, t, w, u)
  }

  function RoundsLeft(w: World): nat
  {
    if Shaped(w.job) then Left(w.job) else 0
  }

  /** One round of a running step: it goes on, closer to its end, or it ends. */
  lemma Round(c: Codec, o: World, t: Tree, w: World, g: Ghost, u: Tree) returns (g': Ghost, v: Tree)
    requires Running(c, o, t, w, g, u) && !Waiting(w)
    ensures CanExecute(w.job)
    ensures var w' := Advance(c, w);
            || (Running(c, o, t, w', g', v) && Left(w'.job) < Left(w.job))
            || Ended(c, o, t, w', v)
  {
    g', v := g, u;
    if ReadingInv(c, o, t, w, g) {
      g' := ReadRound(c, o, t, w, g);
      v := Nil;
    } else if AllocInv(c, o, t, w, g) {
      v := AllocRound(c, o, t, w, g);
    } else if w.job.lvl < w.job.maxLevel {
      v := WriteRound(c, o, t, w, g, u);
    } else {
      FinishRound(c, o, t, w, g, u);
    }
  }

  lemma FirstOfStepper(c: Codec, o: World, t: Tree)
    requires Request(c, o, t)
    ensures var w' := Stepper(c)(o);
            (IsRunning(c, o, t, w') && RoundsLeft(w') < RoundsLeft(o)) || HasEnded(c, o, t, w')
  {
    var g, u := FirstRound(c, o, t);
    var w' := Advance(c, o);
    assert Stepper(c)(o) == w';
    if !Running(c, o, t, w', g, u) {
      assert Ended(c, o, t, w', u);
    } else {
      RunningShaped(c, o, t, w', g, u);
    }
  }

  lemma RunningShaped(c: Codec, o: World, t: Tree, w: World, g: Ghost, u: Tree)
    requires Running(c, o, t, w, g, u)
    ensures Shaped(w.job) && Shaped(o.job)
  {
  }

  lemma RoundOfStepper(c: Codec, o: World, t: Tree, w: World, g: Ghost, u: Tree)
    requires Running(c, o, t, w, g, u) && !Waiting(w)
    ensures var w' := Stepper(c)(w);
            (IsRunning(c, o, t, w') && RoundsLeft(w') < RoundsLeft(w)) || HasEnded(c, o, t, w')
  {
    var g', v := Round(c, o, t, w, g, u);
    var w' := Advance(c, w);
    assert Stepper(c)(w) == w';
    RunningShaped(c, o, t, w, g, u);
    if Running(c, o, t, w', g', v) {
      RunningShaped(c, o, t, w', g', v);
    }
  }

  lemma EndedState(c: Codec, o: World, t: Tree, w: World)
    requires HasEnded(c, o, t, w)
    ensures w.job.state.Completed? || w.job.state.Raised?
  {
  }

  lemma RunningKeepsOld(c: Codec, o: World, t: Tree, w: World, g: Ghost, u: Tree)
    requires Running(c, o, t, w, g, u)
    ensures !w.job.state.Completed? && !w.job.state.Raised? && OldKept(o, t, w) && RoundsLeft(w) > 0
  {
    RunningShaped(c, o, t, w, g, u);
    if !WriteInv(c, o, t, w, g, u) {
      NotYetWritten(o, t, w);
    }
  }

  lemma NotYetWritten(o: World, t: Tree, w: World)
    requires w.disk == o.disk && w.written == []
    ensures OldKept(o, t, w)
  {
  }

  lemma RunningState(c: Codec, o: World, t: Tree, w: World)
    requires IsRunning(c, o, t, w)
    ensures !w.job.state.Completed? && !w.job.state.Raised? && OldKept(o, t, w) && RoundsLeft(w) > 0
  {
    if w == o && Request(c, o, t) {
    } else {
      var g, u :| Running(c, o, t, w, g, u);
      RunningKeepsOld(c, o, t, w, g, u);
    }
  }

  /** Every state of a run is running or has ended, in the predicted way; it comes
      closer to the end with every round, unless it waits for an address. */
  lemma RunEnds(c: Codec, o: World, t: Tree, k: nat)
    requires Request(c, o, t)
    ensures var r := Run(c, o, k);
            HasEnded(c, o, t, r) || (IsRunning(c, o, t, r) && (Waiting(r) || RoundsLeft(r) + k <= RoundsLeft(o)))
  {
    var inv := (w: World, i: nat) => IsRunning(c, o, t, w) && !Waiting(w) && RoundsLeft(w) <= i;
    var end := (w: World) => HasEnded(c, o, t, w) || (IsRunning(c, o, t, w) && Waiting(w));
    forall w, i ensures StepFalls(Stepper(c), inv, end, w, i) {
      if inv(w, i) {
        StepperMoves(c, o, t, w);
      }
    }
    forall w | end(w) ensures Stepper(c)(w) == w {
      StaysAtEnd(c, o, t, w);
    }
    IterateEnds(Stepper(c), inv, end, o, RoundsLeft(o), k);
  }

  lemma StaysAtEnd(c: Codec, o: World, t: Tree, w: World)
    requires HasEnded(c, o, t, w) || Waiting(w)
    ensures Stepper(c)(w) == w
  {
    if HasEnded(c, o, t, w) {
      EndedState(c, o, t, w);
    }
    Rests(c, w);
  }

  lemma Rests(c: Codec, w: World)
    requires w.job.state.Completed? || w.job.state.Raised? || Waiting(w)
    ensures Stepper(c)(w) == w
  {
  }

  lemma StepperMoves(c: Codec, o: World, t: Tree, w: World)
    requires IsRunning(c, o, t, w) && !Waiting(w)
    ensures var w' := Stepper(c)(w);
            (IsRunning(c, o, t, w') && RoundsLeft(w') < RoundsLeft(w)) || HasEnded(c, o, t, w')
  {
    if w == o && Request(c, o, t) {
      FirstOfStepper(c, o, t);
    } else {
      var g, u :| Running(c, o, t, w, g, u);
      RoundOfStepper(c, o, t, w, g, u);
    }
  }

  /** With one address for every level the step never waits. */
  lemma NeverWaits(c: Codec, o: World, t: Tree, w: World)
    requires IsRunning(c, o, t, w) && Enough(o)
    ensures !Waiting(w)
  {
    if !(w == o && Request(c, o, t)) {
      var g, u :| Running(c, o, t, w, g, u);
    }
  }

  /** Every run of a step with enough addresses is over after 3 * maxLevel + 3 rounds.
      A step completes exactly if Finishes holds at the start, and then the new root
      is the root of a stored, left-packed tree that holds the old leaves followed by
      the new ones.  */
  lemma StepAppends(c: Codec, o: World, t: Tree, k: nat) returns (u: Tree)
    requires Request(c, o, t)
    ensures var r := Run(c, o, k);
            && (r.job.state.Completed? ==> Finishes(o.job) && Outcome(c, o, t, r, u))
            && (r.job.state.Raised? ==> !Finishes(o.job))
            && (k >= 3 * o.job.maxLevel + 3 ==> r.job.state.Completed? || r.job.state.Raised? || Waiting(r))
            && (Enough(o) ==> !Waiting(r))
  {
    RunEnds(c, o, t, k);
    var r := Run(c, o, k);
    if HasEnded(c, o, t, r) {
      u :| Ended(c, o, t, r, u);
    } else {
      u := Nil;
      RunningState(c, o, t, r);
      if Enough(o) {
        NeverWaits(c, o, t, r);
      }
    }
  }

  // -------------------------------------------------------------------- copy on write

  /** In every state of every run, also one that raises later, the old nodes of the
      tree are untouched.  */
  lemma OldNodesUntouched(c: Codec, o: World, t: Tree, k: nat, p: U64)
    requires Request(c, o, t) && !OldNodesAvoid(t, o.job.gen, p) && p in o.disk
    ensures p in Run(c, o, k).disk && Run(c, o, k).disk[p] == o.disk[p]
  {
    RunEnds(c, o, t, k);
    var r := Run(c, o, k);
    if IsRunning(c, o, t, r) {
      RunningState(c, o, t, r);
    }
    assert OldKept(o, t, r);
  }

  /** A step that is well formed and below the height limit may still raise: a full
      tree of degree 64 and height 5 holds the highest possible number of leaves, so
      the leaf count leaves its range once the new level got a leaf.  */
  lemma LargestTreeRaises(j: Job)
    requires Shaped(j) && j.edges == 64 && j.maxLevel == 5 && j.nrLeaves == MAX_LEAVES && j.nrPbas > 6
    ensures Finishes(j) == false && j.maxLevel < MAX_LEVEL
  {
    PowersOfTwo();
    assert Pow(2, 6) == 64 by {
      assert Pow(2, 3) == 8;
    }
    PowMul(2, 6, 5);
  }

  /** A step that adds a root never waits for an address. */
  lemma RootNeverWaits(c: Codec, o: World, t: Tree, w: World)
    requires N.NeedsRoot(c, o, t) && IsRunning(c, o, t, w)
    ensures !Waiting(w)
  {
    if w != o {
      var g, u :| Running(c, o, t, w, g, u);
    }
  }

  /** Every run of such a step raises, with the old nodes untouched. */
  lemma LargestTreeRunRaises(c: Codec, o: World, t: Tree, k: nat)
    requires Request(c, o, t) && o.job.edges == 64 && o.job.maxLevel == 5 && o.job.nrLeaves == MAX_LEAVES && o.job.nrPbas > 6
    requires k >= 18
    ensures Run(c, o, k).job.state.Raised? && OldKept(o, t, Run(c, o, k))
  {
    LargestTreeRaises(o.job);
    HighestAddressInRange(o.job);
    var u := StepAppends(c, o, t, k);
    RunEnds(c, o, t, k);
    var r := Run(c, o, k);
    if IsRunning(c, o, t, r) {
      RootNeverWaits(c, o, t, r);
      RunningState(c, o, t, r);
    }
  }

  /** At degree 64 and height 6 no step gets past the computation of the highest
      address; every smaller tree gets past it. */
  lemma HighestAddressInRange(j: Job)
    requires Shaped(j) && PowerOfTwo(j.edges)
    ensures MaxMaxVba(j.edges, j.maxLevel).None? <==> j.edges == 64 && j.maxLevel == 6
  {
    var k: nat :| Pow(2, k) == j.edges;
    assert Pow(2, 6) == 64 && Pow(2, 7) == 128 by {
      assert Pow(2, 3) == 8 && Pow(2, 5) == 32;
    }
    if k > 6 {
      PowMonotone(2, 7, k);
    }
    PowMul(2, k, j.maxLevel);
    PowersOfTwo();
    if k == 6 && j.maxLevel == 6 {
      PowMonotone(2, 31, 36);
    } else {
      ExponentSmall(k, j.maxLevel);
      PowMonotone(2, k * j.maxLevel, 30);
    }
    if k < 6 {
      PowMonotone(2, k + 1, 6);
      assert Pow(2, k + 1) == 2 * Pow(2, k);
    }
  }

  lemma ExponentSmall(k: nat, l: nat)
    requires k <= 6 && l <= 6 && (k < 6 || l < 6)
    ensures k * l <= 30
  {
    if k < 6 {
      MulMonotone(k, 5, l);
    } else {
      MulMonotone(l, 5, k);
    }
  }
}
