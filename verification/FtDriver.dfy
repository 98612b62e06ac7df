/** The free tree resizing module at work on a block device, with the meta tree. */
module FtDriver {
  import opened NodeCodec
  import opened HashTree
  import opened FtSpec
  import opened FtInv
  import opened FtTheorems
  import opened FtSupply
  import opened FtJoint
  import opened FtResizing
  import opened MetaTree
  import MetaTreeTheorems
  import opened Iteration
  import D = MetaTreeDriver
  import MT = MetaTreeSpec

  /** Module and device are in the state that the world describes, with no address at
      hand: all have to be asked for. */
  ghost predicate Matches(w: World, ft: Resizing, dev: D.BlockMap)
    reads ft, ft.t1, ft.oldPbas, ft.oldGens, ft.newPbas, dev
  {
    w.job == ft.View() && w.disk == dev.blocks && w.supply == []
  }

  /** Hand a generated block request to the device and its result back. */
  method ServeGenerated(ft: Resizing, dev: D.BlockMap, ghost w: World)
    requires ft.Valid() && Shaped(ft.View()) && Matches(w, ft, dev) && (Writing(ft.state) ==> ft.lvl > 0)
    modifies ft, ft.t1, ft.newPbas, dev
    ensures Matches(Serve(ft.codec, w), ft, dev)
  {
    var s, blk := ft.state, ft.block;
    if Reading(s) {
      var dropped := ft.DropGeneratedPrimitive();
      var data := dev.Read(blk);
      var marked := ft.MarkCompletedBlkData(data);
    } else if Writing(s) {
      var peeked, data := ft.PeekGeneratedBlkData();
      var dropped := ft.DropGeneratedPrimitive();
      dev.Write(blk, data);
      var marked := ft.MarkCompleted();
    }
  }

  /** A block is written for a level only. */
  lemma WritesALevel(c: Codec, j: Job)
    requires CanExecute(j) && IsExecuted(j.state)
    ensures Writing(FtSpec.Execute(c, j).state) ==> FtSpec.Execute(c, j).lvl > 0
  {
  }

  method ExecuteAndServe(ft: Resizing, dev: D.BlockMap, ghost w: World)
    requires ft.Valid() && CanExecute(ft.View()) && Matches(w, ft, dev) && IsExecuted(ft.state)
    modifies ft, ft.t1, ft.oldPbas, ft.oldGens, ft.newPbas, dev
    ensures Matches(Advance(ft.codec, w), ft, dev)
  {
    WritesALevel(ft.codec, ft.View());
    var progress := ft.Execute();
    ServeGenerated(ft, dev, w.(job := FtSpec.Execute(ft.codec, w.job)));
  }

  /** The request that a call to ExtendStep submits. */
  function Submitted(j: Job, gen: U64, root: T1, maxLevel: nat, nrLeaves: nat, edges: nat, firstPba: U64, nrPbas: U64,
                     disk: Disk): World
  {
    World(FtSpec.Submit(j, gen, root, maxLevel, nrLeaves, edges, firstPba, nrPbas), disk, [], [], [])
  }

  /** The k-th state of the step: the device is as the meta tree left it, the supply is
      what the meta tree handed out. */
  ghost predicate At(c: Codec, o0: World, t: Tree, v0: Tree, s: Shape, o: World, r: World, v: Tree, k: nat)
  {
    && Joined(c, o0, t, v0, s, o, r, v) && r == Run(c, o, k)
    && (forall i | 0 <= i < k :: !Waiting(Run(c, o, i))) && k <= RoundsLeft(o0)
  }

  /** A step that neither waits nor has ended goes on. */
  lemma RunGoesOn(c: Codec, o: World, t: Tree, r: World, k: nat)
    requires Request(c, o, t) && r == Run(c, o, k) && !Waiting(r) && !r.job.state.Completed? && !r.job.state.Raised?
    ensures CanExecute(r.job) && k < RoundsLeft(o) && Run(c, o, k + 1) == Advance(c, r)
    ensures OldKept(o, t, Advance(c, r)) && IsExecuted(r.job.state)
  {
    RunEnds(c, o, t, k);
    if HasEnded(c, o, t, r) {
      EndedState(c, o, t, r);
    }
    RunningState(c, o, t, r);
    RunningIsExecuted(c, o, t, r);
    RunningExecutes(c, o, t, r);
    IterateOnce(Stepper(c), o, k);
    StepperMoves(c, o, t, r);
    KeepsOld(c, o, t, Advance(c, r));
  }

  /** A round that serves a block request. */
  lemma GoesOn(c: Codec, o0: World, t: Tree, v0: Tree, s: Shape, o: World, r: World, v: Tree, k: nat)
    requires At(c, o0, t, v0, s, o, r, v, k) && !Waiting(r) && r.supply == []
    requires !r.job.state.Completed? && !r.job.state.Raised?
    ensures CanExecute(r.job) && k < RoundsLeft(o0) && At(c, o0, t, v0, s, o, Advance(c, r), v, k + 1)
    ensures IsExecuted(r.job.state)
  {
    RunGoesOn(c, o, t, r, k);
    RoundKeepsMeta(c, o0, t, v0, s, o, r, v);
    NextAt(c, o0, t, v0, s, o, r, Advance(c, r), v, k);
  }

  lemma NextAt(c: Codec, o0: World, t: Tree, v0: Tree, s: Shape, o: World, r: World, r': World, v: Tree, k: nat)
    requires At(c, o0, t, v0, s, o, r, v, k) && !Waiting(r) && k < RoundsLeft(o0)
    requires Joined(c, o0, t, v0, s, o, r', v) && r' == Run(c, o, k + 1)
    ensures At(c, o0, t, v0, s, o, r', v, k + 1)
  {
  }

  lemma RunningIsExecuted(c: Codec, o: World, t: Tree, w: World)
    requires IsRunning(c, o, t, w) && !Waiting(w)
    ensures IsExecuted(w.job.state)
  {
    if !(w == o && Request(c, o, t)) {
      var g, u :| Running(c, o, t, w, g, u);
    }
  }

  lemma KeepsOld(c: Codec, o: World, t: Tree, w: World)
    requires IsRunning(c, o, t, w) || HasEnded(c, o, t, w)
    ensures OldKept(o, t, w)
  {
    if IsRunning(c, o, t, w) {
      RunningState(c, o, t, w);
    }
  }

  lemma WaitingState(c: Codec, o: World, t: Tree, k: nat) returns (g: Ghost)
    requires Request(c, o, t) && Waiting(Run(c, o, k))
    ensures WaitInv(c, o, t, Run(c, o, k), g) && Before(c, o, t, Run(c, o, k))
  {
    RunEnds(c, o, t, k);
    var r := Run(c, o, k);
    if HasEnded(c, o, t, r) {
      EndedState(c, o, t, r);
    }
    var h, u :| Running(c, o, t, r, h, u);
    g := h;
  }

  /** The meta tree has answered with a new address. */
  lemma GetsAddress(c: Codec, o0: World, t: Tree, v0: Tree, s: Shape, o: World, r: World, v: Tree, k: nat,
                    g: Ghost, disk: Disk, v': Tree, a: MetaTreeTheorems.Exchange)
    requires At(c, o0, t, v0, s, o, r, v, k) && WaitInv(c, o, t, r, g) && Before(c, o, t, r)
    requires Answers(c, o, r, disk, v, v', s, a) && a.success
    ensures var r' := Serve(c, r.(disk := disk, supply := [a.newPba]));
            At(c, o0, t, v0, s, NextOrigin(o, disk, a.newPba), r', v', k) && r'.supply == [] && r'.job.state.AllocCompleted?
  {
    NextIsSupplement(c, o0, t, v0, s, o, r, v, g, disk, v', a);
    AllocationJoins(c, o0, t, v0, s, o, r, v, g, disk, v', a);
    WaitEnds(c, o, NextOrigin(o, disk, a.newPba), t, a.newPba, k);
  }

  /** All allocations succeeded: ok tells whether the step completed, with tree u. */
  ghost predicate IsOver(c: Codec, o0: World, t: Tree, v0: Tree, s: Shape, o: World, r: World, v: Tree, u: Tree, disk: Disk, ok: bool)
  {
    && Joined(c, o0, t, v0, s, o, r, v) && r.disk == disk && OldKept(o, t, r) && Shaped(o.job) && ok == Finishes(o.job)
    && (ok ==> Outcome(c, o, t, r, u) && JointlyKept(o0, t, v0, s, r, u, v))
  }

  /** The meta tree had no address left when the step asked for one. */
  ghost predicate IsUnserved(c: Codec, t: Tree, s: Shape, o: World, r: World, v: Tree, v': Tree, disk: Disk,
                             answer: MetaTreeTheorems.Exchange)
  {
    && !answer.success && Answers(c, o, r, disk, v, v', s, answer)
    && exists g :: WaitInv(c, o, t, r, g)
  }

  /** What a step that is over has done. */
  lemma StepEnds(c: Codec, o0: World, t: Tree, v0: Tree, s: Shape, o: World, r: World, v: Tree, k: nat) returns (u: Tree)
    requires At(c, o0, t, v0, s, o, r, v, k) && (r.job.state.Completed? || r.job.state.Raised?) && r.supply == []
    ensures IsOver(c, o0, t, v0, s, o, r, v, u, r.disk, r.job.state.Completed?)
  {
    RunEnds(c, o, t, k);
    if IsRunning(c, o, t, r) {
      RunningState(c, o, t, r);
    }
    u :| Ended(c, o, t, r, u);
    if r.job.state.Completed? {
      OutcomeIsJoint(c, o0, t, v0, s, o, r, v, u);
    }
  }

  /** The allocated address goes to the step. */
  method HandBack(ft: Resizing, newPba: U64, ghost r: World, ghost disk: Disk)
    requires ft.Valid() && ft.state == AllocPending && r.job == ft.View() && Shaped(r.job)
    modifies ft, ft.newPbas
    ensures var r' := Serve(ft.codec, r.(disk := disk, supply := [newPba]));
            r'.job == ft.View() && r'.disk == disk && r'.supply == [] && ft.state == AllocCompleted
  {
    var dropped := ft.DropGeneratedPrimitive();
    var marked := ft.MarkCompletedNewPba(newPba);
  }

  /** The step asks for an address: run an allocation and hand its result back.  On a
      failure the step is left waiting. */
  method AskMetaTree(ft: Resizing, mt: MetaTree, dev: D.BlockMap, metaRoot: T1, metaLevel: nat, metaEdges: nat,
                     ghost o0: World, ghost t: Tree, ghost v0: Tree, ghost o: World, ghost r: World, ghost v: Tree, ghost k: nat)
    returns (newMetaRoot: T1, success: bool, ghost o': World, ghost r': World, ghost v': Tree, ghost answer: MetaTreeTheorems.Exchange)
    requires ft.Valid() && ft.state == AllocPending && mt.codec == ft.codec && Matches(r, ft, dev)
    requires mt.state == MT.Idle && mt.request == MT.NoRequest && mt.levels.Length == MT.NR_OF_LEVELS
    requires At(ft.codec, o0, t, v0, Shape(metaLevel, metaEdges), o, r, v, k) && v.node == metaRoot
    modifies ft, ft.newPbas, mt, mt.levels, dev
    ensures mt.state == MT.Idle && mt.request == MT.NoRequest
    ensures Answers(ft.codec, o, r, dev.blocks, v, v', Shape(metaLevel, metaEdges), answer) && v'.node == newMetaRoot
    ensures answer.success == success
    ensures success ==> At(ft.codec, o0, t, v0, Shape(metaLevel, metaEdges), o', r', v', k)
    ensures success ==> Matches(r', ft, dev) && ft.state == AllocCompleted
    ensures !success ==> ft.View() == old(ft.View())
    ensures !success ==> IsUnserved(ft.codec, t, Shape(metaLevel, metaEdges), o, r, v, v', dev.blocks, answer)
  {
    ghost var s := Shape(metaLevel, metaEdges);
    ghost var g := WaitingState(ft.codec, o, t, k);
    AskedIsOutside(ft.codec, o0, t, v0, s, o, r, v, g);
    var gone := ft.oldPbas[ft.allocLvl];
    var newPba;
    newMetaRoot, success, newPba, v' := D.Allocate(mt, dev, metaRoot, metaLevel, metaEdges, ft.gen, gone, v);
    answer := MetaTreeTheorems.Exchange(gone, success, newPba);
    o', r' := NextOrigin(o, dev.blocks, newPba), Serve(ft.codec, r.(disk := dev.blocks, supply := [newPba]));
    if success {
      HandBack(ft, newPba, r, dev.blocks);
      GetsAddress(ft.codec, o0, t, v0, s, o, r, v, k, g, dev.blocks, v', answer);
    }
  }

  /** How far the step is from its end. */
  ghost function Distance(o0: World, k: nat, state: JobState): nat
  {
    if k <= RoundsLeft(o0) then 2 * (RoundsLeft(o0) - k) + (if state.AllocPending? then 1 else 0) else 0
  }

  /** One round of the step. */
  method RunRound(ft: Resizing, dev: D.BlockMap, ghost s: Shape,
                  ghost o0: World, ghost t: Tree, ghost v0: Tree, ghost o: World, ghost r: World, ghost v: Tree, ghost k: nat)
    returns (ghost r': World)
    requires ft.Valid() && ft.state != Completed && ft.state != Raised && ft.state != AllocPending && Matches(r, ft, dev)
    requires At(ft.codec, o0, t, v0, s, o, r, v, k)
    modifies ft, ft.t1, ft.oldPbas, ft.oldGens, ft.newPbas, dev
    ensures k < RoundsLeft(o0) && Matches(r', ft, dev) && At(ft.codec, o0, t, v0, s, o, r', v, k + 1)
  {
    GoesOn(ft.codec, o0, t, v0, s, o, r, v, k);
    ExecuteAndServe(ft, dev, r);
    r' := Advance(ft.codec, r);
  }

  /** One turn: a round of the step, or an allocation for it. */
  method Turn(ft: Resizing, mt: MetaTree, dev: D.BlockMap, metaRoot: T1, metaLevel: nat, metaEdges: nat,
              ghost o0: World, ghost t: Tree, ghost v0: Tree, ghost o: World, ghost r: World, ghost v: Tree, ghost k: nat)
    returns (served: bool, newMetaRoot: T1, ghost o': World, ghost r': World, ghost v': Tree,
             ghost answer: MetaTreeTheorems.Exchange, ghost k': nat)
    requires ft.Valid() && ft.state != Completed && ft.state != Raised && mt.codec == ft.codec && Matches(r, ft, dev)
    requires mt.state == MT.Idle && mt.request == MT.NoRequest && mt.levels.Length == MT.NR_OF_LEVELS
    requires At(ft.codec, o0, t, v0, Shape(metaLevel, metaEdges), o, r, v, k) && v.node == metaRoot
    modifies ft, ft.t1, ft.oldPbas, ft.oldGens, ft.newPbas, mt, mt.levels, dev
    ensures mt.state == MT.Idle && mt.request == MT.NoRequest
    ensures served ==> Matches(r', ft, dev) && At(ft.codec, o0, t, v0, Shape(metaLevel, metaEdges), o', r', v', k')
    ensures served ==> !v'.Nil? && v'.node == newMetaRoot && Distance(o0, k', ft.state) < Distance(o0, k, old(ft.state))
    ensures !served ==> ft.View() == old(ft.View())
    ensures !served ==> IsUnserved(ft.codec, t, Shape(metaLevel, metaEdges), o, r, v, v', dev.blocks, answer) && v'.node == newMetaRoot
  {
    served, newMetaRoot, o', v', answer, k' := true, metaRoot, o, v, MetaTreeTheorems.Exchange(0, true, 0), k;
    if ft.state == AllocPending {
      newMetaRoot, served, o', r', v', answer := AskMetaTree(ft, mt, dev, metaRoot, metaLevel, metaEdges, o0, t, v0, o, r, v, k);
    } else {
      r' := RunRound(ft, dev, Shape(metaLevel, metaEdges), o0, t, v0, o, r, v, k);
      k' := k + 1;
    }
  }

  /** Run a submitted step until it is over, or the meta tree has no address left. */
  method RunStep(ft: Resizing, mt: MetaTree, dev: D.BlockMap, metaRoot: T1, metaLevel: nat, metaEdges: nat,
                 ghost o0: World, ghost t: Tree, ghost v0: Tree)
    returns (served: bool, newMetaRoot: T1, ghost o: World, ghost r: World, ghost v: Tree, ghost v': Tree,
             ghost answer: MetaTreeTheorems.Exchange, ghost k: nat)
    requires ft.Valid() && mt.codec == ft.codec && Matches(o0, ft, dev)
    requires mt.state == MT.Idle && mt.request == MT.NoRequest && mt.levels.Length == MT.NR_OF_LEVELS
    requires At(ft.codec, o0, t, v0, Shape(metaLevel, metaEdges), o0, o0, v0, 0) && v0.node == metaRoot
    modifies ft, ft.t1, ft.oldPbas, ft.oldGens, ft.newPbas, mt, mt.levels, dev
    ensures At(ft.codec, o0, t, v0, Shape(metaLevel, metaEdges), o, r, v, k) && r.job == ft.View() && r.supply == []
    ensures served ==> v.node == newMetaRoot && r.disk == dev.blocks && (ft.state == Completed || ft.state == Raised)
    ensures !served ==> IsUnserved(ft.codec, t, Shape(metaLevel, metaEdges), o, r, v, v', dev.blocks, answer) && v'.node == newMetaRoot
  {
    newMetaRoot, served := metaRoot, true;
    o, r, v, v', answer, k := o0, o0, v0, v0, MetaTreeTheorems.Exchange(0, true, 0), 0;
    while ft.state != Completed && ft.state != Raised
      invariant ft.Valid() && Matches(r, ft, dev) && At(ft.codec, o0, t, v0, Shape(metaLevel, metaEdges), o, r, v, k)
      invariant mt.state == MT.Idle && mt.request == MT.NoRequest && v.node == newMetaRoot
      decreases Distance(o0, k, ft.state)
    {
      ghost var o', r', k';
      served, newMetaRoot, o', r', v', answer, k' := Turn(ft, mt, dev, newMetaRoot, metaLevel, metaEdges, o0, t, v0, o, r, v, k);
      if !served {
        return;
      }
      o, r, v, k := o', r', v', k';
    }
  }

  lemma StartsAt(c: Codec, o0: World, t: Tree, v0: Tree, s: Shape)
    requires JointRequest(c, o0, t, v0, s)
    ensures At(c, o0, t, v0, s, o0, o0, v0, 0)
  {
  }

  /** A whole extension step with the meta tree on the same device.  It takes place on
      the device as the meta tree left it: o is that request, r the state reached.
      - If every allocation succeeds, ok tells whether the step completes; then u is the
        tree stored afterwards, v the meta tree, and no address is lost or shared.
      - The step ends early, not served, if the meta tree has no address left. */
  method ExtendStep(ft: Resizing, mt: MetaTree, dev: D.BlockMap, gen: U64, root: T1, maxLevel: nat, nrLeaves: nat, edges: nat,
                    firstPba: U64, nrPbas: U64, metaRoot: T1, metaLevel: nat, metaEdges: nat, ghost t: Tree, ghost v0: Tree)
    returns (ok: bool, served: bool, newMetaRoot: T1,
             ghost o: World, ghost r: World, ghost u: Tree, ghost v: Tree, ghost v': Tree, ghost answer: MetaTreeTheorems.Exchange)
    requires ft.Valid() && ft.state == Idle && mt.codec == ft.codec
    requires mt.state == MT.Idle && mt.request == MT.NoRequest && mt.levels.Length == MT.NR_OF_LEVELS
    requires JointRequest(ft.codec, Submitted(ft.View(), gen, root, maxLevel, nrLeaves, edges, firstPba, nrPbas, dev.blocks),
                          t, v0, Shape(metaLevel, metaEdges))
    requires v0.node == metaRoot
    modifies ft, ft.t1, ft.oldPbas, ft.oldGens, ft.newPbas, mt, mt.levels, dev
    ensures var o0 := Submitted(old(ft.View()), gen, root, maxLevel, nrLeaves, edges, firstPba, nrPbas, old(dev.blocks));
            var s := Shape(metaLevel, metaEdges);
            && Joined(ft.codec, o0, t, v0, s, o, r, v) && r.job == ft.View() && r.supply == []
            && if served then v.node == newMetaRoot && IsOver(ft.codec, o0, t, v0, s, o, r, v, u, dev.blocks, ok)
               else IsUnserved(ft.codec, t, s, o, r, v, v', dev.blocks, answer) && v'.node == newMetaRoot && !ok
  {
    ghost var s := Shape(metaLevel, metaEdges);
    ghost var o0 := Submitted(ft.View(), gen, root, maxLevel, nrLeaves, edges, firstPba, nrPbas, dev.blocks);
    StartsAt(ft.codec, o0, t, v0, s);
    var submitted := ft.SubmitPrimitive(gen, root, maxLevel, nrLeaves, edges, firstPba, nrPbas);
    ghost var k: nat;
    served, newMetaRoot, o, r, v, v', answer, k := RunStep(ft, mt, dev, metaRoot, metaLevel, metaEdges, o0, t, v0);
    ok, u := served && ft.state == Completed, Nil;
    if served {
      u := StepEnds(ft.codec, o0, t, v0, s, o, r, v, k);
    }
  }
}
