/** Giving every node of the path its address: kept, or exchanged with the meta tree. */
module FtAlloc {
  import opened NodeCodec
  import opened HashTree
  import opened TreeIndex
  import opened FreeTree
  import opened FtSpec
  import opened FtBuild
  import opened FtInv
  import opened FtMount
  import opened FtPlaces
  import R = FtRead

  // ----------------------------------------------------- from reading to allocating

  lemma MountedIsBuilt(c: Codec, o: World, t: Tree, w: World, g: Ghost, mount: nat, upper: seq<U64>, r: Job, placed: nat)
    requires Request(c, o, t) && Mounted(c, o, t, w, g, mount, upper, r) && w == o.(job := w.job)
    requires r.lvl <= placed + 1 && placed <= r.maxLevel && (placed < r.maxLevel ==> r.maxLevel == o.job.maxLevel)
    requires PlanIs(Plan(r, placed), r, upper, mount) && Placed(o, t, r, placed)
    ensures BuiltInv(c, o, t, w.(job := r), Spine(g, mount, r.edges), placed)
  {
    var next, w' := Spine(g, mount, r.edges), w.(job := r);
    MountedLow(c, o, t, w, g, mount, upper, r, Plan(r, placed)[r.lvl]);
    forall p ensures Balance(o, t, w', BuiltUses(c, r, next, placed, p), p) {
      assert PlanUses(c, r, g, mount, Plan(r, placed), p) == BuiltUses(c, r, next, placed, p);
      assert Given(w'.swaps, p) == 0 && Taken(w'.swaps, p) == 0;
    }
  }

  lemma MountedLow(c: Codec, o: World, t: Tree, w: World, g: Ghost, mount: nat, upper: seq<U64>, r: Job, q: U64)
    requires Mounted(c, o, t, w, g, mount, upper, r)
    ensures Sized(o, w.(job := r), Spine(g, mount, r.edges))
    ensures BuiltLow(c, o, w.(job := r), Spine(g, mount, r.edges), LowNode(c, r, Spine(g, mount, r.edges), q))
  {
    var next := Spine(g, mount, r.edges);
    assert LowOk(c, w.disk, LowNode(c, r, next, q), r.lvl, Position(next.path, r.lvl, r.edges) + r.newLeaves,
                 Leaves(next.base[r.lvl], r.edges) + Added(o, r), r.edges);
    assert KidsFall(LowNode(c, r, next, q), NODES_PER_BLOCK, g.youngest);
  }

  lemma OldAddresses(c: Codec, o: World, t: Tree, w: World, g: Ghost)
    requires ReadingInv(c, o, t, w, g)
    ensures forall l | w.job.lvl <= l <= w.job.maxLevel && w.job.oldGens[l] == w.job.gen :: Writable(o, t, w.job.oldPbas[l])
    ensures forall l | w.job.lvl <= l <= w.job.maxLevel :: Uses(t, w.job.edges, Every, w.job.oldPbas[l]) >= 1
  {
    forall l | w.job.lvl <= l <= w.job.maxLevel && w.job.oldGens[l] == w.job.gen ensures Writable(o, t, w.job.oldPbas[l]) {
      PathNodeWritable(c, o, t, w, g, l);
    }
    forall l | w.job.lvl <= l <= w.job.maxLevel ensures Uses(t, w.job.edges, Every, w.job.oldPbas[l]) >= 1 {
      R.PathNodeUsed(c, o, t, w, g, l);
    }
  }

  /** Reading met a missing child: after mounting, no path node has an address yet. */
  lemma ReadingBuilds(c: Codec, o: World, t: Tree, w: World, g: Ghost)
    requires R.NextIsMissing(c, o, t, w, g)
    ensures var r := Mount(w.job, w.job.lvl, g.path[w.job.lvl - 1]);
            BuiltInv(c, o, t, w.(job := r), Spine(g, w.job.lvl, r.edges), w.job.lvl - 1)
  {
    var j := w.job;
    var r := Mount(j, j.lvl, g.path[j.lvl - 1]);
    ReadingMounts(c, o, t, w, g);
    Mounts(c, o, t, w, g, j.lvl, j.oldPbas);
    ReadingBuildsFrom(c, o, t, w, g, r, j.lvl - 1);
  }

  lemma ReadingBuildsFrom(c: Codec, o: World, t: Tree, w: World, g: Ghost, r: Job, placed: nat)
    requires ReadingInv(c, o, t, w, g) && Mounted(c, o, t, w, g, w.job.lvl, w.job.oldPbas, r) && w.job.lvl == placed + 1
    requires r.oldPbas == w.job.oldPbas && r.oldGens == w.job.oldGens && r.gen == w.job.gen
    ensures BuiltInv(c, o, t, w.(job := r), Spine(g, w.job.lvl, r.edges), placed)
  {
    OldAddresses(c, o, t, w, g);
    MountedIsPlanned(c, o, t, w, g, r);
    MountedIsBuilt(c, o, t, w, g, w.job.lvl, w.job.oldPbas, r, placed);
  }

  lemma MountedIsPlanned(c: Codec, o: World, t: Tree, w: World, g: Ghost, r: Job)
    requires Shaped(w.job) && 1 <= w.job.lvl <= w.job.maxLevel && w.job.gen == o.job.gen && Fits(g, w.job)
    requires Mounted(c, o, t, w, g, w.job.lvl, w.job.oldPbas, r)
    requires r.oldPbas == w.job.oldPbas && r.oldGens == w.job.oldGens && r.gen == w.job.gen
    requires forall l | w.job.lvl <= l <= w.job.maxLevel && w.job.oldGens[l] == w.job.gen :: Writable(o, t, w.job.oldPbas[l])
    requires forall l | w.job.lvl <= l <= w.job.maxLevel :: Uses(t, w.job.edges, Every, w.job.oldPbas[l]) >= 1
    ensures PlanIs(Plan(r, w.job.lvl - 1), r, w.job.oldPbas, w.job.lvl) && Placed(o, t, r, w.job.lvl - 1)
  {
  }

  // ------------------------------------------------------------- placing one node

  /** Apart from the addresses of the path nodes the jobs agree. */
  ghost predicate SameWork(j: Job, r: Job)
  {
    && SamePath(j, r) && r.gen == j.gen && r.nrLeaves == j.nrLeaves && r.lvl == j.lvl
    && r.t1 == j.t1 && r.t2 == j.t2 && r.oldPbas == j.oldPbas && r.oldGens == j.oldGens
    && r.pba == j.pba && r.nrPbas == j.nrPbas && r.newLeaves == j.newLeaves
  }

  lemma CommonFrame(c: Codec, o: World, t: Tree, w: World, w': World, g: Ghost)
    requires Common(c, o, t, w, g) && w'.disk == w.disk && SameWork(w.job, w'.job) && SupplyLeft(o, w')
    ensures Common(c, o, t, w', g)
  {
    forall l | w.job.lvl < l <= w.job.maxLevel ensures UpperLevel(c, w.disk, w'.job, g, l) {
      UpperSame(c, w.disk, w.job, w'.job, g, g, l);
    }
  }

  /** Neither the body nor the leaves depend on the address of the node. */
  lemma LowFrame(c: Codec, o: World, w: World, w': World, g: Ghost, q: U64, q': U64)
    requires Sized(o, w, g) && w'.disk == w.disk && SameWork(w.job, w'.job)
    requires BuiltLow(c, o, w, g, LowNode(c, w.job, g, q))
    ensures BuiltLow(c, o, w', g, LowNode(c, w'.job, g, q'))
  {
  }

  lemma {:induction false} AboveUpdate(pbas: seq<U64>, base: seq<Tree>, path: seq<nat>, edges: nat, l: nat, top: nat, i: nat, q: U64, p: U64)
    requires |pbas| == |base| == LEVELS && 1 <= l <= i <= top < LEVELS && top <= |path| && ValidDegree(edges)
    ensures Above(pbas[i := q], base, path, edges, l, top, p) + (if pbas[i] == p then 1 else 0)
            == Above(pbas, base, path, edges, l, top, p) + (if q == p then 1 else 0)
    decreases top - l
  {
    if l < i {
      AboveUpdate(pbas, base, path, edges, l + 1, top, i, q, p);
    } else {
      R.AboveSame(pbas[i := q], pbas, base, base, path, edges, l + 1, top, p);
    }
  }

  lemma LowNodeUses(c: Codec, j: Job, g: Ghost, q: U64, q': U64, p: U64)
    requires Shaped(j) && Fits(g, j) && 1 <= j.lvl
    ensures Uses(LowNode(c, j, g, q'), j.edges, Every, p) + (if q == p then 1 else 0)
            == Uses(LowNode(c, j, g, q), j.edges, Every, p) + (if q' == p then 1 else 0)
  {
  }

  /** The addresses used, as a function of where the path nodes go. */
  ghost function UsesOf(c: Codec, j: Job, g: Ghost, plan: seq<U64>, p: U64): nat
    requires Shaped(j) && Fits(g, j) && 1 <= j.lvl && |plan| == LEVELS
  {
    Uses(LowNode(c, j, g, plan[j.lvl]), j.edges, Every, p) + Above(plan, g.base, g.path, j.edges, j.lvl + 1, j.maxLevel, p)
  }

  lemma PlanUpdate(c: Codec, j: Job, g: Ghost, plan: seq<U64>, l: nat, q: U64, p: U64)
    requires Shaped(j) && Fits(g, j) && 1 <= j.lvl <= l <= j.maxLevel && |plan| == LEVELS
    ensures UsesOf(c, j, g, plan[l := q], p) + (if plan[l] == p then 1 else 0)
            == UsesOf(c, j, g, plan, p) + (if q == p then 1 else 0)
  {
    if l == j.lvl {
      LowNodeUses(c, j, g, plan[l], q, p);
      R.AboveSame(plan[l := q], plan, g.base, g.base, g.path, j.edges, j.lvl + 1, j.maxLevel, p);
    } else {
      AboveUpdate(plan, g.base, g.path, j.edges, j.lvl + 1, j.maxLevel, l, q, p);
    }
  }

  /** A node of the current generation keeps its address. */
  lemma Keep(c: Codec, o: World, t: Tree, w: World, g: Ghost, l: nat, r: Job)
    requires 1 <= l <= w.job.maxLevel && BuiltInv(c, o, t, w, g, l - 1) && w.job.oldGens[l] == w.job.gen
    requires SameWork(w.job, r) && r.newPbas == w.job.newPbas[l := w.job.oldPbas[l]]
    ensures BuiltInv(c, o, t, w.(job := r), g, l)
  {
    var j, w' := w.job, w.(job := r);
    CommonFrame(c, o, t, w, w', g);
    KeepsPlan(o, t, j, r, l);
    LowFrame(c, o, w, w', g, Plan(j, l - 1)[j.lvl], Plan(r, l)[j.lvl]);
    forall p ensures Balance(o, t, w', BuiltUses(c, r, g, l, p), p) {
      assert Balance(o, t, w, BuiltUses(c, j, g, l - 1, p), p);
    }
  }

  lemma KeepsPlan(o: World, t: Tree, j: Job, r: Job, l: nat)
    requires SameWork(j, r) && 1 <= l <= j.maxLevel && r.newPbas == j.newPbas[l := j.oldPbas[l]]
    requires Placed(o, t, j, l - 1) && j.oldGens[l] == j.gen
    ensures Plan(r, l) == Plan(j, l - 1) && Placed(o, t, r, l)
  {
  }

  lemma SupplyNext(o: World, w: World, w': World, gone: U64)
    requires SupplyLeft(o, w) && w.supply != [] && w'.supply == w.supply[1..] && w'.swaps == w.swaps + [Swap(gone, w.supply[0])]
    ensures SupplyLeft(o, w') && w.supply[0] in o.supply
    ensures forall p :: Given(w'.swaps, p) == Given(w.swaps, p) + (if gone == p then 1 else 0)
    ensures forall p :: Taken(w'.swaps, p) == Taken(w.swaps, p) + (if w.supply[0] == p then 1 else 0)
  {
    assert w'.swaps[..|w'.swaps| - 1] == w.swaps;
  }

  /** The address of an old node goes to the meta tree in exchange for a new one. */
  lemma Take(c: Codec, o: World, t: Tree, w: World, g: Ghost, l: nat, w': World)
    requires 1 <= l <= w.job.maxLevel && BuiltInv(c, o, t, w, g, l - 1) && w.supply != []
    requires w' == w.(job := w'.job, supply := w.supply[1..], swaps := w.swaps + [Swap(w.job.oldPbas[l], w.supply[0])])
    requires SameWork(w.job, w'.job) && w'.job.newPbas == w.job.newPbas[l := w.supply[0]]
    ensures BuiltInv(c, o, t, w', g, l)
  {
    var j, r := w.job, w'.job;
    SupplyNext(o, w, w', j.oldPbas[l]);
    SuppliedWritable(c, o, t, w.supply[0]);
    CommonFrame(c, o, t, w, w', g);
    assert Plan(r, l) == Plan(j, l - 1)[l := w.supply[0]];
    LowFrame(c, o, w, w', g, Plan(j, l - 1)[j.lvl], Plan(r, l)[j.lvl]);
    TakeBalance(c, o, t, w, g, l, w');
  }

  lemma TakeBalance(c: Codec, o: World, t: Tree, w: World, g: Ghost, l: nat, w': World)
    requires 1 <= l <= w.job.maxLevel && BuiltInv(c, o, t, w, g, l - 1) && w.supply != []
    requires w' == w.(job := w'.job, supply := w.supply[1..], swaps := w.swaps + [Swap(w.job.oldPbas[l], w.supply[0])])
    requires SameWork(w.job, w'.job) && Plan(w'.job, l) == Plan(w.job, l - 1)[l := w.supply[0]]
    ensures forall p :: Balance(o, t, w', BuiltUses(c, w'.job, g, l, p), p)
  {
    var j, r := w.job, w'.job;
    SupplyNext(o, w, w', j.oldPbas[l]);
    forall p ensures Balance(o, t, w', BuiltUses(c, r, g, l, p), p) {
      assert Balance(o, t, w, BuiltUses(c, j, g, l - 1, p), p);
      PlanUpdate(c, j, g, Plan(j, l - 1), l, w.supply[0], p);
      assert UsesOf(c, j, g, Plan(r, l), p) == BuiltUses(c, r, g, l, p);
    }
  }

  // ------------------------------------------------------------------------ rounds

  /** The round in which the job asks for, or keeps, the address of level l. */
  ghost function PlaceRound(c: Codec, w: World, r: Job): World
    requires Shaped(r)
  {
    Serve(c, w.(job := r))
  }

  /** The path node of level l has its address, or the job waits for it. */
  ghost predicate PlacedAt(c: Codec, o: World, t: Tree, w: World, w': World, g: Ghost, l: nat)
  {
    && (AllocInv(c, o, t, w', g) || WaitInv(c, o, t, w', g))
    && w'.job.allocLvl == l && w'.job.maxLevel == w.job.maxLevel && w'.job.newLeaves == w.job.newLeaves
  }

  /** State and level do not matter to what was built. */
  lemma BuiltFrame(c: Codec, o: World, t: Tree, w: World, w': World, g: Ghost, placed: nat)
    requires BuiltInv(c, o, t, w, g, placed) && w' == w.(job := w'.job)
    requires SameWork(w.job, w'.job) && w'.job.newPbas == w.job.newPbas
    ensures BuiltInv(c, o, t, w', g, placed)
  {
    CommonFrame(c, o, t, w, w', g);
    SamePlan(o, t, w.job, w'.job, placed);
    LowFrame(c, o, w, w', g, Plan(w.job, placed)[w.job.lvl], Plan(w.job, placed)[w.job.lvl]);
    forall p ensures Balance(o, t, w', BuiltUses(c, w'.job, g, placed, p), p) {
      assert Balance(o, t, w, BuiltUses(c, w.job, g, placed, p), p);
    }
  }

  lemma SamePlan(o: World, t: Tree, j: Job, r: Job, placed: nat)
    requires SameWork(j, r) && r.newPbas == j.newPbas && Placed(o, t, j, placed)
    ensures Plan(r, placed) == Plan(j, placed) && Placed(o, t, r, placed)
  {
  }

  /** The round in which the job asks for a new address. */
  lemma Asks(c: Codec, o: World, t: Tree, w: World, g: Ghost, l: nat)
    requires 1 <= l <= w.job.maxLevel && BuiltInv(c, o, t, w, g, l - 1)
    ensures PlacedAt(c, o, t, w, PlaceRound(c, w, w.job.(allocLvl := l, state := AllocPending)), g, l)
  {
    if w.supply == [] {
      AsksAndWaits(c, o, t, w, g, l);
    } else {
      AsksAndTakes(c, o, t, w, g, l);
    }
  }

  lemma AsksAndWaits(c: Codec, o: World, t: Tree, w: World, g: Ghost, l: nat)
    requires 1 <= l <= w.job.maxLevel && BuiltInv(c, o, t, w, g, l - 1) && w.supply == []
    ensures PlacedAt(c, o, t, w, PlaceRound(c, w, w.job.(allocLvl := l, state := AllocPending)), g, l)
  {
    var w' := w.(job := w.job.(allocLvl := l, state := AllocPending));
    BuiltFrame(c, o, t, w, w', g, l - 1);
    ServesNobody(c, w');
  }

  lemma ServesNobody(c: Codec, w: World)
    requires Shaped(w.job) && Waiting(w)
    ensures Serve(c, w) == w
  {
  }

  lemma AsksAndTakes(c: Codec, o: World, t: Tree, w: World, g: Ghost, l: nat)
    requires 1 <= l <= w.job.maxLevel && BuiltInv(c, o, t, w, g, l - 1) && w.supply != []
    ensures PlacedAt(c, o, t, w, PlaceRound(c, w, w.job.(allocLvl := l, state := AllocPending)), g, l)
  {
    var w' := PlaceRound(c, w, w.job.(allocLvl := l, state := AllocPending));
    Take(c, o, t, w, g, l, w');
    assert AllocInv(c, o, t, w', g);
  }

  lemma Places(c: Codec, o: World, t: Tree, w: World, g: Ghost, l: nat)
    requires 1 <= l <= w.job.maxLevel && BuiltInv(c, o, t, w, g, l - 1)
    ensures PlacedAt(c, o, t, w, PlaceRound(c, w, AllocAt(w.job, l)), g, l)
  {
    if w.job.oldGens[l] == w.job.gen {
      Keep(c, o, t, w, g, l, AllocAt(w.job, l));
    } else {
      Asks(c, o, t, w, g, l);
    }
  }

  /** What the last round of reading does. */
  lemma LastReadRound(c: Codec, o: World, t: Tree, w: World, g: Ghost)
    requires R.NextIsMissing(c, o, t, w, g)
    ensures CanExecute(w.job)
    ensures var r := Mount(w.job, w.job.lvl, g.path[w.job.lvl - 1]);
            Advance(c, w) == PlaceRound(c, w.(job := r), FirstPlacing(r, w.job.lvl))
  {
    assert ChildIndex(w.job.vba, w.job.lvl, w.job.edges) == g.path[w.job.lvl - 1];
    R.HashMatches(c, o, t, w, g);
    if w.job.lvl == 1 {
      LeafEntryUnused(c, o, t, w, g);
    }
  }

  /** The last round of reading builds the branch and places the first path node. */
  lemma StartsPlacing(c: Codec, o: World, t: Tree, w: World, g: Ghost) returns (next: Ghost)
    requires R.NextIsMissing(c, o, t, w, g)
    ensures CanExecute(w.job)
    ensures var r := Mount(w.job, w.job.lvl, g.path[w.job.lvl - 1]);
            PlacedAt(c, o, t, w.(job := r), Advance(c, w), next, w.job.lvl) && r.maxLevel == w.job.maxLevel
  {
    var j := w.job;
    var r := Mount(j, j.lvl, g.path[j.lvl - 1]);
    next := Spine(g, j.lvl, r.edges);
    var built := w.(job := r);
    LastReadRound(c, o, t, w, g);
    ReadingBuilds(c, o, t, w, g);
    PlacesFirst(c, o, t, built, next, j.lvl);
  }

  /** The first round of placing: at the leaf entries the job always asks. */
  ghost function FirstPlacing(j: Job, l: nat): Job
    requires Shaped(j) && l < LEVELS
  {
    if l == 1 then j.(allocLvl := 1, state := AllocPending) else AllocAt(j, l)
  }

  lemma PlacesFirst(c: Codec, o: World, t: Tree, w: World, g: Ghost, l: nat)
    requires 1 <= l <= w.job.maxLevel && BuiltInv(c, o, t, w, g, l - 1)
    ensures PlacedAt(c, o, t, w, PlaceRound(c, w, FirstPlacing(w.job, l)), g, l)
  {
    if l == 1 {
      Asks(c, o, t, w, g, 1);
    } else {
      Places(c, o, t, w, g, l);
    }
  }

  lemma LeafEntryUnused(c: Codec, o: World, t: Tree, w: World, g: Ghost)
    requires ReadingInv(c, o, t, w, g) && w.job.lvl == 1
    ensures w.job.t2[ChildIndex(w.job.vba, 1, w.job.edges)].pba == 0
  {
    assert LevelRead(c, o, w.job, g, 1);
    assert g.path[0] == ChildIndex(w.job.vba, 1, w.job.edges);
    FirstUnused(g.base[1], g.path, w.job.edges);
  }

  /** A further round of placing path nodes. */
  lemma PlacesNext(c: Codec, o: World, t: Tree, w: World, g: Ghost)
    requires AllocInv(c, o, t, w, g) && w.job.allocLvl < w.job.maxLevel
    ensures CanExecute(w.job) && PlacedAt(c, o, t, w, Advance(c, w), g, w.job.allocLvl + 1)
  {
    PlacesNextRound(c, w);
    Places(c, o, t, w, g, w.job.allocLvl + 1);
  }

  lemma PlacesNextRound(c: Codec, w: World)
    requires Shaped(w.job) && w.job.state.AllocCompleted? && w.job.allocLvl < w.job.maxLevel
    ensures CanExecute(w.job) && Advance(c, w) == PlaceRound(c, w, AllocAt(w.job, w.job.allocLvl + 1))
  {
  }
}
