/** The first round of a step on a full tree: a new root level and a branch below it. */
module FtRoot {
  import opened NodeCodec
  import opened HashTree
  import opened TreeIndex
  import opened FreeTree
  import opened FtSpec
  import opened FtBuild
  import opened FtInv
  import opened FtMount
  import opened FtPlaces
  import opened FtAlloc
  import opened FtWrite
  import R = FtRead
  import MT = MetaTreeSpec

  /** The tree is full, a level can be added, and there is an address for its node. */
  ghost predicate NeedsRoot(c: Codec, o: World, t: Tree)
  {
    var j := o.job;
    && Request(c, o, t) && j.maxLevel < MAX_LEVEL && j.nrPbas > 0
    && MaxMaxVba(j.edges, j.maxLevel).Some? && j.nrLeaves > MaxMaxVba(j.edges, j.maxLevel).value
  }

  /** The job after the fields of a new step are set. */
  function Begun(j: Job): Job
    requires Shaped(j)
  {
    j.(newLeaves := 0, vba := j.nrLeaves, lvl := j.maxLevel, newPbas := NoAddresses(),
       oldPbas := NoAddresses()[j.maxLevel := j.root.pba], oldGens := NoAddresses()[j.maxLevel := j.root.gen])
  }

  /** The new root holds the old one as its first child. */
  function RootTree(j: Job, t: Tree): Tree
    requires Shaped(j)
  {
    Inner(j.root, j.t1[j.maxLevel], [t] + Nils(j.edges - 1))
  }

  ghost function RootGhost(o: World, j: Job, t: Tree): Ghost
    requires Shaped(j)
  {
    Ghost(seq(LEVELS, _ => Nil)[j.maxLevel := RootTree(j, t)], Path(j.vba, j.maxLevel, j.edges), Youngest(o, t))
  }

  // ------------------------------------------------------- the path in the new tree

  lemma FullTree(c: Codec, o: World, t: Tree)
    requires NeedsRoot(c, o, t)
    ensures o.job.nrLeaves == Capacity(o.job.edges, o.job.maxLevel) == Pow(o.job.edges, o.job.maxLevel)
  {
    PackedCount(t, o.job.maxLevel, o.job.nrLeaves, o.job.edges);
    CapacityPow(o.job.edges, o.job.maxLevel);
  }

  /** The first address behind a full tree: child 1 of the new root, child 0 below. */
  lemma FullPath(edges: nat, level: nat)
    requires edges > 1 && PowerOfTwo(edges)
    ensures var n := Pow(edges, level);
            var path := Path(n, level + 1, edges);
            path[level] == 1 && Position(path, level + 1, edges) == n
  {
    var n := Pow(edges, level);
    ChildIndexDigit(n, level + 1, edges);
    DivUnique(n, n, 1, 0);
    DivUnique(1, edges, 0, 1);
    PositionOfPath(n, level + 1, level + 1, edges);
    assert n < edges * n by {
      MulMonotone(2, edges, n);
    }
    DivUnique(n, Pow(edges, level + 1), 0, n);
  }

  // ------------------------------------------------------------------ the new root

  lemma RootPacked(c: Codec, o: World, t: Tree)
    requires NeedsRoot(c, o, t)
    ensures var j := AddRoot(Begun(o.job));
            && LeftPacked(RootTree(j, t), j.maxLevel, j.nrLeaves, j.edges)
            && Leaves(RootTree(j, t), j.edges) == Leaves(t, j.edges)
  {
    var j := AddRoot(Begun(o.job));
    FullTree(c, o, t);
    var kids := [t] + Nils(j.edges - 1);
    assert kids[1..] == Nils(j.edges - 1);
    NonePacked(kids[1..], j.maxLevel - 1, j.edges);
    LeavesOfNone(kids[1..], j.edges);
  }

  lemma RootBody(c: Codec, o: World, t: Tree)
    requires NeedsRoot(c, o, t)
    ensures var j := AddRoot(Begun(o.job));
            BodyStored(c, o.disk, RootTree(j, t), j.maxLevel, j.edges)
  {
    var j := AddRoot(Begun(o.job));
    var u := RootTree(j, t);
    forall i | 0 <= i < j.edges ensures EntryOf(u.entries[i], u.kids[i]) && Stored(c, o.disk, u.kids[i], j.maxLevel - 1, j.edges) {
      assert i > 0 ==> u.kids[i].Nil? && u.entries[i] == T1_INVALID;
    }
  }

  lemma RootUses(o: World, t: Tree, p: U64)
    requires Shaped(o.job) && o.job.maxLevel < MAX_LEVEL && o.job.nrPbas > 0
    ensures var j := AddRoot(Begun(o.job));
            Uses(RootTree(j, t), j.edges, Every, p) == Uses(t, j.edges, Every, p) + InRange(p, o.job.pba, 1)
  {
    var j := AddRoot(Begun(o.job));
    var kids := [t] + Nils(j.edges - 1);
    assert kids[1..] == Nils(j.edges - 1);
    SumUsesZero(kids[1..], j.edges, Every, p);
  }

  lemma RootPath(c: Codec, o: World, t: Tree)
    requires NeedsRoot(c, o, t)
    ensures var j := AddRoot(Begun(o.job));
            var g := RootGhost(o, j, t);
            OnPath(g, j) && g.path[j.maxLevel - 1] == 1 && Position(g.path, j.maxLevel, j.edges) == j.nrLeaves
  {
    var j := AddRoot(Begun(o.job));
    FullTree(c, o, t);
    FullPath(j.edges, o.job.maxLevel);
    PathIsOnPath(RootGhost(o, j, t), j);
  }

  lemma PathIsOnPath(g: Ghost, j: Job)
    requires Shaped(j) && Fits(g, j) && g.path == Path(j.vba, j.maxLevel, j.edges)
    ensures OnPath(g, j)
  {
  }

  lemma RootPoint(c: Codec, o: World, t: Tree)
    requires NeedsRoot(c, o, t)
    ensures var j := AddRoot(Begun(o.job));
            var g := RootGhost(o, j, t);
            && OnPath(g, j) && g.path[j.maxLevel - 1] == 1 && Position(g.path, j.maxLevel, j.edges) == j.nrLeaves
            && MountPoint(c, o.(job := j), g, j.maxLevel)
  {
    var j := AddRoot(Begun(o.job));
    RootPath(c, o, t);
    RootPacked(c, o, t);
    RootBody(c, o, t);
    assert RootGhost(o, j, t).base[j.maxLevel] == RootTree(j, t);
  }

  lemma RootReady(c: Codec, o: World, t: Tree)
    requires NeedsRoot(c, o, t)
    ensures var j := AddRoot(Begun(o.job));
            MountReady(c, o, t, o.(job := j), RootGhost(o, j, t), j.maxLevel, j.newPbas)
  {
    var j := AddRoot(Begun(o.job));
    var g := RootGhost(o, j, t);
    RootPoint(c, o, t);
    RootPacked(c, o, t);
    forall p ensures MountBalance(o, t, j, g, j.maxLevel, j.newPbas, p) {
      RootUses(o, t, p);
      assert Above(j.newPbas, g.base, g.path, j.edges, j.maxLevel + 1, j.maxLevel, p) == 0;
    }
  }

  /** After mounting below the new root every path node has its address. */
  lemma RootBuilds(c: Codec, o: World, t: Tree) returns (g: Ghost)
    requires NeedsRoot(c, o, t)
    ensures var j := AddRoot(Begun(o.job));
            BuiltInv(c, o, t, o.(job := Mount(j, j.maxLevel, 1)), g, j.maxLevel)
  {
    var j := AddRoot(Begun(o.job));
    var top := j.maxLevel;
    var w := o.(job := j);
    RootPoint(c, o, t);
    RootReady(c, o, t);
    Mounts(c, o, t, w, RootGhost(o, j, t), top, j.newPbas);
    var r := Mount(j, top, 1);
    g := Spine(RootGhost(o, j, t), top, j.edges);
    FreshWritable(c, o, t, o.job.pba);
    RootPlaced(o, t, j, r);
    MountedIsBuilt(c, o, t, w, RootGhost(o, j, t), top, j.newPbas, r, top);
  }

  lemma RootPlaced(o: World, t: Tree, j: Job, r: Job)
    requires Shaped(o.job) && o.job.maxLevel < MAX_LEVEL && o.job.nrPbas > 0 && j == AddRoot(Begun(o.job))
    requires r == Mount(j, j.maxLevel, 1) && Writable(o, t, o.job.pba)
    requires forall l | r.lvl <= l < j.maxLevel :: Writable(o, t, r.newPbas[l])
    requires forall l | j.maxLevel <= l < LEVELS :: r.newPbas[l] == j.newPbas[l]
    ensures PlanIs(Plan(r, j.maxLevel), r, j.newPbas, j.maxLevel) && Placed(o, t, r, j.maxLevel)
  {
  }

  // -------------------------------------------------------------------- first round

  lemma WritesFirst(c: Codec, o: World, t: Tree, w: World, g: Ghost) returns (u: Tree)
    requires BuiltInv(c, o, t, w, g, w.job.maxLevel)
    ensures WriteInv(c, o, t, FirstWriteRound(c, w), g, u)
    ensures FirstWriteRound(c, w).job.maxLevel == w.job.maxLevel && FirstWriteRound(c, w).job.newLeaves == w.job.newLeaves
  {
    u := FirstWrite(c, o, t, w, g);
    FirstWriteEffect(c, w);
  }

  lemma StartsRoot(c: Codec, o: World, t: Tree) returns (g: Ghost, u: Tree)
    requires NeedsRoot(c, o, t)
    ensures CanExecute(o.job) && WriteInv(c, o, t, Advance(c, o), g, u)
    ensures Advance(c, o).job.maxLevel == o.job.maxLevel + 1
    ensures Advance(c, o).job.newLeaves == Mount(AddRoot(Begun(o.job)), o.job.maxLevel + 1, 1).newLeaves
  {
    g := RootBuilds(c, o, t);
    u := WritesFirst(c, o, t, o.(job := Mount(AddRoot(Begun(o.job)), o.job.maxLevel + 1, 1)), g);
    RootRound(c, o, t);
  }

  lemma RootRound(c: Codec, o: World, t: Tree)
    requires NeedsRoot(c, o, t)
    ensures CanExecute(o.job)
    ensures Advance(c, o) == FirstWriteRound(c, o.(job := Mount(AddRoot(Begun(o.job)), o.job.maxLevel + 1, 1)))
  {
  }

  /** Leaves are added exactly when addresses are left for them, at most a node full. */
  lemma RootLeaves(c: Codec, o: World, t: Tree)
    requires NeedsRoot(c, o, t)
    ensures var k := Mount(AddRoot(Begun(o.job)), o.job.maxLevel + 1, 1).newLeaves;
            k <= o.job.edges && (k > 0 <==> o.job.nrPbas > o.job.maxLevel + 1)
  {
    var j := AddRoot(Begun(o.job));
    RootPoint(c, o, t);
    RootReady(c, o, t);
    RootCount(c, o, t, o.(job := j), RootGhost(o, j, t));
  }

  lemma RootCount(c: Codec, o: World, t: Tree, w: World, g: Ghost)
    requires MountReady(c, o, t, w, g, w.job.maxLevel, w.job.newPbas)
    ensures var k := Mount(w.job, w.job.maxLevel, g.path[w.job.maxLevel - 1]).newLeaves;
            k <= w.job.edges && (k > 0 <==> w.job.nrPbas > w.job.maxLevel - 1)
  {
    var b := MountBuilds(c, o, t, w, g, w.job.maxLevel, w.job.newPbas);
    CountLeaves(b, BranchOf(Mount(w.job, w.job.maxLevel, g.path[w.job.maxLevel - 1])), w.job.maxLevel, g.path[w.job.maxLevel - 1], w.job.edges);
  }

  lemma CountLeaves(b: Branch, r: Branch, l: nat, child: nat, edges: nat)
    requires BranchShaped(b) && BranchShaped(r) && 1 < l < LEVELS && ValidDegree(edges)
    requires BranchConserves(b, r, l, child, edges) && b.leaves == 0
    ensures r.leaves <= edges && (r.leaves > 0 <==> b.nrPbas > l - 1)
  {
  }
}
