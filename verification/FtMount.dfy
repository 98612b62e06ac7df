/** Mounting a new branch at the first node of the path without a next child. */
module FtMount {
  import opened NodeCodec
  import opened HashTree
  import opened TreeIndex
  import opened FreeTree
  import opened FtSpec
  import opened FtBuild
  import opened FtInv
  import R = FtRead
  import MT = MetaTreeSpec

  // -------------------------------------------------------------------- empty nodes

  function Nils(edges: nat): seq<Tree>
  {
    seq(edges, _ => Nil)
  }

  /** A node without children, as the branch is before it is filled. */
  function EmptyNode(l: nat, edges: nat): Tree
  {
    if l == 1 then Leafs(T1_INVALID, MT.NoT2s()) else Inner(T1_INVALID, MT.NoT1s(), Nils(edges))
  }

  lemma EmptyNodeFacts(l: nat, edges: nat)
    requires ValidDegree(edges) && l >= 1
    ensures LeftPacked(EmptyNode(l, edges), l, 0, edges) && Leaves(EmptyNode(l, edges), edges) == []
  {
    if l == 1 {
      UsedNone(MT.NoT2s()[..edges]);
    } else {
      LeavesOfNone(Nils(edges), edges);
      NonePacked(Nils(edges), l - 1, edges);
    }
  }

  lemma EmptyNodeUses(l: nat, d: nat, edges: nat, p: U64)
    requires ValidDegree(edges) && l >= 1
    ensures l == 1 ==> EntriesUses(MT.NoT2s()[..edges], Every, p) == 0
    ensures Off(EmptyNode(l, edges), d, edges, p) == 0 && SumUses(Nils(edges), edges, Every, p) == 0
  {
    EntriesUsesZero(MT.NoT2s()[..edges], Every, p);
    SumUsesZero(Nils(edges), edges, Every, p);
    if d < edges {
      assert Nils(edges)[d := Nil] == Nils(edges);
    }
  }

  /** The path's trees, with empty nodes below the mount point. */
  function SpineTrees(base: seq<Tree>, mount: nat, edges: nat): (s: seq<Tree>)
    requires |base| == LEVELS
    ensures |s| == LEVELS
    ensures forall l | 0 <= l < LEVELS :: s[l] == if 1 <= l < mount then EmptyNode(l, edges) else base[l]
  {
    seq(LEVELS, l requires 0 <= l < LEVELS => if 1 <= l < mount then EmptyNode(l, edges) else base[l])
  }

  function Spine(g: Ghost, mount: nat, edges: nat): Ghost
    requires |g.base| == LEVELS
  {
    Ghost(SpineTrees(g.base, mount, edges), g.path, g.youngest)
  }

  // -------------------------------------------------------------- before mounting

  /** The node at the mount point, with the entries in memory. */
  ghost predicate MountPoint(c: Codec, w: World, g: Ghost, mount: nat)
    requires Shaped(w.job) && Fits(g, w.job) && 1 <= mount <= w.job.maxLevel
  {
    var j := w.job;
    var b, i := g.base[mount], g.path[mount - 1];
    && i < j.edges
    && (if mount == 1 then b.Leafs? && b.leaves == j.t2
        else b.Inner? && b.entries == j.t1[mount] && i < |b.kids| && b.kids[i].Nil?)
    && BodyStored(c, w.disk, b, mount, j.edges)
    && LeftPacked(b, mount, Position(g.path, mount, j.edges), j.edges)
    && KidsFall(b, NODES_PER_BLOCK, g.youngest)
  }

  /** The job before mounting; nothing is written yet. */
  ghost predicate MountState(c: Codec, o: World, t: Tree, w: World, g: Ghost, mount: nat)
  {
    var j := w.job;
    && Request(c, o, t) && SameRequest(o, j) && w == o.(job := j)
    && 1 <= mount <= j.maxLevel && j.maxLevel <= o.job.maxLevel + 1
    && OnPath(g, j)
    && Position(g.path, j.maxLevel, j.edges) == j.nrLeaves && g.youngest == Youngest(o, t)
    && j.nrPbas <= o.job.nrPbas && PbaAfter(j.pba, o.job.pba + (o.job.nrPbas - j.nrPbas))
  }

  /** Levels from the mount point up are known. */
  ghost predicate MountReady(c: Codec, o: World, t: Tree, w: World, g: Ghost, mount: nat, upper: seq<U64>)
  {
    var j := w.job;
    && MountState(c, o, t, w, g, mount) && UpperLevels(c, w.disk, j, g, mount)
    && MountPoint(c, w, g, mount)
    && Leaves(g.base[j.maxLevel], j.edges) == Leaves(t, j.edges)
    && |upper| == LEVELS && upper[mount] == g.base[mount].node.pba
    && forall p :: MountBalance(o, t, j, g, mount, upper, p)
  }

  ghost predicate MountBalance(o: World, t: Tree, j: Job, g: Ghost, mount: nat, upper: seq<U64>, p: U64)
    requires Shaped(j) && Fits(g, j) && |upper| == LEVELS && 1 <= mount <= j.maxLevel && j.nrPbas <= o.job.nrPbas
  {
    Uses(g.base[mount], j.edges, Every, p) + Above(upper, g.base, g.path, j.edges, mount + 1, j.maxLevel, p)
    == Uses(t, j.edges, Every, p) + InRange(p, o.job.pba, o.job.nrPbas - j.nrPbas)
  }

  /** Below the mount point all child indices are zero. */
  lemma ZeroBelowMount(c: Codec, w: World, g: Ghost, mount: nat, l: nat)
    requires Shaped(w.job) && 1 <= l < mount <= w.job.maxLevel && OnPath(g, w.job)
    requires MountPoint(c, w, g, mount)
    ensures g.path[l - 1] == 0 && Position(g.path, l, w.job.edges) == 0
  {
    var j, path := w.job, g.path;
    var r := Position(path, mount - 1, j.edges);
    PositionBelow(path, mount - 1, j.edges);
    KidsOnPath(g.base[mount].kids, mount - 1, path[mount - 1], r, j.edges);
    PositionZero(path, mount - 1, j.edges);
    assert path[l - 1] == 0;
    if l < mount - 1 {
      assert Position(path, l, j.edges) == 0;
    }
  }

  lemma ReadingMountPoint(c: Codec, o: World, t: Tree, w: World, g: Ghost)
    requires R.NextIsMissing(c, o, t, w, g)
    ensures MountPoint(c, w, g, w.job.lvl)
  {
    var j := w.job;
    assert LevelRead(c, o, j, g, j.lvl);
    assert g.path[j.lvl - 1] < j.edges;
    AllKidsFall(g.base[j.lvl], NODES_PER_BLOCK, g.youngest);
    if j.lvl > 1 {
      R.NextChild(c, o, t, w, g);
    }
  }

  lemma ReadingUpper(c: Codec, o: World, t: Tree, w: World, g: Ghost)
    requires ReadingInv(c, o, t, w, g)
    ensures UpperLevels(c, w.disk, w.job, g, w.job.lvl)
  {
    forall x | w.job.lvl < x <= w.job.maxLevel ensures UpperLevel(c, w.disk, w.job, g, x) {
      assert LevelRead(c, o, w.job, g, x) && LevelRead(c, o, w.job, g, x - 1);
      assert g.path[x - 1] < w.job.edges;
      AllKidsFall(g.base[x], g.path[x - 1], g.youngest);
    }
  }

  lemma ReadingBalance(c: Codec, o: World, t: Tree, w: World, g: Ghost)
    requires ReadingInv(c, o, t, w, g)
    ensures !g.base[w.job.lvl].Nil? && w.job.oldPbas[w.job.lvl] == g.base[w.job.lvl].node.pba
    ensures forall p :: MountBalance(o, t, w.job, g, w.job.lvl, w.job.oldPbas, p)
  {
    assert LevelRead(c, o, w.job, g, w.job.lvl);
    forall p ensures MountBalance(o, t, w.job, g, w.job.lvl, w.job.oldPbas, p) {
      assert ReadBalance(t, w.job, g, p);
    }
  }

  lemma ReadingState(c: Codec, o: World, t: Tree, w: World, g: Ghost)
    requires ReadingInv(c, o, t, w, g)
    ensures MountState(c, o, t, w, g, w.job.lvl)
  {
    R.WholePosition(c, o, t, w, g);
  }

  /** Reading met a missing child (or the leaf entries): the job can mount there. */
  lemma ReadingMounts(c: Codec, o: World, t: Tree, w: World, g: Ghost)
    requires R.NextIsMissing(c, o, t, w, g)
    ensures MountReady(c, o, t, w, g, w.job.lvl, w.job.oldPbas)
  {
    ReadingState(c, o, t, w, g);
    ReadingMountPoint(c, o, t, w, g);
    ReadingUpper(c, o, t, w, g);
    ReadingBalance(c, o, t, w, g);
  }

  // ------------------------------------------------------------------- mounting

  /** Both jobs follow the same path. */
  ghost predicate SamePath(j: Job, r: Job)
  {
    Shaped(j) && Shaped(r) && r.maxLevel == j.maxLevel && r.edges == j.edges && r.vba == j.vba
  }

  /** The branch before building: all levels below the mount point are reset. */
  ghost predicate IsReset(j: Job, b: Branch, mount: nat)
    requires Shaped(j)
  {
    && BranchShaped(b) && b.pba == j.pba && b.nrPbas == j.nrPbas && b.leaves == 0 && b.newPbas == j.newPbas
    && b.t2 == (if mount > 1 then MT.NoT2s() else j.t2)
    && forall l | 0 <= l < LEVELS :: b.t1[l] == if 2 <= l < mount then MT.NoT1s() else j.t1[l]
  }

  /** What building did to the job, level by level. */
  lemma MountBuilds(c: Codec, o: World, t: Tree, w: World, g: Ghost, mount: nat, upper: seq<U64>) returns (b: Branch)
    requires MountReady(c, o, t, w, g, mount, upper)
    ensures IsReset(w.job, b, mount)
    ensures var j, i := w.job, g.path[mount - 1];
            var r := Mount(j, mount, i);
            && BranchLevels(b, BranchOf(r), mount, i) && BranchConserves(b, BranchOf(r), mount, i, j.edges)
            && 1 <= r.lvl <= mount && SamePath(j, r) && SameRequest(o, r)
            && (o.job.nrPbas > 0 ==> r.nrPbas < o.job.nrPbas)
  {
    var j, i := w.job, g.path[mount - 1];
    b := ResetBelow(BranchOf(j), mount).(stopped := mount, leaves := 0);
    assert Contingent(j.pba, j.nrPbas);
    if mount == 1 {
      FirstUnused(g.base[1], g.path, j.edges);
    }
    AddBranchBuilds(BranchOf(j), mount, i, j.edges, j.gen);
    assert BranchOf(Mount(j, mount, i)) == AddBranch(BranchOf(j), mount, i, j.edges, j.gen);
  }

  lemma FirstUnused(b: Tree, path: seq<nat>, edges: nat)
    requires ValidDegree(edges) && 0 < |path| && path[0] < edges && b.Leafs?
    requires LeftPacked(b, 1, Position(path, 1, edges), edges)
    ensures Position(path, 1, edges) == path[0] && Unused(b.leaves, path[0], edges)
  {
    TimesOne(path[0]);
    assert Capacity(edges, 0) == 1 && Position(path, 0, edges) == 0;
  }

  lemma UpperSame(c: Codec, disk: Disk, j: Job, r: Job, g: Ghost, next: Ghost, l: nat)
    requires SamePath(j, r) && Fits(g, j) && Fits(next, r) && next == g.(base := next.base) && 2 <= l <= j.maxLevel
    requires UpperLevel(c, disk, j, g, l) && r.t1[l] == j.t1[l] && next.base[l] == g.base[l] && next.base[l - 1] == g.base[l - 1]
    ensures UpperLevel(c, disk, r, next, l)
  {
  }

  lemma UpperAtMount(c: Codec, w: World, g: Ghost, r: Job, next: Ghost, l: nat)
    requires SamePath(w.job, r) && OnPath(g, w.job) && Fits(next, r) && next == g.(base := next.base) && 2 <= l <= r.maxLevel
    requires MountPoint(c, w, g, l)
    requires SameBut(r.t1[l], w.job.t1[l], g.path[l - 1])
    requires next.base[l] == g.base[l] && next.base[l - 1] == EmptyNode(l - 1, r.edges)
    ensures UpperLevel(c, w.disk, r, next, l)
  {
    EmptyNodeFacts(l - 1, r.edges);
  }

  lemma UpperBelowMount(c: Codec, disk: Disk, r: Job, next: Ghost, l: nat)
    requires Shaped(r) && Fits(next, r) && 2 <= l <= r.maxLevel
    requires next.path[l - 1] == 0 && Position(next.path, l, r.edges) == 0
    requires SameBut(r.t1[l], MT.NoT1s(), 0)
    requires next.base[l] == EmptyNode(l, r.edges) && next.base[l - 1] == EmptyNode(l - 1, r.edges)
    ensures UpperLevel(c, disk, r, next, l)
  {
    EmptyNodeFacts(l, r.edges);
    EmptyNodeFacts(l - 1, r.edges);
  }

  /** The blocks in memory after mounting. */
  ghost predicate MountedBlock(j: Job, r: Job, mount: nat, i: nat, l: nat)
    requires Shaped(j) && Shaped(r) && 2 <= l < LEVELS
  {
    if l > mount || l == mount == r.lvl then r.t1[l] == j.t1[l]
    else if l == mount then SameBut(r.t1[l], j.t1[l], i)
    else if l > r.lvl then SameBut(r.t1[l], MT.NoT1s(), 0)
    else r.t1[l] == MT.NoT1s()
  }

  lemma MountedBlocks(j: Job, b: Branch, r: Job, mount: nat, i: nat, l: nat)
    requires Shaped(j) && 1 <= mount < LEVELS && i < NODES_PER_BLOCK && 2 <= l < LEVELS
    requires IsReset(j, b, mount)
    requires r == Mount(j, mount, i) && BranchLevels(b, BranchOf(r), mount, i)
    ensures SamePath(j, r) && MountedBlock(j, r, mount, i, l)
  {
    assert b.t1[l] == if l < mount then MT.NoT1s() else j.t1[l];
  }

  /** The levels above the lowest one, after mounting. */
  lemma MountedUpper(c: Codec, w: World, g: Ghost, mount: nat, r: Job, l: nat)
    requires Shaped(w.job) && 1 <= mount <= w.job.maxLevel && OnPath(g, w.job)
    requires UpperLevels(c, w.disk, w.job, g, mount)
    requires MountPoint(c, w, g, mount)
    requires SamePath(w.job, r) && r.lvl <= mount && 2 <= l && r.lvl < l <= r.maxLevel
    requires MountedBlock(w.job, r, mount, g.path[mount - 1], l)
    ensures UpperLevel(c, w.disk, r, Spine(g, mount, w.job.edges), l)
  {
    var next := Spine(g, mount, w.job.edges);
    if l > mount {
      UpperSame(c, w.disk, w.job, r, g, next, l);
    } else if l == mount {
      UpperAtMount(c, w, g, r, next, l);
    } else {
      ZeroBelowMount(c, w, g, mount, l);
      UpperBelowMount(c, w.disk, r, next, l);
    }
  }

  // ------------------------------------------------------------ the lowest new node

  /** Filled leaf entries make a stored body, left-packed with k more leaves. */
  lemma FilledLow(c: Codec, disk: Disk, node: T1, before: T2Block, after: T2Block, n: nat, k: nat, first: nat, edges: nat)
    requires ValidDegree(edges) && Filled(before, after, n, k, first, edges)
    requires LeafEntriesOk(before[..edges]) && LeftPacked(Leafs(node, before), 1, n, edges)
    ensures BodyStored(c, disk, Leafs(node, after), 1, edges)
    ensures LeftPacked(Leafs(node, after), 1, n + k, edges)
    ensures Leaves(Leafs(node, after), edges) == UsedEntries(before[..edges]) + FreshLeaves(first, k)
  {
    forall i | 0 <= i < edges ensures after[..edges][i] == T2_INVALID || after[..edges][i].pba != 0 {
      assert i < n ==> after[i] == before[..edges][i];
    }
    forall i | 0 <= i < n + k ensures after[i] != T2_INVALID {
      assert i < n ==> after[i] == before[i];
    }
  }

  lemma NoneLow(edges: nat)
    requires ValidDegree(edges)
    ensures LeafEntriesOk(MT.NoT2s()[..edges])
    ensures forall node :: LeftPacked(Leafs(node, MT.NoT2s()), 1, 0, edges)
    ensures UsedEntries(MT.NoT2s()[..edges]) == []
  {
    UsedNone(MT.NoT2s()[..edges]);
  }

  /** Where in the contingent the leaf entries begin. */
  lemma AddedStart(o: World, j: Job, r: Job, nodes: nat)
    requires Contingent(o.job.pba, o.job.nrPbas) && j.nrPbas <= o.job.nrPbas
    requires PbaAfter(j.pba, o.job.pba + (o.job.nrPbas - j.nrPbas))
    requires r.nrPbas + nodes + r.newLeaves == j.nrPbas
    ensures Added(o, r) == FreshLeaves(j.pba + nodes, r.newLeaves)
  {
    if r.newLeaves > 0 {
      assert j.pba == o.job.pba + o.job.nrPbas - j.nrPbas;
    }
  }

  /** The node is ready to be written: all below it is stored, n leaves, left-packed. */
  ghost predicate LowOk(c: Codec, disk: Disk, low: Tree, level: nat, n: nat, leaves: seq<T2>, edges: nat)
    requires ValidDegree(edges)
  {
    BodyStored(c, disk, low, level, edges) && LeftPacked(low, level, n, edges) && Leaves(low, edges) == leaves
  }

  /** Mounting at the leaf entries themselves. */
  lemma MountedAtLeaves(c: Codec, w: World, g: Ghost, r: Job, low: Tree, first: nat)
    requires Shaped(w.job) && SamePath(w.job, r) && OnPath(g, w.job)
    requires MountPoint(c, w, g, 1) && Filled(w.job.t2, r.t2, g.path[0], r.newLeaves, first, r.edges)
    requires low.Leafs? && low.leaves == r.t2
    ensures LowOk(c, w.disk, low, 1, Position(g.path, 1, r.edges) + r.newLeaves,
                  Leaves(g.base[1], r.edges) + FreshLeaves(first, r.newLeaves), r.edges)
  {
    FirstUnused(g.base[1], g.path, r.edges);
    FilledLow(c, w.disk, low.node, w.job.t2, r.t2, g.path[0], r.newLeaves, first, r.edges);
  }

  /** The new branch reached the leaf entries. */
  lemma MountedNewLeaves(c: Codec, disk: Disk, r: Job, low: Tree, first: nat, b: Tree)
    requires b == EmptyNode(1, r.edges)
    requires Shaped(r) && Filled(MT.NoT2s(), r.t2, 0, r.newLeaves, first, r.edges)
    requires low.Leafs? && low.leaves == r.t2
    ensures LowOk(c, disk, low, 1, r.newLeaves, Leaves(b, r.edges) + FreshLeaves(first, r.newLeaves), r.edges)
  {
    NoneLow(r.edges);
    EmptyNodeFacts(1, r.edges);
    FilledLow(c, disk, low.node, MT.NoT2s(), r.t2, 0, r.newLeaves, first, r.edges);
  }

  /** The blocks of the lowest new node and the addresses of its leaves. */
  ghost predicate LowBuilt(j: Job, r: Job, g: Ghost, mount: nat)
    requires Shaped(j) && SamePath(j, r) && 1 <= mount <= j.maxLevel && OnPath(g, j)
  {
    && 1 <= r.lvl <= mount
    && (r.lvl > 1 ==> r.newLeaves == 0 && MountedBlock(j, r, mount, g.path[mount - 1], r.lvl))
    && (r.lvl == 1 && mount == 1 ==> Filled(j.t2, r.t2, g.path[0], r.newLeaves, j.pba, r.edges))
    && (r.lvl == 1 && mount > 1 ==> Filled(MT.NoT2s(), r.t2, 0, r.newLeaves, j.pba + (mount - 1), r.edges))
  }

  lemma BuiltIsLow(j: Job, b: Branch, r: Job, g: Ghost, mount: nat)
    requires Shaped(j) && SamePath(j, r) && 1 <= mount <= j.maxLevel && OnPath(g, j) && IsReset(j, b, mount)
    requires BranchConserves(b, BranchOf(r), mount, g.path[mount - 1], r.edges)
    requires r.lvl > 1 ==> MountedBlock(j, r, mount, g.path[mount - 1], r.lvl)
    ensures LowBuilt(j, r, g, mount)
  {
  }

  /** The contingent ran out above the leaf entries. */
  lemma MountedEmpty(c: Codec, w: World, g: Ghost, mount: nat, r: Job, low: Tree)
    requires Shaped(w.job) && 1 <= mount <= w.job.maxLevel && OnPath(g, w.job) && SamePath(w.job, r)
    requires MountPoint(c, w, g, mount)
    requires 1 < r.lvl <= mount && MountedBlock(w.job, r, mount, g.path[mount - 1], r.lvl)
    requires low.Inner? && low.entries == r.t1[r.lvl] && low.kids == KidsOf(Spine(g, mount, r.edges).base[r.lvl])
    ensures LowOk(c, w.disk, low, r.lvl, Position(g.path, r.lvl, r.edges), Leaves(Spine(g, mount, r.edges).base[r.lvl], r.edges), r.edges)
  {
    if r.lvl < mount {
      ZeroBelowMount(c, w, g, mount, r.lvl);
      EmptyNodeFacts(r.lvl, r.edges);
    }
  }

  lemma MountedLeaves(c: Codec, w: World, g: Ghost, mount: nat, r: Job, low: Tree)
    requires Shaped(w.job) && 1 <= mount <= w.job.maxLevel && OnPath(g, w.job) && SamePath(w.job, r)
    requires MountPoint(c, w, g, mount) && LowBuilt(w.job, r, g, mount)
    requires r.lvl == 1 && low.Leafs? && low.leaves == r.t2
    ensures LowOk(c, w.disk, low, 1, Position(g.path, 1, r.edges) + r.newLeaves,
                  Leaves(Spine(g, mount, r.edges).base[1], r.edges) + FreshLeaves(w.job.pba + (mount - 1), r.newLeaves), r.edges)
  {
    if mount == 1 {
      assert Spine(g, mount, r.edges).base[1] == g.base[1];
      MountedAtLeaves(c, w, g, r, low, w.job.pba);
    } else {
      MountedAboveLeaves(c, w, g, mount, r, low);
    }
  }

  lemma MountedAboveLeaves(c: Codec, w: World, g: Ghost, mount: nat, r: Job, low: Tree)
    requires Shaped(w.job) && 1 < mount <= w.job.maxLevel && OnPath(g, w.job) && SamePath(w.job, r)
    requires MountPoint(c, w, g, mount) && LowBuilt(w.job, r, g, mount)
    requires r.lvl == 1 && low.Leafs? && low.leaves == r.t2
    ensures LowOk(c, w.disk, low, 1, Position(g.path, 1, r.edges) + r.newLeaves,
                  Leaves(Spine(g, mount, r.edges).base[1], r.edges) + FreshLeaves(w.job.pba + (mount - 1), r.newLeaves), r.edges)
  {
    ZeroBelowMount(c, w, g, mount, 1);
    FilledAbove(w.job, r, g, mount);
    MountedNewLeaves(c, w.disk, r, low, w.job.pba + (mount - 1), Spine(g, mount, r.edges).base[1]);
  }

  lemma FilledAbove(j: Job, r: Job, g: Ghost, mount: nat)
    requires Shaped(j) && SamePath(j, r) && 1 < mount <= j.maxLevel && OnPath(g, j) && LowBuilt(j, r, g, mount) && r.lvl == 1
    ensures Filled(MT.NoT2s(), r.t2, 0, r.newLeaves, j.pba + (mount - 1), r.edges)
  {
  }
}
