/** Where the step may write, and that mounting loses and shares no address. */
module FtPlaces {
  import opened NodeCodec
  import opened HashTree
  import opened TreeIndex
  import opened FreeTree
  import opened FtSpec
  import opened FtBuild
  import opened FtInv
  import opened FtMount
  import R = FtRead
  import MT = MetaTreeSpec

  // --------------------------------------------------------- addresses of old nodes

  /** No old node of a tree lives at an address the tree does not use. */
  lemma {:induction false} UnusedAvoids(t: Tree, edges: nat, gen: U64, p: U64)
    requires ValidDegree(edges) && Uses(t, edges, Every, p) == 0
    ensures OldNodesAvoid(t, gen, p)
    decreases t
  {
    if t.Inner? {
      forall i | 0 <= i < |t.kids| ensures OldNodesAvoid(t.kids[i], gen, p) {
        SumUsesUpdate(t.kids, i, Nil, edges, Every, p);
        UnusedAvoids(t.kids[i], edges, gen, p);
      }
    }
  }

  /** Nor at the address of a node of the current generation. */
  lemma AvoidOwn(t: Tree, edges: nat, gen: U64)
    requires ValidDegree(edges) && !t.Nil? && t.node.gen == gen && Uses(t, edges, Every, t.node.pba) <= 1
    ensures OldNodesAvoid(t, gen, t.node.pba)
  {
    var p := t.node.pba;
    if t.Inner? {
      forall i | 0 <= i < |t.kids| ensures OldNodesAvoid(t.kids[i], gen, p) {
        SumUsesUpdate(t.kids, i, Nil, edges, Every, p);
        UnusedAvoids(t.kids[i], edges, gen, p);
      }
    }
  }

  lemma AvoidAbove(t: Tree, d: nat, edges: nat, gen: U64, p: U64)
    requires ValidDegree(edges) && t.Inner? && d < |t.kids| && Uses(t, edges, Every, p) <= 1
    requires Uses(t.kids[d], edges, Every, p) >= 1 && OldNodesAvoid(t.kids[d], gen, p)
    ensures OldNodesAvoid(t, gen, p) && Uses(t, edges, Every, p) >= 1
  {
    R.SplitUses(t, d, edges, p);
    forall i | 0 <= i < |t.kids| ensures OldNodesAvoid(t.kids[i], gen, p) {
      if i != d {
        SumUsesUpdate(t.kids[d := Nil], i, Nil, edges, Every, p);
        UnusedAvoids(t.kids[i], edges, gen, p);
      }
    }
  }

  lemma {:induction false} AvoidOnPath(c: Codec, o: World, t: Tree, w: World, g: Ghost, l: nat, x: nat)
    requires ReadingInv(c, o, t, w, g) && w.job.lvl <= l <= x <= w.job.maxLevel
    requires w.job.oldGens[l] == w.job.gen
    requires !g.base[x].Nil? && Uses(g.base[x], w.job.edges, Every, w.job.oldPbas[l]) <= 1
    ensures OldNodesAvoid(g.base[x], w.job.gen, w.job.oldPbas[l])
    ensures Uses(g.base[x], w.job.edges, Every, w.job.oldPbas[l]) >= 1
    decreases x - l
  {
    var j, p := w.job, w.job.oldPbas[l];
    assert LevelRead(c, o, j, g, x);
    if x == l {
      AvoidOwn(g.base[l], j.edges, j.gen);
    } else {
      assert LevelRead(c, o, j, g, x - 1);
      assert g.path[x - 1] < j.edges;
      R.SplitUses(g.base[x], g.path[x - 1], j.edges, p);
      AvoidOnPath(c, o, t, w, g, l, x - 1);
      AvoidAbove(g.base[x], g.path[x - 1], j.edges, j.gen, p);
    }
  }

  /** A path node of the current generation may be overwritten. */
  lemma PathNodeWritable(c: Codec, o: World, t: Tree, w: World, g: Ghost, l: nat)
    requires ReadingInv(c, o, t, w, g) && w.job.lvl <= l <= w.job.maxLevel
    requires w.job.oldGens[l] == w.job.gen
    ensures Writable(o, t, w.job.oldPbas[l])
  {
    assert LevelRead(c, o, w.job, g, l);
    assert Supplied(o, t, w.job.oldPbas[l]) <= 1;
    AvoidOnPath(c, o, t, w, g, l, w.job.maxLevel);
  }

  /** An address of the contingent may be written. */
  lemma FreshWritable(c: Codec, o: World, t: Tree, p: U64)
    requires Request(c, o, t) && InRange(p, o.job.pba, o.job.nrPbas) == 1
    ensures Writable(o, t, p)
  {
    assert Supplied(o, t, p) <= 1;
    UnusedAvoids(t, o.job.edges, o.job.gen, p);
  }

  lemma {:induction false} CountIn(s: seq<U64>, p: U64)
    requires p in s
    ensures Count(s, p) >= 1
  {
    if s[0] != p {
      CountIn(s[1..], p);
    }
  }

  /** An address from the meta tree may be written. */
  lemma SuppliedWritable(c: Codec, o: World, t: Tree, p: U64)
    requires Request(c, o, t) && p in o.supply
    ensures Writable(o, t, p)
  {
    assert Supplied(o, t, p) <= 1;
    CountIn(o.supply, p);
    UnusedAvoids(t, o.job.edges, o.job.gen, p);
  }

  // ------------------------------------------------------------------ conservation

  lemma RangeSplit(p: U64, first: nat, a: nat, b: nat)
    ensures InRange(p, first, a) + InRange(p, first + a, b) == InRange(p, first, a + b)
  {
  }

  /** The new levels below the mount point add just their addresses. */
  lemma {:induction false} AboveSpine(pbas: seq<U64>, base: seq<Tree>, path: seq<nat>, edges: nat,
                                      low: nat, l: nat, mount: nat, top: nat, p: U64)
    requires |pbas| == |base| == LEVELS && 1 <= low < l <= mount <= top < LEVELS && top <= |path| && ValidDegree(edges)
    ensures var s := SpineTrees(base, mount, edges);
            AtLevels(pbas, low, l, p) + Above(pbas, s, path, edges, l, top, p)
            == AtLevels(pbas, low, mount, p) + Above(pbas, s, path, edges, mount, top, p)
    decreases mount - l
  {
    if l < mount {
      EmptyNodeUses(l, path[l - 1], edges, p);
      AboveSpine(pbas, base, path, edges, low, l + 1, mount, top, p);
    }
  }

  /** What the mount point used before, seen from the new path. */
  lemma MountPointUses(c: Codec, w: World, g: Ghost, mount: nat, upper: seq<U64>, pbas: seq<U64>, p: U64)
    requires Shaped(w.job) && 1 < mount <= w.job.maxLevel && Fits(g, w.job) && |upper| == |pbas| == LEVELS
    requires MountPoint(c, w, g, mount)
    requires upper[mount] == g.base[mount].node.pba && forall l | mount <= l < LEVELS :: pbas[l] == upper[l]
    ensures var j, path := w.job, g.path;
            Above(pbas, Spine(g, mount, j.edges).base, path, j.edges, mount, j.maxLevel, p)
            == Uses(g.base[mount], j.edges, Every, p) + Above(upper, g.base, path, j.edges, mount + 1, j.maxLevel, p)
  {
    var j, path := w.job, g.path;
    R.SplitUses(g.base[mount], path[mount - 1], j.edges, p);
    R.AboveSame(pbas, upper, Spine(g, mount, j.edges).base, g.base, path, j.edges, mount + 1, j.maxLevel, p);
  }

  lemma LowUses(c: Codec, b: Branch, r: Job, g: Ghost, mount: nat, i: nat, q: U64, p: U64)
    requires Shaped(r) && Fits(g, r) && BranchShaped(b) && 1 <= r.lvl < mount < LEVELS
    requires BranchConserves(b, BranchOf(r), mount, i, r.edges) && b.t2 == MT.NoT2s() && b.leaves == 0
    ensures Uses(LowNode(c, r, Spine(g, mount, r.edges), q), r.edges, Every, p)
            == (if q == p then 1 else 0) + InRange(p, b.pba + mount - r.lvl, r.newLeaves)
  {
    EmptyNodeUses(r.lvl, 0, r.edges, p);
    assert r.lvl == 1 ==> FilledUses(b.t2, r.t2, b.pba + mount - r.lvl, r.newLeaves, r.edges);
  }

  lemma LowUsesAtMount(c: Codec, w: World, g: Ghost, b: Branch, r: Job, mount: nat, p: U64)
    requires Shaped(w.job) && 1 <= mount <= w.job.maxLevel && Fits(g, w.job) && SamePath(w.job, r) && r.lvl == mount
    requires MountPoint(c, w, g, mount)
    requires IsReset(w.job, b, mount)
    requires BranchConserves(b, BranchOf(r), mount, g.path[mount - 1], r.edges)
    ensures Uses(LowNode(c, r, Spine(g, mount, r.edges), g.base[mount].node.pba), r.edges, Every, p)
            == Uses(g.base[mount], r.edges, Every, p) + InRange(p, b.pba, r.newLeaves)
  {
    assert mount == 1 ==> FilledUses(b.t2, r.t2, b.pba, r.newLeaves, r.edges);
  }

  /** Addresses taken while mounting continue those taken before. */
  lemma TakenRange(o: World, j: Job, r: Job, nodes: nat, p: U64)
    requires Contingent(o.job.pba, o.job.nrPbas) && j.nrPbas <= o.job.nrPbas
    requires PbaAfter(j.pba, o.job.pba + (o.job.nrPbas - j.nrPbas))
    requires r.nrPbas + nodes + r.newLeaves == j.nrPbas
    ensures InRange(p, o.job.pba, o.job.nrPbas - j.nrPbas) + InRange(p, j.pba, nodes) + InRange(p, j.pba + nodes, r.newLeaves)
            == InRange(p, o.job.pba, o.job.nrPbas - r.nrPbas)
  {
    if j.nrPbas > 0 {
      assert j.pba == o.job.pba + o.job.nrPbas - j.nrPbas;
    }
  }

  /** The plan after mounting: new addresses below, `upper` from the mount point on. */
  ghost predicate PlanIs(pbas: seq<U64>, r: Job, upper: seq<U64>, mount: nat)
    requires Shaped(r)
  {
    && |pbas| == |upper| == LEVELS
    && forall l | 0 <= l < LEVELS :: pbas[l] == if l < mount then r.newPbas[l] else upper[l]
  }

  ghost function PlanUses(c: Codec, r: Job, g: Ghost, mount: nat, pbas: seq<U64>, p: U64): nat
    requires Shaped(r) && Fits(g, r) && |pbas| == LEVELS && 1 <= r.lvl
  {
    var next := Spine(g, mount, r.edges);
    Uses(LowNode(c, r, next, pbas[r.lvl]), r.edges, Every, p)
    + Above(pbas, next.base, g.path, r.edges, r.lvl + 1, r.maxLevel, p)
  }

  lemma PlanUsesAtMount(c: Codec, w: World, g: Ghost, mount: nat, upper: seq<U64>, b: Branch, r: Job, pbas: seq<U64>, p: U64)
    requires Shaped(w.job) && 1 <= mount <= w.job.maxLevel && Fits(g, w.job) && SamePath(w.job, r) && r.lvl == mount
    requires MountPoint(c, w, g, mount)
    requires IsReset(w.job, b, mount)
    requires BranchConserves(b, BranchOf(r), mount, g.path[mount - 1], r.edges)
    requires PlanIs(pbas, r, upper, mount) && upper[mount] == g.base[mount].node.pba
    ensures PlanUses(c, r, g, mount, pbas, p)
            == Uses(g.base[mount], r.edges, Every, p) + Above(upper, g.base, g.path, r.edges, mount + 1, r.maxLevel, p)
               + InRange(p, w.job.pba, r.newLeaves)
  {
    LowUsesAtMount(c, w, g, b, r, mount, p);
    R.AboveSame(pbas, upper, Spine(g, mount, r.edges).base, g.base, g.path, r.edges, mount + 1, r.maxLevel, p);
  }

  lemma PlanUsesBelow(c: Codec, w: World, g: Ghost, mount: nat, upper: seq<U64>, b: Branch, r: Job, pbas: seq<U64>, p: U64)
    requires Shaped(w.job) && 1 <= mount <= w.job.maxLevel && Fits(g, w.job) && SamePath(w.job, r) && 1 <= r.lvl < mount
    requires MountPoint(c, w, g, mount)
    requires IsReset(w.job, b, mount)
    requires BranchConserves(b, BranchOf(r), mount, g.path[mount - 1], r.edges)
    requires PlanIs(pbas, r, upper, mount) && upper[mount] == g.base[mount].node.pba
    ensures PlanUses(c, r, g, mount, pbas, p)
            == Uses(g.base[mount], r.edges, Every, p) + Above(upper, g.base, g.path, r.edges, mount + 1, r.maxLevel, p)
               + InRange(p, w.job.pba, mount - r.lvl) + InRange(p, w.job.pba + mount - r.lvl, r.newLeaves)
  {
    var path := g.path;
    LowUses(c, b, r, g, mount, path[mount - 1], pbas[r.lvl], p);
    MountPointUses(c, w, g, mount, upper, pbas, p);
    AboveSpine(pbas, g.base, path, r.edges, r.lvl, r.lvl + 1, mount, r.maxLevel, p);
    AtLevelsSame(pbas, r.newPbas, r.lvl, mount, p);
    assert AtLevels(pbas, r.lvl, r.lvl, p) == 0;
  }

  lemma MountedBalance(c: Codec, o: World, t: Tree, w: World, g: Ghost, mount: nat, upper: seq<U64>,
                       b: Branch, r: Job, pbas: seq<U64>, p: U64)
    requires MountState(c, o, t, w, g, mount) && |upper| == LEVELS && SamePath(w.job, r) && 1 <= r.lvl <= mount
    requires MountPoint(c, w, g, mount) && upper[mount] == g.base[mount].node.pba
    requires MountBalance(o, t, w.job, g, mount, upper, p)
    requires IsReset(w.job, b, mount)
    requires BranchConserves(b, BranchOf(r), mount, g.path[mount - 1], r.edges)
    requires PlanIs(pbas, r, upper, mount)
    ensures PlanUses(c, r, g, mount, pbas, p)
            == Uses(t, r.edges, Every, p) + InRange(p, o.job.pba, o.job.nrPbas - r.nrPbas)
  {
    TakenRange(o, w.job, r, mount - r.lvl, p);
    if r.lvl == mount {
      PlanUsesAtMount(c, w, g, mount, upper, b, r, pbas, p);
    } else {
      PlanUsesBelow(c, w, g, mount, upper, b, r, pbas, p);
    }
  }

  // ----------------------------------------------------------------- after mounting

  /** Whatever address the lowest node gets, it is ready to be written. */
  ghost predicate LowReady(c: Codec, o: World, disk: Disk, r: Job, next: Ghost)
    requires Shaped(r) && 1 <= r.lvl <= r.maxLevel && Fits(next, r) && r.nrPbas + r.newLeaves <= o.job.nrPbas
  {
    forall q :: LowOk(c, disk, LowNode(c, r, next, q), r.lvl, Position(next.path, r.lvl, r.edges) + r.newLeaves,
                      Leaves(next.base[r.lvl], r.edges) + Added(o, r), r.edges)
  }

  ghost predicate PlanBalanced(c: Codec, o: World, t: Tree, g: Ghost, mount: nat, upper: seq<U64>, r: Job)
    requires Shaped(r) && 1 <= r.lvl && Fits(g, r) && r.nrPbas <= o.job.nrPbas
  {
    forall pbas, p | PlanIs(pbas, r, upper, mount) ::
      PlanUses(c, r, g, mount, pbas, p) == Uses(t, r.edges, Every, p) + InRange(p, o.job.pba, o.job.nrPbas - r.nrPbas)
  }

  /** What holds after mounting, whatever addresses the path nodes will get. */
  ghost predicate Mounted(c: Codec, o: World, t: Tree, w: World, g: Ghost, mount: nat, upper: seq<U64>, r: Job)
  {
    && Shaped(r) && Fits(g, r) && mount < LEVELS
    && var next := Spine(g, mount, r.edges);
    && Common(c, o, t, w.(job := r), next) && r.lvl <= mount && SamePath(w.job, r)
    && LowReady(c, o, w.disk, r, next)
    && (forall l | r.lvl <= l < mount :: Writable(o, t, r.newPbas[l]))
    && (forall l | mount <= l < LEVELS :: r.newPbas[l] == w.job.newPbas[l])
    && PlanBalanced(c, o, t, g, mount, upper, r)
    && KidsFall(g.base[mount], NODES_PER_BLOCK, g.youngest)
  }

  lemma MountedUppers(c: Codec, w: World, g: Ghost, mount: nat, b: Branch, r: Job)
    requires Shaped(w.job) && 1 <= mount <= w.job.maxLevel && OnPath(g, w.job)
    requires UpperLevels(c, w.disk, w.job, g, mount)
    requires MountPoint(c, w, g, mount)
    requires IsReset(w.job, b, mount)
    requires r == Mount(w.job, mount, g.path[mount - 1])
    requires BranchLevels(b, BranchOf(r), mount, g.path[mount - 1])
    ensures SamePath(w.job, r) && UpperLevels(c, w.disk, r, Spine(g, mount, r.edges), r.lvl)
    ensures r.lvl > 1 ==> MountedBlock(w.job, r, mount, g.path[mount - 1], r.lvl)
  {
    MountedBlocks(w.job, b, r, mount, g.path[mount - 1], if r.lvl < 2 then 2 else r.lvl);
    forall l | r.lvl < l <= r.maxLevel ensures UpperLevel(c, w.disk, r, Spine(g, mount, r.edges), l) {
      MountedBlocks(w.job, b, r, mount, g.path[mount - 1], l);
      MountedUpper(c, w, g, mount, r, l);
    }
  }

  lemma PbaAfterMount(o: World, j: Job, r: Job, nodes: nat)
    requires j.nrPbas <= o.job.nrPbas && PbaAfter(j.pba, o.job.pba + (o.job.nrPbas - j.nrPbas))
    requires Contingent(o.job.pba, o.job.nrPbas)
    requires r.nrPbas + nodes + r.newLeaves == j.nrPbas && PbaAfter(r.pba, j.pba + nodes + r.newLeaves)
    ensures PbaAfter(r.pba, o.job.pba + (o.job.nrPbas - r.nrPbas))
  {
  }

  lemma LowNodeShape(c: Codec, r: Job, next: Ghost, q: U64)
    requires Shaped(r) && Fits(next, r) && 1 <= r.lvl
    ensures var low := LowNode(c, r, next, q);
            && (r.lvl == 1 ==> low.Leafs? && low.leaves == r.t2)
            && (r.lvl > 1 ==> low.Inner? && low.entries == r.t1[r.lvl] && low.kids == KidsOf(next.base[r.lvl]))
  {
  }

  lemma LeavesReady(c: Codec, o: World, w: World, g: Ghost, mount: nat, r: Job)
    requires Shaped(w.job) && 1 <= mount <= w.job.maxLevel && OnPath(g, w.job) && SamePath(w.job, r) && r.lvl == 1
    requires MountPoint(c, w, g, mount) && LowBuilt(w.job, r, g, mount) && r.nrPbas + r.newLeaves <= o.job.nrPbas
    requires Added(o, r) == FreshLeaves(w.job.pba + (mount - 1), r.newLeaves)
    ensures LowReady(c, o, w.disk, r, Spine(g, mount, r.edges))
  {
    var next := Spine(g, mount, r.edges);
    forall q ensures LowOk(c, w.disk, LowNode(c, r, next, q), 1, Position(next.path, 1, r.edges) + r.newLeaves,
                           Leaves(next.base[1], r.edges) + Added(o, r), r.edges) {
      LowNodeShape(c, r, next, q);
      MountedLeaves(c, w, g, mount, r, LowNode(c, r, next, q));
    }
  }

  lemma EmptyReady(c: Codec, o: World, w: World, g: Ghost, mount: nat, r: Job)
    requires Shaped(w.job) && 1 <= mount <= w.job.maxLevel && OnPath(g, w.job) && SamePath(w.job, r)
    requires MountPoint(c, w, g, mount) && 1 < r.lvl <= mount && MountedBlock(w.job, r, mount, g.path[mount - 1], r.lvl)
    requires r.newLeaves == 0 && r.nrPbas <= o.job.nrPbas
    ensures LowReady(c, o, w.disk, r, Spine(g, mount, r.edges))
  {
    var next := Spine(g, mount, r.edges);
    assert Leaves(next.base[r.lvl], r.edges) + Added(o, r) == Leaves(next.base[r.lvl], r.edges);
    forall q ensures LowOk(c, w.disk, LowNode(c, r, next, q), r.lvl, Position(next.path, r.lvl, r.edges),
                           Leaves(next.base[r.lvl], r.edges), r.edges) {
      LowNodeShape(c, r, next, q);
      MountedEmpty(c, w, g, mount, r, LowNode(c, r, next, q));
    }
  }

  lemma NewAddresses(c: Codec, o: World, t: Tree, j: Job, b: Branch, r: Job, mount: nat, i: nat)
    requires Request(c, o, t) && Shaped(j) && Shaped(r) && r.lvl <= mount < LEVELS && IsReset(j, b, mount)
    requires j.nrPbas <= o.job.nrPbas && PbaAfter(j.pba, o.job.pba + (o.job.nrPbas - j.nrPbas))
    requires 1 <= mount && BranchLevels(b, BranchOf(r), mount, i) && BranchCounts(b, BranchOf(r), mount)
    ensures forall l | r.lvl <= l < mount :: Writable(o, t, r.newPbas[l])
  {
    forall l | r.lvl <= l < mount ensures Writable(o, t, r.newPbas[l]) {
      assert b.pba <= r.newPbas[l] < b.pba + (mount - r.lvl);
      assert j.pba == o.job.pba + o.job.nrPbas - j.nrPbas;
      FreshWritable(c, o, t, r.newPbas[l]);
    }
  }

  lemma MountedPlan(c: Codec, o: World, t: Tree, w: World, g: Ghost, mount: nat, upper: seq<U64>, b: Branch, r: Job)
    requires MountReady(c, o, t, w, g, mount, upper) && SamePath(w.job, r) && 1 <= r.lvl <= mount
    requires IsReset(w.job, b, mount)
    requires BranchConserves(b, BranchOf(r), mount, g.path[mount - 1], r.edges)
    ensures PlanBalanced(c, o, t, g, mount, upper, r)
  {
    forall pbas, p | PlanIs(pbas, r, upper, mount)
      ensures PlanUses(c, r, g, mount, pbas, p) == Uses(t, r.edges, Every, p) + InRange(p, o.job.pba, o.job.nrPbas - r.nrPbas) {
      MountedBalance(c, o, t, w, g, mount, upper, b, r, pbas, p);
    }
  }

  lemma MountedCommon(c: Codec, o: World, t: Tree, w: World, g: Ghost, mount: nat, b: Branch, r: Job)
    requires MountState(c, o, t, w, g, mount) && SamePath(w.job, r) && SameRequest(o, r) && 1 <= r.lvl <= mount
    requires Fits(g, r) && Leaves(g.base[r.maxLevel], r.edges) == Leaves(t, r.edges)
    requires UpperLevels(c, w.disk, r, Spine(g, mount, r.edges), r.lvl)
    requires b.pba == w.job.pba && b.nrPbas == w.job.nrPbas && b.leaves == 0 && BranchCounts(b, BranchOf(r), mount)
    requires o.job.nrPbas > 0 ==> r.nrPbas < o.job.nrPbas
    ensures Common(c, o, t, w.(job := r), Spine(g, mount, r.edges))
  {
    PbaAfterMount(o, w.job, r, mount - r.lvl);
  }

  lemma MountsLow(c: Codec, o: World, t: Tree, w: World, g: Ghost, mount: nat, b: Branch, r: Job)
    requires MountState(c, o, t, w, g, mount) && SamePath(w.job, r) && 1 <= r.lvl <= mount
    requires MountPoint(c, w, g, mount) && IsReset(w.job, b, mount)
    requires BranchConserves(b, BranchOf(r), mount, g.path[mount - 1], r.edges)
    requires r.lvl > 1 ==> MountedBlock(w.job, r, mount, g.path[mount - 1], r.lvl)
    ensures r.nrPbas + r.newLeaves <= o.job.nrPbas
    ensures LowReady(c, o, w.disk, r, Spine(g, mount, r.edges))
  {
    MountsCounts(c, o, t, w, g, mount, b, r);
    if r.lvl == 1 {
      BuiltIsLow(w.job, b, r, g, mount);
      LeavesReady(c, o, w, g, mount, r);
    } else {
      EmptyReady(c, o, w, g, mount, r);
    }
  }

  lemma MountsCounts(c: Codec, o: World, t: Tree, w: World, g: Ghost, mount: nat, b: Branch, r: Job)
    requires MountState(c, o, t, w, g, mount) && IsReset(w.job, b, mount) && BranchCounts(b, BranchOf(r), mount)
    ensures r.nrPbas + r.newLeaves <= o.job.nrPbas && (r.lvl > 1 ==> r.newLeaves == 0)
    ensures r.lvl == 1 ==> Added(o, r) == FreshLeaves(w.job.pba + (mount - 1), r.newLeaves)
  {
    if r.lvl == 1 {
      AddedStart(o, w.job, r, mount - 1);
    }
  }

  lemma MountsBranch(c: Codec, o: World, t: Tree, w: World, g: Ghost, mount: nat, upper: seq<U64>, b: Branch, r: Job)
    requires MountReady(c, o, t, w, g, mount, upper) && SamePath(w.job, r) && SameRequest(o, r) && 1 <= r.lvl <= mount
    requires IsReset(w.job, b, mount)
    requires BranchConserves(b, BranchOf(r), mount, g.path[mount - 1], r.edges)
    requires UpperLevels(c, w.disk, r, Spine(g, mount, r.edges), r.lvl)
    requires o.job.nrPbas > 0 ==> r.nrPbas < o.job.nrPbas
    requires r.nrPbas + r.newLeaves <= o.job.nrPbas
    requires LowReady(c, o, w.disk, r, Spine(g, mount, r.edges))
    requires forall l | r.lvl <= l < mount :: Writable(o, t, r.newPbas[l])
    requires forall l | mount <= l < LEVELS :: r.newPbas[l] == w.job.newPbas[l]
    ensures Mounted(c, o, t, w, g, mount, upper, r)
  {
    MountedCommon(c, o, t, w, g, mount, b, r);
    MountedPlan(c, o, t, w, g, mount, upper, b, r);
  }

  /** Mounting the new branch; the contingent, if there was one, has shrunk. */
  lemma Mounts(c: Codec, o: World, t: Tree, w: World, g: Ghost, mount: nat, upper: seq<U64>)
    requires MountReady(c, o, t, w, g, mount, upper)
    ensures Mounted(c, o, t, w, g, mount, upper, Mount(w.job, mount, g.path[mount - 1]))
  {
    var r := Mount(w.job, mount, g.path[mount - 1]);
    var b := MountBuilds(c, o, t, w, g, mount, upper);
    MountedUppers(c, w, g, mount, b, r);
    MountsLow(c, o, t, w, g, mount, b, r);
    NewAddresses(c, o, t, w.job, b, r, mount, g.path[mount - 1]);
    MountsBranch(c, o, t, w, g, mount, upper, b, r);
  }
}
