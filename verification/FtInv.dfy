/** The states that an extension step passes through, phase by phase. */
module FtInv {
  import opened NodeCodec
  import opened HashTree
  import opened TreeIndex
  import opened FreeTree
  import opened FtSpec
  import opened FtBuild
  import MT = MetaTreeSpec

  // --------------------------------------------------------------------- addresses

  function Count(s: seq<U64>, p: U64): nat
  {
    if s == [] then 0 else (if s[0] == p then 1 else 0) + Count(s[1..], p)
  }

  function Given(swaps: seq<Swap>, p: U64): nat
  {
    if swaps == [] then 0
    else Given(swaps[..|swaps| - 1], p) + (if swaps[|swaps| - 1].given == p then 1 else 0)
  }

  function Taken(swaps: seq<Swap>, p: U64): nat
  {
    if swaps == [] then 0
    else Taken(swaps[..|swaps| - 1], p) + (if swaps[|swaps| - 1].taken == p then 1 else 0)
  }

  /** No node of tree t that is older than generation gen lives at address p. */
  ghost predicate OldNodesAvoid(t: Tree, gen: U64, p: U64)
    decreases t
  {
    t.Nil? ||
    (&& (t.node.gen == gen || t.node.pba != p)
     && (t.Inner? ==> forall i | 0 <= i < |t.kids| :: OldNodesAvoid(t.kids[i], gen, p)))
  }

  /** What a caller provides: an idle job submitted for a stored, left-packed tree;
      fresh addresses in the contingent and from the meta tree. */
  ghost predicate Request(c: Codec, o: World, t: Tree)
  {
    var j := o.job;
    && Shaped(j) && j.state.Submitted? && j.edges > 1 && PowerOfTwo(j.edges)
    && !t.Nil? && t.node == j.root && Stored(c, o.disk, t, j.maxLevel, j.edges)
    && LeftPacked(t, j.maxLevel, j.nrLeaves, j.edges)
    && o.swaps == [] && o.written == []
    && Contingent(j.pba, j.nrPbas) && 0 !in o.supply
    && forall p :: Supplied(o, t, p) <= 1
  }

  /** How often p occurs in the tree, the contingent or the supply. */
  ghost function Supplied(o: World, t: Tree, p: U64): nat
    requires ValidDegree(o.job.edges)
  {
    Uses(t, o.job.edges, Every, p) + InRange(p, o.job.pba, o.job.nrPbas) + Count(o.supply, p)
  }

  /** The supply lasts for the whole step. */
  predicate Enough(o: World)
  {
    |o.supply| >= o.job.maxLevel
  }

  /** The job asks for an address and the supply is used up: it waits. */
  predicate Waiting(w: World)
  {
    w.job.state.AllocPending? && w.supply == []
  }

  ghost predicate SameRequest(o: World, j: Job)
  {
    && Shaped(j) && j.edges == o.job.edges && j.gen == o.job.gen
    && j.nrLeaves == o.job.nrLeaves && j.vba == o.job.nrLeaves
  }

  /** No node is younger than its parent. */
  ghost predicate GensFall(t: Tree)
    decreases t
  {
    t.Inner? ==> forall i | 0 <= i < |t.kids| :: GensFall(t.kids[i]) && (!t.kids[i].Nil? ==> t.kids[i].node.gen <= t.node.gen)
  }

  /** With a youngest generation given: no node of t is younger than that generation or
      than its parent. */
  ghost predicate Falls(t: Tree, youngest: Option<U64>)
  {
    youngest.Some? && !t.Nil? ==> GensFall(t) && t.node.gen <= youngest.value
  }

  ghost predicate KidsFall(b: Tree, d: nat, youngest: Option<U64>)
  {
    b.Inner? ==> forall i | 0 <= i < |b.kids| && i != d :: Falls(b.kids[i], youngest)
  }

  /** A new node of the youngest generation above such children. */
  lemma NewNodeFalls(u: Tree, youngest: Option<U64>)
    requires !u.Nil? && KidsFall(u, NODES_PER_BLOCK, youngest) && (u.Inner? ==> |u.kids| <= NODES_PER_BLOCK)
    requires youngest.Some? ==> u.node.gen == youngest.value
    ensures youngest.Some? ==> GensFall(u)
  {
    if youngest.Some? && u.Inner? {
      forall i | 0 <= i < |u.kids| ensures GensFall(u.kids[i]) && (!u.kids[i].Nil? ==> u.kids[i].node.gen <= u.node.gen) {
        assert Falls(u.kids[i], youngest);
        assert u.kids[i].Nil? ==> GensFall(u.kids[i]);
      }
    }
  }

  /** A new node with a new child among the old ones. */
  lemma NextNodeFalls(b: Tree, d: nat, u: Tree, v: Tree, youngest: Option<U64>)
    requires b.Inner? && d < |b.kids| <= NODES_PER_BLOCK && KidsFall(b, d, youngest) && !u.Nil?
    requires v.Inner? && v.kids == b.kids[d := u]
    requires youngest.Some? ==> GensFall(u) && u.node.gen == v.node.gen == youngest.value
    ensures youngest.Some? ==> GensFall(v)
  {
    forall i | 0 <= i < |v.kids| ensures Falls(v.kids[i], youngest) {
      assert i != d ==> Falls(b.kids[i], youngest);
    }
    NewNodeFalls(v, youngest);
  }

  lemma KidFalls(b: Tree, i: nat, youngest: Option<U64>)
    requires b.Inner? && i < |b.kids| && Falls(b, youngest)
    ensures Falls(b.kids[i], youngest)
  {
  }

  lemma AllKidsFall(b: Tree, d: nat, youngest: Option<U64>)
    requires Falls(b, youngest)
    ensures KidsFall(b, d, youngest)
  {
    if b.Inner? {
      forall i | 0 <= i < |b.kids| && i != d ensures Falls(b.kids[i], youngest) {
        KidFalls(b, i, youngest);
      }
    }
  }

  /** The generation of the step, if no node of the tree is younger. */
  ghost function Youngest(o: World, t: Tree): Option<U64>
  {
    if GensFall(t) && (!t.Nil? ==> t.node.gen <= o.job.gen) then Some(o.job.gen) else None
  }

  /** The trees met on the path, by level, and the child indices, lowest level first. */
  datatype Ghost = Ghost(base: seq<Tree>, path: seq<nat>, youngest: Option<U64>)

  ghost predicate Fits(g: Ghost, j: Job)
  {
    |g.base| == LEVELS && |g.path| == j.maxLevel
  }

  /** The path belongs to the first unused leaf. */
  ghost predicate OnPath(g: Ghost, j: Job)
    requires Shaped(j)
  {
    && Fits(g, j) && PathIn(g.path, j.maxLevel, j.edges)
    && forall l {:trigger ChildIndex(j.vba, l, j.edges)} | 1 <= l <= j.maxLevel :: g.path[l - 1] == ChildIndex(j.vba, l, j.edges)
  }

  // ------------------------------------------------------- levels above the current one

  /** The subtrees hanging off the path at node b. */
  ghost function Off(b: Tree, d: nat, edges: nat, p: U64): nat
    requires ValidDegree(edges)
  {
    if b.Inner? && d < |b.kids| then SumUses(b.kids[d := Nil], edges, Every, p) else 0
  }

  /** Addresses planned for the path nodes of levels l .. top, and all that hangs off. */
  ghost function Above(pbas: seq<U64>, base: seq<Tree>, path: seq<nat>, edges: nat, l: nat, top: nat, p: U64): nat
    requires 1 <= l && top < |pbas| && top < |base| && top <= |path| && ValidDegree(edges)
    decreases top + 1 - l
  {
    if l > top then 0
    else (if pbas[l] == p then 1 else 0) + Off(base[l], path[l - 1], edges, p) + Above(pbas, base, path, edges, l + 1, top, p)
  }

  /** Node b with the entries in memory: apart from child d everything is stored. */
  ghost predicate SideStored(c: Codec, disk: Disk, b: Tree, entries: T1Block, d: nat, l: nat, edges: nat)
    requires ValidDegree(edges)
  {
    && b.Inner? && |b.kids| == edges && d < edges && l > 1
    && forall i | 0 <= i < edges && i != d :: EntryOf(entries[i], b.kids[i]) && Stored(c, disk, b.kids[i], l - 1, edges)
  }

  /** Level l of the path, above the current one. */
  ghost predicate UpperLevel(c: Codec, disk: Disk, j: Job, g: Ghost, l: nat)
    requires Shaped(j) && Fits(g, j) && 2 <= l <= j.maxLevel
  {
    var path := g.path;
    && SideStored(c, disk, g.base[l], j.t1[l], path[l - 1], l, j.edges)
    && LeftPacked(g.base[l], l, Position(path, l, j.edges), j.edges)
    && Leaves(g.base[l].kids[path[l - 1]], j.edges) == Leaves(g.base[l - 1], j.edges)
    && KidsFall(g.base[l], path[l - 1], g.youngest)
  }

  ghost predicate UpperLevels(c: Codec, disk: Disk, j: Job, g: Ghost, low: nat)
    requires Shaped(j)
  {
    && Fits(g, j) && 1 <= low <= j.maxLevel
    && forall l | low < l <= j.maxLevel :: UpperLevel(c, disk, j, g, l)
  }

  // ----------------------------------------------------------------------- reading

  ghost predicate IsKid(parent: Tree, i: nat, kid: Tree)
  {
    parent.Inner? && i < |parent.kids| && kid == parent.kids[i]
  }

  ghost predicate LevelRead(c: Codec, o: World, j: Job, g: Ghost, l: nat)
    requires Shaped(j) && Fits(g, j) && 1 <= l <= j.maxLevel
  {
    var b := g.base[l];
    && !b.Nil? && Stored(c, o.disk, b, l, j.edges)
    && j.oldPbas[l] == b.node.pba && j.oldGens[l] == b.node.gen
    && (if l > 1 then j.t1[l] == b.entries else j.t2 == b.leaves)
    && LeftPacked(b, l, Position(g.path, l, j.edges), j.edges)
    && (l < j.maxLevel ==> IsKid(g.base[l + 1], g.path[l], b))
    && Falls(b, g.youngest)
  }

  ghost predicate ReadBalance(t: Tree, j: Job, g: Ghost, p: U64)
    requires Shaped(j) && Fits(g, j) && 1 <= j.lvl
  {
    Uses(t, j.edges, Every, p)
    == Uses(g.base[j.lvl], j.edges, Every, p) + Above(j.oldPbas, g.base, g.path, j.edges, j.lvl + 1, j.maxLevel, p)
  }

  ghost predicate ReadingInv(c: Codec, o: World, t: Tree, w: World, g: Ghost)
  {
    var j := w.job;
    && Request(c, o, t) && SameRequest(o, j)
    && w == o.(job := j)
    && j.state == (if j.lvl == j.maxLevel then ReadRootCompleted else ReadInnerCompleted)
    && j.maxLevel == o.job.maxLevel && j.root == o.job.root && j.pba == o.job.pba && j.nrPbas == o.job.nrPbas
    && j.newLeaves == 0
    && Fits(g, j) && 1 <= j.lvl <= j.maxLevel && g.base[j.maxLevel] == t && g.youngest == Youngest(o, t)
    && OnPath(g, j)
    && (forall l | j.lvl <= l <= j.maxLevel :: LevelRead(c, o, j, g, l))
    && forall p :: ReadBalance(t, j, g, p)
  }

  // -------------------------------------------- a new branch in memory, path to be placed

  function KidsOf(t: Tree): seq<Tree>
  {
    if t.Inner? then t.kids else []
  }

  /** The lowest node of the new path, as the job would write it at address p. */
  ghost function LowNode(c: Codec, j: Job, g: Ghost, p: U64): Tree
    requires Shaped(j) && Fits(g, j) && 1 <= j.lvl
  {
    var node := T1(p, j.gen, c.hash(BlockOf(c, j)));
    if j.lvl == 1 then Leafs(node, j.t2) else Inner(node, j.t1[j.lvl], KidsOf(g.base[j.lvl]))
  }

  /** Like Stored, but for the block of the top node. */
  ghost predicate BodyStored(c: Codec, disk: Disk, t: Tree, level: nat, edges: nat)
    requires ValidDegree(edges)
  {
    match t
    case Nil => false
    case Leafs(_, ls) => level == 1 && LeafEntriesOk(ls[..edges])
    case Inner(_, es, kids) =>
      && level > 1 && |kids| == edges
      && forall i | 0 <= i < edges :: EntryOf(es[i], kids[i]) && Stored(c, disk, kids[i], level - 1, edges)
  }

  /** The leaves that the step adds. */
  ghost function Added(o: World, j: Job): seq<T2>
    requires j.nrPbas + j.newLeaves <= o.job.nrPbas
  {
    FreshLeaves(o.job.pba + (o.job.nrPbas - j.nrPbas - j.newLeaves), j.newLeaves)
  }

  /** Every address: before on the right, afterwards on the left. */
  ghost predicate Balance(o: World, t: Tree, w: World, uses: nat, p: U64)
    requires Shaped(w.job) && w.job.nrPbas <= o.job.nrPbas
  {
    uses + Given(w.swaps, p)
    == Uses(t, w.job.edges, Every, p) + Taken(w.swaps, p) + InRange(p, o.job.pba, o.job.nrPbas - w.job.nrPbas)
  }

  /** Where the path nodes will be: levels up to `placed` have their new address. */
  function Plan(j: Job, placed: nat): (s: seq<U64>)
    requires Shaped(j)
    ensures |s| == LEVELS
  {
    seq(LEVELS, l requires 0 <= l < LEVELS => if l <= placed then j.newPbas[l] else j.oldPbas[l])
  }

  /** An address the step may write to: it came with the request, and no old node of
      the tree lives there. */
  ghost predicate Writable(o: World, t: Tree, p: U64)
  {
    p != 0 && OldNodesAvoid(t, o.job.gen, p) && ValidDegree(o.job.edges) && Supplied(o, t, p) == 1
  }

  /** The supply is what is left of the original one. */
  ghost predicate SupplyLeft(o: World, w: World)
  {
    && |w.swaps| <= |o.supply| && w.supply == o.supply[|w.swaps|..]
    && forall p :: Taken(w.swaps, p) + Count(w.supply, p) == Count(o.supply, p)
  }

  /** At most n addresses were exchanged, all for addresses of the old tree. */
  ghost predicate Exchanged(o: World, t: Tree, w: World, n: nat)
    requires ValidDegree(o.job.edges)
  {
    |w.swaps| <= n && forall i | 0 <= i < |w.swaps| :: Uses(t, o.job.edges, Every, w.swaps[i].given) >= 1
  }

  ghost predicate Placed(o: World, t: Tree, j: Job, placed: nat)
    requires Shaped(j)
  {
    && (forall l | j.lvl <= l <= placed && l <= j.maxLevel :: Writable(o, t, j.newPbas[l]))
    && (forall l | placed < l <= j.maxLevel && j.oldGens[l] == j.gen :: Writable(o, t, j.oldPbas[l]))
    && (forall l | placed < l <= j.maxLevel :: Uses(t, j.edges, Every, j.oldPbas[l]) >= 1)
  }

  ghost predicate Common(c: Codec, o: World, t: Tree, w: World, g: Ghost)
  {
    var j := w.job;
    && Request(c, o, t) && SameRequest(o, j) && SupplyLeft(o, w)
    && j.maxLevel <= o.job.maxLevel + 1
    && 1 <= j.lvl <= j.maxLevel && OnPath(g, j)
    && Fits(g, j) && UpperLevels(c, w.disk, j, g, j.lvl)
    && Position(g.path, j.maxLevel, j.edges) == j.nrLeaves && g.youngest == Youngest(o, t)
    && Leaves(g.base[j.maxLevel], j.edges) == Leaves(t, j.edges)
    && j.nrPbas + j.newLeaves <= o.job.nrPbas && PbaAfter(j.pba, o.job.pba + (o.job.nrPbas - j.nrPbas))
    && (o.job.nrPbas > 0 ==> j.nrPbas < o.job.nrPbas)
  }

  /** Sizes fit, and the job took no more than the contingent had. */
  ghost predicate Sized(o: World, w: World, g: Ghost)
  {
    && Shaped(w.job) && Fits(g, w.job) && 1 <= w.job.lvl <= w.job.maxLevel
    && w.job.nrPbas + w.job.newLeaves <= o.job.nrPbas
  }

  ghost predicate BuiltLow(c: Codec, o: World, w: World, g: Ghost, low: Tree)
    requires Sized(o, w, g)
  {
    var j := w.job;
    && BodyStored(c, w.disk, low, j.lvl, j.edges)
    && LeftPacked(low, j.lvl, Position(g.path, j.lvl, j.edges) + j.newLeaves, j.edges)
    && Leaves(low, j.edges) == Leaves(g.base[j.lvl], j.edges) + Added(o, j)
    && KidsFall(low, NODES_PER_BLOCK, g.youngest)
  }

  /** The branch is built; path nodes up to level `placed` have an address. */
  ghost predicate BuiltInv(c: Codec, o: World, t: Tree, w: World, g: Ghost, placed: nat)
  {
    var j := w.job;
    && Common(c, o, t, w, g) && w.disk == o.disk && w.written == []
    && j.lvl <= placed + 1 && placed <= j.maxLevel && (placed < j.maxLevel ==> j.maxLevel == o.job.maxLevel)
    && Placed(o, t, j, placed) && Exchanged(o, t, w, placed)
    && BuiltLow(c, o, w, g, LowNode(c, j, g, Plan(j, placed)[j.lvl]))
    && forall p :: Balance(o, t, w, BuiltUses(c, j, g, placed, p), p)
  }

  ghost function BuiltUses(c: Codec, j: Job, g: Ghost, placed: nat, p: U64): nat
    requires Shaped(j) && Fits(g, j) && 1 <= j.lvl
  {
    Uses(LowNode(c, j, g, Plan(j, placed)[j.lvl]), j.edges, Every, p)
    + Above(Plan(j, placed), g.base, g.path, j.edges, j.lvl + 1, j.maxLevel, p)
  }

  ghost predicate AllocInv(c: Codec, o: World, t: Tree, w: World, g: Ghost)
  {
    && w.job.state.AllocCompleted? && w.job.allocLvl <= w.job.maxLevel
    && BuiltInv(c, o, t, w, g, w.job.allocLvl)
  }

  /** The job waits for the address of the next path node. */
  ghost predicate WaitInv(c: Codec, o: World, t: Tree, w: World, g: Ghost)
  {
    && Waiting(w) && 1 <= w.job.allocLvl <= w.job.maxLevel
    && BuiltInv(c, o, t, w, g, w.job.allocLvl - 1)
  }

  // ------------------------------------------------------------------- writing back

  /** Node u of a level has the leaves it had before and the added ones. */
  ghost predicate Grown(j: Job, g: Ghost, u: Tree, l: nat, added: seq<T2>)
    requires Shaped(j) && Fits(g, j) && 1 <= l <= j.maxLevel
  {
    && LeftPacked(u, l, Position(g.path, l, j.edges) + j.newLeaves, j.edges)
    && Leaves(u, j.edges) == Leaves(g.base[l], j.edges) + added
  }

  /** u is the new subtree at the level written last. */
  ghost predicate Rebuilt(c: Codec, o: World, w: World, g: Ghost, u: Tree)
    requires Sized(o, w, g)
  {
    var j := w.job;
    && !u.Nil? && u.node == WrittenNode(c, j) && Stored(c, w.disk, u, j.lvl, j.edges)
    && Grown(j, g, u, j.lvl, Added(o, j))
    && (g.youngest.Some? ==> GensFall(u))
  }

  /** Copy on write: outside of the written addresses the device is unchanged, and no
      old node of the tree lives at a written address. */
  ghost predicate OldKept(o: World, t: Tree, w: World)
  {
    && (forall p :: p !in w.written ==> (p in o.disk <==> p in w.disk) && (p in o.disk ==> w.disk[p] == o.disk[p]))
    && forall i | 0 <= i < |w.written| :: Writable(o, t, w.written[i])
  }

  ghost predicate WriteBalance(o: World, t: Tree, w: World, g: Ghost, u: Tree, p: U64)
    requires Shaped(w.job) && Fits(g, w.job) && w.job.nrPbas <= o.job.nrPbas
  {
    var j := w.job;
    Balance(o, t, w, Uses(u, j.edges, Every, p) + Above(j.newPbas, g.base, g.path, j.edges, j.lvl + 1, j.maxLevel, p), p)
  }

  ghost predicate WriteInv(c: Codec, o: World, t: Tree, w: World, g: Ghost, u: Tree)
  {
    var j := w.job;
    && j.state == (if j.lvl == j.maxLevel then WriteRootCompleted else WriteInnerCompleted)
    && Common(c, o, t, w, g)
    && Rebuilt(c, o, w, g, u)
    && (forall l | j.lvl <= l <= j.maxLevel :: Writable(o, t, j.newPbas[l]))
    && (forall p :: WriteBalance(o, t, w, g, u, p)) && Exchanged(o, t, w, j.maxLevel)
    && OldKept(o, t, w)
  }
}
