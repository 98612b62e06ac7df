/** The meta tree module at work on a block device. */
module MetaTreeDriver {
  import opened NodeCodec
  import opened HashTree
  import opened MetaTreeSpec
  import opened MetaTreeParameters
  import opened MetaTreeInv
  import opened MetaTreeAscend
  import opened MetaTreeRun
  import opened MetaTreeTheorems
  import opened MetaTreeAllocation
  import opened MetaTreeSuccess
  import opened MetaTree

  /** The block cache and the device behind it, seen as one block map. */
  class BlockMap {
    var blocks: Disk

    constructor ()
      ensures blocks == map[]
    {
      blocks := map[];
    }

    method Read(pba: U64) returns (b: Block)
      ensures b == ReadBlock(blocks, pba)
    {
      b := if pba in blocks then blocks[pba] else ZeroBlock();
    }

    method Write(pba: U64, b: Block)
      modifies this
      ensures blocks == old(blocks)[pba := b]
    {
      blocks := blocks[pba := b];
    }
  }

  lemma ProgressDoesNotMatter(c: Codec, m: Mt, data: Block)
    requires RequestInRange(m)
    ensures MarkComplete(c, m.(request := m.request.(inProgress := true)), data) == MarkComplete(c, m, data)
  {
  }

  /** Hand the generated request to the device and its result back to the module. */
  method ServeRequest(mt: MetaTree, dev: BlockMap)
    requires RequestInRange(mt.View()) && !mt.request.inProgress
    modifies mt, mt.levels, dev
    ensures (mt.View(), dev.blocks) == Serve(mt.codec, old(mt.View()), old(dev.blocks))
  {
    var req := mt.request;
    ProgressDoesNotMatter(mt.codec, mt.View(), if req.write then req.data else ReadBlock(dev.blocks, req.pba));
    var dropped := mt.DropGeneratedCachePrimitive();
    var data := req.data;
    if req.write {
      dev.Write(req.pba, data);
    } else {
      data := dev.Read(req.pba);
    }
    var marked := mt.MarkGeneratedCachePrimitiveComplete(data);
  }

  /** Execute the module and serve the block request it may have left behind. */
  method ExecuteAndServe(mt: MetaTree, dev: BlockMap)
    requires CanExecute(mt.View()) && mt.state == Update && mt.request == NoRequest
    modifies mt, mt.levels, dev
    ensures (mt.View(), dev.blocks) == Advance(mt.codec, old(mt.View()), old(dev.blocks))
  {
    GeneratedRequestInRange(mt.codec, mt.View());
    var ok, progress := mt.Execute();
    if mt.request.Request? {
      ServeRequest(mt, dev);
    }
  }

  /** A whole allocation: submit, run to completion, collect the result.  u is the
      tree that is stored on the device afterwards.  */
  method Allocate(mt: MetaTree, dev: BlockMap, root: T1, maxLevel: nat, edges: nat, gen: U64, oldPba: U64, ghost t: Tree)
    returns (newRoot: T1, success: bool, newPba: U64, ghost u: Tree)
    requires Submittable(mt.codec, dev.blocks, mt.View(), root, maxLevel, edges, oldPba, t)
    modifies mt, mt.levels, dev
    ensures mt.state == Idle && mt.request == NoRequest
    ensures Allocated(mt.codec, old(dev.blocks), dev.blocks, maxLevel, edges, gen, t, u, Exchange(oldPba, success, newPba))
    ensures u.node == newRoot && mt.newPba == newPba && (!success ==> newPba == old(mt.newPba))
  {
    ghost var m0, d0, n: nat := Submit(mt.View(), root, maxLevel, edges, gen, oldPba), dev.blocks, 0;
    ghost var g := SubmitEstablishesInv(mt.codec, d0, mt.View(), root, maxLevel, edges, gen, oldPba, t);
    var ok := mt.SubmitPrimitive(root, maxLevel, edges, gen, oldPba);
    while mt.state != Done
      invariant (mt.View(), dev.blocks) == Rounds(mt.codec, m0, d0, n) && n <= TreeCost(t)
      decreases TreeCost(t) - n
    {
      UnderWayExecutes(mt.codec, d0, m0, t, TreeCost(t), n);
      ExecuteAndServe(mt, dev);
      n := n + 1;
    }
    u := RunAllocates(mt.codec, d0, old(mt.View()), root, maxLevel, edges, gen, oldPba, t, n);
    newRoot, success, newPba := mt.root, mt.success, mt.newPba;
    ok := mt.DropCompletedPrimitive();
  }

  /** The old addresses are outside of the tree and pairwise distinct. */
  ghost predicate Outside(olds: seq<U64>, t: Tree, edges: nat)
    requires ValidDegree(edges)
  {
    && (forall p :: Uses(t, edges, Every, p) <= 1)
    && (forall i | 0 <= i < |olds| :: olds[i] != 0 && Uses(t, edges, Every, olds[i]) == 0)
    && (forall i, j | 0 <= i < j < |olds| :: olds[i] != olds[j])
  }

  /** What the allocations of one generation did: trees[k] is the tree before the
      k-th of them, and every success handed out an address that is new. */
  ghost predicate Requests(trees: seq<Tree>, rs: seq<Exchange>, olds: seq<U64>, edges: nat, gen: U64)
    requires ValidDegree(edges)
  {
    && Generation(trees, rs, edges, gen) && |rs| <= |olds|
    && (forall k | 0 <= k < |rs| :: rs[k].oldPba == olds[k])
    && (forall k | 0 <= k < |rs| :: rs[k].success <==> Available(trees[k], edges, gen) > 0)
  }

  ghost predicate AllNew(rs: seq<Exchange>)
  {
    forall i, j | 0 <= i <= j < |rs| && rs[j].success ::
      rs[i].oldPba != rs[j].newPba && (i < j && rs[i].success ==> rs[i].newPba != rs[j].newPba)
  }

  lemma RequestsAreNew(trees: seq<Tree>, rs: seq<Exchange>, edges: nat, gen: U64)
    requires ValidDegree(edges) && Generation(trees, rs, edges, gen)
    ensures AllNew(rs)
  {
    forall i, j | 0 <= i <= j < |rs| && rs[j].success
      ensures rs[i].oldPba != rs[j].newPba && (i < j && rs[i].success ==> rs[i].newPba != rs[j].newPba)
    {
      NoDoubleAllocation(trees, rs, edges, gen, i, j);
    }
  }

  lemma RestStaysOutside(olds: seq<U64>, t: Tree, u: Tree, edges: nat, gen: U64, r: Exchange)
    requires ValidDegree(edges) && olds != [] && Outside(olds, t, edges) && r.oldPba == olds[0] && Serves(t, u, edges, gen, r)
    requires forall p :: Uses(u, edges, Every, p) + (if r.success && p == r.newPba then 1 else 0)
                      == Uses(t, edges, Every, p) + (if r.success && p == r.oldPba then 1 else 0)
    ensures Outside(olds[1..], u, edges)
  {
    forall i | 0 <= i < |olds[1..]| ensures olds[1..][i] != olds[0] {
    }
  }

  /** One request after the other within a generation, on one device, each from the
      tree that the one before it left. */
  method AllocateAll(mt: MetaTree, dev: BlockMap, root: T1, maxLevel: nat, edges: nat, gen: U64, olds: seq<U64>, ghost t: Tree)
    returns (newRoot: T1, rs: seq<Exchange>, ghost trees: seq<Tree>)
    requires mt.state == Idle && mt.request == NoRequest && mt.levels.Length == NR_OF_LEVELS
    requires FIRST_N <= maxLevel < NR_OF_LEVELS && ValidDegree(edges)
    requires !t.Nil? && t.node == root && Stored(mt.codec, dev.blocks, t, maxLevel, edges) && Outside(olds, t, edges)
    modifies mt, mt.levels, dev
    ensures mt.state == Idle && mt.request == NoRequest
    ensures |rs| == |olds| && Requests(trees, rs, olds, edges, gen) && AllNew(rs) && trees[0] == t
    ensures var u := trees[|rs|];
            !u.Nil? && u.node == newRoot && Stored(mt.codec, dev.blocks, u, maxLevel, edges) && Renewed(t, u, edges, gen)
  {
    newRoot, rs, trees := root, [], [t];
    ghost var u := t;
    RenewedRefl(t, edges, gen);
    while |rs| < |olds|
      invariant mt.state == Idle && mt.request == NoRequest
      invariant Requests(trees, rs, olds, edges, gen) && trees[0] == t && trees[|rs|] == u
      invariant !u.Nil? && u.node == newRoot && Stored(mt.codec, dev.blocks, u, maxLevel, edges) && Renewed(t, u, edges, gen)
      invariant Outside(olds[|rs|..], u, edges)
    {
      var k := |rs|;
      assert olds[k..][0] == olds[k];
      assert Submittable(mt.codec, dev.blocks, mt.View(), newRoot, maxLevel, edges, olds[k], u);
      ghost var v;
      var nextRoot, success, newPba;
      nextRoot, success, newPba, v := Allocate(mt, dev, newRoot, maxLevel, edges, gen, olds[k], u);
      RestStaysOutside(olds[k..], u, v, edges, gen, Exchange(olds[k], success, newPba));
      RenewedTrans(t, u, v, edges, gen);
      assert olds[k..][1..] == olds[k + 1..];
      newRoot, rs, trees, u := nextRoot, rs + [Exchange(olds[k], success, newPba)], trees + [v], v;
    }
    RequestsAreNew(trees, rs, edges, gen);
  }
}
