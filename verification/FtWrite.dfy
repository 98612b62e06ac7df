/** Writing the new path, child first. */
module FtWrite {
  import opened NodeCodec
  import opened HashTree
  import opened TreeIndex
  import opened FreeTree
  import opened FtSpec
  import opened FtBuild
  import opened FtInv
  import opened FtMount
  import R = FtRead

  // ------------------------------------------------------------ no block is shared

  /** Every address has at most one use, now and afterwards. */
  lemma AtMostOnce(c: Codec, o: World, t: Tree, w: World, uses: nat, p: U64)
    requires Request(c, o, t) && SameRequest(o, w.job) && w.job.nrPbas <= o.job.nrPbas && SupplyLeft(o, w)
    requires Balance(o, t, w, uses, p)
    ensures uses <= 1
  {
    assert Supplied(o, t, p) <= 1;
    assert Taken(w.swaps, p) + Count(w.supply, p) == Count(o.supply, p);
  }

  /** Writing a block leaves the subtrees off the path stored, if none uses it. */
  lemma SideFrame(c: Codec, disk: Disk, b: Tree, entries: T1Block, d: nat, l: nat, edges: nat, p: U64, blk: Block)
    requires ValidDegree(edges) && SideStored(c, disk, b, entries, d, l, edges) && Off(b, d, edges, p) == 0
    ensures SideStored(c, disk[p := blk], b, entries, d, l, edges)
  {
    forall i | 0 <= i < edges && i != d ensures EntryOf(entries[i], b.kids[i]) && Stored(c, disk[p := blk], b.kids[i], l - 1, edges) {
      SumUsesUpdate(b.kids[d := Nil], i, Nil, edges, Every, p);
      StoredFrame(c, disk, b.kids[i], l - 1, edges, p, blk);
    }
  }

  lemma UppersFrame(c: Codec, disk: Disk, j: Job, r: Job, g: Ghost, low: nat, p: U64, blk: Block)
    requires SamePath(j, r) && Fits(g, j) && 1 <= low <= j.maxLevel
    requires forall l | low < l <= j.maxLevel :: UpperLevel(c, disk, j, g, l) && r.t1[l] == j.t1[l]
    requires Above(j.newPbas, g.base, g.path, j.edges, low + 1, j.maxLevel, p) == 0
    ensures UpperLevels(c, disk[p := blk], r, g, low)
  {
    var next := disk[p := blk];
    forall l | low < l <= j.maxLevel ensures UpperLevel(c, next, r, g, l) {
      R.AboveCounts(j.newPbas, g.base, g.path, j.edges, low + 1, l, j.maxLevel, p);
      assert UpperLevel(c, disk, j, g, l);
      SideFrame(c, disk, g.base[l], j.t1[l], g.path[l - 1], l, j.edges, p, blk);
    }
  }

  // ----------------------------------------------------------------- the first write

  /** Writing the block of a node whose body is stored. */
  lemma BodyFrame(c: Codec, disk: Disk, t: Tree, level: nat, edges: nat, blk: Block)
    requires ValidDegree(edges) && BodyStored(c, disk, t, level, edges) && t.node.pba != 0
    requires Uses(t, edges, Every, t.node.pba) <= 1
    requires blk == (if t.Leafs? then c.enc2(t.leaves) else c.enc1(t.entries)) && t.node.hash == c.hash(blk)
    ensures Stored(c, disk[t.node.pba := blk], t, level, edges)
  {
    if t.Inner? {
      forall i | 0 <= i < edges ensures EntryOf(t.entries[i], t.kids[i]) && Stored(c, disk[t.node.pba := blk], t.kids[i], level - 1, edges) {
        SumUsesUpdate(t.kids, i, Nil, edges, Every, t.node.pba);
        StoredFrame(c, disk, t.kids[i], level - 1, edges, t.node.pba, blk);
      }
    }
  }

  /** The round that writes the lowest node of the new path. */
  ghost function FirstWriteRound(c: Codec, w: World): World
    requires Shaped(w.job)
  {
    Serve(c, w.(job := WriteBack(w.job, w.job.lvl)))
  }

  lemma FirstWriteEffect(c: Codec, w: World)
    requires Shaped(w.job) && 1 <= w.job.lvl <= w.job.maxLevel
    ensures var j, w' := w.job, FirstWriteRound(c, w);
            && w'.job == j.(state := w'.job.state, block := j.newPbas[j.lvl])
            && w'.job.state == (if j.lvl == j.maxLevel then WriteRootCompleted else WriteInnerCompleted)
            && w'.disk == w.disk[j.newPbas[j.lvl] := BlockOf(c, j)] && w'.written == w.written + [j.newPbas[j.lvl]]
            && w'.supply == w.supply && w'.swaps == w.swaps
  {
  }

  lemma FirstWriteCommon(c: Codec, o: World, t: Tree, w: World, g: Ghost)
    requires BuiltInv(c, o, t, w, g, w.job.maxLevel)
    requires Above(w.job.newPbas, g.base, g.path, w.job.edges, w.job.lvl + 1, w.job.maxLevel, w.job.newPbas[w.job.lvl]) == 0
    ensures Common(c, o, t, FirstWriteRound(c, w), g)
  {
    FirstWriteEffect(c, w);
    UppersFrame(c, w.disk, w.job, FirstWriteRound(c, w).job, g, w.job.lvl, w.job.newPbas[w.job.lvl], BlockOf(c, w.job));
  }

  lemma AllPlaced(j: Job, p: U64, c: Codec, g: Ghost)
    requires Shaped(j) && Fits(g, j) && 1 <= j.lvl <= j.maxLevel
    ensures Plan(j, j.maxLevel)[j.lvl] == j.newPbas[j.lvl]
    ensures BuiltUses(c, j, g, j.maxLevel, p)
            == Uses(LowNode(c, j, g, j.newPbas[j.lvl]), j.edges, Every, p)
               + Above(j.newPbas, g.base, g.path, j.edges, j.lvl + 1, j.maxLevel, p)
  {
    R.AboveSame(Plan(j, j.maxLevel), j.newPbas, g.base, g.base, g.path, j.edges, j.lvl + 1, j.maxLevel, p);
  }

  /** The lowest node shares its address with nothing. */
  lemma FirstWriteAlone(c: Codec, o: World, t: Tree, w: World, g: Ghost)
    requires BuiltInv(c, o, t, w, g, w.job.maxLevel)
    ensures var j, p := w.job, w.job.newPbas[w.job.lvl];
            && Writable(o, t, p)
            && Uses(LowNode(c, j, g, p), j.edges, Every, p) <= 1
            && Above(j.newPbas, g.base, g.path, j.edges, j.lvl + 1, j.maxLevel, p) == 0
  {
    var j, p := w.job, w.job.newPbas[w.job.lvl];
    AllPlaced(j, p, c, g);
    assert Balance(o, t, w, BuiltUses(c, j, g, j.maxLevel, p), p);
    AtMostOnce(c, o, t, w, BuiltUses(c, j, g, j.maxLevel, p), p);
  }

  lemma FirstWriteBalance(c: Codec, o: World, t: Tree, w: World, g: Ghost, q: U64)
    requires BuiltInv(c, o, t, w, g, w.job.maxLevel)
    ensures WriteBalance(o, t, FirstWriteRound(c, w), g, LowNode(c, w.job, g, w.job.newPbas[w.job.lvl]), q)
  {
    FirstWriteEffect(c, w);
    assert Balance(o, t, w, BuiltUses(c, w.job, g, w.job.maxLevel, q), q);
    AllPlaced(w.job, q, c, g);
  }

  lemma FirstOnDisk(c: Codec, o: World, t: Tree, w: World, g: Ghost, u: Tree)
    requires BuiltInv(c, o, t, w, g, w.job.maxLevel) && u == LowNode(c, w.job, g, w.job.newPbas[w.job.lvl])
    ensures BuiltLow(c, o, w, g, u)
    ensures Stored(c, w.disk[w.job.newPbas[w.job.lvl] := BlockOf(c, w.job)], u, w.job.lvl, w.job.edges)
  {
    FirstWriteAlone(c, o, t, w, g);
    AllPlaced(w.job, 0, c, g);
    BodyFrame(c, w.disk, u, w.job.lvl, w.job.edges, BlockOf(c, w.job));
  }

  lemma FirstRebuilt(c: Codec, o: World, w: World, w': World, g: Ghost, u: Tree)
    requires Sized(o, w, g) && BuiltLow(c, o, w, g, u) && u == LowNode(c, w.job, g, w.job.newPbas[w.job.lvl])
    requires w'.job == w.job.(state := w'.job.state, block := w'.job.block)
    requires Stored(c, w'.disk, u, w.job.lvl, w.job.edges)
    requires g.youngest.Some? ==> g.youngest.value == w.job.gen
    ensures Sized(o, w', g) && Rebuilt(c, o, w', g, u)
  {
    NewNodeFalls(u, g.youngest);
  }

  lemma FirstWrite(c: Codec, o: World, t: Tree, w: World, g: Ghost) returns (u: Tree)
    requires BuiltInv(c, o, t, w, g, w.job.maxLevel)
    ensures WriteInv(c, o, t, FirstWriteRound(c, w), g, u)
  {
    u := LowNode(c, w.job, g, w.job.newPbas[w.job.lvl]);
    FirstOnDisk(c, o, t, w, g, u);
    FirstWriteAlone(c, o, t, w, g);
    FirstWriteCommon(c, o, t, w, g);
    FirstWriteEffect(c, w);
    FirstRebuilt(c, o, w, FirstWriteRound(c, w), g, u);
    forall q ensures WriteBalance(o, t, FirstWriteRound(c, w), g, u, q) {
      FirstWriteBalance(c, o, t, w, g, q);
    }
  }

  // ----------------------------------------------------------------- the next level

  /** The new node at the level above the one written last. */
  ghost function NextTree(c: Codec, w: World, g: Ghost, u: Tree): Tree
    requires Shaped(w.job) && Fits(g, w.job) && 1 <= w.job.lvl < w.job.maxLevel && !u.Nil?
    requires var b := g.base[w.job.lvl + 1]; b.Inner? && g.path[w.job.lvl] < |b.kids| && g.path[w.job.lvl] < NODES_PER_BLOCK
  {
    var l, d := w.job.lvl + 1, g.path[w.job.lvl];
    var entries := w.job.t1[l][d := u.node];
    Inner(T1(w.job.newPbas[l], w.job.gen, c.hash(c.enc1(entries))), entries, g.base[l].kids[d := u])
  }

  /** What one round of writing back does. */
  ghost predicate Wrote(c: Codec, w: World, w': World, g: Ghost, u: Tree)
    requires Shaped(w.job) && Fits(g, w.job) && 1 <= w.job.lvl < w.job.maxLevel && !u.Nil? && g.path[w.job.lvl] < NODES_PER_BLOCK
  {
    var j, l, d := w.job, w.job.lvl + 1, g.path[w.job.lvl];
    && w'.job == j.(t1 := j.t1[l := j.t1[l][d := u.node]], lvl := l, state := w'.job.state, block := j.newPbas[l])
    && w'.job.state == (if l == j.maxLevel then WriteRootCompleted else WriteInnerCompleted)
    && w'.disk == w.disk[j.newPbas[l] := c.enc1(j.t1[l][d := u.node])] && w'.written == w.written + [j.newPbas[l]]
    && w'.supply == w.supply && w'.swaps == w.swaps
  }

  lemma NextWriteEffect(c: Codec, w: World, g: Ghost, u: Tree)
    requires CanExecute(w.job) && w.job.state.WriteInnerCompleted? && OnPath(g, w.job) && !u.Nil? && u.node == WrittenNode(c, w.job)
    ensures Wrote(c, w, Advance(c, w), g, u)
  {
    assert g.path[w.job.lvl] == ChildIndex(w.job.vba, w.job.lvl + 1, w.job.edges);
  }

  lemma NextAlone(c: Codec, o: World, t: Tree, w: World, g: Ghost, u: Tree)
    requires WriteInv(c, o, t, w, g, u) && w.job.lvl < w.job.maxLevel
    ensures var j, l := w.job, w.job.lvl + 1;
            var p := j.newPbas[l];
            && Writable(o, t, p)
            && Uses(u, j.edges, Every, p) == 0 && Off(g.base[l], g.path[l - 1], j.edges, p) == 0
            && Above(j.newPbas, g.base, g.path, j.edges, l + 1, j.maxLevel, p) == 0
  {
    var j, l := w.job, w.job.lvl + 1;
    var p := j.newPbas[l];
    assert WriteBalance(o, t, w, g, u, p);
    AtMostOnce(c, o, t, w, Uses(u, j.edges, Every, p) + Above(j.newPbas, g.base, g.path, j.edges, l, j.maxLevel, p), p);
  }

  lemma NextUses(c: Codec, w: World, g: Ghost, u: Tree, p: U64)
    requires Shaped(w.job) && Fits(g, w.job) && 1 <= w.job.lvl < w.job.maxLevel && !u.Nil?
    requires var b := g.base[w.job.lvl + 1]; b.Inner? && g.path[w.job.lvl] < |b.kids| && g.path[w.job.lvl] < NODES_PER_BLOCK
    ensures var j, l := w.job, w.job.lvl + 1;
            Uses(NextTree(c, w, g, u), j.edges, Every, p) + Above(j.newPbas, g.base, g.path, j.edges, l + 1, j.maxLevel, p)
            == Uses(u, j.edges, Every, p) + Above(j.newPbas, g.base, g.path, j.edges, l, j.maxLevel, p)
  {
    var b, d := g.base[w.job.lvl + 1], g.path[w.job.lvl];
    SumUsesUpdate(b.kids[d := Nil], d, u, w.job.edges, Every, p);
    assert b.kids[d := Nil][d := u] == b.kids[d := u];
  }

  /** The new node is stored once its block is written. */
  lemma NextStored(c: Codec, w: World, g: Ghost, u: Tree, l: nat)
    requires Shaped(w.job) && OnPath(g, w.job) && 1 <= w.job.lvl < w.job.maxLevel && !u.Nil? && l == w.job.lvl + 1
    requires SideStored(c, w.disk, g.base[l], w.job.t1[l], g.path[l - 1], l, w.job.edges)
    requires Stored(c, w.disk, u, l - 1, w.job.edges) && w.job.newPbas[l] != 0
    requires Uses(u, w.job.edges, Every, w.job.newPbas[l]) == 0
    requires Off(g.base[l], g.path[l - 1], w.job.edges, w.job.newPbas[l]) == 0
    ensures var entries := w.job.t1[l][g.path[l - 1] := u.node];
            Stored(c, w.disk[w.job.newPbas[l] := c.enc1(entries)], NextTree(c, w, g, u), l, w.job.edges)
  {
    var j, d := w.job, g.path[l - 1];
    var blk := c.enc1(j.t1[l][d := u.node]);
    SideFrame(c, w.disk, g.base[l], j.t1[l], d, l, j.edges, j.newPbas[l], blk);
    StoredFrame(c, w.disk, u, l - 1, j.edges, j.newPbas[l], blk);
  }

  lemma NextCommon(c: Codec, o: World, t: Tree, w: World, w': World, g: Ghost, u: Tree)
    requires WriteInv(c, o, t, w, g, u) && w.job.lvl < w.job.maxLevel && Wrote(c, w, w', g, u)
    ensures Common(c, o, t, w', g)
  {
    var j, l := w.job, w.job.lvl + 1;
    NextAlone(c, o, t, w, g, u);
    UppersFrame(c, w.disk, j, w'.job, g, l, j.newPbas[l], c.enc1(j.t1[l][g.path[j.lvl] := u.node]));
  }

  lemma NextOnDisk(c: Codec, o: World, t: Tree, w: World, w': World, g: Ghost, u: Tree)
    requires WriteInv(c, o, t, w, g, u) && w.job.lvl < w.job.maxLevel && Wrote(c, w, w', g, u)
    requires UpperLevel(c, w.disk, w.job, g, w.job.lvl + 1)
    ensures NextTree(c, w, g, u).node == WrittenNode(c, w'.job)
    ensures Stored(c, w'.disk, NextTree(c, w, g, u), w.job.lvl + 1, w.job.edges)
  {
    NextAlone(c, o, t, w, g, u);
    NextStored(c, w, g, u, w.job.lvl + 1);
  }

  /** What the level above knows of its node. */
  ghost predicate UpperPacked(j: Job, g: Ghost, b: Tree, low: nat)
    requires Shaped(j) && OnPath(g, j) && 1 <= low < j.maxLevel
  {
    && b.Inner? && |b.kids| == j.edges
    && LeftPacked(b, low + 1, Position(g.path, low + 1, j.edges), j.edges)
    && Leaves(b.kids[g.path[low]], j.edges) == Leaves(g.base[low], j.edges)
  }

  lemma UpperIsPacked(c: Codec, disk: Disk, j: Job, g: Ghost, low: nat)
    requires Shaped(j) && OnPath(g, j) && 1 <= low < j.maxLevel && UpperLevel(c, disk, j, g, low + 1)
    ensures UpperPacked(j, g, g.base[low + 1], low)
  {
  }

  /** Leaves appended below reach the new node. */
  lemma NextGrown(j: Job, g: Ghost, u: Tree, v: Tree, low: nat, added: seq<T2>)
    requires Shaped(j) && OnPath(g, j) && 1 <= low < j.maxLevel && UpperPacked(j, g, g.base[low + 1], low)
    requires Grown(j, g, u, low, added)
    requires v.Inner? && v.kids == g.base[low + 1].kids[g.path[low] := u]
    ensures Grown(j, g, v, low + 1, added)
  {
    var b := g.base[low + 1];
    GraftOnPath(b, u, v, low, g.path, j.newLeaves, added, Leaves(g.base[low], j.edges), j.edges);
    assert Leaves(b, j.edges) == Leaves(g.base[low + 1], j.edges);
  }

  lemma GraftOnPath(b: Tree, u: Tree, v: Tree, low: nat, path: seq<nat>, k: nat, added: seq<T2>, before: seq<T2>, edges: nat)
    requires ValidDegree(edges) && 1 <= low < |path| && PathIn(path, |path|, edges) && b.Inner? && |b.kids| == edges
    requires LeftPacked(b, low + 1, Position(path, low + 1, edges), edges)
    requires LeftPacked(u, low, Position(path, low, edges) + k, edges)
    requires Leaves(b.kids[path[low]], edges) == before && Leaves(u, edges) == before + added
    requires v.Inner? && v.kids == b.kids[path[low] := u]
    ensures LeftPacked(v, low + 1, Position(path, low + 1, edges) + k, edges)
    ensures Leaves(v, edges) == Leaves(b, edges) + added
  {
    GraftAppends(b, u, v, low, path, k, added, edges);
  }

  lemma NextFalls(c: Codec, o: World, t: Tree, w: World, g: Ghost, u: Tree)
    requires WriteInv(c, o, t, w, g, u) && w.job.lvl < w.job.maxLevel && UpperLevel(c, w.disk, w.job, g, w.job.lvl + 1)
    ensures g.youngest.Some? ==> GensFall(NextTree(c, w, g, u))
  {
    NextNodeFalls(g.base[w.job.lvl + 1], g.path[w.job.lvl], u, NextTree(c, w, g, u), g.youngest);
  }

  lemma NextRebuilt(c: Codec, o: World, w: World, w': World, g: Ghost, u: Tree, v: Tree)
    requires Sized(o, w, g) && OnPath(g, w.job) && w.job.lvl < w.job.maxLevel && !u.Nil? && Wrote(c, w, w', g, u)
    requires !v.Nil? && v.node == WrittenNode(c, w'.job)
    requires Stored(c, w'.disk, v, w.job.lvl + 1, w.job.edges)
    requires Grown(w.job, g, v, w.job.lvl + 1, Added(o, w.job)) && (g.youngest.Some? ==> GensFall(v))
    ensures Sized(o, w', g) && Rebuilt(c, o, w', g, v)
  {
    assert Added(o, w'.job) == Added(o, w.job);
  }

  lemma NextBalance(c: Codec, o: World, t: Tree, w: World, w': World, g: Ghost, u: Tree, p: U64)
    requires WriteInv(c, o, t, w, g, u) && w.job.lvl < w.job.maxLevel && Wrote(c, w, w', g, u)
    requires UpperLevel(c, w.disk, w.job, g, w.job.lvl + 1)
    ensures WriteBalance(o, t, w', g, NextTree(c, w, g, u), p)
  {
    NextUses(c, w, g, u, p);
    assert WriteBalance(o, t, w, g, u, p);
  }

  /** Writing the next level keeps the invariant. */
  lemma NextWrite(c: Codec, o: World, t: Tree, w: World, g: Ghost, u: Tree) returns (v: Tree)
    requires WriteInv(c, o, t, w, g, u) && w.job.lvl < w.job.maxLevel
    ensures CanExecute(w.job) && WriteInv(c, o, t, Advance(c, w), g, v)
    ensures Advance(c, w).job.lvl == w.job.lvl + 1 && Advance(c, w).job.maxLevel == w.job.maxLevel
    ensures Advance(c, w).job.newLeaves == w.job.newLeaves
  {
    NextWriteEffect(c, w, g, u);
    v := NextWriteFrom(c, o, t, w, Advance(c, w), g, u);
  }

  lemma NextWriteFrom(c: Codec, o: World, t: Tree, w: World, w': World, g: Ghost, u: Tree) returns (v: Tree)
    requires WriteInv(c, o, t, w, g, u) && w.job.lvl < w.job.maxLevel && Wrote(c, w, w', g, u)
    ensures WriteInv(c, o, t, w', g, v)
  {
    assert UpperLevel(c, w.disk, w.job, g, w.job.lvl + 1);
    v := NextTree(c, w, g, u);
    NextCommon(c, o, t, w, w', g, u);
    NextOnDisk(c, o, t, w, w', g, u);
    UpperIsPacked(c, w.disk, w.job, g, w.job.lvl);
    NextGrown(w.job, g, u, v, w.job.lvl, Added(o, w.job));
    NextFalls(c, o, t, w, g, u);
    NextRebuilt(c, o, w, w', g, u, v);
    NextWriteAssembled(c, o, t, w, w', g, u);
  }

  lemma NextWriteAssembled(c: Codec, o: World, t: Tree, w: World, w': World, g: Ghost, u: Tree)
    requires WriteInv(c, o, t, w, g, u) && w.job.lvl < w.job.maxLevel && Wrote(c, w, w', g, u)
    requires UpperLevel(c, w.disk, w.job, g, w.job.lvl + 1) && Common(c, o, t, w', g)
    requires Sized(o, w', g) && Rebuilt(c, o, w', g, NextTree(c, w, g, u))
    ensures WriteInv(c, o, t, w', g, NextTree(c, w, g, u))
  {
    var v := NextTree(c, w, g, u);
    forall p ensures WriteBalance(o, t, w', g, v, p) {
      NextBalance(c, o, t, w, w', g, u, p);
    }
    assert Writable(o, t, w.job.newPbas[w.job.lvl + 1]);
  }
}
