/** Reading the path to the first unused leaf. */
module FtRead {
  import opened NodeCodec
  import opened HashTree
  import opened TreeIndex
  import opened FreeTree
  import opened FtSpec
  import opened FtBuild
  import opened FtInv
  import MT = MetaTreeSpec

  lemma {:induction false} AboveSame(a: seq<U64>, b: seq<U64>, s: seq<Tree>, t: seq<Tree>, path: seq<nat>,
                                     edges: nat, l: nat, top: nat, p: U64)
    requires 1 <= l && top < |a| && top < |b| && top < |s| && top < |t| && top <= |path| && ValidDegree(edges)
    requires forall i | l <= i <= top :: a[i] == b[i] && s[i] == t[i]
    ensures Above(a, s, path, edges, l, top, p) == Above(b, t, path, edges, l, top, p)
    decreases top + 1 - l
  {
    if l <= top {
      AboveSame(a, b, s, t, path, edges, l + 1, top, p);
    }
  }

  /** A node's addresses: its own, those off the path, those on the path. */
  lemma SplitUses(b: Tree, d: nat, edges: nat, p: U64)
    requires ValidDegree(edges) && b.Inner? && d < |b.kids|
    ensures Uses(b, edges, Every, p) == (if b.node.pba == p then 1 else 0) + Off(b, d, edges, p) + Uses(b.kids[d], edges, Every, p)
  {
    SumUsesUpdate(b.kids, d, Nil, edges, Every, p);
  }

  // -------------------------------------------------------------------- first round

  lemma RootIsRead(c: Codec, o: World, t: Tree, j: Job, g: Ghost)
    requires Request(c, o, t) && Shaped(j) && j.maxLevel == o.job.maxLevel && j.edges == o.job.edges
    requires Fits(g, j) && g.base[j.maxLevel] == t && g.youngest == Youngest(o, t)
    requires LeftPacked(t, j.maxLevel, Position(g.path, j.maxLevel, j.edges), j.edges)
    requires t.Inner? && j.t1[j.maxLevel] == t.entries && j.oldPbas[j.maxLevel] == t.node.pba && j.oldGens[j.maxLevel] == t.node.gen
    ensures LevelRead(c, o, j, g, j.maxLevel)
  {
    assert Falls(t, Youngest(o, t));
  }

  lemma StartsReading(c: Codec, o: World, t: Tree) returns (g: Ghost)
    requires Request(c, o, t)
    requires MaxMaxVba(o.job.edges, o.job.maxLevel).Some? && o.job.nrLeaves <= MaxMaxVba(o.job.edges, o.job.maxLevel).value
    ensures CanExecute(o.job) && ReadingInv(c, o, t, Advance(c, o), g)
  {
    var top := o.job.maxLevel;
    g := Ghost(seq(LEVELS, _ => Nil)[top := t], Path(o.job.nrLeaves, top, o.job.edges), Youngest(o, t));
    var w := Advance(c, o);
    assert t.Inner? && o.disk[t.node.pba] == c.enc1(t.entries);
    PositionIsAddress(o.job.nrLeaves, top, o.job.edges);
    RootIsRead(c, o, t, w.job, g);
    forall p ensures ReadBalance(t, w.job, g, p) {
      assert Above(w.job.oldPbas, g.base, g.path, w.job.edges, top + 1, top, p) == 0;
    }
  }

  // ---------------------------------------------------------------- further rounds

  /** The block that was read is the one its parent describes. */
  lemma HashMatches(c: Codec, o: World, t: Tree, w: World, g: Ghost)
    requires ReadingInv(c, o, t, w, g)
    ensures !HashMismatch(c, w.job)
  {
    var j := w.job;
    var l := j.lvl;
    assert LevelRead(c, o, j, g, l);
    assert BlockAt(c, o.disk, g.base[l].node, BlockOf(c, j));
    if l < j.maxLevel {
      assert LevelRead(c, o, j, g, l + 1);
      assert g.path[l] == ChildIndex(j.vba, l + 1, j.edges);
      assert EntryOf(g.base[l + 1].entries[g.path[l]], g.base[l + 1].kids[g.path[l]]);
    }
  }

  lemma ReadNode(c: Codec, o: World, t: Tree, w: World, g: Ghost)
    requires ReadingInv(c, o, t, w, g) && w.job.lvl > 1
    ensures var j, l, i := w.job, w.job.lvl, ChildIndex(w.job.vba, w.job.lvl, w.job.edges);
            var b := g.base[l];
            && i == g.path[l - 1] && b.Inner? && |b.kids| == j.edges && b.entries == j.t1[l]
            && EntryOf(b.entries[i], b.kids[i]) && Stored(c, o.disk, b.kids[i], l - 1, j.edges)
            && LeftPacked(b, l, Position(g.path, l, j.edges), j.edges)
  {
    assert LevelRead(c, o, w.job, g, w.job.lvl);
  }

  /** The child on the path, and what the job sees of it. */
  lemma NextChild(c: Codec, o: World, t: Tree, w: World, g: Ghost)
    requires ReadingInv(c, o, t, w, g) && w.job.lvl > 1
    ensures g.base[w.job.lvl].Inner? && |g.base[w.job.lvl].kids| == w.job.edges
    ensures var j, l := w.job, w.job.lvl;
            var i := ChildIndex(j.vba, l, j.edges);
            var kid := g.base[l].kids[i];
            && i == g.path[l - 1] && EntryOf(j.t1[l][i], kid) && Stored(c, o.disk, kid, l - 1, j.edges)
            && ((kid.Nil? && Position(g.path, l - 1, j.edges) == 0)
                || LeftPacked(kid, l - 1, Position(g.path, l - 1, j.edges), j.edges))
            && (kid.Nil? <==> j.t1[l][i].pba == 0)
  {
    ReadNode(c, o, t, w, g);
    OnPathKid(g, w.job, w.job.lvl);
  }

  lemma OnPathKid(g: Ghost, j: Job, l: nat)
    requires Shaped(j) && OnPath(g, j) && 1 < l <= j.maxLevel && g.base[l].Inner? && |g.base[l].kids| == j.edges
    requires LeftPacked(g.base[l], l, Position(g.path, l, j.edges), j.edges)
    ensures var kid, r := g.base[l].kids[g.path[l - 1]], Position(g.path, l - 1, j.edges);
            (kid.Nil? && r == 0) || LeftPacked(kid, l - 1, r, j.edges)
  {
    PositionBelow(g.path, l - 1, j.edges);
    KidsOnPath(g.base[l].kids, l - 1, g.path[l - 1], Position(g.path, l - 1, j.edges), j.edges);
  }

  /** The job after reading the next child. */
  function Descended(c: Codec, j: Job, child: T1, data: Block): Job
    requires Shaped(j) && 1 < j.lvl
  {
    var l := j.lvl - 1;
    j.(lvl := l, state := ReadInnerCompleted, block := child.pba,
       oldPbas := j.oldPbas[l := child.pba], oldGens := j.oldGens[l := child.gen],
       t1 := if l > 1 then j.t1[l := c.dec1(data)] else j.t1, t2 := if l > 1 then j.t2 else c.dec2(data))
  }

  lemma DescendEffect(c: Codec, w: World)
    requires Shaped(w.job) && 1 < w.job.lvl <= w.job.maxLevel && (w.job.state.ReadRootCompleted? || w.job.state.ReadInnerCompleted?)
    requires !HashMismatch(c, w.job)
    requires w.job.t1[w.job.lvl][ChildIndex(w.job.vba, w.job.lvl, w.job.edges)].pba != 0
    ensures CanExecute(w.job)
    ensures var child := w.job.t1[w.job.lvl][ChildIndex(w.job.vba, w.job.lvl, w.job.edges)];
            Advance(c, w) == w.(job := Descended(c, w.job, child, MT.ReadBlock(w.disk, child.pba)))
  {
  }

  lemma NextFalls(c: Codec, o: World, t: Tree, w: World, g: Ghost)
    requires ReadingInv(c, o, t, w, g) && w.job.lvl > 1
    ensures var i := ChildIndex(w.job.vba, w.job.lvl, w.job.edges);
            g.base[w.job.lvl].Inner? && i < |g.base[w.job.lvl].kids| && Falls(g.base[w.job.lvl].kids[i], g.youngest)
  {
    NextChild(c, o, t, w, g);
    assert LevelRead(c, o, w.job, g, w.job.lvl);
    KidFalls(g.base[w.job.lvl], ChildIndex(w.job.vba, w.job.lvl, w.job.edges), g.youngest);
  }

  lemma DescendLevels(c: Codec, o: World, t: Tree, w: World, g: Ghost) returns (next: Ghost)
    requires ReadingInv(c, o, t, w, g) && w.job.lvl > 1
    requires w.job.t1[w.job.lvl][ChildIndex(w.job.vba, w.job.lvl, w.job.edges)].pba != 0
    ensures CanExecute(w.job) && |next.base| == LEVELS
    ensures var j, r := w.job, Advance(c, w).job;
            && r.lvl == j.lvl - 1 && r.state.ReadInnerCompleted? && next == g.(base := next.base) && r.maxLevel == j.maxLevel
            && SameRequest(o, r) && Advance(c, w) == o.(job := r)
            && r.pba == j.pba && r.nrPbas == j.nrPbas && r.newLeaves == j.newLeaves && r.root == j.root
            && (forall l | j.lvl <= l <= MAX_LEVEL :: r.t1[l] == j.t1[l] && r.oldPbas[l] == j.oldPbas[l] && r.oldGens[l] == j.oldGens[l])
            && g.base[j.lvl].Inner? && |g.base[j.lvl].kids| == j.edges
            && next.base == g.base[j.lvl - 1 := g.base[j.lvl].kids[g.path[j.lvl - 1]]]
            && LevelRead(c, o, r, next, j.lvl - 1)
  {
    var j := w.job;
    HashMatches(c, o, t, w, g);
    NextChild(c, o, t, w, g);
    DescendEffect(c, w);
    var kid := g.base[j.lvl].kids[ChildIndex(j.vba, j.lvl, j.edges)];
    NextFalls(c, o, t, w, g);
    next := g.(base := g.base[j.lvl - 1 := kid]);
    DescendedRead(c, o, j, Advance(c, w).job, g, next, kid);
  }

  /** What was read is the stored child. */
  lemma DescendedRead(c: Codec, o: World, j: Job, r: Job, g: Ghost, next: Ghost, kid: Tree)
    requires Shaped(j) && Fits(g, j) && 1 < j.lvl <= j.maxLevel && !kid.Nil? && Stored(c, o.disk, kid, j.lvl - 1, j.edges)
    requires r == Descended(c, j, kid.node, MT.ReadBlock(o.disk, kid.node.pba))
    requires next == g.(base := g.base[j.lvl - 1 := kid]) && Falls(kid, g.youngest) && IsKid(g.base[j.lvl], g.path[j.lvl - 1], kid)
    requires LeftPacked(kid, j.lvl - 1, Position(g.path, j.lvl - 1, j.edges), j.edges)
    ensures Shaped(r) && Fits(next, r) && LevelRead(c, o, r, next, j.lvl - 1)
  {
    assert kid.node.pba in o.disk;
  }

  lemma DescendBalance(t: Tree, j: Job, r: Job, g: Ghost, next: Ghost, p: U64)
    requires Shaped(j) && Shaped(r) && Fits(g, j) && Fits(next, r) && next.path == g.path
    requires 1 < j.lvl <= j.maxLevel && r.lvl == j.lvl - 1 && r.maxLevel == j.maxLevel && r.edges == j.edges
    requires forall l | j.lvl <= l <= MAX_LEVEL :: r.oldPbas[l] == j.oldPbas[l] && next.base[l] == g.base[l]
    requires IsKid(g.base[j.lvl], g.path[j.lvl - 1], next.base[r.lvl]) && j.oldPbas[j.lvl] == g.base[j.lvl].node.pba
    requires ReadBalance(t, j, g, p)
    ensures ReadBalance(t, r, next, p)
  {
    SplitUses(g.base[j.lvl], g.path[j.lvl - 1], j.edges, p);
    AboveSame(j.oldPbas, r.oldPbas, g.base, next.base, g.path, j.edges, j.lvl + 1, j.maxLevel, p);
  }

  lemma Descends(c: Codec, o: World, t: Tree, w: World, g: Ghost) returns (next: Ghost)
    requires ReadingInv(c, o, t, w, g) && w.job.lvl > 1
    requires w.job.t1[w.job.lvl][ChildIndex(w.job.vba, w.job.lvl, w.job.edges)].pba != 0
    ensures CanExecute(w.job) && ReadingInv(c, o, t, Advance(c, w), next) && Advance(c, w).job.lvl < w.job.lvl
  {
    next := DescendLevels(c, o, t, w, g);
    var j, r := w.job, Advance(c, w).job;
    assert LevelRead(c, o, j, g, j.lvl);
    forall l | r.lvl <= l <= r.maxLevel ensures LevelRead(c, o, r, next, l) {
      if l > r.lvl {
        assert LevelRead(c, o, j, g, l);
      }
    }
    forall p ensures ReadBalance(t, r, next, p) {
      DescendBalance(t, j, r, g, next, p);
    }
  }

  /** At the current level the path has no further node. */
  ghost predicate NextIsMissing(c: Codec, o: World, t: Tree, w: World, g: Ghost)
  {
    && ReadingInv(c, o, t, w, g)
    && (w.job.lvl > 1 ==> w.job.t1[w.job.lvl][ChildIndex(w.job.vba, w.job.lvl, w.job.edges)].pba == 0)
  }

  lemma WholePosition(c: Codec, o: World, t: Tree, w: World, g: Ghost)
    requires ReadingInv(c, o, t, w, g)
    ensures Position(g.path, w.job.maxLevel, w.job.edges) == w.job.nrLeaves
  {
    var j := w.job;
    assert LevelRead(c, o, j, g, j.maxLevel);
    PackedCount(t, j.maxLevel, Position(g.path, j.maxLevel, j.edges), j.edges);
    PackedCount(t, j.maxLevel, j.nrLeaves, j.edges);
  }

  lemma {:induction false} AboveCounts(pbas: seq<U64>, base: seq<Tree>, path: seq<nat>, edges: nat, l: nat, x: nat, top: nat, p: U64)
    requires 1 <= l <= x <= top && top < |pbas| && top < |base| && top <= |path| && ValidDegree(edges)
    ensures Off(base[x], path[x - 1], edges, p) + (if pbas[x] == p then 1 else 0) <= Above(pbas, base, path, edges, l, top, p)
    decreases x - l
  {
    if l < x {
      AboveCounts(pbas, base, path, edges, l + 1, x, top, p);
    }
  }

  lemma PathNodeUsed(c: Codec, o: World, t: Tree, w: World, g: Ghost, l: nat)
    requires ReadingInv(c, o, t, w, g) && w.job.lvl <= l <= w.job.maxLevel
    ensures Uses(t, w.job.edges, Every, w.job.oldPbas[l]) >= 1
  {
    var p := w.job.oldPbas[l];
    assert LevelRead(c, o, w.job, g, l);
    assert ReadBalance(t, w.job, g, p);
    if l > w.job.lvl {
      AboveCounts(w.job.oldPbas, g.base, g.path, w.job.edges, w.job.lvl + 1, l, w.job.maxLevel, p);
    }
  }
}
