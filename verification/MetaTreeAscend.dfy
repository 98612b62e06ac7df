/** Leaving a finished node keeps the invariant, or completes the request. */
module MetaTreeAscend {
  import opened NodeCodec
  import opened HashTree
  import opened MetaTreeSpec
  import opened MetaTreeInv
  import opened MetaTreeSteps

  predicate Finished(m: Mt, low: nat)
    requires Geometry(m) && 1 <= low < NR_OF_LEVELS
  {
    StateAt(m, low) == WriteComplete || StateAt(m, low) == Complete
  }

  ghost predicate LeavesNode(c: Codec, disk: Disk, m: Mt, g: Ghost, t: Tree)
  {
    Inv(c, disk, m, g, t) && Finished(m, g.low)
  }

  /** The entry under which the node under work is stored. */
  ghost function LowEntry(c: Codec, m: Mt, g: Ghost): T1
    requires Sized(m, g)
  {
    if StateAt(m, g.low) == WriteComplete then WrittenEntry(c, m, g.low)
    else if g.orig[g.low].Nil? then T1_INVALID else g.orig[g.low].node
  }

  /** The finished subtree. */
  ghost function LowTree(c: Codec, m: Mt, g: Ghost): Tree
    requires Sized(m, g)
  {
    if g.low == 1 then Leafs(LowEntry(c, m, g), m.level1.entries)
    else Inner(LowEntry(c, m, g), m.levels[g.low].entries, g.kids[g.low])
  }

  lemma {:induction false} NoneUsableLeafs(n: T1, ls: T2Block, edges: nat, gen: U64)
    requires ValidDegree(edges) && NoneUsableIn(ls[..edges], gen)
    ensures NoneUsable(Leafs(n, ls), edges, gen)
  {
    forall p ensures Uses(Leafs(n, ls), edges, UsableIn(gen), p) == 0 {
      EntriesUsesZero(ls[..edges], UsableIn(gen), p);
    }
  }

  /** A node whose scan stopped with the request unserved has no usable entry left. */
  lemma NoneUsableInner(c: Codec, disk: Disk, f: T1Info, o: Tree, ks: seq<Tree>, l: nat, edges: nat, gen: U64,
                        untouched: bool, n: T1, es: T1Block)
    requires ValidDegree(edges) && l >= FIRST_N && f.state != Read && f.state != ReadComplete
    requires Frame(c, disk, f, o, ks, l, edges, gen, false, untouched, true) && GapFree(o)
    ensures NoneUsable(Inner(n, es, ks), edges, gen)
  {
    if f.index < edges {
      StopIsNil(c, disk, f, o, ks, l, edges, gen);
    }
    forall i | 0 <= i < edges ensures NoneUsable(ks[i], edges, gen) {
      if f.index <= i {
        NilBehindNil(o, f.index, i);
      }
    }
    NoneUsableKids(n, es, ks, edges, gen);
  }

  /** An invalid entry describes no subtree. */
  lemma InvalidIsNil(c: Codec, disk: Disk, k: Tree, level: nat, edges: nat)
    requires ValidDegree(edges) && EntryOf(T1_INVALID, k) && Stored(c, disk, k, level, edges)
    ensures k.Nil?
  {
  }

  /** The used children of a gap-free node come first. */
  lemma NilBehindNil(o: Tree, i: nat, j: nat)
    requires o.Inner? && GapFree(o) && i <= j < |o.kids| && o.kids[i].Nil?
    ensures o.kids[j].Nil?
  {
  }

  /** Where the scan stopped there is no subtree, and none has been changed from there on. */
  lemma StopIsNil(c: Codec, disk: Disk, f: T1Info, o: Tree, ks: seq<Tree>, l: nat, edges: nat, gen: U64)
    requires ValidDegree(edges) && l >= FIRST_N && o.Inner? && |o.kids| == |ks| == edges && f.index < edges
    requires KidsOk(c, disk, f, o, ks, l, edges, gen, false) && Stopped(f, edges)
    ensures ks[f.index].Nil? && forall i | f.index <= i < edges :: ks[i] == o.kids[i]
  {
    InvalidIsNil(c, disk, ks[f.index], l - 1, edges);
  }

  lemma NoneUsableKids(n: T1, es: T1Block, ks: seq<Tree>, edges: nat, gen: U64)
    requires ValidDegree(edges) && |ks| == edges && forall i | 0 <= i < edges :: NoneUsable(ks[i], edges, gen)
    ensures NoneUsable(Inner(n, es, ks), edges, gen)
  {
    forall p ensures Uses(Inner(n, es, ks), edges, UsableIn(gen), p) == 0 {
      forall i | 0 <= i < |ks| ensures Uses(ks[i], edges, UsableIn(gen), p) == 0 {
        assert NoneUsable(ks[i], edges, gen);
      }
      SumUsesZero(ks, edges, UsableIn(gen), p);
    }
  }

  lemma LowIsActive(c: Codec, disk: Disk, m: Mt, g: Ghost, t: Tree)
    requires Inv(c, disk, m, g, t)
    ensures !g.orig[g.low].Nil?
    ensures g.low >= FIRST_N ==> FrameAt(c, disk, m, g, g.low) && g.orig[g.low].Inner?
    ensures g.low == 1 ==> g.orig[g.low].Leafs?
  {
    if g.low >= FIRST_N {
      assert FrameAt(c, disk, m, g, g.low);
    }
  }

  /** The finished subtree is stored, has kept its shape, and is exhausted if the
      request is still unserved. */
  lemma FinishedLow1(c: Codec, disk: Disk, m: Mt, g: Ghost, t: Tree)
    requires LeavesNode(c, disk, m, g, t) && g.low == 1 && g.orig[1].Leafs?
    ensures var u := LowTree(c, m, g);
            && Stored(c, disk, u, 1, m.edges) && Renewed(g.orig[1], u, m.edges, m.gen)
            && (m.level1.state == Complete ==> u == g.orig[1])
            && (!m.finished ==> NoneUsable(u, m.edges, m.gen))
  {
    if m.level1.state == Complete {
      RenewedRefl(g.orig[1], m.edges, m.gen);
    }
    if !m.finished {
      NoneUsableLeafs(LowEntry(c, m, g), m.level1.entries, m.edges, m.gen);
    }
  }

  lemma FinishedLowN(c: Codec, disk: Disk, m: Mt, g: Ghost, t: Tree)
    requires LeavesNode(c, disk, m, g, t) && g.low >= FIRST_N && g.orig[g.low].Inner?
    ensures var u := LowTree(c, m, g);
            && Stored(c, disk, u, g.low, m.edges) && Renewed(g.orig[g.low], u, m.edges, m.gen)
            && (m.levels[g.low].state == Complete ==> u == g.orig[g.low])
            && (!m.finished && GapFree(g.orig[g.low]) ==> NoneUsable(u, m.edges, m.gen))
  {
    var f, o, ks := m.levels[g.low], g.orig[g.low], g.kids[g.low];
    assert FrameAt(c, disk, m, g, g.low);
    if f.state == Complete {
      assert Unmodified(m, g.low, g.low);
      assert ks == o.kids;
    }
    if !m.finished && GapFree(o) {
      NoneUsableInner(c, disk, f, o, ks, g.low, m.edges, m.gen, Unmodified(m, g.low, g.low), LowEntry(c, m, g), f.entries);
    }
  }

  // ------------------------------------------------------- back to the parent node

  /** The finished child u takes the place of the hole. */
  lemma AscendFrame(c: Codec, disk: Disk, f: T1Info, o: Tree, ks: seq<Tree>, l: nat, edges: nat, gen: U64,
                    untouched: bool, unserved: bool, u: Tree, untouched': bool)
    requires ValidDegree(edges) && l >= FIRST_N && f.state == ReadComplete
    requires Frame(c, disk, f, o, ks, l, edges, gen, true, untouched, unserved)
    requires f.index < edges && EntryOf(f.entries[f.index], u) && Stored(c, disk, u, l - 1, edges)
    requires Renewed(o.kids[f.index], u, edges, gen)
    requires untouched' ==> untouched && u == o.kids[f.index]
    requires unserved && GapFree(o) ==> NoneUsable(u, edges, gen)
    ensures Frame(c, disk, f.(index := f.index + 1), o, ks[f.index := u], l, edges, gen, false, untouched', unserved)
  {
    var f', ks' := f.(index := f.index + 1), ks[f.index := u];
    forall i | 0 <= i < edges
      ensures EntryOf(f'.entries[i], ks'[i]) && Stored(c, disk, ks'[i], l - 1, edges)
      ensures Renewed(o.kids[i], ks'[i], edges, gen) && (f'.index <= i ==> ks'[i] == o.kids[i])
    {
    }
    if untouched' {
      forall i | 0 <= i < edges ensures ks'[i] == o.kids[i] {
        assert i != f.index ==> ks[i] == o.kids[i];
      }
    }
  }

  /** m' and g' are the states after returning to the parent of the finished subtree u. */
  ghost predicate AscendsTo(m: Mt, m': Mt, g: Ghost, g': Ghost, u: Tree)
    requires Sized(m, g)
  {
    var l := g.low + 1;
    && l <= m.maxLevel && Finished(m, g.low)
    && |g.kids[l]| == m.edges && m.levels[l].index < m.edges && !u.Nil?
    && g' == Ghost(l, g.orig, g.kids[l := g.kids[l][m.levels[l].index := u]])
    && var up := AdvanceIndex(m, l);
       m' == (if g.low == 1 then up.(level1 := m.level1.(state := Invalid))
              else up.(levels := up.levels[g.low := m.levels[g.low].(state := Invalid)]))
  }

  lemma AscendUnmodified(c: Codec, m: Mt, m': Mt, g: Ghost, g': Ghost, u: Tree, l: nat)
    requires Sized(m, g) && AscendsTo(m, m', g, g', u) && NodeStates(m, g.low) && LinkAt(c, m, g, g.low + 1)
    requires g.low < l <= m.maxLevel && Unmodified(m', g.low + 1, l)
    ensures Unmodified(m, g.low, l) && StateAt(m, g.low) == Complete
  {
    assert !m'.levels[g.low + 1].dirty;
    forall k | FIRST_N <= k <= l && g.low <= k ensures !m.levels[k].dirty {
      assert k > g.low ==> !m'.levels[k].dirty;
    }
  }

  /** What is known about a finished subtree. */
  ghost predicate FinishedTree(c: Codec, disk: Disk, m: Mt, g: Ghost, u: Tree)
    requires Sized(m, g)
  {
    && !u.Nil? && u.node == LowEntry(c, m, g)
    && Stored(c, disk, u, g.low, m.edges)
    && Renewed(g.orig[g.low], u, m.edges, m.gen)
    && (StateAt(m, g.low) == Complete ==> u == g.orig[g.low])
    && (!m.finished && GapFree(g.orig[g.low]) ==> NoneUsable(u, m.edges, m.gen))
  }

  lemma AscendShape(m: Mt, m': Mt, g: Ghost, g': Ghost, u: Tree)
    requires Sized(m, g) && AscendsTo(m, m', g, g', u)
    ensures var l := g.low + 1;
            && Sized(m', g') && m'.edges == m.edges && m'.gen == m.gen && m'.finished == m.finished
            && m'.levels[l] == m.levels[l].(index := m.levels[l].index + 1)
            && g'.orig == g.orig && g'.kids[l] == g.kids[l][m.levels[l].index := u]
  {
  }

  lemma AscendKeepsParentFrame(c: Codec, disk: Disk, m: Mt, m': Mt, g: Ghost, g': Ghost, u: Tree)
    requires Sized(m, g) && AscendsTo(m, m', g, g', u) && NodeStates(m, g.low) && LinkAt(c, m, g, g.low + 1)
    requires FinishedTree(c, disk, m, g, u) && FrameAt(c, disk, m, g, g.low + 1)
    ensures Sized(m', g') && FrameAt(c, disk, m', g', g.low + 1)
  {
    var l := g.low + 1;
    AscendShape(m, m', g, g', u);
    var untouched, untouched' := Unmodified(m, g.low, l), Unmodified(m', g'.low, l);
    if untouched' {
      AscendUnmodified(c, m, m', g, g', u, l);
    }
    AscendFrame(c, disk, m.levels[l], g.orig[l], g.kids[l], l, m.edges, m.gen, untouched, !m.finished, u, untouched');
  }

  lemma AscendKeepsUpperFrame(c: Codec, disk: Disk, m: Mt, m': Mt, g: Ghost, g': Ghost, u: Tree, l: nat)
    requires Sized(m, g) && AscendsTo(m, m', g, g', u) && NodeStates(m, g.low) && LinkAt(c, m, g, g.low + 1)
    requires g.low + 1 < l <= m.maxLevel && FrameAt(c, disk, m, g, l)
    ensures Sized(m', g') && FrameAt(c, disk, m', g', l)
  {
    var untouched, untouched' := Unmodified(m, g.low, l), Unmodified(m', g'.low, l);
    if untouched' {
      AscendUnmodified(c, m, m', g, g', u, l);
    }
    FrameStays(c, disk, m.levels[l], g.orig[l], g.kids[l], l, m.edges, m.gen, true, untouched, !m.finished, untouched', !m.finished);
  }

  lemma AscendKeepsFrames(c: Codec, disk: Disk, m: Mt, m': Mt, g: Ghost, g': Ghost, u: Tree)
    requires Sized(m, g) && AscendsTo(m, m', g, g', u) && NodeStates(m, g.low) && Frames(c, disk, m, g)
    requires LinkAt(c, m, g, g.low + 1) && FinishedTree(c, disk, m, g, u)
    ensures Sized(m', g') && NodeStates(m', g'.low) && Frames(c, disk, m', g')
  {
    forall l | FIRST_N <= l <= m.maxLevel && g'.low <= l ensures FrameAt(c, disk, m', g', l) {
      assert FrameAt(c, disk, m, g, l);
      if l == g.low + 1 {
        AscendKeepsParentFrame(c, disk, m, m', g, g', u);
      } else {
        AscendKeepsUpperFrame(c, disk, m, m', g, g', u, l);
      }
    }
  }

  lemma AscendKeepsLinks(c: Codec, disk: Disk, m: Mt, m': Mt, g: Ghost, g': Ghost, u: Tree)
    requires Sized(m, g) && AscendsTo(m, m', g, g', u) && NodeStates(m, g.low) && Links(c, disk, m, g)
    ensures Links(c, disk, m', g')
  {
    forall l | FIRST_N <= l <= m.maxLevel && g'.low < l ensures LinkAt(c, m', g', l) {
      assert LinkAt(c, m, g, l);
    }
  }

  /** The finished subtree holds what its frame held. */
  lemma LowTreeUses(c: Codec, m: Mt, g: Ghost, u: Tree, w: Which, p: U64)
    requires Sized(m, g) && (g.low == 1 ==> g.orig[1].Leafs?) && Finished(m, g.low)
    requires SameAddresses(m, g, u)
    ensures Uses(u, m.edges, w, p) + PathUses(m.levels, g.kids, m.edges, g.low + 1, m.maxLevel, w, p) == Total(m, g, w, p)
  {
  }

  lemma FilledFrameUses(f: T1Info, f': T1Info, ks: seq<Tree>, i: nat, u: Tree, edges: nat, w: Which, p: U64)
    requires ValidDegree(edges) && i < |ks| && ks[i].Nil? && f'.node == f.node
    ensures FrameUses(f', ks[i := u], edges, w, p) == FrameUses(f, ks, edges, w, p) + Uses(u, edges, w, p)
  {
    SumUsesUpdate(ks, i, u, edges, w, p);
  }

  /** Putting the finished subtree into the hole of its parent. */
  lemma FilledHoleUses(m: Mt, m': Mt, g: Ghost, g': Ghost, u: Tree, w: Which, p: U64)
    requires Sized(m, g) && AscendsTo(m, m', g, g', u) && g.kids[g.low + 1][m.levels[g.low + 1].index].Nil?
    ensures PathUses(m'.levels, g'.kids, m.edges, g.low + 1, m.maxLevel, w, p)
         == PathUses(m.levels, g.kids, m.edges, g.low + 1, m.maxLevel, w, p) + Uses(u, m.edges, w, p)
  {
    var q, i := g.low + 1, m.levels[g.low + 1].index;
    FilledFrameUses(m.levels[q], m'.levels[q], g.kids[q], i, u, m.edges, w, p);
    PathUsesFrame(m.levels, g.kids, m'.levels, g'.kids, m.edges, q + 1, m.maxLevel, w, p);
    PathUsesStep(m.levels, g.kids, m.edges, q, m.maxLevel, w, p);
    PathUsesStep(m'.levels, g'.kids, m.edges, q, m.maxLevel, w, p);
  }

  lemma PathUsesStep(ls: seq<T1Info>, ks: seq<seq<Tree>>, edges: nat, lo: nat, hi: nat, w: Which, p: U64)
    requires ValidDegree(edges) && lo <= hi < |ls| == |ks|
    ensures PathUses(ls, ks, edges, lo, hi, w, p) == FrameUses(ls[lo], ks[lo], edges, w, p) + PathUses(ls, ks, edges, lo + 1, hi, w, p)
  {
  }

  lemma AscendKeepsTotal(m: Mt, m': Mt, c: Codec, g: Ghost, g': Ghost, u: Tree, w: Which, p: U64)
    requires Sized(m, g) && AscendsTo(m, m', g, g', u) && (g.low == 1 ==> g.orig[1].Leafs?)
    requires g.kids[g.low + 1][m.levels[g.low + 1].index].Nil? && SameAddresses(m, g, u)
    ensures Total(m', g', w, p) == Total(m, g, w, p)
  {
    LowTreeUses(c, m, g, u, w, p);
    FilledHoleUses(m, m', g, g', u, w, p);
  }

  lemma AscendKeepsBalance(c: Codec, m: Mt, m': Mt, g: Ghost, g': Ghost, u: Tree, t: Tree, p: U64)
    requires Sized(m, g) && AscendsTo(m, m', g, g', u) && (g.low == 1 ==> g.orig[1].Leafs?) && Balanced(m, g, t, p)
    requires g.kids[g.low + 1][m.levels[g.low + 1].index].Nil? && SameAddresses(m, g, u)
    ensures Balanced(m', g', t, p)
  {
    AscendKeepsTotal(m, m', c, g, g', u, Every, p);
    AscendKeepsTotal(m, m', c, g, g', u, UsableIn(m.gen), p);
    AscendKeepsTotal(m, m', c, g, g', u, MovableIn(m.gen), p);
  }

  ghost predicate SameAddresses(m: Mt, g: Ghost, u: Tree)
    requires Sized(m, g)
  {
    if g.low == 1 then u.Leafs? && u.node.pba == m.level1.node.pba && u.leaves == m.level1.entries
    else u.Inner? && u.node.pba == m.levels[g.low].node.pba && u.kids == g.kids[g.low]
  }

  lemma FinishedLow(c: Codec, disk: Disk, m: Mt, g: Ghost, t: Tree)
    requires LeavesNode(c, disk, m, g, t)
    ensures var u := LowTree(c, m, g); FinishedTree(c, disk, m, g, u) && SameAddresses(m, g, u)
    ensures g.low == 1 ==> g.orig[1].Leafs?
  {
    LowIsActive(c, disk, m, g, t);
    if g.low == 1 {
      FinishedLow1(c, disk, m, g, t);
    } else {
      FinishedLowN(c, disk, m, g, t);
    }
  }

  lemma AscendEffect(c: Codec, disk: Disk, m: Mt, g: Ghost, t: Tree)
    requires LeavesNode(c, disk, m, g, t)
    ensures CanExecute(m) && Advance(c, m, disk).1 == disk
    ensures Advance(c, m, disk).0 ==
      (if g.low == 1 then AdvanceIndex(m, FIRST_N).(level1 := m.level1.(state := Invalid))
       else if g.low == m.maxLevel then m.(state := Done, levels := m.levels[g.low := m.levels[g.low].(state := Invalid)])
       else AdvanceIndex(m, g.low + 1).(levels := AdvanceIndex(m, g.low + 1).levels[g.low := m.levels[g.low].(state := Invalid)]))
  {
    InvCanExecute(c, disk, m, g, t);
    if g.low == 1 {
      Ascend1Effect(c, disk, m);
    } else {
      AscendNEffect(c, disk, m, g.low);
    }
  }

  lemma Ascend1Effect(c: Codec, disk: Disk, m: Mt)
    requires CanExecute(m) && m.state == Update && m.request == NoRequest
    requires m.level1.state == WriteComplete || m.level1.state == Complete
    ensures Advance(c, m, disk) == (AdvanceIndex(m, FIRST_N).(level1 := m.level1.(state := Invalid)), disk)
  {
  }

  lemma AscendNEffect(c: Codec, disk: Disk, m: Mt, l: nat)
    requires CanExecute(m) && m.state == Update && m.request == NoRequest && m.level1.state == Invalid
    requires l == FirstActive(m.levels, FIRST_N) < NR_OF_LEVELS && CanStepN(m, l)
    requires m.levels[l].state == WriteComplete || m.levels[l].state == Complete
    ensures Advance(c, m, disk) == (MetaTreeSpec.Ascend(m, l), disk)
  {
  }

  lemma AscendKeepsInv(c: Codec, disk: Disk, m: Mt, m': Mt, g: Ghost, g': Ghost, u: Tree, t: Tree)
    requires LeavesNode(c, disk, m, g, t) && AscendsTo(m, m', g, g', u)
    requires FinishedTree(c, disk, m, g, u) && SameAddresses(m, g, u) && (g.low == 1 ==> g.orig[1].Leafs?)
    ensures Inv(c, disk, m', g', t)
  {
    assert LinkAt(c, m, g, g.low + 1) && FrameAt(c, disk, m, g, g.low + 1);
    AscendKeepsFrames(c, disk, m, m', g, g', u);
    AscendKeepsLinks(c, disk, m, m', g, g', u);
    forall p ensures Balanced(m', g', t, p) {
      assert Balanced(m, g, t, p);
      AscendKeepsBalance(c, m, m', g, g', u, t, p);
    }
  }

  lemma Ascend(c: Codec, disk: Disk, m: Mt, g: Ghost, t: Tree) returns (g': Ghost)
    requires LeavesNode(c, disk, m, g, t) && g.low < m.maxLevel
    ensures CanExecute(m) && Advance(c, m, disk).1 == disk && Inv(c, disk, Advance(c, m, disk).0, g', t)
    ensures AscendsTo(m, Advance(c, m, disk).0, g, g', LowTree(c, m, g))
  {
    AscendEffect(c, disk, m, g, t);
    FinishedLow(c, disk, m, g, t);
    var l := g.low + 1;
    assert LinkAt(c, m, g, l) && FrameAt(c, disk, m, g, l);
    var u := LowTree(c, m, g);
    g' := Ghost(l, g.orig, g.kids[l := g.kids[l][m.levels[l].index := u]]);
    AscendKeepsInv(c, disk, m, Advance(c, m, disk).0, g, g', u, t);
  }

  // ---------------------------------------------------------- end of the request

  /** The result of a whole request on tree t: the new root, stored on the disk, is
      the root of tree u. */
  ghost predicate Outcome(c: Codec, disk: Disk, m: Mt, t: Tree, u: Tree)
  {
    && Geometry(m) && !u.Nil? && u.node == m.root
    && Stored(c, disk, u, m.maxLevel, m.edges)
    && Renewed(t, u, m.edges, m.gen)
    && m.success == m.finished
    && (forall p :: Uses(u, m.edges, Every, p) + Served(m, m.newPba, p) == Uses(t, m.edges, Every, p) + Served(m, m.oldPba, p))
    && (forall p :: Uses(u, m.edges, UsableIn(m.gen), p) + Served(m, m.newPba, p) <= Uses(t, m.edges, UsableIn(m.gen), p))
    && (forall p :: Uses(u, m.edges, MovableIn(m.gen), p) + Served(m, m.newPba, p) <= Uses(t, m.edges, MovableIn(m.gen), p))
    && (!m.success && GapFree(t) ==> NoneUsable(u, m.edges, m.gen))
  }

  lemma CompleteRequest(c: Codec, disk: Disk, m: Mt, g: Ghost, t: Tree)
    requires LeavesNode(c, disk, m, g, t) && g.low == m.maxLevel
    ensures CanExecute(m) && Advance(c, m, disk).1 == disk && Advance(c, m, disk).0.state == Done
    ensures Outcome(c, disk, Advance(c, m, disk).0, t, LowTree(c, m, g))
  {
    AscendEffect(c, disk, m, g, t);
    FinishedLow(c, disk, m, g, t);
    var u := LowTree(c, m, g);
    forall p
      ensures Uses(u, m.edges, Every, p) + Served(m, m.newPba, p) == Uses(t, m.edges, Every, p) + Served(m, m.oldPba, p)
      ensures Uses(u, m.edges, UsableIn(m.gen), p) + Served(m, m.newPba, p) <= Uses(t, m.edges, UsableIn(m.gen), p)
      ensures Uses(u, m.edges, MovableIn(m.gen), p) + Served(m, m.newPba, p) <= Uses(t, m.edges, MovableIn(m.gen), p)
    {
      assert Balanced(m, g, t, p);
      LowTreeUses(c, m, g, u, Every, p);
      LowTreeUses(c, m, g, u, UsableIn(m.gen), p);
      LowTreeUses(c, m, g, u, MovableIn(m.gen), p);
    }
  }
}
