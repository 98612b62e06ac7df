/** Entering the next child of a node keeps the invariant. */
module MetaTreeDescend {
  import opened NodeCodec
  import opened HashTree
  import opened MetaTreeSpec
  import opened MetaTreeInv
  import opened MetaTreeSteps

  ghost predicate Enters(c: Codec, disk: Disk, m: Mt, g: Ghost, t: Tree)
  {
    Inv(c, disk, m, g, t) && g.low >= FIRST_N && m.levels[g.low].state == ReadComplete && HasNextChild(m, g.low)
  }

  /** k is the child that is entered; g' is the proof state after entering it. */
  ghost predicate EntersInto(m: Mt, m': Mt, g: Ghost, g': Ghost, k: Tree)
    requires Sized(m, g) && g.low >= FIRST_N
  {
    var l, i := g.low, m.levels[g.low].index;
    && i < m.edges && CanStepN(m, l) && m' == Descend(m, l)
    && !k.Nil? && k.node == m.levels[l].entries[i] && k.node.pba != 0
    && |g.kids[l]| == m.edges && g.kids[l][i] == k
    && g.orig[l].Inner? && |g.orig[l].kids| == m.edges && g.orig[l].kids[i] == k
    && (if l == FIRST_N then k.Leafs? else k.Inner? && |k.kids| == m.edges)
    && g'.low == l - 1
    && g'.orig == g.orig[l - 1 := k]
    && g'.kids == (if k.Inner? then g.kids[l := g.kids[l][i := Nil]][l - 1 := k.kids] else g.kids[l := g.kids[l][i := Nil]])
  }

  /** The child that is entered is still the original, stored subtree. */
  lemma EnteredFrame(c: Codec, disk: Disk, f: T1Info, o: Tree, ks: seq<Tree>, l: nat, edges: nat, gen: U64,
                     untouched: bool, unserved: bool)
    requires ValidDegree(edges) && l >= FIRST_N && f.state == ReadComplete
    requires Frame(c, disk, f, o, ks, l, edges, gen, false, untouched, unserved)
    requires f.index < edges && f.entries[f.index] != T1_INVALID
    ensures Frame(c, disk, f, o, ks[f.index := Nil], l, edges, gen, true, untouched, unserved)
    ensures var k := o.kids[f.index];
            && ks[f.index] == k && !k.Nil? && k.node == f.entries[f.index] && k.node.pba != 0
            && Stored(c, disk, k, l - 1, edges)
            && (if l == FIRST_N then k.Leafs? else k.Inner? && |k.kids| == edges)
  {
    assert EntryOf(f.entries[f.index], ks[f.index]) && ks[f.index] == o.kids[f.index];
    assert Stored(c, disk, ks[f.index], l - 1, edges);
  }

  lemma EnterKeepsFrames(c: Codec, disk: Disk, m: Mt, m': Mt, g: Ghost, g': Ghost, k: Tree)
    requires Sized(m, g) && g.low >= FIRST_N && NodeStates(m, g.low) && Frames(c, disk, m, g)
    requires EntersInto(m, m', g, g', k) && Stored(c, disk, k, g.low - 1, m.edges)
    requires m.levels[g.low].state == ReadComplete
    requires Frame(c, disk, m.levels[g.low], g.orig[g.low], g'.kids[g.low], g.low, m.edges, m.gen, true,
                   Unmodified(m, g.low, g.low), !m.finished)
    ensures Sized(m', g') && NodeStates(m', g'.low) && Frames(c, disk, m', g')
  {
    forall l | FIRST_N <= l <= m.maxLevel && g'.low <= l ensures FrameAt(c, disk, m', g', l) {
      if l >= g.low {
        UnmodifiedStays(m, m', g.low, g'.low, l);
        assert l > g.low ==> FrameAt(c, disk, m, g, l);
        FrameStays(c, disk, m.levels[l], g.orig[l], g'.kids[l], l, m.edges, m.gen, true,
                   Unmodified(m, g.low, l), !m.finished, Unmodified(m', g'.low, l), !m.finished);
      }
    }
  }

  lemma EnterKeepsLinks(c: Codec, disk: Disk, m: Mt, m': Mt, g: Ghost, g': Ghost, k: Tree)
    requires Sized(m, g) && g.low >= FIRST_N && NodeStates(m, g.low) && Links(c, disk, m, g)
    requires EntersInto(m, m', g, g', k)
    requires m.levels[g.low].state == ReadComplete
    ensures Links(c, disk, m', g')
  {
    forall l | FIRST_N <= l <= m.maxLevel && g'.low < l ensures LinkAt(c, m', g', l) {
      if l > g.low {
        assert LinkAt(c, m, g, l);
      }
    }
  }

  lemma EnterKeepsTotal(m: Mt, m': Mt, g: Ghost, g': Ghost, k: Tree, w: Which, p: U64)
    requires Sized(m, g) && g.low >= FIRST_N && EntersInto(m, m', g, g', k)
    ensures Total(m', g', w, p) == Total(m, g, w, p)
  {
    var l, i := g.low, m.levels[g.low].index;
    SumUsesUpdate(g.kids[l], i, Nil, m.edges, w, p);
    PathUsesFrame(m.levels, g.kids, m'.levels, g'.kids, m.edges, l + 1, m.maxLevel, w, p);
    assert PathUses(m'.levels, g'.kids, m.edges, l, m.maxLevel, w, p) + Uses(k, m.edges, w, p)
        == PathUses(m.levels, g.kids, m.edges, l, m.maxLevel, w, p);
    assert g'.low == 1 ==> Level1Uses(m'.level1, g'.orig[1], m.edges, w, p) == Uses(k, m.edges, w, p);
    assert g'.low > 1 ==> FrameUses(m'.levels[l - 1], g'.kids[l - 1], m.edges, w, p) == Uses(k, m.edges, w, p);
  }

  lemma EnterKeepsBalance(m: Mt, m': Mt, g: Ghost, g': Ghost, k: Tree, t: Tree, p: U64)
    requires Sized(m, g) && g.low >= FIRST_N && EntersInto(m, m', g, g', k) && Balanced(m, g, t, p)
    ensures Balanced(m', g', t, p)
  {
    EnterKeepsTotal(m, m', g, g', k, Every, p);
    EnterKeepsTotal(m, m', g, g', k, UsableIn(m.gen), p);
    EnterKeepsTotal(m, m', g, g', k, MovableIn(m.gen), p);
  }

  lemma Enter(c: Codec, disk: Disk, m: Mt, g: Ghost, t: Tree) returns (g': Ghost)
    requires Enters(c, disk, m, g, t)
    ensures CanExecute(m) && Advance(c, m, disk).1 == disk && Inv(c, disk, Advance(c, m, disk).0, g', t)
    ensures exists k :: EntersInto(m, Advance(c, m, disk).0, g, g', k)
  {
    InvCanExecute(c, disk, m, g, t);
    var l, i := g.low, m.levels[g.low].index;
    assert FrameAt(c, disk, m, g, l);
    EnteredFrame(c, disk, m.levels[l], g.orig[l], g.kids[l], l, m.edges, m.gen, Unmodified(m, l, l), true);
    var k := g.orig[l].kids[i];
    var kids := g.kids[l := g.kids[l][i := Nil]];
    g' := Ghost(l - 1, g.orig[l - 1 := k], if k.Inner? then kids[l - 1 := k.kids] else kids);
    var m' := Descend(m, l);
    assert EntersInto(m, m', g, g', k);
    EnterKeepsFrames(c, disk, m, m', g, g', k);
    EnterKeepsLinks(c, disk, m, m', g, g', k);
    forall p ensures Balanced(m', g', t, p) {
      assert Balanced(m, g, t, p);
      EnterKeepsBalance(m, m', g, g', k, t, p);
    }
  }
}
