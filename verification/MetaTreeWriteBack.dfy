/** Writing a changed node back keeps the invariant. */
module MetaTreeWriteBack {
  import opened NodeCodec
  import opened HashTree
  import opened MetaTreeSpec
  import opened MetaTreeInv
  import opened MetaTreeSteps

  function LowNode(m: Mt, low: nat): T1
    requires Geometry(m) && 1 <= low < NR_OF_LEVELS
  {
    if low == 1 then m.level1.node else m.levels[low].node
  }

  function LowBlock(c: Codec, m: Mt, low: nat): Block
    requires Geometry(m) && 1 <= low < NR_OF_LEVELS
  {
    if low == 1 then c.enc2(m.level1.entries) else c.enc1(m.levels[low].entries)
  }

  ghost predicate WritesBack(c: Codec, disk: Disk, m: Mt, g: Ghost, t: Tree)
  {
    Inv(c, disk, m, g, t) && StateAt(m, g.low) == Write
  }

  /** The parent of the written node after the round. */
  function UpdatedParent(c: Codec, m: Mt, low: nat): T1Info
    requires Geometry(m) && 1 <= low < m.maxLevel && m.levels[low + 1].index < NODES_PER_BLOCK
  {
    var f := m.levels[low + 1];
    f.(entries := f.entries[f.index := ParentEntry(c, m, LowNode(m, low).pba, LowBlock(c, m, low))], dirty := true)
  }

  /** The state after a write back round. */
  function WrittenBack(c: Codec, m: Mt, low: nat): Mt
    requires Geometry(m) && 1 <= low <= m.maxLevel
    requires low < m.maxLevel ==> m.levels[low + 1].index < NODES_PER_BLOCK
  {
    var m1 := if low < m.maxLevel then m.(levels := m.levels[low + 1 := UpdatedParent(c, m, low)])
              else m.(root := ParentEntry(c, m, LowNode(m, low).pba, LowBlock(c, m, low)), rootDirty := true);
    if low == 1 then m1.(level1 := m1.level1.(state := WriteComplete))
    else m1.(levels := m1.levels[low := m1.levels[low].(state := WriteComplete)])
  }

  lemma WriteBackEffect(c: Codec, disk: Disk, m: Mt, g: Ghost, t: Tree)
    requires WritesBack(c, disk, m, g, t)
    ensures g.low < m.maxLevel ==> m.levels[g.low + 1].index < NODES_PER_BLOCK
    ensures CanExecute(m)
    ensures Advance(c, m, disk) == (WrittenBack(c, m, g.low), disk[LowNode(m, g.low).pba := LowBlock(c, m, g.low)])
  {
    InvCanExecute(c, disk, m, g, t);
    if g.low < m.maxLevel {
      assert LinkAt(c, m, g, g.low + 1);
    }
    if g.low == 1 {
      WriteBack1Effect(c, disk, m);
    } else {
      WriteBackNEffect(c, disk, m, g.low);
    }
  }

  lemma WriteBack1Effect(c: Codec, disk: Disk, m: Mt)
    requires CanExecute(m) && m.state == Update && m.request == NoRequest && m.level1.state == Write
    ensures Advance(c, m, disk) == (WrittenBack(c, m, 1), disk[m.level1.node.pba := c.enc2(m.level1.entries)])
  {
  }

  lemma WriteBackNEffect(c: Codec, disk: Disk, m: Mt, l: nat)
    requires CanExecute(m) && m.state == Update && m.request == NoRequest && m.level1.state == Invalid
    requires l == FirstActive(m.levels, FIRST_N) < NR_OF_LEVELS && CanStepN(m, l) && m.levels[l].state == Write
    ensures Advance(c, m, disk) == (WrittenBack(c, m, l), disk[m.levels[l].node.pba := c.enc1(m.levels[l].entries)])
  {
  }

  /** The written address is held by the written node and nowhere else. */
  lemma WrittenAddressIsOwn(m: Mt, g: Ghost, t: Tree, p: U64)
    requires Sized(m, g) && (g.low == 1 ==> g.orig[1].Leafs?) && Balanced(m, g, t, p) && p == LowNode(m, g.low).pba
    ensures forall l | FIRST_N <= l <= m.maxLevel && g.low < l :: FrameUses(m.levels[l], g.kids[l], m.edges, Every, p) == 0
    ensures g.low >= FIRST_N ==> SumUses(g.kids[g.low], m.edges, Every, p) == 0
  {
    var lo := if g.low == 1 then FIRST_N else g.low;
    assert Total(m, g, Every, p) <= 1;
    forall l | FIRST_N <= l <= m.maxLevel && g.low < l ensures FrameUses(m.levels[l], g.kids[l], m.edges, Every, p) == 0 {
      PathUsesMember(m.levels, g.kids, m.edges, lo, l, m.maxLevel, Every, p);
    }
    if g.low >= FIRST_N {
      PathUsesMember(m.levels, g.kids, m.edges, lo, g.low, m.maxLevel, Every, p);
    }
  }

  /** The entry of the subtree under work does not matter to a changed frame. */
  lemma FrameStaysOnUpdate(c: Codec, disk: Disk, f: T1Info, o: Tree, ks: seq<Tree>, l: nat, edges: nat, gen: U64,
                           unserved: bool, e: T1)
    requires ValidDegree(edges) && l >= FIRST_N && f.state == ReadComplete && f.index < NODES_PER_BLOCK
    requires Frame(c, disk, f, o, ks, l, edges, gen, true, false, unserved)
    ensures Frame(c, disk, f.(entries := f.entries[f.index := e], dirty := true), o, ks, l, edges, gen, true, false, unserved)
  {
    var f' := f.(entries := f.entries[f.index := e], dirty := true);
    forall i | 0 <= i < edges && i != f.index
      ensures EntryOf(f'.entries[i], ks[i])
    {
      assert EntryOf(f.entries[i], ks[i]);
    }
  }

  /** The frame of a written inner node. */
  lemma WrittenFrame(c: Codec, disk: Disk, f: T1Info, o: Tree, ks: seq<Tree>, l: nat, edges: nat, gen: U64,
                     untouched: bool, unserved: bool, b: Block)
    requires ValidDegree(edges) && l >= FIRST_N && f.state == Write && SumUses(ks, edges, Every, f.node.pba) == 0
    requires Frame(c, disk, f, o, ks, l, edges, gen, false, untouched, unserved)
    ensures Frame(c, disk[f.node.pba := b], f.(state := WriteComplete), o, ks, l, edges, gen, false, false, unserved)
  {
    var p := f.node.pba;
    forall i | 0 <= i < edges ensures Stored(c, disk[p := b], ks[i], l - 1, edges) {
      SumUsesUpdate(ks, i, Nil, edges, Every, p);
      StoredFrame(c, disk, ks[i], l - 1, edges, p, b);
    }
  }

  /** The frame of the written node. */
  lemma WriteBackKeepsLow(c: Codec, disk: Disk, m: Mt, g: Ghost, t: Tree)
    requires WritesBack(c, disk, m, g, t) && g.low >= FIRST_N
    requires g.low < m.maxLevel ==> m.levels[g.low + 1].index < NODES_PER_BLOCK
    ensures FrameAt(c, disk[LowNode(m, g.low).pba := LowBlock(c, m, g.low)], WrittenBack(c, m, g.low), g, g.low)
  {
    var l := g.low;
    assert FrameAt(c, disk, m, g, l);
    assert Balanced(m, g, t, LowNode(m, l).pba);
    WrittenAddressIsOwn(m, g, t, LowNode(m, l).pba);
    WriteBackModifies(c, m, g, l);
    WrittenFrame(c, disk, m.levels[l], g.orig[l], g.kids[l], l, m.edges, m.gen, Unmodified(m, l, l), !m.finished, LowBlock(c, m, l));
  }

  /** A written node is a changed node. */
  lemma WriteBackModifies(c: Codec, m: Mt, g: Ghost, l: nat)
    requires Sized(m, g) && NodeStates(m, g.low) && StateAt(m, g.low) == Write && g.low <= l <= m.maxLevel
    requires g.low < m.maxLevel ==> m.levels[g.low + 1].index < NODES_PER_BLOCK
    ensures !Unmodified(WrittenBack(c, m, g.low), g.low, l)
  {
    if g.low >= FIRST_N {
      assert WrittenBack(c, m, g.low).levels[g.low].dirty;
    }
  }

  /** The frames above, of which the lowest one gets the new entry. */
  lemma WriteBackKeepsUpper(c: Codec, disk: Disk, m: Mt, g: Ghost, t: Tree, l: nat)
    requires WritesBack(c, disk, m, g, t) && FIRST_N <= l <= m.maxLevel && g.low < l
    requires g.low < m.maxLevel ==> m.levels[g.low + 1].index < NODES_PER_BLOCK
    ensures FrameAt(c, disk[LowNode(m, g.low).pba := LowBlock(c, m, g.low)], WrittenBack(c, m, g.low), g, l)
  {
    var p, b, unserved := LowNode(m, g.low).pba, LowBlock(c, m, g.low), !m.finished;
    assert FrameAt(c, disk, m, g, l);
    assert Balanced(m, g, t, p);
    WrittenAddressIsOwn(m, g, t, p);
    WriteBackModifies(c, m, g, l);
    UpperAfterWrite(c, disk, m.levels[l], g.orig[l], g.kids[l], l, m.edges, m.gen, Unmodified(m, g.low, l), unserved, p, b);
    if l == g.low + 1 {
      FrameStaysOnUpdate(c, disk[p := b], m.levels[l], g.orig[l], g.kids[l], l, m.edges, m.gen, unserved, ParentEntry(c, m, p, b));
    }
  }

  lemma UpperAfterWrite(c: Codec, disk: Disk, f: T1Info, o: Tree, ks: seq<Tree>, l: nat, edges: nat, gen: U64,
                        untouched: bool, unserved: bool, p: U64, b: Block)
    requires ValidDegree(edges) && l >= FIRST_N && f.state == ReadComplete && FrameUses(f, ks, edges, Every, p) == 0
    requires Frame(c, disk, f, o, ks, l, edges, gen, true, untouched, unserved)
    ensures Frame(c, disk[p := b], f, o, ks, l, edges, gen, true, false, unserved)
  {
    FrameStaysOnWrite(c, disk, f, o, ks, l, edges, gen, true, untouched, unserved, p, b);
    FrameStays(c, disk[p := b], f, o, ks, l, edges, gen, true, untouched, unserved, false, unserved);
  }

  lemma WriteBackKeepsLinks(c: Codec, disk: Disk, m: Mt, g: Ghost, t: Tree)
    requires WritesBack(c, disk, m, g, t)
    requires g.low < m.maxLevel ==> m.levels[g.low + 1].index < NODES_PER_BLOCK
    ensures Links(c, disk[LowNode(m, g.low).pba := LowBlock(c, m, g.low)], WrittenBack(c, m, g.low), g)
  {
    var m' := WrittenBack(c, m, g.low);
    forall l | FIRST_N <= l <= m.maxLevel && g.low < l ensures LinkAt(c, m', g, l) {
      WriteBackKeepsLink(c, disk, m, g, t, l);
    }
  }

  lemma WriteBackKeepsLink(c: Codec, disk: Disk, m: Mt, g: Ghost, t: Tree, l: nat)
    requires WritesBack(c, disk, m, g, t) && FIRST_N <= l <= m.maxLevel && g.low < l
    requires g.low < m.maxLevel ==> m.levels[g.low + 1].index < NODES_PER_BLOCK
    ensures LinkAt(c, WrittenBack(c, m, g.low), g, l)
  {
    var m' := WrittenBack(c, m, g.low);
    assert LinkAt(c, m, g, l);
    if l == g.low + 1 {
      assert m'.levels[l] == UpdatedParent(c, m, g.low) && StateAt(m', g.low) == WriteComplete;
      assert WrittenEntry(c, m', g.low) == ParentEntry(c, m, LowNode(m, g.low).pba, LowBlock(c, m, g.low));
    } else {
      assert m'.levels[l] == m.levels[l] && StateAt(m', l - 1) == StateAt(m, l - 1) == ReadComplete;
    }
  }

  lemma WriteBackKeepsBalance(c: Codec, m: Mt, g: Ghost, t: Tree, p: U64)
    requires Sized(m, g) && (g.low == 1 ==> g.orig[1].Leafs? && m.level1.state == Write) && Balanced(m, g, t, p)
    requires g.low < m.maxLevel ==> m.levels[g.low + 1].index < NODES_PER_BLOCK
    ensures Balanced(WrittenBack(c, m, g.low), g, t, p)
  {
    var m' := WrittenBack(c, m, g.low);
    var lo := if g.low == 1 then FIRST_N else g.low;
    forall w: Which ensures Total(m', g, w, p) == Total(m, g, w, p) {
      PathUsesFrame(m.levels, g.kids, m'.levels, g.kids, m.edges, lo, m.maxLevel, w, p);
    }
  }

  lemma WriteBackKeepsInv(c: Codec, disk: Disk, m: Mt, g: Ghost, t: Tree, disk': Disk, m': Mt)
    requires WritesBack(c, disk, m, g, t)
    requires g.low < m.maxLevel ==> m.levels[g.low + 1].index < NODES_PER_BLOCK
    requires m' == WrittenBack(c, m, g.low) && disk' == disk[LowNode(m, g.low).pba := LowBlock(c, m, g.low)]
    ensures Inv(c, disk', m', g, t)
  {
    forall l | FIRST_N <= l <= m.maxLevel && g.low <= l ensures FrameAt(c, disk', m', g, l) {
      if l == g.low {
        WriteBackKeepsLow(c, disk, m, g, t);
      } else {
        WriteBackKeepsUpper(c, disk, m, g, t, l);
      }
    }
    WriteBackKeepsLinks(c, disk, m, g, t);
    forall p ensures Balanced(m', g, t, p) {
      assert Balanced(m, g, t, p);
      WriteBackKeepsBalance(c, m, g, t, p);
    }
  }

  lemma WriteBackMoves(c: Codec, m: Mt, low: nat)
    requires Geometry(m) && 1 <= low <= m.maxLevel
    requires low < m.maxLevel ==> m.levels[low + 1].index < NODES_PER_BLOCK
    ensures OnlyLowMoves(m, WrittenBack(c, m, low), low) && StateAt(WrittenBack(c, m, low), low) == WriteComplete
  {
  }

  lemma WriteBack(c: Codec, disk: Disk, m: Mt, g: Ghost, t: Tree)
    requires WritesBack(c, disk, m, g, t)
    ensures CanExecute(m) && Inv(c, Advance(c, m, disk).1, Advance(c, m, disk).0, g, t)
    ensures OnlyLowMoves(m, Advance(c, m, disk).0, g.low) && StateAt(Advance(c, m, disk).0, g.low) == WriteComplete
    ensures g.low >= FIRST_N ==> Advance(c, m, disk).0.level1 == m.level1
  {
    WriteBackEffect(c, disk, m, g, t);
    WriteBackMoves(c, m, g.low);
    WriteBackKeepsInv(c, disk, m, g, t, Advance(c, m, disk).1, Advance(c, m, disk).0);
  }
}
