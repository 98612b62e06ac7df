/** When the walk goes down, which nodes it keeps out of an exchange, and when the root
    changes.  */
module MetaTreeFlags {
  import opened NodeCodec
  import opened HashTree
  import opened MetaTreeSpec
  import opened MetaTreeInv
  import opened MetaTreeVisits

  /** An inner node is left for its next child as long as there is an entry that is not
      all zero and the request is not served; the child takes no part in an exchange
      unless the node above it belongs to the current generation.  Otherwise the node
      is written if it was changed, and left if not.  */
  lemma GoesDownIff(c: Codec, m: Mt, low: nat)
    requires Stack(m, low) && low >= FIRST_N && m.levels[low].state == ReadComplete
    ensures CanExecute(m)
    ensures var r, f := Execute(c, m), m.levels[low];
            var down := f.index < m.edges && !m.finished && f.entries[f.index] != T1(0, 0, Zeros(32));
            && r.request == NoRequest
            && (down ==>
                  && r.levels[low] == f && NodeAt(r, low - 1) == f.entries[f.index] && StateAt(r, low - 1) == Read
                  && (VolatileAt(r, low - 1) <==> f.node.gen == 0 || f.node.gen != m.gen))
            && (!down ==>
                  && r.levels == m.levels[low := f.(state := if f.dirty then Write else Complete)]
                  && r.level1 == m.level1)
  {
    StackExecutes(m, low);
  }

  function VolatileAt(m: Mt, l: nat): bool
    requires |m.levels| == NR_OF_LEVELS && 1 <= l < NR_OF_LEVELS
  {
    if l == 1 then m.level1.isVolatile else m.levels[l].isVolatile
  }

  /** A request starts at the root, which takes part in an exchange only if it belongs to
      the current generation; all other levels are idle. */
  lemma StartsAtRoot(m: Mt, root: T1, maxLevel: nat, edges: nat, gen: U64, oldPba: U64)
    requires |m.levels| == NR_OF_LEVELS && FIRST_N <= maxLevel < NR_OF_LEVELS
    ensures var r := Submit(m, root, maxLevel, edges, gen, oldPba);
            && r.state == Update && !r.success && !r.finished && r.root == root && r.gen == gen && r.oldPba == oldPba
            && r.maxLevel == maxLevel && r.edges == edges && r.newPba == m.newPba && r.request == m.request
            && r.levels[maxLevel].state == Read && r.levels[maxLevel].node == root
            && (r.levels[maxLevel].isVolatile <==> root.gen == 0 || root.gen != gen)
            && r.level1.state == Invalid
            && forall l | 0 <= l < NR_OF_LEVELS && l != maxLevel :: r.levels[l].state == Invalid
  {
  }

  /** The root changes exactly in the round that writes its block: then it describes
      that block, with the current generation, and is marked as changed. */
  lemma RootChangesIff(c: Codec, m: Mt, low: nat)
    requires Stack(m, low)
    ensures CanExecute(m)
    ensures var r := Execute(c, m);
            if low == m.maxLevel && StateAt(m, low) == Write then
              && r.request.Request? && r.request.write && r.request.level == m.maxLevel && r.rootDirty
              && r.root == T1(r.request.pba, m.gen, c.hash(r.request.data))
            else r.root == m.root && r.rootDirty == m.rootDirty
  {
    StackExecutes(m, low);
    if low == 1 {
      LowestKeepsRoot(c, m);
    } else if m.levels[low].state != Write {
      InnerKeepsRoot(c, m, low);
    }
  }

  lemma LowestKeepsRoot(c: Codec, m: Mt)
    requires CanStep1(m) && m.level1.state != Invalid
    requires forall l | m.maxLevel < l < NR_OF_LEVELS :: m.levels[l] == T1InfoInvalid()
    ensures HandleLevel1(c, m).root == m.root && HandleLevel1(c, m).rootDirty == m.rootDirty
  {
    if m.level1.state == ReadComplete {
      ScanChangesNodes(m, 0);
    }
  }

  lemma InnerKeepsRoot(c: Codec, m: Mt, low: nat)
    requires CanStepN(m, low) && m.levels[low].state != Invalid && m.levels[low].state != Write
    ensures HandleLevelN(c, m, low).root == m.root && HandleLevelN(c, m, low).rootDirty == m.rootDirty
  {
  }

  /** Writing a node back sends its entries to its address, and the entry above it then
      describes that block, with the current generation. */
  lemma WriteUpdatesParent(c: Codec, m: Mt, low: nat)
    requires Stack(m, low) && StateAt(m, low) == Write && low < m.maxLevel
    ensures CanExecute(m)
    ensures var r, up := Execute(c, m), m.levels[low + 1];
            var data := if low == 1 then c.enc2(m.level1.entries) else c.enc1(m.levels[low].entries);
            && r.request == Request(false, true, NodeAt(m, low).pba, low, data)
            && r.levels == m.levels[low + 1 :=
                 up.(entries := up.entries[up.index := T1(NodeAt(m, low).pba, m.gen, c.hash(data))], dirty := true)]
            && r.level1 == m.level1
  {
    StackExecutes(m, low);
  }
}
