/** The hash check of a meta tree request on any device, whatever it holds. */
module MetaTreeVisits {
  import opened NodeCodec
  import opened HashTree
  import opened MetaTreeSpec
  import opened MetaTreeInv
  import opened MetaTreeSteps
  import FreeTree
  import W = MetaTreeWriteBack

  // ------------------------------------------------------------------- one block

  function NodeAt(m: Mt, l: nat): T1
    requires |m.levels| == NR_OF_LEVELS && 1 <= l < NR_OF_LEVELS
  {
    if l == 1 then m.level1.node else m.levels[l].node
  }

  /** A block that was read stops the request if and only if its hash is not the one
      of the node at the requested level; then nothing is loaded, otherwise exactly
      the entries of that level are.  */
  lemma ReadIsChecked(c: Codec, m: Mt, data: Block)
    requires RequestInRange(m) && !m.request.write && m.state != HashMismatch
    ensures var r, l := MarkComplete(c, m, data), m.request.level;
            && (r.state == HashMismatch <==> c.hash(data) != NodeAt(m, l).hash)
            && (r.state == HashMismatch ==> r == m.(state := HashMismatch, request := NoRequest))
            && (r.state != HashMismatch ==>
                  && r == m.(request := NoRequest, levels := r.levels, level1 := r.level1)
                  && (if l > 1 then
                        && r.level1 == m.level1
                        && r.levels == m.levels[l := m.levels[l].(entries := c.dec1(data), index := 0, state := ReadComplete)]
                      else
                        && r.levels == m.levels
                        && r.level1 == m.level1.(entries := c.dec2(data), state := ReadComplete)))
  {
  }

  // ------------------------------------------------------------ the levels under work

  /** The lowest level under work is `low`; all levels above are in the middle of
      their entries, and levels that the tree does not have are never touched. */
  ghost predicate Stack(m: Mt, low: nat)
  {
    && Geometry(m) && 1 <= low <= m.maxLevel && m.state == Update && m.request == NoRequest
    && (m.level1.state == Invalid <==> low != 1)
    && (forall l | FIRST_N <= l <= m.maxLevel ::
          && (l < low <==> m.levels[l].state == Invalid)
          && (l > low ==> m.levels[l].state == ReadComplete && m.levels[l].index < m.edges))
    && (forall l | m.maxLevel < l < NR_OF_LEVELS :: m.levels[l] == T1InfoInvalid())
  }

  lemma StackExecutes(m: Mt, low: nat)
    requires Stack(m, low)
    ensures CanExecute(m)
    ensures low >= FIRST_N ==> FirstActive(m.levels, FIRST_N) == low && CanStepN(m, low)
  {
    if low >= FIRST_N {
      FirstActiveIs(m.levels, FIRST_N, low);
    }
  }

  /** A node was read: its level, the entry that led to it and its block. */
  datatype Visit = Visit(level: nat, node: T1, data: Block)

  /** The node that the next round reads, if it reads one. */
  function RoundVisit(c: Codec, m: Mt, disk: Disk): (r: seq<Visit>)
    requires CanExecute(m)
    ensures |r| <= 1
  {
    var m1 := Execute(c, m);
    if RequestInRange(m1) && !m1.request.write then
      [Visit(m1.request.level, NodeAt(m1, m1.request.level), ReadBlock(disk, m1.request.pba))]
    else []
  }

  /** What is left of the scan of the leaf entries when it changes addresses. */
  ghost predicate OnlyNodesChange(m: Mt, r: Mt)
  {
    && |r.levels| == |m.levels| == NR_OF_LEVELS
    && r == m.(level1 := r.level1, levels := r.levels, success := r.success, finished := r.finished, newPba := r.newPba)
    && r.level1.state == m.level1.state
    && forall l | 0 <= l < NR_OF_LEVELS ::
         && r.levels[l] == m.levels[l].(node := r.levels[l].node, isVolatile := r.levels[l].isVolatile)
         && (m.levels[l].node == T1_INVALID ==> r.levels[l] == m.levels[l])
  }

  lemma {:induction false} ScanChangesNodes(m: Mt, i: nat)
    requires Geometry(m) && i <= m.edges
    requires forall l | m.maxLevel < l < NR_OF_LEVELS :: m.levels[l] == T1InfoInvalid()
    ensures OnlyNodesChange(m, HandleLevel0(m, i).0)
    decreases m.edges - i
  {
    if i < m.edges {
      if UsableEntry(m.level1.entries[i], m.gen) {
        ExchangeChangesNode(m, i);
        ScanChangesNodes(ExchangeEntry(m, i), i + 1);
      } else {
        ScanChangesNodes(m, i + 1);
      }
    }
  }

  lemma ExchangeChangesNode(m: Mt, i: nat)
    requires Geometry(m) && i < m.edges
    ensures Geometry(ExchangeEntry(m, i)) && OnlyNodesChange(m, ExchangeEntry(m, i))
  {
  }

  // ---------------------------------------------------------------- one round each

  ghost predicate Idles(c: Codec, m: Mt, disk: Disk)
  {
    CanExecute(m) && RoundVisit(c, m, disk) == []
  }

  lemma ReadRound(c: Codec, m: Mt, disk: Disk, low: nat)
    requires Stack(m, low) && StateAt(m, low) == Read
    ensures CanExecute(m)
    ensures var node := NodeAt(m, low);
            var data := ReadBlock(disk, node.pba);
            var (r, disk') := Advance(c, m, disk);
            && RoundVisit(c, m, disk) == [Visit(low, node, data)] && disk' == disk
            && (c.hash(data) != node.hash ==> r == m.(state := HashMismatch))
            && (c.hash(data) == node.hash ==>
                  && Stack(r, low) && StateAt(r, low) == ReadComplete
                  && (low >= FIRST_N ==> r.levels == m.levels[low := m.levels[low].(entries := c.dec1(data), index := 0, state := ReadComplete)])
                  && (low == 1 ==> r.levels == m.levels))
            && r.maxLevel == m.maxLevel && r.edges == m.edges
  {
    ReadEffect(c, m, disk, low);
  }

  /** The state after reading a node. */
  function Loaded(c: Codec, m: Mt, data: Block, low: nat): Mt
    requires Geometry(m) && 1 <= low <= m.maxLevel
  {
    if c.hash(data) != NodeAt(m, low).hash then m.(state := HashMismatch)
    else if low == 1 then m.(level1 := m.level1.(entries := c.dec2(data), state := ReadComplete))
    else m.(levels := m.levels[low := m.levels[low].(entries := c.dec1(data), index := 0, state := ReadComplete)])
  }

  lemma ReadEffect(c: Codec, m: Mt, disk: Disk, low: nat)
    requires Stack(m, low) && StateAt(m, low) == Read
    ensures CanExecute(m)
    ensures var node := NodeAt(m, low);
            var data := ReadBlock(disk, node.pba);
            && RoundVisit(c, m, disk) == [Visit(low, node, data)] && Advance(c, m, disk) == (Loaded(c, m, data, low), disk)
  {
    StackExecutes(m, low);
    ReadIsChecked(c, Execute(c, m), ReadBlock(disk, NodeAt(m, low).pba));
  }

  lemma DescendRound(c: Codec, m: Mt, disk: Disk, low: nat)
    requires Stack(m, low) && low >= FIRST_N && m.levels[low].state == ReadComplete && HasNextChild(m, low)
    ensures Idles(c, m, disk)
    ensures var (r, disk') := Advance(c, m, disk);
            && Stack(r, low - 1) && StateAt(r, low - 1) == Read && disk' == disk
            && NodeAt(r, low - 1) == m.levels[low].entries[m.levels[low].index]
            && (forall l | low <= l < NR_OF_LEVELS :: r.levels[l] == m.levels[l])
            && r.maxLevel == m.maxLevel && r.edges == m.edges
  {
    StackExecutes(m, low);
  }

  lemma StopRound(c: Codec, m: Mt, disk: Disk, low: nat)
    requires Stack(m, low) && low >= FIRST_N && m.levels[low].state == ReadComplete && !HasNextChild(m, low)
    ensures Idles(c, m, disk)
    ensures var (r, disk') := Advance(c, m, disk);
            && Stack(r, low) && (StateAt(r, low) == Write || StateAt(r, low) == Complete) && disk' == disk
            && (forall l | 0 <= l < NR_OF_LEVELS && l != low :: r.levels[l] == m.levels[l])
            && r.maxLevel == m.maxLevel && r.edges == m.edges
  {
    StackExecutes(m, low);
  }

  lemma ScanRound(c: Codec, m: Mt, disk: Disk)
    requires Stack(m, 1) && m.level1.state == ReadComplete
    ensures Idles(c, m, disk)
    ensures var (r, disk') := Advance(c, m, disk);
            && Stack(r, 1) && (r.level1.state == Write || r.level1.state == Complete) && disk' == disk
            && (forall l | FIRST_N <= l <= m.maxLevel :: r.levels[l].entries == m.levels[l].entries && r.levels[l].index == m.levels[l].index)
            && r.maxLevel == m.maxLevel && r.edges == m.edges
  {
    StackExecutes(m, 1);
    ScanChangesNodes(m, 0);
  }

  lemma WriteRound(c: Codec, m: Mt, disk: Disk, low: nat)
    requires Stack(m, low) && StateAt(m, low) == Write
    ensures Idles(c, m, disk)
    ensures var (r, disk') := Advance(c, m, disk);
            && Stack(r, low) && StateAt(r, low) == WriteComplete
            && (forall l | FIRST_N <= l <= m.maxLevel && low < l :: SameBehind(m.levels[l], r.levels[l]))
            && r.maxLevel == m.maxLevel && r.edges == m.edges
  {
    StackExecutes(m, low);
    WriteIdles(c, m, disk, low);
    if low == 1 {
      W.WriteBack1Effect(c, disk, m);
    } else {
      W.WriteBackNEffect(c, disk, m, low);
    }
    WrittenStack(c, m, low);
  }

  /** Index and the entries behind it are the same. */
  predicate SameBehind(f: T1Info, f': T1Info)
  {
    f'.index == f.index && forall k | f.index < k < NODES_PER_BLOCK :: f'.entries[k] == f.entries[k]
  }

  lemma WriteIdles(c: Codec, m: Mt, disk: Disk, low: nat)
    requires Stack(m, low) && StateAt(m, low) == Write
    ensures Idles(c, m, disk)
  {
    StackExecutes(m, low);
  }

  lemma WrittenStack(c: Codec, m: Mt, low: nat)
    requires Stack(m, low) && StateAt(m, low) == Write
    requires low < m.maxLevel ==> m.levels[low + 1].index < NODES_PER_BLOCK
    ensures var r := W.WrittenBack(c, m, low);
            && Stack(r, low) && StateAt(r, low) == WriteComplete
            && (forall l | FIRST_N <= l <= m.maxLevel && low < l :: SameBehind(m.levels[l], r.levels[l]))
            && r.maxLevel == m.maxLevel && r.edges == m.edges
  {
  }

  /** The state after leaving the lowest level. */
  function Left(m: Mt, low: nat): Mt
    requires Geometry(m) && 1 <= low <= m.maxLevel
  {
    var m1 := if low == m.maxLevel then m.(state := Done) else AdvanceIndex(m, low + 1);
    if low == 1 then m1.(level1 := m1.level1.(state := Invalid))
    else m1.(levels := m1.levels[low := m1.levels[low].(state := Invalid)])
  }

  lemma AscendEffect(c: Codec, m: Mt, disk: Disk, low: nat)
    requires Stack(m, low) && (StateAt(m, low) == WriteComplete || StateAt(m, low) == Complete)
    ensures Idles(c, m, disk) && Advance(c, m, disk) == (Left(m, low), disk)
  {
    StackExecutes(m, low);
  }

  lemma AscendRound(c: Codec, m: Mt, disk: Disk, low: nat)
    requires Stack(m, low) && (StateAt(m, low) == WriteComplete || StateAt(m, low) == Complete)
    ensures Idles(c, m, disk)
    ensures var (r, disk') := Advance(c, m, disk);
            && disk' == disk && r.maxLevel == m.maxLevel && r.edges == m.edges
            && (if low == m.maxLevel then r.state == Done
                else
                  && Stack(r, low + 1) && StateAt(r, low + 1) == ReadComplete
                  && r.levels[low + 1] == m.levels[low + 1].(index := m.levels[low + 1].index + 1)
                  && forall l | low + 1 < l < NR_OF_LEVELS :: r.levels[l] == m.levels[l])
  {
    AscendEffect(c, m, disk, low);
  }
}
