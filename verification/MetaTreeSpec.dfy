/** The meta tree allocator as a transition function on its state record.

    One request walks the tree depth first, swaps block addresses between leaf
    entries, tree nodes and the requester, and writes the touched path back.  */
module MetaTreeSpec {
  import opened NodeCodec
  import opened HashTree

  /** Tree levels run from 1 (type 2 nodes) to 6; level 0 is never a node. */
  const NR_OF_LEVELS := 7
  const FIRST_N := 2

  datatype InfoState = Invalid | Read | ReadComplete | Write | WriteComplete | Complete

  datatype T1Info = T1Info(state: InfoState, node: T1, entries: T1Block, index: nat, dirty: bool, isVolatile: bool)
  datatype T2Info = T2Info(state: InfoState, node: T1, entries: T2Block, isVolatile: bool)

  datatype ObjState = Idle | Update | Done | HashMismatch

  datatype CacheRequest =
    | NoRequest
    | Request(inProgress: bool, write: bool, pba: U64, level: nat, data: Block)

  datatype Mt = Mt(
    state: ObjState, success: bool, root: T1, rootDirty: bool, maxLevel: nat, edges: nat,
    gen: U64, oldPba: U64, newPba: U64, finished: bool,
    request: CacheRequest, levels: seq<T1Info>, level1: T2Info)

  function NoT1s(): T1Block
  {
    seq(NODES_PER_BLOCK, _ => T1_INVALID)
  }

  function NoT2s(): T2Block
  {
    seq(NODES_PER_BLOCK, _ => T2_INVALID)
  }

  function ZeroBlock(): Block
  {
    Zeros(BLOCK_BYTES)
  }

  function T1InfoInvalid(): T1Info
  {
    T1Info(Invalid, T1_INVALID, NoT1s(), 255, false, false)
  }

  function T2InfoInvalid(): T2Info
  {
    T2Info(Invalid, T1_INVALID, NoT2s(), false)
  }

  /** The source's flag: set for nodes that are NOT of the current generation. */
  predicate NodeVolatile(n: T1, gen: U64)
  {
    n.gen == 0 || n.gen != gen
  }

  /** Geometry and array bounds that Ada would check. */
  predicate Geometry(m: Mt)
  {
    && |m.levels| == NR_OF_LEVELS
    && FIRST_N <= m.maxLevel < NR_OF_LEVELS
    && ValidDegree(m.edges)
  }

  // ------------------------------------------------------------------- submit

  function CleanLevels(): (ls: seq<T1Info>)
    ensures |ls| == NR_OF_LEVELS
    ensures forall l | 0 <= l < NR_OF_LEVELS :: ls[l] == T1InfoInvalid()
  {
    seq(NR_OF_LEVELS, _ => T1InfoInvalid())
  }

  function Submit(m: Mt, root: T1, maxLevel: nat, edges: nat, gen: U64, oldPba: U64): Mt
    requires |m.levels| == NR_OF_LEVELS && FIRST_N <= maxLevel < NR_OF_LEVELS
  {
    m.(root := root, maxLevel := maxLevel, edges := edges, gen := gen, oldPba := oldPba, finished := false,
       success := false, level1 := T2InfoInvalid(), state := Update,
       levels := CleanLevels()[maxLevel := T1InfoInvalid().(node := root, state := Read, isVolatile := NodeVolatile(root, gen))])
  }

  // ------------------------------------------------- exchanging block addresses

  /** The leaf entry after it took over address pba. */
  function TakenOver(e: T2, pba: U64, gen: U64): T2
  {
    e.(pba := pba, allocGen := gen, freeGen := gen, reserved := false)
  }

  predicate Exchangeable(f: T1Info)
  {
    f.node != T1_INVALID && !f.isVolatile
  }

  /** Lowest level from `from` on whose node takes part in an exchange. */
  function FirstExchangeable(levels: seq<T1Info>, from: nat): (l: nat)
    requires from <= |levels|
    ensures from <= l <= |levels|
    ensures forall k :: from <= k < l ==> !Exchangeable(levels[k])
    ensures l < |levels| ==> Exchangeable(levels[l])
    decreases |levels| - from
  {
    if from == |levels| || Exchangeable(levels[from]) then from else FirstExchangeable(levels, from + 1)
  }

  predicate UsableEntry(e: T2, gen: U64)
  {
    e != T2_INVALID && e.allocGen != gen
  }

  /** Exchange leaf entry i with the level 1 node, else with an inner node, else
      with the requester. */
  function ExchangeEntry(m: Mt, i: nat): Mt
    requires Geometry(m) && i < m.edges
  {
    var e := m.level1.entries[i];
    var l := FirstExchangeable(m.levels, FIRST_N);
    if !m.level1.isVolatile then
      m.(level1 := m.level1.(node := m.level1.node.(pba := e.pba), isVolatile := true,
                             entries := m.level1.entries[i := TakenOver(e, m.level1.node.pba, m.gen)]))
    else if l < NR_OF_LEVELS then
      var f := m.levels[l];
      m.(levels := m.levels[l := f.(node := f.node.(pba := e.pba, gen := m.gen), isVolatile := true)],
         level1 := m.level1.(entries := m.level1.entries[i := TakenOver(e, f.node.pba, m.gen)]))
    else
      m.(success := true, newPba := e.pba, finished := true,
         level1 := m.level1.(entries := m.level1.entries[i := TakenOver(e, m.oldPba, m.gen)]))
  }

  /** No node takes part in an exchange any more, so the requester does. */
  predicate ServesRequest(m: Mt)
    requires Geometry(m)
  {
    m.level1.isVolatile && FirstExchangeable(m.levels, FIRST_N) == NR_OF_LEVELS
  }

  /** Entries from i on; the second result tells whether any entry was exchanged. */
  function HandleLevel0(m: Mt, i: nat): (r: (Mt, bool))
    requires Geometry(m) && i <= m.edges
    decreases m.edges - i
  {
    if i == m.edges then
      (m, false)
    else if UsableEntry(m.level1.entries[i], m.gen) then
      var m1 := ExchangeEntry(m, i);
      if ServesRequest(m) then (m1, true) else (HandleLevel0(m1, i + 1).0, true)
    else
      HandleLevel0(m, i + 1)
  }

  // -------------------------------------------------------------- node handlers

  /** Write back a child: its parent entry takes over hash, generation and address. */
  function ParentEntry(c: Codec, m: Mt, pba: U64, data: Block): T1
  {
    T1(pba, m.gen, c.hash(data))
  }

  function AdvanceIndex(m: Mt, l: nat): Mt
    requires l < |m.levels|
  {
    m.(levels := m.levels[l := m.levels[l].(index := m.levels[l].index + 1)])
  }

  function SetEntry(m: Mt, l: nat, e: T1): Mt
    requires l < |m.levels| && m.levels[l].index < NODES_PER_BLOCK
  {
    var f := m.levels[l];
    m.(levels := m.levels[l := f.(entries := f.entries[f.index := e], dirty := true)])
  }

  predicate CanStep1(m: Mt)
  {
    Geometry(m) && (m.level1.state == Write ==> m.levels[FIRST_N].index < NODES_PER_BLOCK)
  }

  function HandleLevel1(c: Codec, m: Mt): Mt
    requires CanStep1(m) && m.level1.state != Invalid
  {
    var f := m.level1;
    match f.state
    case Read => m.(request := Request(false, false, f.node.pba, 1, ZeroBlock()))
    case ReadComplete =>
      var (m1, handled) := HandleLevel0(m, 0);
      m1.(level1 := m1.level1.(state := if handled then Write else Complete))
    case Write =>
      var data := c.enc2(f.entries);
      SetEntry(m, FIRST_N, ParentEntry(c, m, f.node.pba, data)).(request := Request(false, true, f.node.pba, 1, data))
    case WriteComplete | Complete => AdvanceIndex(m, FIRST_N).(level1 := f.(state := Invalid))
  }

  /** Lowest level from `from` on that is not idle. */
  function FirstActive(levels: seq<T1Info>, from: nat): (l: nat)
    requires from <= |levels|
    ensures from <= l <= |levels|
    ensures forall k :: from <= k < l ==> levels[k].state == Invalid
    ensures l < |levels| ==> levels[l].state != Invalid
    decreases |levels| - from
  {
    if from == |levels| || levels[from].state != Invalid then from else FirstActive(levels, from + 1)
  }

  predicate CanStepN(m: Mt, l: nat)
  {
    && Geometry(m) && FIRST_N <= l <= m.maxLevel
    && (m.levels[l].state == Write && l < m.maxLevel ==> m.levels[l + 1].index < NODES_PER_BLOCK)
  }

  predicate HasNextChild(m: Mt, l: nat)
    requires Geometry(m) && l < NR_OF_LEVELS
  {
    m.levels[l].index < m.edges && m.levels[l].entries[m.levels[l].index] != T1_INVALID && !m.finished
  }

  function Descend(m: Mt, l: nat): Mt
    requires CanStepN(m, l) && m.levels[l].index < NODES_PER_BLOCK
  {
    var child := m.levels[l].entries[m.levels[l].index];
    var isVolatile := NodeVolatile(m.levels[l].node, m.gen);
    if l != FIRST_N then
      m.(levels := m.levels[l - 1 := T1Info(Read, child, NoT1s(), 0, false, isVolatile)])
    else
      m.(level1 := T2Info(Read, child, NoT2s(), isVolatile))
  }

  function Ascend(m: Mt, l: nat): Mt
    requires CanStepN(m, l)
  {
    var m1 := if l == m.maxLevel then m.(state := Done) else AdvanceIndex(m, l + 1);
    m1.(levels := m1.levels[l := m1.levels[l].(state := Invalid)])
  }

  function WriteBackN(c: Codec, m: Mt, l: nat): Mt
    requires CanStepN(m, l) && m.levels[l].state == Write
  {
    var f := m.levels[l];
    var data := c.enc1(f.entries);
    var e := ParentEntry(c, m, f.node.pba, data);
    var m1 := if l == m.maxLevel then m.(root := e, rootDirty := true) else SetEntry(m, l + 1, e);
    m1.(request := Request(false, true, f.node.pba, l, data))
  }

  function HandleLevelN(c: Codec, m: Mt, l: nat): Mt
    requires CanStepN(m, l) && m.levels[l].state != Invalid
  {
    var f := m.levels[l];
    match f.state
    case Read => m.(request := Request(false, false, f.node.pba, l, ZeroBlock()))
    case ReadComplete =>
      if HasNextChild(m, l) then Descend(m, l)
      else m.(levels := m.levels[l := f.(state := if f.dirty then Write else Complete)])
    case Write => WriteBackN(c, m, l)
    case WriteComplete | Complete => Ascend(m, l)
  }

  /** What Execute needs so that no array bound is violated. */
  predicate CanExecute(m: Mt)
  {
    && Geometry(m) && CanStep1(m)
    && var l := FirstActive(m.levels, FIRST_N);
       m.state == Update && m.level1.state == Invalid && l < NR_OF_LEVELS ==> CanStepN(m, l)
  }

  function Execute(c: Codec, m: Mt): Mt
    requires CanExecute(m)
  {
    var l := FirstActive(m.levels, FIRST_N);
    if m.request.Request? || m.state != Update then m
    else if m.level1.state != Invalid then HandleLevel1(c, m)
    else if l < NR_OF_LEVELS then HandleLevelN(c, m, l)
    else m
  }

  // -------------------------------------------------- serving the block request

  predicate RequestInRange(m: Mt)
  {
    m.request.Request? && 1 <= m.request.level < NR_OF_LEVELS && |m.levels| == NR_OF_LEVELS
  }

  function MarkWritten(m: Mt, l: nat): Mt
    requires 1 <= l < |m.levels|
  {
    if l > 1 then m.(levels := m.levels[l := m.levels[l].(state := WriteComplete)])
    else m.(level1 := m.level1.(state := WriteComplete))
  }

  /** A block was read: check its hash against the parent entry, then load it. */
  function MarkRead(c: Codec, m: Mt, l: nat, data: Block): Mt
    requires 1 <= l < |m.levels|
  {
    if c.hash(data) != (if l > 1 then m.levels[l].node.hash else m.level1.node.hash) then
      m.(state := HashMismatch)
    else if l > 1 then
      m.(levels := m.levels[l := m.levels[l].(entries := c.dec1(data), index := 0, state := ReadComplete)])
    else
      m.(level1 := m.level1.(entries := c.dec2(data), state := ReadComplete))
  }

  /** A completed read or write request arrives with the given block. */
  function MarkComplete(c: Codec, m: Mt, data: Block): Mt
    requires RequestInRange(m)
  {
    (if m.request.write then MarkWritten(m, m.request.level) else MarkRead(c, m, m.request.level, data)).(request := NoRequest)
  }

  function ReadBlock(disk: Disk, pba: U64): Block
  {
    if pba in disk then disk[pba] else ZeroBlock()
  }

  /** The block map serves the pending request. */
  function Serve(c: Codec, m: Mt, disk: Disk): (Mt, Disk)
    requires RequestInRange(m)
  {
    if m.request.write then (MarkComplete(c, m, m.request.data), disk[m.request.pba := m.request.data])
    else (MarkComplete(c, m, ReadBlock(disk, m.request.pba)), disk)
  }

  /** One round: execute, then serve the request that execution may have left. */
  function Advance(c: Codec, m: Mt, disk: Disk): (Mt, Disk)
    requires CanExecute(m)
  {
    var m1 := Execute(c, m);
    if RequestInRange(m1) then Serve(c, m1, disk) else (m1, disk)
  }
}
