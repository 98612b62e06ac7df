/** The free tree extension step as a transition function on its job record.

    One step reads the path to the first unused leaf, builds a new branch from a
    contingent of fresh addresses, obtains new addresses for old nodes of the path
    from the meta tree, and writes the path back, child first.  */
module FtSpec {
  import opened NodeCodec
  import opened HashTree
  import opened TreeIndex
  import MT = MetaTreeSpec

  const LEVELS := 7
  const MAX_LEVEL := 6
  const MIN_MAX_LEVEL := 2

  /** Tree_Max_Number_Of_Leafs, 64**5: upper bound of addresses and leaf counts. */
  const MAX_LEAVES := 0x4000_0000

  datatype JobState =
    | Idle | Submitted
    | ReadRootPending | ReadRootInProgress | ReadRootCompleted
    | ReadInnerPending | ReadInnerInProgress | ReadInnerCompleted
    | AllocPending | AllocInProgress | AllocCompleted
    | WriteInnerPending | WriteInnerInProgress | WriteInnerCompleted
    | WriteRootPending | WriteRootInProgress | WriteRootCompleted
    | Completed
    | Raised  // an exception left the module

  datatype Job = Job(
    state: JobState, block: U64,
    root: T1, maxLevel: nat, nrLeaves: nat, edges: nat, gen: U64,
    t1: seq<T1Block>, t2: T2Block,
    lvl: nat, allocLvl: nat, vba: nat,
    oldPbas: seq<U64>, oldGens: seq<U64>, newPbas: seq<U64>,
    pba: U64, nrPbas: U64, newLeaves: nat)

  predicate Shaped(j: Job)
  {
    && |j.t1| == |j.oldPbas| == |j.oldGens| == |j.newPbas| == LEVELS
    && MIN_MAX_LEVEL <= j.maxLevel <= MAX_LEVEL && ValidDegree(j.edges)
    && j.lvl <= MAX_LEVEL && j.allocLvl <= MAX_LEVEL
  }

  function NoAddresses(): (s: seq<U64>)
    ensures |s| == LEVELS
  {
    seq(LEVELS, _ => 0)
  }

  function Submit(j: Job, gen: U64, root: T1, maxLevel: nat, nrLeaves: nat, edges: nat, firstPba: U64, nrPbas: U64): Job
  {
    j.(state := Submitted, gen := gen, root := root, maxLevel := maxLevel, nrLeaves := nrLeaves, edges := edges,
       pba := firstPba, nrPbas := nrPbas)
  }

  // -------------------------------------------------------- building a new branch

  /** The in-out parameters of Add_New_Branch_To_FT_Using_PBA_Contingent. */
  datatype Branch = Branch(
    pba: U64, nrPbas: U64, t1: seq<T1Block>, t2: T2Block, newPbas: seq<U64>, stopped: nat, leaves: nat)

  predicate BranchShaped(b: Branch)
  {
    |b.t1| == |b.newPbas| == LEVELS
  }

  function NextPba(p: U64): U64
  {
    (p + 1) % U64_LIMIT
  }

  /** A fresh leaf entry; the last address is the invalid one, the key invalid too. */
  function NewLeaf(p: U64): T2
  {
    T2(p, MAX_LEAVES, 0, 0, 0, false)
  }

  /** A child of the current generation, its hash to be filled in on write back. */
  function NewChild(p: U64, gen: U64): T1
  {
    T1(p, gen, ZERO_HASH)
  }

  function TakeLeaf(b: Branch, i: nat): Branch
    requires i < NODES_PER_BLOCK && b.nrPbas > 0
  {
    b.(t2 := b.t2[i := NewLeaf(b.pba)], pba := NextPba(b.pba), nrPbas := b.nrPbas - 1, leaves := b.leaves + 1)
  }

  function FillLeaves(b: Branch, i: nat, edges: nat): (r: Branch)
    requires ValidDegree(edges)
    ensures r.t1 == b.t1 && r.newPbas == b.newPbas && r.stopped == b.stopped
    decreases edges - i
  {
    if i >= edges || b.nrPbas == 0 then b else FillLeaves(TakeLeaf(b, i), i + 1, edges)
  }

  function AddChild(b: Branch, l: nat, child: nat, gen: U64): Branch
    requires BranchShaped(b) && 1 < l < LEVELS && child < NODES_PER_BLOCK && b.nrPbas > 0
  {
    b.(newPbas := b.newPbas[l - 1 := b.pba], t1 := b.t1[l := b.t1[l][child := NewChild(b.pba, gen)]],
       pba := NextPba(b.pba), nrPbas := b.nrPbas - 1)
  }

  /** Levels l, l - 1, .. 1; `child` is the index at level l, it is 0 further down. */
  function BuildDown(b: Branch, l: nat, child: nat, edges: nat, gen: U64): (r: Branch)
    requires BranchShaped(b) && 1 <= l < LEVELS && child < NODES_PER_BLOCK && ValidDegree(edges)
    ensures BranchShaped(r) && 1 <= r.stopped <= l
    decreases l
  {
    var b1 := b.(stopped := l);
    if l == 1 then FillLeaves(b1, child, edges)
    else if b.nrPbas == 0 then b1
    else BuildDown(AddChild(b1, l, child, gen), l - 1, 0, edges, gen)
  }

  function ResetLevel(b: Branch, mount: nat, l: nat): T1Block
    requires BranchShaped(b) && l < LEVELS
  {
    if 2 <= l < mount then MT.NoT1s() else b.t1[l]
  }

  function ResetBelow(b: Branch, mount: nat): Branch
    requires BranchShaped(b)
  {
    b.(t1 := seq(LEVELS, l requires 0 <= l < LEVELS => ResetLevel(b, mount, l)),
       t2 := if mount > 1 then MT.NoT2s() else b.t2)
  }

  function AddBranch(b: Branch, mount: nat, child: nat, edges: nat, gen: U64): (r: Branch)
    requires BranchShaped(b) && 1 <= mount < LEVELS && child < NODES_PER_BLOCK && ValidDegree(edges)
    ensures BranchShaped(r) && 1 <= r.stopped <= mount
  {
    var b1 := ResetBelow(b, mount).(stopped := mount, leaves := 0);
    if b.nrPbas > 0 then BuildDown(b1, mount, child, edges, gen) else b1
  }

  function BranchOf(j: Job): Branch
  {
    Branch(j.pba, j.nrPbas, j.t1, j.t2, j.newPbas, j.lvl, j.newLeaves)
  }

  function WithBranch(j: Job, b: Branch): Job
  {
    j.(pba := b.pba, nrPbas := b.nrPbas, t1 := b.t1, t2 := b.t2, newPbas := b.newPbas, lvl := b.stopped,
       newLeaves := b.leaves)
  }

  function Mount(j: Job, mount: nat, child: nat): (r: Job)
    requires Shaped(j) && 1 <= mount < LEVELS && child < NODES_PER_BLOCK
    ensures Shaped(r) && 1 <= r.lvl <= mount
  {
    WithBranch(j, AddBranch(BranchOf(j), mount, child, j.edges, j.gen))
  }

  // ----------------------------------------------------------------- a new root

  function AddRoot(j: Job): (r: Job)
    requires Shaped(j) && j.maxLevel < MAX_LEVEL && j.nrPbas > 0
    ensures Shaped(r)
  {
    var top := j.maxLevel + 1;
    j.(maxLevel := top, t1 := j.t1[top := MT.NoT1s()[0 := j.root]], newPbas := j.newPbas[top := j.pba],
       pba := NextPba(j.pba), nrPbas := j.nrPbas - 1, root := NewChild(j.pba, j.gen))
  }

  // ------------------------------------------------------------------- execution

  /** Tree_Max_Max_VBA, or none if it leaves the range of addresses. */
  function MaxMaxVba(edges: nat, maxLevel: nat): Option<nat>
    requires edges > 0
  {
    var m := Pow(edges, maxLevel) - 1;
    if m <= MAX_LEAVES then Some(m) else None
  }

  /** Set_Args_For_Write_Back_Of_Inner_Lvl for the given level. */
  function WriteBack(j: Job, l: nat): (r: Job)
    requires Shaped(j) && l < LEVELS
    ensures Shaped(r)
  {
    if l == 0 || l > j.maxLevel then j.(state := Raised)
    else j.(state := if l < j.maxLevel then WriteInnerPending else WriteRootPending, block := j.newPbas[l])
  }

  function Start(j: Job): (r: Job)
    requires Shaped(j)
    ensures Shaped(r)
  {
    var top := j.maxLevel;
    var j1 := j.(newLeaves := 0, vba := j.nrLeaves, lvl := top, newPbas := NoAddresses(),
                 oldPbas := NoAddresses()[top := j.root.pba], oldGens := NoAddresses()[top := j.root.gen]);
    match MaxMaxVba(j.edges, top)
    case None => j1.(state := Raised)
    case Some(m) =>
      if j.nrLeaves <= m then j1.(state := ReadRootPending, block := j.root.pba)
      else if top == MAX_LEVEL || j.nrPbas == 0 then j1.(state := Raised)
      else
        var j2 := Mount(AddRoot(j1), top + 1, 1);
        WriteBack(j2, j2.lvl)
  }

  /** Keep the address of a node of the current generation, else ask for a new one. */
  function AllocAt(j: Job, l: nat): (r: Job)
    requires Shaped(j) && l < LEVELS
    ensures Shaped(r)
  {
    if j.oldGens[l] == j.gen then j.(allocLvl := l, newPbas := j.newPbas[l := j.oldPbas[l]], state := AllocCompleted)
    else j.(allocLvl := l, state := AllocPending)
  }

  /** The block just read does not have the hash that its parent holds. */
  predicate HashMismatch(c: Codec, j: Job)
    requires Shaped(j) && 1 <= j.lvl <= j.maxLevel
  {
    var h := if j.lvl > 1 then c.hash(c.enc1(j.t1[j.lvl])) else c.hash(c.enc2(j.t2));
    if j.lvl == j.maxLevel then h != j.root.hash
    else h != j.t1[j.lvl + 1][ChildIndex(j.vba, j.lvl + 1, j.edges)].hash
  }

  function ReadCompleted(c: Codec, j: Job): (r: Job)
    requires Shaped(j) && 1 <= j.lvl <= j.maxLevel
    ensures Shaped(r)
  {
    var i := ChildIndex(j.vba, j.lvl, j.edges);
    if HashMismatch(c, j) then j.(state := Raised)
    else if j.lvl == 1 then
      if j.t2[i].pba != 0 then j.(state := Raised)
      else Mount(j, 1, i).(allocLvl := 1, state := AllocPending)
    else
      var child := j.t1[j.lvl][i];
      if child.pba != 0 then
        j.(lvl := j.lvl - 1, oldPbas := j.oldPbas[j.lvl - 1 := child.pba], oldGens := j.oldGens[j.lvl - 1 := child.gen],
           state := ReadInnerPending, block := child.pba)
      else
        AllocAt(Mount(j, j.lvl, i), j.lvl)
  }

  function NextAlloc(j: Job): (r: Job)
    requires Shaped(j)
    ensures Shaped(r)
  {
    if j.allocLvl < j.maxLevel then AllocAt(j, j.allocLvl + 1) else WriteBack(j, j.lvl)
  }

  function BlockOf(c: Codec, j: Job): Block
    requires Shaped(j)
  {
    if j.lvl > 1 then c.enc1(j.t1[j.lvl]) else c.enc2(j.t2)
  }

  /** The entry that describes the node written last. */
  function WrittenNode(c: Codec, j: Job): T1
    requires Shaped(j)
  {
    T1(j.newPbas[j.lvl], j.gen, c.hash(BlockOf(c, j)))
  }

  function UpdateParent(c: Codec, j: Job): (r: Job)
    requires Shaped(j) && 1 <= j.lvl < j.maxLevel
    ensures Shaped(r)
  {
    var up := j.lvl + 1;
    var i := ChildIndex(j.vba, up, j.edges);
    var j1 := j.(t1 := j.t1[up := j.t1[up][i := WrittenNode(c, j)]]);
    WriteBack(j1, up).(lvl := up)
  }

  function Finish(c: Codec, j: Job): (r: Job)
    requires Shaped(j)
    ensures Shaped(r)
  {
    var j1 := j.(root := WrittenNode(c, j));
    if j.nrLeaves + j.newLeaves > MAX_LEAVES then j1.(state := Raised)
    else j1.(nrLeaves := j.nrLeaves + j.newLeaves, state := Completed)
  }

  /** The levels that the source uses as array indices. */
  predicate CanExecute(j: Job)
  {
    && Shaped(j)
    && (j.state.ReadRootCompleted? || j.state.ReadInnerCompleted? ==> 1 <= j.lvl <= j.maxLevel)
    && (j.state.WriteInnerCompleted? ==> 1 <= j.lvl < j.maxLevel)
  }

  function Execute(c: Codec, j: Job): (r: Job)
    requires CanExecute(j)
    ensures Shaped(r)
  {
    if j.state.Submitted? then Start(j)
    else if j.state.ReadRootCompleted? || j.state.ReadInnerCompleted? then ReadCompleted(c, j)
    else if j.state.AllocCompleted? then NextAlloc(j)
    else if j.state.WriteInnerCompleted? then UpdateParent(c, j)
    else if j.state.WriteRootCompleted? then Finish(c, j)
    else j
  }

  // ---------------------------------------------------------- serving the requests

  /** The states in which execution does something. */
  predicate IsExecuted(s: JobState)
  {
    || s.Submitted? || s.ReadRootCompleted? || s.ReadInnerCompleted? || s.AllocCompleted?
    || s.WriteInnerCompleted? || s.WriteRootCompleted?
  }

  predicate Reading(s: JobState) { s.ReadRootPending? || s.ReadInnerPending? }
  predicate Writing(s: JobState) { s.WriteInnerPending? || s.WriteRootPending? }
  predicate Pending(s: JobState) { Reading(s) || Writing(s) || s.AllocPending? }

  function Drop(s: JobState): JobState
    requires Pending(s)
  {
    match s
    case ReadRootPending => ReadRootInProgress
    case ReadInnerPending => ReadInnerInProgress
    case WriteInnerPending => WriteInnerInProgress
    case WriteRootPending => WriteRootInProgress
    case AllocPending => AllocInProgress
  }

  /** A requested block arrives. */
  function MarkRead(c: Codec, j: Job, data: Block): Job
    requires Shaped(j) && (j.state.ReadRootInProgress? || j.state.ReadInnerInProgress?)
  {
    if j.state.ReadRootInProgress? then j.(state := ReadRootCompleted, t1 := j.t1[j.lvl := c.dec1(data)])
    else if j.lvl > 1 then j.(state := ReadInnerCompleted, t1 := j.t1[j.lvl := c.dec1(data)])
    else if j.lvl == 1 then j.(state := ReadInnerCompleted, t2 := c.dec2(data))
    else j.(state := Raised)
  }

  function MarkWritten(j: Job): Job
    requires j.state.WriteInnerInProgress? || j.state.WriteRootInProgress?
  {
    j.(state := if j.state.WriteInnerInProgress? then WriteInnerCompleted else WriteRootCompleted)
  }

  function MarkAllocated(j: Job, newPba: U64): Job
    requires Shaped(j) && j.state.AllocInProgress?
  {
    j.(state := AllocCompleted, newPbas := j.newPbas[j.allocLvl := newPba])
  }

  /** An address exchange with the meta tree. */
  datatype Swap = Swap(given: U64, taken: U64)

  /** The job and what surrounds it: the block map, and the addresses that the meta
      tree will hand out.  The last two fields record the history.  */
  datatype World = World(job: Job, disk: Disk, supply: seq<U64>, swaps: seq<Swap>, written: seq<U64>)

  function Serve(c: Codec, w: World): World
    requires Shaped(w.job)
  {
    var j := w.job;
    if Reading(j.state) then
      w.(job := MarkRead(c, j.(state := Drop(j.state)), MT.ReadBlock(w.disk, j.block)))
    else if Writing(j.state) then
      w.(job := MarkWritten(j.(state := Drop(j.state))), disk := w.disk[j.block := BlockOf(c, j)], written := w.written + [j.block])
    else if j.state.AllocPending? && w.supply != [] then
      w.(job := MarkAllocated(j.(state := Drop(j.state)), w.supply[0]), supply := w.supply[1..],
         swaps := w.swaps + [Swap(j.oldPbas[j.allocLvl], w.supply[0])])
    else w
  }

  /** One round: execute, then serve the request that execution may have left. */
  function Advance(c: Codec, w: World): World
    requires CanExecute(w.job)
  {
    Serve(c, w.(job := Execute(c, w.job)))
  }
}
