/** What a meta tree request does to the device: every node is read at most once
    and written at most once, and no node is read after it was written.

    The proof counts, for every address, the nodes there that may still be read
    (Pending) and the nodes there that are final (Settled).  A round takes what it
    reads out of the first count and puts what it writes into the second. */
module MetaTreeAccess {
  import opened NodeCodec
  import opened HashTree
  import opened MetaTreeSpec
  import opened MetaTreeParameters
  import opened MetaTreeInv
  import opened MetaTreeSteps
  import opened MetaTreeDescend
  import opened MetaTreeAscend
  import opened MetaTreeTheorems
  import opened Iteration
  import MetaTreeExchange
  import W = MetaTreeWriteBack

  datatype Access = Access(write: bool, pba: U64)

  /** The block access of the next round, if it has one. */
  function RoundAccess(c: Codec, m: Mt): (r: seq<Access>)
    requires CanExecute(m)
    ensures |r| <= 1
  {
    var m1 := Execute(c, m);
    if RequestInRange(m1) then [Access(m1.request.write, m1.request.pba)] else []
  }

  // ------------------------------------------------------ nodes at some address

  datatype Stage = Pending | Settled

  function UpTo(ts: seq<Tree>, i: nat): seq<Tree>
  {
    if i <= |ts| then ts[..i] else ts
  }

  function From(ts: seq<Tree>, i: nat): seq<Tree>
  {
    if i <= |ts| then ts[i..] else []
  }

  function LevelTally(a: Stage, f: T1Info, ks: seq<Tree>, edges: nat, p: U64): nat
    requires ValidDegree(edges)
  {
    match (f.state, a)
    case (Invalid, _) => 0
    case (Read, Pending) => NodeUses(f.node, NodesOnly, p) + SumUses(ks, edges, NodesOnly, p)
    case (Read, Settled) => 0
    case (ReadComplete, Pending) => SumUses(From(ks, f.index), edges, NodesOnly, p)
    case (WriteComplete, Settled) => NodeUses(f.node, NodesOnly, p) + SumUses(UpTo(ks, f.index), edges, NodesOnly, p)
    case (_, Settled) => SumUses(UpTo(ks, f.index), edges, NodesOnly, p)
    case (_, Pending) => 0
  }

  function Level1Tally(a: Stage, f: T2Info, p: U64): nat
  {
    match (f.state, a)
    case (Read, Pending) => NodeUses(f.node, NodesOnly, p)
    case (WriteComplete, Settled) => NodeUses(f.node, NodesOnly, p)
    case (_, _) => 0
  }

  function PathTally(a: Stage, ls: seq<T1Info>, ks: seq<seq<Tree>>, edges: nat, lo: nat, hi: nat, p: U64): nat
    requires ValidDegree(edges) && hi < |ls| == |ks|
    decreases hi + 1 - lo
  {
    if lo > hi then 0 else LevelTally(a, ls[lo], ks[lo], edges, p) + PathTally(a, ls, ks, edges, lo + 1, hi, p)
  }

  function LowTally(a: Stage, m: Mt, g: Ghost, p: U64): nat
    requires Sized(m, g)
  {
    if g.low == 1 then Level1Tally(a, m.level1, p) else LevelTally(a, m.levels[g.low], g.kids[g.low], m.edges, p)
  }

  function Tally(a: Stage, m: Mt, g: Ghost, p: U64): nat
    requires Sized(m, g)
  {
    LowTally(a, m, g, p) + PathTally(a, m.levels, g.kids, m.edges, g.low + 1, m.maxLevel, p)
  }

  lemma {:induction false} PathTallyFrame(a: Stage, ls: seq<T1Info>, ks: seq<seq<Tree>>, ls': seq<T1Info>, ks': seq<seq<Tree>>,
                                          edges: nat, lo: nat, hi: nat, p: U64)
    requires ValidDegree(edges) && hi < |ls| == |ks| == |ls'| == |ks'|
    requires forall k | lo <= k <= hi ::
      ls[k].state == ls'[k].state == ReadComplete && ls[k].index == ls'[k].index && ks[k] == ks'[k]
    ensures PathTally(a, ls, ks, edges, lo, hi, p) == PathTally(a, ls', ks', edges, lo, hi, p)
    decreases hi + 1 - lo
  {
    if lo <= hi {
      PathTallyFrame(a, ls, ks, ls', ks', edges, lo + 1, hi, p);
    }
  }

  lemma {:induction false} SumUsesSplit(ts: seq<Tree>, i: nat, edges: nat, w: Which, p: U64)
    requires ValidDegree(edges) && i <= |ts|
    ensures SumUses(ts, edges, w, p) == SumUses(ts[..i], edges, w, p) + SumUses(ts[i..], edges, w, p)
  {
    if i > 0 {
      SumUsesSplit(ts[1..], i - 1, edges, w, p);
      assert ts[..i][1..] == ts[1..][..i - 1] && ts[1..][i - 1..] == ts[i..];
    } else {
      assert ts[i..] == ts;
    }
  }

  lemma StagesSplit(ts: seq<Tree>, i: nat, edges: nat, p: U64)
    requires ValidDegree(edges)
    ensures SumUses(ts, edges, NodesOnly, p)
         == SumUses(UpTo(ts, i), edges, NodesOnly, p) + SumUses(From(ts, i), edges, NodesOnly, p)
  {
    if i <= |ts| {
      SumUsesSplit(ts, i, edges, NodesOnly, p);
    }
  }

  // -------------------------------------- no address is both pending and settled

  lemma LevelTallyBound(f: T1Info, ks: seq<Tree>, edges: nat, p: U64)
    requires ValidDegree(edges)
    ensures LevelTally(Pending, f, ks, edges, p) + LevelTally(Settled, f, ks, edges, p) <= FrameUses(f, ks, edges, Every, p)
  {
    StagesSplit(ks, f.index, edges, p);
    UsableAreUsedSum(ks, edges, 0, p);
  }

  lemma {:induction false} PathTallyBound(ls: seq<T1Info>, ks: seq<seq<Tree>>, edges: nat, lo: nat, hi: nat, p: U64)
    requires ValidDegree(edges) && hi < |ls| == |ks|
    ensures PathTally(Pending, ls, ks, edges, lo, hi, p) + PathTally(Settled, ls, ks, edges, lo, hi, p)
         <= PathUses(ls, ks, edges, lo, hi, Every, p)
    decreases hi + 1 - lo
  {
    if lo <= hi {
      LevelTallyBound(ls[lo], ks[lo], edges, p);
      PathTallyBound(ls, ks, edges, lo + 1, hi, p);
    }
  }

  lemma AtMostOne(c: Codec, disk: Disk, m: Mt, g: Ghost, t: Tree, p: U64)
    requires Inv(c, disk, m, g, t)
    ensures Tally(Pending, m, g, p) + Tally(Settled, m, g, p) <= 1
  {
    assert Balanced(m, g, t, p);
    PathTallyBound(m.levels, g.kids, m.edges, g.low + 1, m.maxLevel, p);
    if g.low != 1 {
      LevelTallyBound(m.levels[g.low], g.kids[g.low], m.edges, p);
    }
  }

  // ------------------------------------------------------- what one round accesses

  function Hits(ops: seq<Access>, write: bool, p: U64): nat
  {
    if Access(write, p) in ops then 1 else 0
  }

  /** A read leaves the pending nodes, a write joins the settled ones. */
  ghost predicate Moves(m: Mt, g: Ghost, m': Mt, g': Ghost, ops: seq<Access>, p: U64)
    requires Sized(m, g) && Sized(m', g')
  {
    && Tally(Pending, m', g', p) + Hits(ops, false, p) <= Tally(Pending, m, g, p)
    && Tally(Settled, m, g, p) + Hits(ops, true, p) <= Tally(Settled, m', g', p)
  }

  ghost predicate Accounted(c: Codec, disk: Disk, m: Mt, g: Ghost, t: Tree, g': Ghost)
    requires Inv(c, disk, m, g, t) && CanExecute(m)
  {
    var (m', disk') := Advance(c, m, disk);
    Inv(c, disk', m', g', t) && forall p :: Moves(m, g, m', g', RoundAccess(c, m), p)
  }

  /** A round that stays at the lowest node under work. */
  lemma AboveStays(m: Mt, m': Mt, g: Ghost, a: Stage, p: U64)
    requires Sized(m, g) && Sized(m', g) && NodeStates(m, g.low) && OnlyLowMoves(m, m', g.low) && SameParameters(m, m')
    ensures PathTally(a, m'.levels, g.kids, m'.edges, g.low + 1, m'.maxLevel, p)
         == PathTally(a, m.levels, g.kids, m.edges, g.low + 1, m.maxLevel, p)
  {
    PathTallyFrame(a, m.levels, g.kids, m'.levels, g.kids, m.edges, g.low + 1, m.maxLevel, p);
  }

  ghost predicate Stays(m: Mt, m': Mt, g: Ghost)
    requires Sized(m, g)
  {
    && OnlyLowMoves(m, m', g.low) && SameParameters(m, m')
    && (g.low == 1 ==> m'.level1.state != Invalid)
    && (g.low != 1 ==> m'.level1 == m.level1)
  }

  lemma LoadMoves(m: Mt, m': Mt, g: Ghost, p: U64)
    requires Sized(m, g) && NodeStates(m, g.low) && Stays(m, m', g)
    requires StateAt(m, g.low) == Read && StateAt(m', g.low) == ReadComplete
    requires g.low >= FIRST_N ==> m'.levels[g.low].index == 0
    ensures Moves(m, g, m', g, [Access(false, W.LowNode(m, g.low).pba)], p)
  {
    AboveStays(m, m', g, Pending, p);
    AboveStays(m, m', g, Settled, p);
    assert From(g.kids[g.low], 0) == g.kids[g.low] && UpTo(g.kids[g.low], 0) == [];
  }

  lemma ScanMoves(m: Mt, m': Mt, g: Ghost, p: U64)
    requires Sized(m, g) && NodeStates(m, g.low) && Stays(m, m', g)
    requires StateAt(m, g.low) == ReadComplete && (StateAt(m', g.low) == Write || StateAt(m', g.low) == InfoState.Complete)
    requires g.low >= FIRST_N ==> m'.levels[g.low].index == m.levels[g.low].index
    ensures Moves(m, g, m', g, [], p)
  {
    AboveStays(m, m', g, Pending, p);
    AboveStays(m, m', g, Settled, p);
  }

  lemma WriteMoves(m: Mt, m': Mt, g: Ghost, p: U64)
    requires Sized(m, g) && NodeStates(m, g.low) && Stays(m, m', g)
    requires StateAt(m, g.low) == Write && StateAt(m', g.low) == WriteComplete
    requires W.LowNode(m', g.low) == W.LowNode(m, g.low)
    requires g.low >= FIRST_N ==> m'.levels[g.low].index == m.levels[g.low].index
    ensures Moves(m, g, m', g, [Access(true, W.LowNode(m, g.low).pba)], p)
  {
    AboveStays(m, m', g, Pending, p);
    AboveStays(m, m', g, Settled, p);
  }

  lemma LoadAccess(c: Codec, disk: Disk, m: Mt, g: Ghost, t: Tree)
    requires Inv(c, disk, m, g, t) && StateAt(m, g.low) == Read
    ensures CanExecute(m) && RoundAccess(c, m) == [Access(false, W.LowNode(m, g.low).pba)]
  {
    InvCanExecute(c, disk, m, g, t);
  }

  lemma WriteAccess(c: Codec, disk: Disk, m: Mt, g: Ghost, t: Tree)
    requires W.WritesBack(c, disk, m, g, t)
    ensures CanExecute(m) && RoundAccess(c, m) == [Access(true, W.LowNode(m, g.low).pba)]
  {
    InvCanExecute(c, disk, m, g, t);
  }

  lemma NoAccess(c: Codec, disk: Disk, m: Mt, g: Ghost, t: Tree)
    requires Inv(c, disk, m, g, t) && StateAt(m, g.low) != Read && StateAt(m, g.low) != Write
    ensures CanExecute(m) && RoundAccess(c, m) == []
  {
    InvCanExecute(c, disk, m, g, t);
    if StateAt(m, g.low) == ReadComplete && g.low == 1 {
      HandleLevel0KeepsRequest(m, 0);
    }
  }

  lemma AccessLoad(c: Codec, disk: Disk, m: Mt, g: Ghost, t: Tree)
    requires Inv(c, disk, m, g, t) && StateAt(m, g.low) == Read
    ensures CanExecute(m) && Accounted(c, disk, m, g, t, g)
  {
    LoadAccess(c, disk, m, g, t);
    if g.low == 1 {
      Load1Effect(c, disk, m, g, t);
      Load1KeepsInv(c, disk, m, g, t);
    } else {
      LoadNEffect(c, disk, m, g, t);
      LoadNKeepsInv(c, disk, m, g, t);
    }
    forall p ensures Moves(m, g, Advance(c, m, disk).0, g, RoundAccess(c, m), p) {
      LoadMoves(m, Advance(c, m, disk).0, g, p);
    }
  }

  lemma AccessStop(c: Codec, disk: Disk, m: Mt, g: Ghost, t: Tree)
    requires Inv(c, disk, m, g, t) && g.low >= FIRST_N && StateAt(m, g.low) == ReadComplete && !HasNextChild(m, g.low)
    ensures CanExecute(m) && Accounted(c, disk, m, g, t, g)
  {
    NoAccess(c, disk, m, g, t);
    StopNEffect(c, disk, m, g, t);
    StopNKeepsInv(c, disk, m, g, t);
    forall p ensures Moves(m, g, Advance(c, m, disk).0, g, RoundAccess(c, m), p) {
      ScanMoves(m, StoppedN(m, g.low), g, p);
    }
  }

  lemma AccessScan(c: Codec, disk: Disk, m: Mt, g: Ghost, t: Tree)
    requires Inv(c, disk, m, g, t) && StateAt(m, g.low) == ReadComplete && g.low == 1
    ensures CanExecute(m) && Accounted(c, disk, m, g, t, g)
  {
    NoAccess(c, disk, m, g, t);
    MetaTreeExchange.Exchange(c, disk, m, g, t);
    AdvanceKeepsParameters(c, m, disk);
    forall p ensures Moves(m, g, Advance(c, m, disk).0, g, RoundAccess(c, m), p) {
      ScanMoves(m, Advance(c, m, disk).0, g, p);
    }
  }

  lemma AccessWrite(c: Codec, disk: Disk, m: Mt, g: Ghost, t: Tree)
    requires W.WritesBack(c, disk, m, g, t)
    ensures CanExecute(m) && Accounted(c, disk, m, g, t, g)
  {
    WriteAccess(c, disk, m, g, t);
    W.WriteBackEffect(c, disk, m, g, t);
    W.WriteBack(c, disk, m, g, t);
    AdvanceKeepsParameters(c, m, disk);
    var m' := W.WrittenBack(c, m, g.low);
    assert Stays(m, m', g) && W.LowNode(m', g.low) == W.LowNode(m, g.low);
    forall p ensures Moves(m, g, Advance(c, m, disk).0, g, RoundAccess(c, m), p) {
      WriteMoves(m, m', g, p);
    }
  }

  /** Child k moves from the pending children of its parent to the path. */
  lemma EnterMoves(m: Mt, m': Mt, g: Ghost, g': Ghost, k: Tree, p: U64)
    requires Sized(m, g) && g.low >= FIRST_N && NodeStates(m, g.low) && EntersInto(m, m', g, g', k)
    requires m.levels[g.low].state == ReadComplete
    ensures Sized(m', g') && Moves(m, g, m', g', [], p)
  {
    var l, i := g.low, m.levels[g.low].index;
    PathTallyFrame(Pending, m.levels, g.kids, m'.levels, g'.kids, m.edges, l + 1, m.maxLevel, p);
    PathTallyFrame(Settled, m.levels, g.kids, m'.levels, g'.kids, m.edges, l + 1, m.maxLevel, p);
    OpenedHoleTally(m.levels[l], g.kids[l], m.edges, p);
    assert LowTally(Pending, m', g', p) <= Uses(k, m.edges, NodesOnly, p);
  }

  /** What becomes of the children of a node when one of them is taken out. */
  lemma OpenedHoleTally(f: T1Info, ks: seq<Tree>, edges: nat, p: U64)
    requires ValidDegree(edges) && f.state == ReadComplete && f.index < |ks|
    ensures var ks' := ks[f.index := Nil];
            && LevelTally(Pending, f, ks', edges, p) + Uses(ks[f.index], edges, NodesOnly, p) == LevelTally(Pending, f, ks, edges, p)
            && LevelTally(Settled, f, ks', edges, p) == LevelTally(Settled, f, ks, edges, p)
  {
    var i, ks' := f.index, ks[f.index := Nil];
    SumUsesUpdate(ks[i..], 0, Nil, edges, NodesOnly, p);
    assert ks'[i..] == ks[i..][0 := Nil] && ks'[..i] == ks[..i];
  }

  /** What becomes of the children of the parent when subtree u fills its hole. */
  lemma FilledHoleTally(f: T1Info, ks: seq<Tree>, u: Tree, edges: nat, p: U64)
    requires ValidDegree(edges) && f.state == ReadComplete && f.index < |ks| && ks[f.index].Nil?
    ensures var f', ks' := f.(index := f.index + 1), ks[f.index := u];
            && LevelTally(Pending, f', ks', edges, p) == LevelTally(Pending, f, ks, edges, p)
            && LevelTally(Settled, f', ks', edges, p) == LevelTally(Settled, f, ks, edges, p) + Uses(u, edges, NodesOnly, p)
  {
    var i, ks' := f.index, ks[f.index := u];
    assert From(ks, i) == ks[i..] && From(ks', i + 1) == ks'[i + 1..] && UpTo(ks, i) == ks[..i] && UpTo(ks', i + 1) == ks'[..i + 1];
    assert ks[i..][0].Nil? && ks[i..][1..] == ks'[i + 1..];
    assert SumUses(ks[i..], edges, NodesOnly, p) == SumUses(ks'[i + 1..], edges, NodesOnly, p);
    SumUsesSplit(ks'[..i + 1], i, edges, NodesOnly, p);
    assert ks'[..i + 1][..i] == ks[..i] && ks'[..i + 1][i..] == [u] && [u][1..] == [];
  }

  /** The finished subtree joins the settled children of its parent. */
  lemma AscendMoves(m: Mt, m': Mt, g: Ghost, g': Ghost, u: Tree, p: U64)
    requires Sized(m, g) && NodeStates(m, g.low) && AscendsTo(m, m', g, g', u) && SameAddresses(m, g, u)
    requires g.kids[g.low + 1][m.levels[g.low + 1].index].Nil?
    ensures Sized(m', g') && Moves(m, g, m', g', [], p)
  {
    var q := g.low + 1;
    AscendTally(m, m', g, g', u, Pending, p);
    AscendTally(m, m', g, g', u, Settled, p);
    FilledHoleTally(m.levels[q], g.kids[q], u, m.edges, p);
    LowSettled(m, g, u, p);
  }

  lemma AscendTally(m: Mt, m': Mt, g: Ghost, g': Ghost, u: Tree, a: Stage, p: U64)
    requires Sized(m, g) && NodeStates(m, g.low) && AscendsTo(m, m', g, g', u)
    ensures var q := g.low + 1;
            var f := m.levels[q];
            && Sized(m', g') && f.state == ReadComplete
            && Tally(a, m', g', p) == LevelTally(a, f.(index := f.index + 1), g.kids[q][f.index := u], m.edges, p)
                                      + PathTally(a, m.levels, g.kids, m.edges, q + 1, m.maxLevel, p)
            && Tally(a, m, g, p) == LowTally(a, m, g, p) + LevelTally(a, f, g.kids[q], m.edges, p)
                                    + PathTally(a, m.levels, g.kids, m.edges, q + 1, m.maxLevel, p)
  {
    PathTallyFrame(a, m.levels, g.kids, m'.levels, g'.kids, m.edges, g.low + 2, m.maxLevel, p);
  }

  /** What is settled at the lowest level ends up in the finished subtree. */
  lemma LowSettled(m: Mt, g: Ghost, u: Tree, p: U64)
    requires Sized(m, g) && SameAddresses(m, g, u) && MetaTreeAscend.Finished(m, g.low)
    ensures LowTally(Settled, m, g, p) <= Uses(u, m.edges, NodesOnly, p) && LowTally(Pending, m, g, p) == 0
  {
    if g.low != 1 {
      StagesSplit(g.kids[g.low], m.levels[g.low].index, m.edges, p);
    }
  }

  lemma AccessEnter(c: Codec, disk: Disk, m: Mt, g: Ghost, t: Tree) returns (g': Ghost)
    requires Enters(c, disk, m, g, t)
    ensures CanExecute(m) && Accounted(c, disk, m, g, t, g')
  {
    NoAccess(c, disk, m, g, t);
    g' := Enter(c, disk, m, g, t);
    var m' := Advance(c, m, disk).0;
    var k :| EntersInto(m, m', g, g', k);
    forall p ensures Moves(m, g, m', g', [], p) {
      EnterMoves(m, m', g, g', k, p);
    }
  }

  lemma AccessAscend(c: Codec, disk: Disk, m: Mt, g: Ghost, t: Tree) returns (g': Ghost)
    requires LeavesNode(c, disk, m, g, t) && g.low < m.maxLevel
    ensures CanExecute(m) && Accounted(c, disk, m, g, t, g')
  {
    NoAccess(c, disk, m, g, t);
    g' := MetaTreeAscend.Ascend(c, disk, m, g, t);
    FinishedLow(c, disk, m, g, t);
    assert FrameAt(c, disk, m, g, g.low + 1);
    var m' := Advance(c, m, disk).0;
    forall p ensures Moves(m, g, m', g', [], p) {
      AscendMoves(m, m', g, g', LowTree(c, m, g), p);
    }
  }

  // ------------------------------------------------------------------ whole runs

  /** Two accesses to one address are a read followed by a write. */
  predicate OnceEach(ops: seq<Access>)
  {
    forall i, j | 0 <= i < j < |ops| :: ops[i].pba == ops[j].pba ==> !ops[i].write && ops[j].write
  }

  ghost predicate ReadsNodesOf(ops: seq<Access>, t: Tree, edges: nat)
    requires ValidDegree(edges)
  {
    forall p :: Access(false, p) in ops ==> Uses(t, edges, NodesOnly, p) > 0
  }

  ghost predicate WritesNodesOf(ops: seq<Access>, t: Tree, edges: nat)
    requires ValidDegree(edges)
  {
    forall p :: Access(true, p) in ops ==> Uses(t, edges, NodesOnly, p) > 0
  }

  /** What the accesses so far mean for address p. */
  ghost predicate TracedAt(m: Mt, g: Ghost, t: Tree, ops: seq<Access>, p: U64)
    requires Sized(m, g)
  {
    && Tally(Pending, m, g, p) <= Uses(t, m.edges, NodesOnly, p)
    && (Access(false, p) in ops ==> Tally(Pending, m, g, p) == 0)
    && (Access(true, p) in ops ==> Tally(Settled, m, g, p) > 0)
  }

  ghost predicate Traced(m: Mt, g: Ghost, t: Tree, ops: seq<Access>)
    requires Sized(m, g)
  {
    OnceEach(ops) && ReadsNodesOf(ops, t, m.edges) && forall p :: TracedAt(m, g, t, ops, p)
  }

  lemma OnceEachGrows(ops: seq<Access>, a: Access)
    requires OnceEach(ops) && Access(true, a.pba) !in ops && (!a.write ==> Access(false, a.pba) !in ops)
    ensures OnceEach(ops + [a])
  {
    forall i | 0 <= i < |ops| && ops[i].pba == a.pba ensures !ops[i].write && a.write {
      assert ops[i] in ops;
    }
  }

  /** Neither has address p been read while it is pending, nor written while it is
      not settled. */
  lemma TraceGrowsAt(c: Codec, disk: Disk, m: Mt, g: Ghost, t: Tree, disk': Disk, m': Mt, g': Ghost,
                     ops: seq<Access>, op: seq<Access>, p: U64)
    requires Inv(c, disk, m, g, t) && Inv(c, disk', m', g', t) && m'.edges == m.edges
    requires Moves(m, g, m', g', op, p) && TracedAt(m, g, t, ops, p)
    ensures TracedAt(m', g', t, ops + op, p)
    ensures Access(false, p) in op ==>
      Uses(t, m.edges, NodesOnly, p) > 0 && Access(false, p) !in ops && Access(true, p) !in ops
    ensures Access(true, p) in op ==> Access(true, p) !in ops
  {
    AtMostOne(c, disk, m, g, t, p);
    AtMostOne(c, disk', m', g', t, p);
  }

  /** A round whose access is accounted for extends the trace. */
  lemma TraceGrows(c: Codec, disk: Disk, m: Mt, g: Ghost, t: Tree, g': Ghost, ops: seq<Access>)
    requires Inv(c, disk, m, g, t) && CanExecute(m) && Accounted(c, disk, m, g, t, g') && Traced(m, g, t, ops)
    ensures Traced(Advance(c, m, disk).0, g', t, ops + RoundAccess(c, m))
  {
    AdvanceKeepsParameters(c, m, disk);
    TraceGrowsBy(c, disk, m, g, t, Advance(c, m, disk).1, Advance(c, m, disk).0, g', ops, RoundAccess(c, m));
  }

  lemma TraceGrowsBy(c: Codec, disk: Disk, m: Mt, g: Ghost, t: Tree, disk': Disk, m': Mt, g': Ghost,
                     ops: seq<Access>, op: seq<Access>)
    requires Inv(c, disk, m, g, t) && Inv(c, disk', m', g', t) && m'.edges == m.edges && |op| <= 1
    requires Traced(m, g, t, ops) && forall p :: Moves(m, g, m', g', op, p)
    ensures Traced(m', g', t, ops + op)
  {
    forall p ensures TracedAt(m', g', t, ops + op, p) {
      TraceGrowsAt(c, disk, m, g, t, disk', m', g', ops, op, p);
    }
    if op == [] {
      assert ops + op == ops;
    } else {
      assert op == [op[0]] && op[0] == Access(op[0].write, op[0].pba);
      TraceGrowsAt(c, disk, m, g, t, disk', m', g', ops, op, op[0].pba);
      OnceEachGrows(ops, op[0]);
    }
  }

  /** One round with its access noted down. */
  function TracedStepper(c: Codec): ((Mt, Disk, seq<Access>)) -> (Mt, Disk, seq<Access>)
  {
    (s: (Mt, Disk, seq<Access>)) =>
      if s.0.state != Update || !CanExecute(s.0) then s
      else (Advance(c, s.0, s.1).0, Advance(c, s.0, s.1).1, s.2 + RoundAccess(c, s.0))
  }

  function TracedRounds(c: Codec, m: Mt, disk: Disk, ops: seq<Access>, n: nat): (Mt, Disk, seq<Access>)
  {
    Iterate(TracedStepper(c), (m, disk, ops), n)
  }

  /** The state is within the request, and so is its trace; or both are complete. */
  ghost predicate Recorded(c: Codec, disk: Disk, m: Mt, t: Tree, ops: seq<Access>)
  {
    exists g :: Inv(c, disk, m, g, t) && Traced(m, g, t, ops)
  }

  ghost predicate Complete(c: Codec, disk: Disk, m: Mt, t: Tree, ops: seq<Access>, u: Tree)
  {
    && m.state == Done && Outcome(c, disk, m, t, u)
    && OnceEach(ops) && ReadsNodesOf(ops, t, m.edges) && WritesNodesOf(ops, u, m.edges)
  }

  /** The last round: all that was written belongs to the resulting tree. */
  lemma TraceCompletes(c: Codec, disk: Disk, m: Mt, g: Ghost, t: Tree, ops: seq<Access>)
    requires LeavesNode(c, disk, m, g, t) && g.low == m.maxLevel && Traced(m, g, t, ops)
    ensures CanExecute(m)
    ensures Complete(c, Advance(c, m, disk).1, Advance(c, m, disk).0, t, ops + RoundAccess(c, m), LowTree(c, m, g))
  {
    NoAccess(c, disk, m, g, t);
    CompleteRequest(c, disk, m, g, t);
    FinishedLow(c, disk, m, g, t);
    assert ops + RoundAccess(c, m) == ops;
    forall p | Access(true, p) in ops ensures Uses(LowTree(c, m, g), m.edges, NodesOnly, p) > 0 {
      assert TracedAt(m, g, t, ops, p);
      LowSettled(m, g, LowTree(c, m, g), p);
    }
  }

  lemma RecordedMoves(c: Codec, disk: Disk, m: Mt, t: Tree, ops: seq<Access>)
    requires Recorded(c, disk, m, t, ops)
    ensures var (m', disk', ops') := TracedStepper(c)((m, disk, ops));
            Recorded(c, disk', m', t, ops') || exists u :: Complete(c, disk', m', t, ops', u)
  {
    var g :| Inv(c, disk, m, g, t) && Traced(m, g, t, ops);
    InvCanExecute(c, disk, m, g, t);
    var g' := g;
    if StateAt(m, g.low) == Read {
      AccessLoad(c, disk, m, g, t);
    } else if StateAt(m, g.low) == Write {
      AccessWrite(c, disk, m, g, t);
    } else if StateAt(m, g.low) != ReadComplete {
      if g.low == m.maxLevel {
        TraceCompletes(c, disk, m, g, t, ops);
        return;
      }
      g' := AccessAscend(c, disk, m, g, t);
    } else if g.low >= FIRST_N && HasNextChild(m, g.low) {
      g' := AccessEnter(c, disk, m, g, t);
    } else if g.low >= FIRST_N {
      AccessStop(c, disk, m, g, t);
    } else {
      AccessScan(c, disk, m, g, t);
    }
    TraceGrows(c, disk, m, g, t, g', ops);
  }

  lemma {:induction false} RunIsRecorded(c: Codec, disk: Disk, m: Mt, t: Tree, ops: seq<Access>, n: nat)
    requires Recorded(c, disk, m, t, ops) || exists u :: Complete(c, disk, m, t, ops, u)
    ensures var (m', disk', ops') := TracedRounds(c, m, disk, ops, n);
            Recorded(c, disk', m', t, ops') || exists u :: Complete(c, disk', m', t, ops', u)
    decreases n
  {
    if n > 0 {
      if Recorded(c, disk, m, t, ops) {
        RecordedMoves(c, disk, m, t, ops);
      } else {
        assert TracedStepper(c)((m, disk, ops)) == (m, disk, ops);
      }
      var (m', disk', ops') := TracedStepper(c)((m, disk, ops));
      RunIsRecorded(c, disk', m', t, ops', n - 1);
    }
  }

  /** Writing down the accesses does not change the run. */
  lemma {:induction false} TraceFollowsRun(c: Codec, m: Mt, disk: Disk, ops: seq<Access>, n: nat)
    ensures var (m', disk', ops') := TracedRounds(c, m, disk, ops, n); (m', disk') == Rounds(c, m, disk, n)
    decreases n
  {
    if n > 0 {
      var (m', disk', ops') := TracedStepper(c)((m, disk, ops));
      assert Stepper(c)((m, disk)) == (m', disk');
      TraceFollowsRun(c, m', disk', ops', n - 1);
    }
  }

  // ------------------------------------------------- the trace leaves nothing out

  lemma {:induction false} TraceOnlyGrows(c: Codec, m: Mt, disk: Disk, ops: seq<Access>, n: nat, a: Access)
    requires a in ops
    ensures a in TracedRounds(c, m, disk, ops, n).2
    decreases n
  {
    if n > 0 {
      var (m', disk', ops') := TracedStepper(c)((m, disk, ops));
      TraceOnlyGrows(c, m', disk', ops', n - 1, a);
    }
  }

  lemma RoundIsTraced(c: Codec, m: Mt, disk: Disk, ops: seq<Access>, n: nat, a: Access)
    requires n > 0 && m.state == Update && CanExecute(m) && a in RoundAccess(c, m)
    ensures a in TracedRounds(c, m, disk, ops, n).2
  {
    var (m', disk', ops') := TracedStepper(c)((m, disk, ops));
    TraceOnlyGrows(c, m', disk', ops', n - 1, a);
  }

  lemma RoundWrites(c: Codec, m: Mt, disk: Disk, p: U64)
    requires CanExecute(m) && Access(true, p) !in RoundAccess(c, m)
    ensures SameBlock(disk, Advance(c, m, disk).1, p)
  {
    var m1 := Execute(c, m);
    if RequestInRange(m1) && m1.request.write {
      assert RoundAccess(c, m)[0] == Access(true, m1.request.pba);
    }
  }

  lemma RoundReads(c: Codec, m: Mt, disk: Disk, other: Disk)
    requires CanExecute(m) && forall p :: Access(false, p) in RoundAccess(c, m) ==> SameBlock(disk, other, p)
    ensures Advance(c, m, other).0 == Advance(c, m, disk).0
    ensures forall p :: SameBlock(disk, other, p) ==> SameBlock(Advance(c, m, disk).1, Advance(c, m, other).1, p)
  {
    var m1 := Execute(c, m);
    if RequestInRange(m1) && !m1.request.write {
      assert RoundAccess(c, m)[0] == Access(false, m1.request.pba);
      assert SameBlock(disk, other, m1.request.pba);
    }
  }

  /** A block that the trace does not write stays as it is. */
  lemma {:induction false} OnlyWritesChange(c: Codec, m: Mt, disk: Disk, ops: seq<Access>, n: nat, p: U64)
    requires Access(true, p) !in TracedRounds(c, m, disk, ops, n).2
    ensures SameBlock(disk, TracedRounds(c, m, disk, ops, n).1, p)
    decreases n
  {
    if n > 0 {
      var (m', disk', ops') := TracedStepper(c)((m, disk, ops));
      if m.state == Update && CanExecute(m) {
        if Access(true, p) in RoundAccess(c, m) {
          RoundIsTraced(c, m, disk, ops, n, Access(true, p));
        }
        RoundWrites(c, m, disk, p);
      }
      OnlyWritesChange(c, m', disk', ops', n - 1, p);
    }
  }

  /** A device that holds the same blocks where the trace reads leads to the same run,
      and afterwards the devices agree wherever they agreed before. */
  lemma {:induction false} OnlyReadsMatter(c: Codec, m: Mt, disk: Disk, other: Disk, ops: seq<Access>, n: nat)
    requires forall p :: Access(false, p) in TracedRounds(c, m, disk, ops, n).2 ==> SameBlock(disk, other, p)
    ensures TracedRounds(c, m, other, ops, n).0 == TracedRounds(c, m, disk, ops, n).0
    ensures TracedRounds(c, m, other, ops, n).2 == TracedRounds(c, m, disk, ops, n).2
    ensures forall p :: SameBlock(disk, other, p) ==>
      SameBlock(TracedRounds(c, m, disk, ops, n).1, TracedRounds(c, m, other, ops, n).1, p)
    decreases n
  {
    if n > 0 {
      var (m', disk', ops') := TracedStepper(c)((m, disk, ops));
      var other' := TracedStepper(c)((m, other, ops)).1;
      if m.state == Update && CanExecute(m) {
        forall p | Access(false, p) in RoundAccess(c, m) ensures SameBlock(disk, other, p) {
          RoundIsTraced(c, m, disk, ops, n, Access(false, p));
        }
        RoundReads(c, m, disk, other);
      }
      OnlyReadsMatter(c, m', disk', other', ops', n - 1);
    }
  }

  /** In every run of a request, from submission to any later point, two accesses to
      one address are a read followed by a write: no node is read twice or read
      after it was written, and none is written twice.  What is read are nodes of
      the old tree; what a complete run wrote are nodes of the resulting tree. */
  lemma RequestAccessesOnce(c: Codec, disk: Disk, m: Mt, root: T1, maxLevel: nat, edges: nat, gen: U64, oldPba: U64, t: Tree, n: nat)
    returns (u: Tree)
    requires Submittable(c, disk, m, root, maxLevel, edges, oldPba, t)
    ensures var m0 := Submit(m, root, maxLevel, edges, gen, oldPba);
            var (m', disk', ops) := TracedRounds(c, m0, disk, [], n);
            && (m', disk') == Rounds(c, m0, disk, n)
            && OnceEach(ops) && ReadsNodesOf(ops, t, edges)
            && (m'.state == Done ==> Outcome(c, disk', m', t, u) && WritesNodesOf(ops, u, edges))
  {
    var m0 := Submit(m, root, maxLevel, edges, gen, oldPba);
    var g := SubmitEstablishesInv(c, disk, m, root, maxLevel, edges, gen, oldPba, t);
    assert FrameAt(c, disk, m0, g, maxLevel);
    assert Traced(m0, g, t, []) by {
      forall p ensures TracedAt(m0, g, t, [], p) {
        AtMostOne(c, disk, m0, g, t, p);
        assert Balanced(m0, g, t, p);
      }
    }
    RunIsRecorded(c, disk, m0, t, [], n);
    TraceFollowsRun(c, m0, disk, [], n);
    RoundsKeepParameters(c, m0, disk, n);
    var (m', disk', ops) := TracedRounds(c, m0, disk, [], n);
    u := Nil;
    if exists v :: Complete(c, disk', m', t, ops, v) {
      u :| Complete(c, disk', m', t, ops, u);
    }
  }
}
