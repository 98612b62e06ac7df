/** Whole runs of a meta tree request: safety, termination, and the outcome. */
module MetaTreeRun {
  import opened NodeCodec
  import opened HashTree
  import opened MetaTreeSpec
  import opened MetaTreeInv
  import opened MetaTreeSteps
  import opened MetaTreeDescend
  import opened MetaTreeExchange
  import opened MetaTreeWriteBack
  import opened MetaTreeAscend

  // ----------------------------------------------------------- rounds left to do

  function TreeCost(t: Tree): nat
    decreases t, 1
  {
    match t
    case Nil => 0
    case Leafs(_, _) => 6
    case Inner(_, _, kids) => 7 + SumCost(kids)
  }

  function SumCost(ts: seq<Tree>): nat
    decreases ts, 0
  {
    if ts == [] then 0 else TreeCost(ts[0]) + SumCost(ts[1..])
  }

  function KidsOf(t: Tree): seq<Tree>
  {
    if t.Inner? then t.kids else []
  }

  function SumFrom(ts: seq<Tree>, i: nat): nat
  {
    if i <= |ts| then SumCost(ts[i..]) else 0
  }

  function LevelCost(state: InfoState, index: nat, o: Tree, hole: bool): nat
  {
    match state
    case Invalid => 0
    case Read => 6 + SumCost(KidsOf(o))
    case ReadComplete => 4 + SumFrom(KidsOf(o), if hole then index + 1 else index)
    case Write => 2
    case WriteComplete => 1
    case Complete => 1
  }

  function Level1Cost(state: InfoState): nat
  {
    match state
    case Invalid => 0
    case Read => 5
    case ReadComplete => 4
    case Write => 2
    case WriteComplete => 1
    case Complete => 1
  }

  function PathCost(levels: seq<T1Info>, orig: seq<Tree>, low: nat, lo: nat, hi: nat): nat
    requires hi < |levels| == |orig|
    decreases hi + 1 - lo
  {
    if lo > hi then 0
    else LevelCost(levels[lo].state, levels[lo].index, orig[lo], lo > low) + PathCost(levels, orig, low, lo + 1, hi)
  }

  /** An upper bound on the rounds a request still takes. */
  function RoundsLeft(m: Mt, g: Ghost): nat
    requires Sized(m, g)
  {
    Level1Cost(m.level1.state) + PathCost(m.levels, g.orig, g.low, if g.low == 1 then FIRST_N else g.low, m.maxLevel)
  }

  lemma {:induction false} PathCostFrame(ls: seq<T1Info>, os: seq<Tree>, low: nat, ls': seq<T1Info>, os': seq<Tree>, low': nat,
                                         lo: nat, hi: nat)
    requires hi < |ls| == |os| == |ls'| == |os'|
    requires low == low' || (low < lo && low' < lo)
    requires forall k | lo <= k <= hi :: ls[k].state == ls'[k].state && ls[k].index == ls'[k].index && os[k] == os'[k]
    ensures PathCost(ls, os, low, lo, hi) == PathCost(ls', os', low', lo, hi)
    decreases hi + 1 - lo
  {
    if lo <= hi {
      PathCostFrame(ls, os, low, ls', os', low', lo + 1, hi);
    }
  }

  lemma SumFromNext(ts: seq<Tree>, i: nat)
    requires i < |ts|
    ensures SumFrom(ts, i) == TreeCost(ts[i]) + SumFrom(ts, i + 1)
  {
    assert ts[i..][1..] == ts[i + 1..];
  }

  lemma EnterCosts(m: Mt, m': Mt, g: Ghost, g': Ghost, k: Tree)
    requires Sized(m, g) && g.low >= FIRST_N && NodeStates(m, g.low) && EntersInto(m, m', g, g', k)
    requires m.levels[g.low].state == ReadComplete
    ensures Sized(m', g') && RoundsLeft(m', g') < RoundsLeft(m, g)
  {
    var l := g.low;
    SumFromNext(g.orig[l].kids, m.levels[l].index);
    PathCostFrame(m.levels, g.orig, g.low, m'.levels, g'.orig, g'.low, l + 1, m.maxLevel);
    assert LevelCost(m.levels[l].state, m.levels[l].index, g.orig[l], false)
        == LevelCost(m'.levels[l].state, m'.levels[l].index, g'.orig[l], true) + TreeCost(k);
    assert PathCost(m.levels, g.orig, g.low, l, m.maxLevel)
        == PathCost(m'.levels, g'.orig, g'.low, l, m.maxLevel) + TreeCost(k);
    if l > FIRST_N {
      assert LevelCost(m'.levels[l - 1].state, m'.levels[l - 1].index, g'.orig[l - 1], false) == 6 + SumCost(k.kids);
    }
  }

  lemma AscendCosts(m: Mt, m': Mt, g: Ghost, g': Ghost, u: Tree)
    requires Sized(m, g) && NodeStates(m, g.low) && AscendsTo(m, m', g, g', u)
    ensures Sized(m', g') && RoundsLeft(m', g') < RoundsLeft(m, g)
  {
    var q := g.low + 1;
    PathCostFrame(m.levels, g.orig, g.low, m'.levels, g'.orig, g'.low, q + 1, m.maxLevel);
    assert PathCost(m.levels, g.orig, g.low, q, m.maxLevel) == PathCost(m'.levels, g'.orig, g'.low, q, m.maxLevel);
  }

  /** Rounds that stay at the lowest node under work. */
  lemma StayCosts(m: Mt, m': Mt, g: Ghost)
    requires Sized(m, g) && OnlyLowMoves(m, m', g.low)
    requires g.low == 1 ==> Level1Cost(m'.level1.state) < Level1Cost(m.level1.state)
    requires g.low != 1 ==>
      && m'.level1.state == m.level1.state
      && LevelCost(m'.levels[g.low].state, m'.levels[g.low].index, g.orig[g.low], false)
         < LevelCost(m.levels[g.low].state, m.levels[g.low].index, g.orig[g.low], false)
    ensures RoundsLeft(m', g) < RoundsLeft(m, g)
  {
    PathCostFrame(m.levels, g.orig, g.low, m'.levels, g.orig, g.low, if g.low == 1 then FIRST_N else g.low + 1, m.maxLevel);
  }

  // ------------------------------------------------------------------ one round

  /** The round ended in a state with the invariant, closer to the end. */
  ghost predicate Progressed(c: Codec, disk: Disk, m: Mt, g: Ghost, t: Tree, g': Ghost)
    requires Sized(m, g) && CanExecute(m)
  {
    var (m', disk') := Advance(c, m, disk);
    Inv(c, disk', m', g', t) && RoundsLeft(m', g') < RoundsLeft(m, g)
  }

  lemma RoundRead(c: Codec, disk: Disk, m: Mt, g: Ghost, t: Tree)
    requires Inv(c, disk, m, g, t) && StateAt(m, g.low) == Read
    ensures CanExecute(m) && Progressed(c, disk, m, g, t, g)
  {
    if g.low == 1 {
      Load1Effect(c, disk, m, g, t);
      Load1KeepsInv(c, disk, m, g, t);
      StayCosts(m, Loaded1(m, g.orig[1].leaves), g);
    } else {
      LoadNEffect(c, disk, m, g, t);
      LoadNKeepsInv(c, disk, m, g, t);
      StayCosts(m, LoadedN(m, g.low, g.orig[g.low].entries), g);
    }
  }

  lemma RoundStop(c: Codec, disk: Disk, m: Mt, g: Ghost, t: Tree)
    requires Inv(c, disk, m, g, t) && g.low >= FIRST_N && StateAt(m, g.low) == ReadComplete && !HasNextChild(m, g.low)
    ensures CanExecute(m) && Progressed(c, disk, m, g, t, g)
  {
    StopNEffect(c, disk, m, g, t);
    StopNKeepsInv(c, disk, m, g, t);
    StayCosts(m, StoppedN(m, g.low), g);
  }

  lemma RoundEnter(c: Codec, disk: Disk, m: Mt, g: Ghost, t: Tree) returns (g': Ghost)
    requires Enters(c, disk, m, g, t)
    ensures CanExecute(m) && Progressed(c, disk, m, g, t, g')
  {
    g' := Enter(c, disk, m, g, t);
    var k :| EntersInto(m, Advance(c, m, disk).0, g, g', k);
    EnterCosts(m, Advance(c, m, disk).0, g, g', k);
  }

  lemma RoundScan(c: Codec, disk: Disk, m: Mt, g: Ghost, t: Tree) returns (g': Ghost)
    requires Inv(c, disk, m, g, t) && StateAt(m, g.low) == ReadComplete
    ensures CanExecute(m) && Progressed(c, disk, m, g, t, g')
  {
    g' := g;
    if g.low == 1 {
      Exchange(c, disk, m, g, t);
      StayCosts(m, Advance(c, m, disk).0, g);
    } else if HasNextChild(m, g.low) {
      g' := RoundEnter(c, disk, m, g, t);
    } else {
      RoundStop(c, disk, m, g, t);
    }
  }

  lemma RoundWrite(c: Codec, disk: Disk, m: Mt, g: Ghost, t: Tree)
    requires Inv(c, disk, m, g, t) && StateAt(m, g.low) == Write
    ensures CanExecute(m) && Progressed(c, disk, m, g, t, g)
  {
    WriteBack(c, disk, m, g, t);
    StayCosts(m, Advance(c, m, disk).0, g);
  }

  /** A round keeps the invariant and comes closer to the end, or it ends the request. */
  lemma Round(c: Codec, disk: Disk, m: Mt, g: Ghost, t: Tree) returns (g': Ghost, u: Tree)
    requires Inv(c, disk, m, g, t)
    ensures CanExecute(m)
    ensures Progressed(c, disk, m, g, t, g')
         || (Advance(c, m, disk).0.state == Done && Outcome(c, Advance(c, m, disk).1, Advance(c, m, disk).0, t, u))
  {
    g', u := g, Nil;
    if StateAt(m, g.low) == Read {
      RoundRead(c, disk, m, g, t);
    } else if StateAt(m, g.low) == ReadComplete {
      g' := RoundScan(c, disk, m, g, t);
    } else if StateAt(m, g.low) == Write {
      RoundWrite(c, disk, m, g, t);
    } else if g.low < m.maxLevel {
      g' := MetaTreeAscend.Ascend(c, disk, m, g, t);
      AscendCosts(m, Advance(c, m, disk).0, g, g', LowTree(c, m, g));
    } else {
      CompleteRequest(c, disk, m, g, t);
      u := LowTree(c, m, g);
    }
  }
}
