/** When a meta tree request succeeds.

    Every node that takes part in an exchange uses up one usable leaf entry below it;
    what the usable entries leave over flows up to the parent, and in the end to the
    requester.  Within a request this flow is constant until the request is served. */
module MetaTreeSuccess {
  import opened NodeCodec
  import opened HashTree
  import opened MetaTreeSpec
  import opened MetaTreeParameters
  import opened MetaTreeInv
  import opened MetaTreeSteps
  import opened MetaTreeDescend
  import opened MetaTreeAscend
  import opened MetaTreeTheorems
  import opened Iteration
  import X = MetaTreeExchange
  import W = MetaTreeWriteBack

  // ------------------------------------------------------- surplus of usable entries

  function UsableCount(ls: seq<T2>, gen: U64): nat
  {
    if ls == [] then 0 else (if UsableEntry(ls[0], gen) then 1 else 0) + UsableCount(ls[1..], gen)
  }

  /** A node that takes part in an exchange takes one of n entries. */
  function Less(n: nat, own: bool): nat
  {
    if own && n > 0 then n - 1 else n
  }

  /** Whether the children of a node take part in exchanges. */
  predicate Current(nodeGen: U64, gen: U64)
  {
    nodeGen != 0 && nodeGen == gen
  }

  /** The usable entries that a subtree leaves to its parent, if `own` tells whether
      its root takes part in an exchange. */
  function Surplus(t: Tree, edges: nat, gen: U64, own: bool): nat
    requires ValidDegree(edges)
    decreases t, 1
  {
    match t
    case Nil => 0
    case Leafs(_, ls) => Less(UsableCount(ls[..edges], gen), own)
    case Inner(n, _, kids) => KidsSurplus(kids, edges, gen, n.gen, own)
  }

  /** The node turns to the current generation once it has exchanged its address; the
      scan of its children ends at the first gap. */
  function KidsSurplus(kids: seq<Tree>, edges: nat, gen: U64, nodeGen: U64, own: bool): nat
    requires ValidDegree(edges)
    decreases kids, 0
  {
    if kids == [] || kids[0].Nil? then 0
    else
      var s := Surplus(kids[0], edges, gen, Current(nodeGen, gen));
      if own && s > 0 then s - 1 + KidsSurplus(kids[1..], edges, gen, gen, false)
      else s + KidsSurplus(kids[1..], edges, gen, nodeGen, own)
  }

  // --------------------------------------------------------------- flow up the path

  function From(ts: seq<Tree>, i: nat): seq<Tree>
  {
    if i <= |ts| then ts[i..] else []
  }

  /** What leaves a level if s comes from the child under work. */
  function Through(f: T1Info, ks: seq<Tree>, edges: nat, gen: U64, s: nat): nat
    requires ValidDegree(edges)
  {
    var rest := From(ks, f.index + 1);
    if !f.isVolatile && s > 0 then s - 1 + KidsSurplus(rest, edges, gen, gen, false)
    else s + KidsSurplus(rest, edges, gen, f.node.gen, !f.isVolatile)
  }

  function Upward(ls: seq<T1Info>, ks: seq<seq<Tree>>, edges: nat, gen: U64, lo: nat, hi: nat, s: nat): nat
    requires ValidDegree(edges) && hi < |ls| == |ks|
    decreases hi + 1 - lo
  {
    if lo > hi then s else Upward(ls, ks, edges, gen, lo + 1, hi, Through(ls[lo], ks[lo], edges, gen, s))
  }

  /** What leaves an inner node under work. */
  function NodeFlow(f: T1Info, ks: seq<Tree>, edges: nat, gen: U64): nat
    requires ValidDegree(edges)
  {
    match f.state
    case Read => KidsSurplus(ks, edges, gen, f.node.gen, !f.isVolatile)
    case ReadComplete => KidsSurplus(From(ks, f.index), edges, gen, f.node.gen, !f.isVolatile)
    case _ => 0
  }

  function LeafFlow(f: T2Info, o: Tree, edges: nat, gen: U64): nat
    requires ValidDegree(edges)
  {
    match f.state
    case Read => Surplus(o, edges, gen, !f.isVolatile)
    case ReadComplete => Less(UsableCount(f.entries[..edges], gen), !f.isVolatile)
    case _ => 0
  }

  function LowFlow(m: Mt, g: Ghost): nat
    requires Sized(m, g)
  {
    if g.low == 1 then LeafFlow(m.level1, g.orig[1], m.edges, m.gen)
    else NodeFlow(m.levels[g.low], g.kids[g.low], m.edges, m.gen)
  }

  /** The usable entries that are left for the requester. */
  function Flow(m: Mt, g: Ghost): nat
    requires Sized(m, g)
  {
    Upward(m.levels, g.kids, m.edges, m.gen, g.low + 1, m.maxLevel, LowFlow(m, g))
  }

  /** s is what the tree had left for the requester in the beginning. */
  ghost predicate Promise(m: Mt, g: Ghost, s: nat)
    requires Sized(m, g)
  {
    if m.finished then s > 0 else Flow(m, g) == s
  }

  lemma {:induction false} UpwardFrame(ls: seq<T1Info>, ks: seq<seq<Tree>>, ls': seq<T1Info>, ks': seq<seq<Tree>>,
                                       edges: nat, gen: U64, lo: nat, hi: nat, s: nat)
    requires ValidDegree(edges) && hi < |ls| == |ks| == |ls'| == |ks'|
    requires forall k | lo <= k <= hi ::
      ls'[k].index == ls[k].index && ls'[k].node == ls[k].node && ls'[k].isVolatile == ls[k].isVolatile && ks'[k] == ks[k]
    ensures Upward(ls', ks', edges, gen, lo, hi, s) == Upward(ls, ks, edges, gen, lo, hi, s)
    decreases hi + 1 - lo
  {
    if lo <= hi {
      UpwardFrame(ls, ks, ls', ks', edges, gen, lo + 1, hi, Through(ls[lo], ks[lo], edges, gen, s));
    }
  }

  lemma UpwardStep(ls: seq<T1Info>, ks: seq<seq<Tree>>, edges: nat, gen: U64, lo: nat, hi: nat, s: nat, s': nat)
    requires ValidDegree(edges) && lo <= hi < |ls| == |ks| && s' == Through(ls[lo], ks[lo], edges, gen, s)
    ensures Upward(ls, ks, edges, gen, lo, hi, s) == Upward(ls, ks, edges, gen, lo + 1, hi, s')
  {
  }

  lemma ThroughPasses(f: T1Info, ks: seq<Tree>, edges: nat, gen: U64, s: nat)
    requires ValidDegree(edges) && f.isVolatile && s > 0
    ensures Through(f, ks, edges, gen, s) > 0 && Through(f, ks, edges, gen, s) == Through(f, ks, edges, gen, s - 1) + 1
  {
  }

  lemma ThroughTakes(f: T1Info, f': T1Info, ks: seq<Tree>, edges: nat, gen: U64, s: nat)
    requires ValidDegree(edges) && s > 0
    requires !f.isVolatile && f'.isVolatile && f'.node.gen == gen && f'.index == f.index
    ensures Through(f', ks, edges, gen, s - 1) == Through(f, ks, edges, gen, s)
  {
  }

  /** The lowest level that takes part in an exchange takes one entry. */
  lemma {:induction false} UpwardExchange(ls: seq<T1Info>, ks: seq<seq<Tree>>, ls': seq<T1Info>, edges: nat, gen: U64,
                                          lo: nat, l: nat, hi: nat, s: nat)
    requires ValidDegree(edges) && lo <= l <= hi < |ls| == |ks| == |ls'| && s > 0
    requires forall k | lo <= k < l :: ls[k].isVolatile
    requires !ls[l].isVolatile && ls'[l].isVolatile && ls'[l].node.gen == gen && ls'[l].index == ls[l].index
    requires forall k | lo <= k <= hi && k != l :: ls'[k] == ls[k]
    ensures Upward(ls', ks, edges, gen, lo, hi, s - 1) == Upward(ls, ks, edges, gen, lo, hi, s)
    decreases hi + 1 - lo
  {
    var s' := Through(ls[lo], ks[lo], edges, gen, s);
    UpwardStep(ls, ks, edges, gen, lo, hi, s, s');
    if lo < l {
      ThroughPasses(ls[lo], ks[lo], edges, gen, s);
      UpwardStep(ls', ks, edges, gen, lo, hi, s - 1, s' - 1);
      UpwardExchange(ls, ks, ls', edges, gen, lo + 1, l, hi, s');
    } else {
      ThroughTakes(ls[lo], ls'[lo], ks[lo], edges, gen, s);
      UpwardStep(ls', ks, edges, gen, lo, hi, s - 1, s');
      UpwardFrame(ls, ks, ls', ks, edges, gen, lo + 1, hi, s');
    }
  }

  lemma {:induction false} UpwardServes(ls: seq<T1Info>, ks: seq<seq<Tree>>, edges: nat, gen: U64, lo: nat, hi: nat, s: nat)
    requires ValidDegree(edges) && hi < |ls| == |ks| && s > 0
    requires forall k | lo <= k <= hi :: ls[k].isVolatile
    ensures Upward(ls, ks, edges, gen, lo, hi, s) > 0
    decreases hi + 1 - lo
  {
    if lo <= hi {
      UpwardServes(ls, ks, edges, gen, lo + 1, hi, Through(ls[lo], ks[lo], edges, gen, s));
    }
  }

  // ------------------------------------------------------------ scanning leaf entries

  lemma {:induction false} UsableCountUpdate(ls: seq<T2>, i: nat, e: T2, gen: U64)
    requires i < |ls| && UsableEntry(ls[i], gen) && !UsableEntry(e, gen)
    ensures UsableCount(ls, gen) == UsableCount(ls[i := e], gen) + 1
  {
    if i == 0 {
      assert ls[i := e][1..] == ls[1..];
    } else {
      UsableCountUpdate(ls[1..], i - 1, e, gen);
      assert ls[i := e][1..] == ls[1..][i - 1 := e];
    }
  }

  lemma {:induction false} UsableCountZero(ls: seq<T2>, gen: U64)
    ensures UsableCount(ls, gen) == 0 <==> NoneUsableIn(ls, gen)
  {
    if ls != [] {
      UsableCountZero(ls[1..], gen);
      assert NoneUsableIn(ls, gen) <==> !UsableEntry(ls[0], gen) && NoneUsableIn(ls[1..], gen) by {
        forall i | 0 < i < |ls| ensures ls[i] == ls[1..][i - 1] {
        }
      }
    }
  }

  /** One exchange keeps the flow, or serves the requester from it. */
  lemma ExchangeKeepsFlow(m: Mt, g: Ghost, t: Tree, i: nat)
    requires X.Scan(m, g, t, i) && i < m.edges && UsableEntry(m.level1.entries[i], m.gen)
    ensures var r := ExchangeEntry(m, i);
            Sized(r, g) && if r.finished then Flow(m, g) > 0 else Flow(r, g) == Flow(m, g)
  {
    var r := ExchangeEntry(m, i);
    var e' := r.level1.entries[i];
    assert r.level1.entries[..m.edges] == m.level1.entries[..m.edges][i := e'];
    assert !UsableEntry(e', m.gen);
    UsableCountUpdate(m.level1.entries[..m.edges], i, e', m.gen);
    if m.level1.isVolatile {
      ExchangeInner(m, g, t, i);
    } else {
      UpwardFrame(m.levels, g.kids, r.levels, g.kids, m.edges, m.gen, FIRST_N, m.maxLevel, LowFlow(m, g));
    }
  }

  lemma ExchangeInner(m: Mt, g: Ghost, t: Tree, i: nat)
    requires X.Scan(m, g, t, i) && i < m.edges && UsableEntry(m.level1.entries[i], m.gen) && m.level1.isVolatile
    requires LowFlow(m, g) > 0
    requires Sized(ExchangeEntry(m, i), g) && LowFlow(ExchangeEntry(m, i), g) + 1 == LowFlow(m, g)
    ensures var r := ExchangeEntry(m, i);
            if r.finished then Flow(m, g) > 0 else Flow(r, g) == Flow(m, g)
  {
    LowestExchangeable(m, g, t, i);
    var l := FirstExchangeable(m.levels, FIRST_N);
    if l < NR_OF_LEVELS {
      InnerEffect(m, i, l);
      InnerKeepsFlow(m, ExchangeEntry(m, i), g, l);
    } else {
      UpwardServes(m.levels, g.kids, m.edges, m.gen, FIRST_N, m.maxLevel, LowFlow(m, g));
      ServingEffect(m, i);
    }
  }

  lemma ServingEffect(m: Mt, i: nat)
    requires Geometry(m) && i < m.edges && m.level1.isVolatile && FirstExchangeable(m.levels, FIRST_N) == NR_OF_LEVELS
    ensures ExchangeEntry(m, i).finished
  {
  }

  lemma InnerKeepsFlow(m: Mt, r: Mt, g: Ghost, l: nat)
    requires Sized(m, g) && Sized(r, g) && g.low == 1 && r.edges == m.edges && r.maxLevel == m.maxLevel && r.gen == m.gen
    requires FIRST_N <= l <= m.maxLevel && r.levels == m.levels[l := r.levels[l]]
    requires forall k | FIRST_N <= k < l :: m.levels[k].isVolatile
    requires !m.levels[l].isVolatile && r.levels[l].isVolatile && r.levels[l].node.gen == m.gen && r.levels[l].index == m.levels[l].index
    requires LowFlow(r, g) + 1 == LowFlow(m, g)
    ensures Flow(r, g) == Flow(m, g)
  {
    LowestTakes(m, r, g, l, LowFlow(m, g));
    FlowAbove(m, g, LowFlow(m, g));
    FlowAbove(r, g, LowFlow(m, g) - 1);
  }

  /** The flow from the lowest node, through all inner levels. */
  lemma FlowAbove(m: Mt, g: Ghost, s: nat)
    requires Sized(m, g) && g.low == 1 && LowFlow(m, g) == s
    ensures Flow(m, g) == Upward(m.levels, g.kids, m.edges, m.gen, FIRST_N, m.maxLevel, s)
  {
  }

  lemma LowestExchangeable(m: Mt, g: Ghost, t: Tree, i: nat)
    requires X.Scan(m, g, t, i)
    ensures var l := FirstExchangeable(m.levels, FIRST_N);
            && (l <= m.maxLevel || l == NR_OF_LEVELS)
            && (l < NR_OF_LEVELS ==> !m.levels[l].isVolatile)
            && forall k | FIRST_N <= k < l && k <= m.maxLevel :: m.levels[k].isVolatile
  {
  }

  lemma InnerEffect(m: Mt, i: nat, l: nat)
    requires Geometry(m) && i < m.edges && m.level1.isVolatile && l == FirstExchangeable(m.levels, FIRST_N) < NR_OF_LEVELS
    ensures var r := ExchangeEntry(m, i);
            && r.edges == m.edges && r.maxLevel == m.maxLevel && r.gen == m.gen && r.finished == m.finished
            && |r.levels| == |m.levels| && r.levels == m.levels[l := r.levels[l]]
            && r.levels[l].isVolatile && r.levels[l].node.gen == m.gen && r.levels[l].index == m.levels[l].index
  {
  }

  lemma LowestTakes(m: Mt, r: Mt, g: Ghost, l: nat, s: nat)
    requires Sized(m, g) && r.edges == m.edges && r.maxLevel == m.maxLevel && r.gen == m.gen && Sized(r, g)
    requires FIRST_N <= l <= m.maxLevel && s > 0 && r.levels == m.levels[l := r.levels[l]]
    requires forall k | FIRST_N <= k < l :: m.levels[k].isVolatile
    requires !m.levels[l].isVolatile && r.levels[l].isVolatile && r.levels[l].node.gen == m.gen && r.levels[l].index == m.levels[l].index
    ensures Upward(r.levels, g.kids, r.edges, r.gen, FIRST_N, r.maxLevel, s - 1)
         == Upward(m.levels, g.kids, m.edges, m.gen, FIRST_N, m.maxLevel, s)
  {
    UpwardExchange(m.levels, g.kids, r.levels, m.edges, m.gen, FIRST_N, l, m.maxLevel, s);
  }

  lemma {:induction false} ScanKeepsFlow(m: Mt, g: Ghost, t: Tree, i: nat)
    requires X.Scan(m, g, t, i)
    ensures var r := HandleLevel0(m, i).0;
            Sized(r, g) && if r.finished then Flow(m, g) > 0 else Flow(r, g) == Flow(m, g)
    decreases m.edges - i
  {
    if i < m.edges {
      if UsableEntry(m.level1.entries[i], m.gen) {
        X.ExchangeKeepsScan(m, g, t, i);
        ExchangeKeepsFlow(m, g, t, i);
        var m1 := ExchangeEntry(m, i);
        if !m1.finished {
          ScanKeepsFlow(m1, g, t, i + 1);
        }
      } else {
        assert m.level1.entries[..i + 1] == m.level1.entries[..i] + [m.level1.entries[i]];
        ScanKeepsFlow(m, g, t, i + 1);
      }
    }
  }

  // -------------------------------------------------------------------------- rounds

  /** The round keeps the invariant and the promise. */
  ghost predicate Kept(c: Codec, disk: Disk, m: Mt, t: Tree, g': Ghost, s: nat)
    requires CanExecute(m)
  {
    var (m', disk') := Advance(c, m, disk);
    Inv(c, disk', m', g', t) && Promise(m', g', s)
  }

  lemma PromiseAbove(m: Mt, m': Mt, g: Ghost, s: nat)
    requires Sized(m, g) && SameParameters(m, m') && Sized(m', g) && m'.finished == m.finished
    requires forall k | g.low < k <= m.maxLevel ::
      m'.levels[k].index == m.levels[k].index && m'.levels[k].node == m.levels[k].node
      && m'.levels[k].isVolatile == m.levels[k].isVolatile
    requires m.finished || LowFlow(m', g) == LowFlow(m, g)
    ensures Promise(m, g, s) ==> Promise(m', g, s)
  {
    UpwardFrame(m.levels, g.kids, m'.levels, g.kids, m.edges, m.gen, g.low + 1, m.maxLevel, LowFlow(m, g));
  }

  lemma LoadKeepsPromise(c: Codec, disk: Disk, m: Mt, g: Ghost, t: Tree, s: nat)
    requires Inv(c, disk, m, g, t) && StateAt(m, g.low) == Read && Promise(m, g, s)
    ensures CanExecute(m) && Kept(c, disk, m, t, g, s)
  {
    if g.low == 1 {
      Load1Effect(c, disk, m, g, t);
      Load1KeepsInv(c, disk, m, g, t);
      PromiseAbove(m, Loaded1(m, g.orig[1].leaves), g, s);
    } else {
      LoadNEffect(c, disk, m, g, t);
      LoadNKeepsInv(c, disk, m, g, t);
      var m' := LoadedN(m, g.low, g.orig[g.low].entries);
      assert From(g.kids[g.low], 0) == g.kids[g.low];
      PromiseAbove(m, m', g, s);
    }
  }

  /** A scan that has stopped without serving the request left nothing over. */
  lemma StoppedFlow(c: Codec, disk: Disk, m: Mt, g: Ghost, t: Tree)
    requires Inv(c, disk, m, g, t) && g.low >= FIRST_N && StateAt(m, g.low) == ReadComplete
    requires !HasNextChild(m, g.low) && !m.finished
    ensures NodeFlow(m.levels[g.low], g.kids[g.low], m.edges, m.gen) == 0
  {
    var f, ks := m.levels[g.low], g.kids[g.low];
    assert FrameAt(c, disk, m, g, g.low);
    if f.index < m.edges {
      assert EntryOf(f.entries[f.index], ks[f.index]);
      assert Stored(c, disk, ks[f.index], g.low - 1, m.edges);
      assert ks[f.index].Nil?;
    }
  }

  lemma StopKeepsPromise(c: Codec, disk: Disk, m: Mt, g: Ghost, t: Tree, s: nat)
    requires Inv(c, disk, m, g, t) && g.low >= FIRST_N && StateAt(m, g.low) == ReadComplete && !HasNextChild(m, g.low)
    requires Promise(m, g, s)
    ensures CanExecute(m) && Kept(c, disk, m, t, g, s)
  {
    StopNEffect(c, disk, m, g, t);
    StopNKeepsInv(c, disk, m, g, t);
    if !m.finished {
      StoppedFlow(c, disk, m, g, t);
    }
    PromiseAbove(m, StoppedN(m, g.low), g, s);
  }

  lemma EnterKeepsPromise(c: Codec, disk: Disk, m: Mt, g: Ghost, t: Tree, s: nat) returns (g': Ghost)
    requires Enters(c, disk, m, g, t) && Promise(m, g, s)
    ensures CanExecute(m) && Kept(c, disk, m, t, g', s)
  {
    g' := Enter(c, disk, m, g, t);
    var m' := Advance(c, m, disk).0;
    var k :| EntersInto(m, m', g, g', k);
    EnterKeepsFlow(m, m', g, g', k);
  }

  lemma EnterKeepsFlow(m: Mt, m': Mt, g: Ghost, g': Ghost, k: Tree)
    requires Sized(m, g) && g.low >= FIRST_N && NodeStates(m, g.low) && EntersInto(m, m', g, g', k)
    requires m.levels[g.low].state == ReadComplete
    ensures Sized(m', g') && m'.finished == m.finished && Flow(m', g') == Flow(m, g)
  {
    var l := g.low;
    var f, ks := m.levels[l], g.kids[l];
    assert LowFlow(m', g') == Surplus(k, m.edges, m.gen, Current(f.node.gen, m.gen));
    OpenedHoleFlow(f, ks, m.edges, m.gen);
    assert m'.levels[l] == f && g'.kids[l] == ks[f.index := Nil];
    UpwardStep(m'.levels, g'.kids, m.edges, m.gen, l, m.maxLevel, LowFlow(m', g'), LowFlow(m, g));
    UpwardFrame(m.levels, g.kids, m'.levels, g'.kids, m.edges, m.gen, l + 1, m.maxLevel, LowFlow(m, g));
  }

  lemma OpenedHoleFlow(f: T1Info, ks: seq<Tree>, edges: nat, gen: U64)
    requires ValidDegree(edges) && f.state == ReadComplete && f.index < |ks| && !ks[f.index].Nil?
    ensures var s := Surplus(ks[f.index], edges, gen, Current(f.node.gen, gen));
            Through(f, ks[f.index := Nil], edges, gen, s) == NodeFlow(f, ks, edges, gen)
  {
    assert From(ks, f.index)[0] == ks[f.index] && From(ks, f.index)[1..] == From(ks, f.index + 1);
    assert From(ks[f.index := Nil], f.index + 1) == From(ks, f.index + 1);
  }

  lemma ScanKeepsPromise(c: Codec, disk: Disk, m: Mt, g: Ghost, t: Tree, s: nat)
    requires Inv(c, disk, m, g, t) && g.low == 1 && StateAt(m, 1) == ReadComplete && Promise(m, g, s)
    ensures CanExecute(m) && Kept(c, disk, m, t, g, s)
  {
    InvCanExecute(c, disk, m, g, t);
    X.Exchange(c, disk, m, g, t);
    X.ScanStarts(c, disk, m, g, t);
    X.ScanEntries(m, g, t, 0);
    ScanKeepsFlow(m, g, t, 0);
    var r := HandleLevel0(m, 0).0;
    var m' := Advance(c, m, disk).0;
    HandleLevel0KeepsRequest(m, 0);
    assert m' == r.(level1 := m'.level1) && m'.level1 == r.level1.(state := m'.level1.state);
    if !r.finished {
      UsableCountZero(r.level1.entries[..m.edges], m.gen);
      PromiseAbove(r, m', g, s);
    }
  }

  lemma WriteKeepsPromise(c: Codec, disk: Disk, m: Mt, g: Ghost, t: Tree, s: nat)
    requires W.WritesBack(c, disk, m, g, t) && Promise(m, g, s)
    ensures CanExecute(m) && Kept(c, disk, m, t, g, s)
  {
    W.WriteBackEffect(c, disk, m, g, t);
    W.WriteBack(c, disk, m, g, t);
    WrittenFlow(c, m, g);
    PromiseAbove(m, W.WrittenBack(c, m, g.low), g, s);
  }

  lemma WrittenFlow(c: Codec, m: Mt, g: Ghost)
    requires Sized(m, g) && StateAt(m, g.low) == Write
    requires g.low < m.maxLevel ==> m.levels[g.low + 1].index < NODES_PER_BLOCK
    ensures var m' := W.WrittenBack(c, m, g.low);
            && Sized(m', g) && SameParameters(m, m') && LowFlow(m', g) == LowFlow(m, g) == 0 && m'.finished == m.finished
            && forall k | g.low < k <= m.maxLevel ::
                 m'.levels[k].index == m.levels[k].index && m'.levels[k].node == m.levels[k].node
                 && m'.levels[k].isVolatile == m.levels[k].isVolatile
  {
    forall k | g.low < k <= m.maxLevel
      ensures W.WrittenBack(c, m, g.low).levels[k] == if k == g.low + 1 then W.UpdatedParent(c, m, g.low) else m.levels[k]
    {
    }
  }

  lemma AscendKeepsPromise(c: Codec, disk: Disk, m: Mt, g: Ghost, t: Tree, s: nat) returns (g': Ghost)
    requires LeavesNode(c, disk, m, g, t) && g.low < m.maxLevel && Promise(m, g, s)
    ensures CanExecute(m) && Kept(c, disk, m, t, g', s)
  {
    g' := MetaTreeAscend.Ascend(c, disk, m, g, t);
    AscendKeepsFlow(m, Advance(c, m, disk).0, g, g', LowTree(c, m, g));
  }

  lemma AscendKeepsFlow(m: Mt, m': Mt, g: Ghost, g': Ghost, u: Tree)
    requires Sized(m, g) && NodeStates(m, g.low) && AscendsTo(m, m', g, g', u)
    ensures Sized(m', g') && m'.finished == m.finished && Flow(m', g') == Flow(m, g)
  {
    var q := g.low + 1;
    assert m'.levels[q] == m.levels[q].(index := m.levels[q].index + 1);
    FilledHoleFlow(m.levels[q], g.kids[q], u, m.edges, m.gen);
    assert LowFlow(m, g) == 0;
    assert LowFlow(m', g') == Through(m.levels[q], g.kids[q], m.edges, m.gen, 0);
    UpwardFrame(m.levels, g.kids, m'.levels, g'.kids, m.edges, m.gen, q + 1, m.maxLevel, LowFlow(m', g'));
  }

  lemma FilledHoleFlow(f: T1Info, ks: seq<Tree>, u: Tree, edges: nat, gen: U64)
    requires ValidDegree(edges) && f.state == ReadComplete && f.index < |ks|
    ensures NodeFlow(f.(index := f.index + 1), ks[f.index := u], edges, gen) == Through(f, ks, edges, gen, 0)
  {
    assert From(ks[f.index := u], f.index + 1) == From(ks, f.index + 1);
  }

  // ---------------------------------------------------------------------- whole runs

  ghost predicate Promised(c: Codec, disk: Disk, m: Mt, t: Tree, s: nat)
  {
    exists g :: Inv(c, disk, m, g, t) && Promise(m, g, s)
  }

  /** A complete request succeeded if and only if something was left for it. */
  predicate Fulfilled(m: Mt, s: nat)
  {
    m.state == Done && (m.success <==> s > 0)
  }

  /** The last round: nothing flows out of a finished node. */
  lemma PromiseEnds(c: Codec, disk: Disk, m: Mt, g: Ghost, t: Tree, s: nat)
    requires LeavesNode(c, disk, m, g, t) && g.low == m.maxLevel && Promise(m, g, s)
    ensures CanExecute(m) && Fulfilled(Advance(c, m, disk).0, s)
  {
    AscendEffect(c, disk, m, g, t);
    assert LowFlow(m, g) == 0;
  }

  lemma PromiseRound(c: Codec, disk: Disk, m: Mt, g: Ghost, t: Tree, s: nat) returns (g': Ghost)
    requires Inv(c, disk, m, g, t) && Promise(m, g, s) && !(MetaTreeAscend.Finished(m, g.low) && g.low == m.maxLevel)
    ensures CanExecute(m) && Kept(c, disk, m, t, g', s)
  {
    g' := g;
    if StateAt(m, g.low) == Read {
      LoadKeepsPromise(c, disk, m, g, t, s);
    } else if StateAt(m, g.low) == Write {
      WriteKeepsPromise(c, disk, m, g, t, s);
    } else if StateAt(m, g.low) != ReadComplete {
      g' := AscendKeepsPromise(c, disk, m, g, t, s);
    } else if g.low == 1 {
      ScanKeepsPromise(c, disk, m, g, t, s);
    } else if HasNextChild(m, g.low) {
      g' := EnterKeepsPromise(c, disk, m, g, t, s);
    } else {
      StopKeepsPromise(c, disk, m, g, t, s);
    }
  }

  lemma RoundKeepsPromise(c: Codec, disk: Disk, m: Mt, t: Tree, s: nat)
    requires Promised(c, disk, m, t, s)
    ensures var (m', disk') := Stepper(c)((m, disk));
            Promised(c, disk', m', t, s) || Fulfilled(m', s)
  {
    var g :| Inv(c, disk, m, g, t) && Promise(m, g, s);
    if MetaTreeAscend.Finished(m, g.low) && g.low == m.maxLevel {
      PromiseEnds(c, disk, m, g, t, s);
    } else {
      var g' := PromiseRound(c, disk, m, g, t, s);
      assert Kept(c, disk, m, t, g', s);
    }
  }

  lemma {:induction false} RunKeepsPromise(c: Codec, disk: Disk, m: Mt, t: Tree, s: nat, n: nat)
    requires Promised(c, disk, m, t, s) || Fulfilled(m, s)
    ensures var (m', disk') := Rounds(c, m, disk, n);
            Promised(c, disk', m', t, s) || Fulfilled(m', s)
    decreases n
  {
    if n > 0 {
      if m.state == Update {
        RoundKeepsPromise(c, disk, m, t, s);
      }
      var (m', disk') := Stepper(c)((m, disk));
      RunKeepsPromise(c, disk', m', t, s, n - 1);
    }
  }

  /** What the tree of a request leaves for the requester. */
  function Available(t: Tree, edges: nat, gen: U64): nat
    requires ValidDegree(edges)
  {
    if t.Nil? then 0 else Surplus(t, edges, gen, Current(t.node.gen, gen))
  }

  /** A complete request has succeeded if and only if the nodes of the tree leave a
      usable entry for it. */
  lemma SucceedsIff(c: Codec, disk: Disk, m: Mt, root: T1, maxLevel: nat, edges: nat, gen: U64, oldPba: U64, t: Tree, n: nat)
    requires Submittable(c, disk, m, root, maxLevel, edges, oldPba, t)
    ensures var (m', disk') := Rounds(c, Submit(m, root, maxLevel, edges, gen, oldPba), disk, n);
            m'.state == Done ==> (m'.success <==> Available(t, edges, gen) > 0)
  {
    var m0 := Submit(m, root, maxLevel, edges, gen, oldPba);
    var g := SubmitEstablishesInv(c, disk, m, root, maxLevel, edges, gen, oldPba, t);
    assert FrameAt(c, disk, m0, g, maxLevel);
    assert Promise(m0, g, Available(t, edges, gen));
    RunKeepsPromise(c, disk, m0, t, Available(t, edges, gen), n);
  }

  // -------------------------------------------------------------- a new generation

  /** In a tree of older generations no node takes part: all usable entries are left. */
  lemma {:induction false} SurplusOfOld(t: Tree, edges: nat, gen: U64)
    requires ValidDegree(edges) && AllOld(t, gen) && GapFree(t)
    ensures Surplus(t, edges, gen, false) == 0 <==> NoneUsable(t, edges, gen)
    decreases t, 1
  {
    match t
    case Nil =>
    case Leafs(n, ls) =>
      UsableCountZero(ls[..edges], gen);
      NoneUsableLeaf(t, edges, gen);
    case Inner(n, _, kids) =>
      KidsSurplusOfOld(kids, edges, gen, n.gen);
      assert forall p :: Uses(t, edges, UsableIn(gen), p) == SumUses(kids, edges, UsableIn(gen), p);
      assert NoneUsable(t, edges, gen) <==> NoneUsableBelow(kids, edges, gen);
  }

  lemma {:induction false} KidsSurplusOfOld(kids: seq<Tree>, edges: nat, gen: U64, nodeGen: U64)
    requires ValidDegree(edges) && nodeGen != gen
    requires forall i | 0 <= i < |kids| :: AllOld(kids[i], gen) && GapFree(kids[i])
    requires forall i, j | 0 <= i < j < |kids| :: kids[i].Nil? ==> kids[j].Nil?
    ensures KidsSurplus(kids, edges, gen, nodeGen, false) == 0 <==> NoneUsableBelow(kids, edges, gen)
    decreases kids, 0
  {
    if kids != [] {
      if kids[0].Nil? {
        forall p ensures SumUses(kids, edges, UsableIn(gen), p) == 0 {
          SumUsesZero(kids, edges, UsableIn(gen), p);
        }
      } else {
        SurplusOfOld(kids[0], edges, gen);
        KidsSurplusOfOld(kids[1..], edges, gen, nodeGen);
        NoneUsableFirst(kids, edges, gen);
      }
    }
  }

  ghost predicate NoneUsableBelow(kids: seq<Tree>, edges: nat, gen: U64)
    requires ValidDegree(edges)
  {
    forall p :: SumUses(kids, edges, UsableIn(gen), p) == 0
  }

  lemma NoneUsableFirst(kids: seq<Tree>, edges: nat, gen: U64)
    requires ValidDegree(edges) && kids != []
    ensures NoneUsableBelow(kids, edges, gen) <==> NoneUsable(kids[0], edges, gen) && NoneUsableBelow(kids[1..], edges, gen)
  {
    assert forall p :: SumUses(kids, edges, UsableIn(gen), p)
                       == Uses(kids[0], edges, UsableIn(gen), p) + SumUses(kids[1..], edges, UsableIn(gen), p);
    if NoneUsableBelow(kids, edges, gen) {
      forall p ensures Uses(kids[0], edges, UsableIn(gen), p) == 0 && SumUses(kids[1..], edges, UsableIn(gen), p) == 0 {
        assert SumUses(kids, edges, UsableIn(gen), p) == 0;
      }
    }
  }

  lemma NoneUsableLeaf(t: Tree, edges: nat, gen: U64)
    requires ValidDegree(edges) && t.Leafs?
    ensures NoneUsableIn(t.leaves[..edges], gen) <==> NoneUsable(t, edges, gen)
  {
    var ls := t.leaves[..edges];
    if NoneUsableIn(ls, gen) {
      NoneUsableLeafs(t.node, t.leaves, edges, gen);
    } else {
      var i :| 0 <= i < |ls| && UsableEntry(ls[i], gen);
      EntriesUsesUpdate(ls, i, ls[i], UsableIn(gen), ls[i].pba);
      assert Uses(t, edges, UsableIn(gen), ls[i].pba) > 0;
    }
  }

  /** The first request of a generation succeeds if and only if some leaf entry is usable. */
  lemma FirstSucceedsIff(c: Codec, disk: Disk, m: Mt, root: T1, maxLevel: nat, edges: nat, gen: U64, oldPba: U64, t: Tree, n: nat)
    requires Submittable(c, disk, m, root, maxLevel, edges, oldPba, t) && AllOld(t, gen) && GapFree(t)
    ensures var (m', disk') := Rounds(c, Submit(m, root, maxLevel, edges, gen, oldPba), disk, n);
            m'.state == Done ==> (m'.success <==> !NoneUsable(t, edges, gen))
  {
    SucceedsIff(c, disk, m, root, maxLevel, edges, gen, oldPba, t, n);
    SurplusOfOld(t, edges, gen);
  }
}
