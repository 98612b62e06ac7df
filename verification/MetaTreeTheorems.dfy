/** What a meta tree request promises, over whole runs and whole generations. */
module MetaTreeTheorems {
  import opened NodeCodec
  import opened HashTree
  import opened MetaTreeSpec
  import opened MetaTreeParameters
  import opened MetaTreeInv
  import opened MetaTreeAscend
  import opened MetaTreeRun
  import opened Iteration
  import W = MetaTreeWriteBack

  // ------------------------------------------------------------------ whole runs

  /** What a caller of Submit provides: a stored tree without shared addresses and
      an old address outside of it. */
  ghost predicate Submittable(c: Codec, disk: Disk, m: Mt, root: T1, maxLevel: nat, edges: nat, oldPba: U64, t: Tree)
  {
    && m.state == Idle && m.request == NoRequest && |m.levels| == NR_OF_LEVELS
    && FIRST_N <= maxLevel < NR_OF_LEVELS && ValidDegree(edges)
    && !t.Nil? && t.node == root && Stored(c, disk, t, maxLevel, edges)
    && oldPba != 0
    && forall p :: Uses(t, edges, Every, p) + (if p == oldPba then 1 else 0) <= 1
  }

  lemma SubmitEstablishesInv(c: Codec, disk: Disk, m: Mt, root: T1, maxLevel: nat, edges: nat, gen: U64, oldPba: U64, t: Tree)
    returns (g: Ghost)
    requires Submittable(c, disk, m, root, maxLevel, edges, oldPba, t)
    ensures var m' := Submit(m, root, maxLevel, edges, gen, oldPba);
            Inv(c, disk, m', g, t) && RoundsLeft(m', g) < TreeCost(t)
  {
    var m' := Submit(m, root, maxLevel, edges, gen, oldPba);
    var trees: seq<Tree> := seq(NR_OF_LEVELS, _ => Nil);
    var kids: seq<seq<Tree>> := seq(NR_OF_LEVELS, _ => []);
    g := Ghost(maxLevel, trees[maxLevel := t], kids[maxLevel := t.kids]);
    assert FrameAt(c, disk, m', g, maxLevel);
    assert PathCost(m'.levels, g.orig, maxLevel, maxLevel + 1, maxLevel) == 0;
    forall p ensures Balanced(m', g, t, p) {
      forall w: Which ensures Total(m', g, w, p) == Uses(t, edges, w, p) {
        assert PathUses(m'.levels, g.kids, edges, maxLevel + 1, maxLevel, w, p) == 0;
      }
      UsableAreUsed(t, edges, gen, p);
    }
  }

  lemma {:induction false} UsableEntriesAreUsed(ls: seq<T2>, gen: U64, p: U64)
    ensures EntriesUses(ls, NodesOnly, p) == 0 && EntriesUses(ls, UsableIn(gen), p) <= EntriesUses(ls, Every, p)
    ensures EntriesUses(ls, MovableIn(gen), p) == EntriesUses(ls, UsableIn(gen), p)
  {
    if ls != [] {
      UsableEntriesAreUsed(ls[1..], gen, p);
    }
  }

  lemma {:induction false} UsableAreUsedSum(ts: seq<Tree>, edges: nat, gen: U64, p: U64)
    requires ValidDegree(edges)
    ensures SumUses(ts, edges, MovableIn(gen), p) == SumUses(ts, edges, NodesOnly, p) + SumUses(ts, edges, UsableIn(gen), p)
    ensures SumUses(ts, edges, MovableIn(gen), p) <= SumUses(ts, edges, Every, p)
    decreases ts, 0
  {
    if ts != [] {
      UsableAreUsed(ts[0], edges, gen, p);
      UsableAreUsedSum(ts[1..], edges, gen, p);
    }
  }

  lemma {:induction false} UsableAreUsed(t: Tree, edges: nat, gen: U64, p: U64)
    requires ValidDegree(edges)
    ensures Uses(t, edges, MovableIn(gen), p) == Uses(t, edges, NodesOnly, p) + Uses(t, edges, UsableIn(gen), p)
    ensures Uses(t, edges, MovableIn(gen), p) <= Uses(t, edges, Every, p)
    decreases t, 1
  {
    match t
    case Nil =>
    case Leafs(_, ls) => UsableEntriesAreUsed(ls[..edges], gen, p);
    case Inner(_, _, kids) => UsableAreUsedSum(kids, edges, gen, p);
  }

  /** One round, as long as the request is not complete. */
  function Stepper(c: Codec): ((Mt, Disk)) -> (Mt, Disk)
  {
    (s: (Mt, Disk)) => if s.0.state != Update || !CanExecute(s.0) then s else Advance(c, s.0, s.1)
  }

  /** n rounds. */
  function Rounds(c: Codec, m: Mt, disk: Disk, n: nat): (Mt, Disk)
  {
    Iterate(Stepper(c), (m, disk), n)
  }

  ghost predicate UnderWay(c: Codec, disk: Disk, m: Mt, t: Tree, k: nat)
  {
    exists g :: Inv(c, disk, m, g, t) && RoundsLeft(m, g) < k
  }

  ghost predicate Finished(c: Codec, disk: Disk, m: Mt, t: Tree)
  {
    m.state == Done && exists u :: Outcome(c, disk, m, t, u)
  }

  lemma StepperMoves(c: Codec, disk: Disk, m: Mt, t: Tree, k: nat)
    requires UnderWay(c, disk, m, t, k)
    ensures var (m', disk') := Stepper(c)((m, disk));
            Finished(c, disk', m', t) || (k > 0 && UnderWay(c, disk', m', t, k - 1))
  {
    var g :| Inv(c, disk, m, g, t) && RoundsLeft(m, g) < k;
    var g', u := Round(c, disk, m, g, t);
    assert Stepper(c)((m, disk)) == Advance(c, m, disk);
  }

  lemma RunEnds(c: Codec, disk: Disk, m: Mt, t: Tree, k: nat, n: nat)
    requires UnderWay(c, disk, m, t, k)
    ensures var (m', disk') := Rounds(c, m, disk, n);
            Finished(c, disk', m', t) || (n <= k && UnderWay(c, disk', m', t, k - n))
  {
    var inv := (s: (Mt, Disk), i: nat) => UnderWay(c, s.1, s.0, t, i);
    var end := (s: (Mt, Disk)) => Finished(c, s.1, s.0, t);
    forall s, i ensures StepFalls(Stepper(c), inv, end, s, i) {
      if inv(s, i) {
        StepperMoves(c, s.1, s.0, t, i);
      }
    }
    IterateEnds(Stepper(c), inv, end, (m, disk), k, n);
  }

  lemma {:induction false} RoundsKeepParameters(c: Codec, m: Mt, disk: Disk, n: nat)
    requires m.request == NoRequest
    ensures SameParameters(m, Rounds(c, m, disk, n).0) && KeepsStale(m, Rounds(c, m, disk, n).0)
    ensures Rounds(c, m, disk, n).0.request == NoRequest
    decreases n
  {
    if n > 0 {
      var (m', disk') := Stepper(c)((m, disk));
      if m.state == Update && CanExecute(m) {
        AdvanceKeepsParameters(c, m, disk);
      }
      RoundsKeepParameters(c, m', disk', n - 1);
    }
  }

  /** Every run of a request completes within TreeCost(t) rounds, and then the new
      root is the root of a stored tree of the same shape that holds the same
      addresses, except that on success the old and the new address changed
      places; on the way no state raises. */
  lemma RequestKeepsHashTree(c: Codec, disk: Disk, m: Mt, root: T1, maxLevel: nat, edges: nat, gen: U64, oldPba: U64, t: Tree, n: nat)
    returns (u: Tree)
    requires Submittable(c, disk, m, root, maxLevel, edges, oldPba, t)
    ensures var (m', disk') := Rounds(c, Submit(m, root, maxLevel, edges, gen, oldPba), disk, n);
            && m'.state != HashMismatch && SameParameters(Submit(m, root, maxLevel, edges, gen, oldPba), m')
            && (n >= TreeCost(t) ==> m'.state == Done)
            && (m'.state == Done ==> Outcome(c, disk', m', t, u))
  {
    var g := SubmitEstablishesInv(c, disk, m, root, maxLevel, edges, gen, oldPba, t);
    var m0 := Submit(m, root, maxLevel, edges, gen, oldPba);
    assert UnderWay(c, disk, m0, t, TreeCost(t));
    RunEnds(c, disk, m0, t, TreeCost(t), n);
    RoundsKeepParameters(c, m0, disk, n);
    var (m', disk') := Rounds(c, m0, disk, n);
    u := Nil;
    if Finished(c, disk', m', t) {
      u :| Outcome(c, disk', m', t, u);
    }
  }

  // ------------------------------------------------- write order within a request

  /** Whenever a round writes a block, that block completes a stored subtree: all
      its children were written before it.  */
  lemma WriteCompletesSubtree(c: Codec, disk: Disk, m: Mt, g: Ghost, t: Tree)
    requires W.WritesBack(c, disk, m, g, t)
    ensures CanExecute(m)
    ensures var (m', disk') := Advance(c, m, disk);
            && Sized(m', g)
            && var u := LowTree(c, m', g);
            && disk' == disk[u.node.pba := W.LowBlock(c, m, g.low)]
            && Stored(c, disk', u, g.low, m.edges)
  {
    W.WriteBackEffect(c, disk, m, g, t);
    W.WriteBack(c, disk, m, g, t);
    CompletedSubtree(c, disk[W.LowNode(m, g.low).pba := W.LowBlock(c, m, g.low)], m, W.WrittenBack(c, m, g.low), g, t);
  }

  lemma CompletedSubtree(c: Codec, disk': Disk, m: Mt, m': Mt, g: Ghost, t: Tree)
    requires Inv(c, disk', m', g, t) && StateAt(m', g.low) == WriteComplete
    requires Geometry(m) && 1 <= g.low <= m.maxLevel && m'.edges == m.edges
    requires g.low < m.maxLevel ==> m.levels[g.low + 1].index < NODES_PER_BLOCK
    requires m' == W.WrittenBack(c, m, g.low)
    ensures var u := LowTree(c, m', g);
            u.node.pba == W.LowNode(m, g.low).pba && Stored(c, disk', u, g.low, m.edges)
  {
    FinishedLow(c, disk', m', g, t);
  }

  // ------------------------------------------------------ a generation of requests

  /** The effect of one request on the addresses of the tree. */
  datatype Exchange = Exchange(oldPba: U64, success: bool, newPba: U64)

  ghost predicate Serves(t: Tree, u: Tree, edges: nat, gen: U64, r: Exchange)
    requires ValidDegree(edges)
  {
    && (forall p :: Uses(t, edges, Every, p) + (if p == r.oldPba then 1 else 0) <= 1)
    && (forall p :: Uses(u, edges, UsableIn(gen), p) + (if r.success && p == r.newPba then 1 else 0)
                    <= Uses(t, edges, UsableIn(gen), p))
    && (forall p :: Uses(u, edges, MovableIn(gen), p) + (if r.success && p == r.newPba then 1 else 0)
                    <= Uses(t, edges, MovableIn(gen), p))
  }

  /** The outcome of a run is what Serves asks for. */
  lemma OutcomeServes(c: Codec, disk: Disk, m: Mt, t: Tree, u: Tree)
    requires Outcome(c, disk, m, t, u)
    requires forall p :: Uses(t, m.edges, Every, p) + (if p == m.oldPba then 1 else 0) <= 1
    ensures Serves(t, u, m.edges, m.gen, Exchange(m.oldPba, m.success, m.newPba))
    ensures forall p :: Uses(u, m.edges, Every, p) + (if m.success && p == m.newPba then 1 else 0) <= 1
  {
    forall p ensures Uses(u, m.edges, Every, p) + (if m.success && p == m.newPba then 1 else 0) <= 1 {
      assert Uses(u, m.edges, Every, p) + Served(m, m.newPba, p) == Uses(t, m.edges, Every, p) + Served(m, m.oldPba, p);
    }
    forall p
      ensures Uses(u, m.edges, UsableIn(m.gen), p) + (if m.success && p == m.newPba then 1 else 0)
              <= Uses(t, m.edges, UsableIn(m.gen), p)
      ensures Uses(u, m.edges, MovableIn(m.gen), p) + (if m.success && p == m.newPba then 1 else 0)
              <= Uses(t, m.edges, MovableIn(m.gen), p)
    {
      assert Uses(u, m.edges, UsableIn(m.gen), p) + Served(m, m.newPba, p) <= Uses(t, m.edges, UsableIn(m.gen), p);
      assert Uses(u, m.edges, MovableIn(m.gen), p) + Served(m, m.newPba, p) <= Uses(t, m.edges, MovableIn(m.gen), p);
    }
  }

  /** trees[k] is the tree before request k of one generation. */
  ghost predicate Generation(trees: seq<Tree>, rs: seq<Exchange>, edges: nat, gen: U64)
    requires ValidDegree(edges)
  {
    && |trees| == |rs| + 1
    && forall k | 0 <= k < |rs| :: Serves(trees[k], trees[k + 1], edges, gen, rs[k])
  }

  lemma {:induction false} UsableOnlyShrinks(trees: seq<Tree>, rs: seq<Exchange>, edges: nat, gen: U64, i: nat, j: nat, p: U64)
    requires ValidDegree(edges) && Generation(trees, rs, edges, gen) && i <= j <= |rs|
    ensures Uses(trees[j], edges, UsableIn(gen), p) <= Uses(trees[i], edges, UsableIn(gen), p)
    decreases j - i
  {
    if i < j {
      assert Serves(trees[i], trees[i + 1], edges, gen, rs[i]);
      UsableOnlyShrinks(trees, rs, edges, gen, i + 1, j, p);
    }
  }

  /** An address that is not usable at some point of a generation is not handed out
      from then on; this covers the addresses of nodes and the returned ones. */
  lemma UnusableIsNeverHandedOut(trees: seq<Tree>, rs: seq<Exchange>, edges: nat, gen: U64, i: nat, j: nat, p: U64)
    requires ValidDegree(edges) && Generation(trees, rs, edges, gen) && i <= j < |rs|
    requires Uses(trees[i], edges, UsableIn(gen), p) == 0
    ensures rs[j].success ==> rs[j].newPba != p
  {
    UsableOnlyShrinks(trees, rs, edges, gen, i, j, p);
    assert Serves(trees[j], trees[j + 1], edges, gen, rs[j]);
  }

  /** Within one generation no address is handed out twice, and no address that was
      given back, or that a node of the tree held, is handed out afterwards.  */
  lemma NoDoubleAllocation(trees: seq<Tree>, rs: seq<Exchange>, edges: nat, gen: U64, i: nat, j: nat)
    requires ValidDegree(edges) && Generation(trees, rs, edges, gen) && i <= j < |rs| && rs[j].success
    ensures rs[i].oldPba != rs[j].newPba
    ensures i < j && rs[i].success ==> rs[i].newPba != rs[j].newPba
    ensures Uses(trees[i], edges, NodesOnly, rs[j].newPba) == 0
  {
    assert Serves(trees[i], trees[i + 1], edges, gen, rs[i]);
    UsableAreUsed(trees[i], edges, gen, rs[i].oldPba);
    UnusableIsNeverHandedOut(trees, rs, edges, gen, i, j, rs[i].oldPba);
    UsableAreUsed(trees[i], edges, gen, rs[j].newPba);
    if Uses(trees[i], edges, NodesOnly, rs[j].newPba) > 0 {
      UnusableIsNeverHandedOut(trees, rs, edges, gen, i, j, rs[j].newPba);
    }
    if i < j && rs[i].success {
      UsableAreUsed(trees[i], edges, gen, rs[i].newPba);
      UnusableIsNeverHandedOut(trees, rs, edges, gen, i + 1, j, rs[i].newPba);
    }
  }
}
