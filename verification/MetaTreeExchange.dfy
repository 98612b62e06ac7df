/** Exchanging addresses at the level 1 node keeps the invariant. */
module MetaTreeExchange {
  import opened NodeCodec
  import opened HashTree
  import opened MetaTreeSpec
  import opened MetaTreeInv
  import opened MetaTreeSteps

  /** State of the scan over the leaf entries, before entry i; o is the level 1
      node as it was read. */
  ghost predicate Scan(m: Mt, g: Ghost, t: Tree, i: nat)
  {
    && Sized(m, g) && g.low == 1 && g.orig[1].Leafs? && m.level1.state == ReadComplete
    && i <= m.edges
    && m.level1.node.pba != 0 && m.oldPba != 0 && !m.finished && !m.success
    && (forall l | FIRST_N <= l <= m.maxLevel :: m.levels[l].node.pba != 0)
    && (forall l | m.maxLevel < l < NR_OF_LEVELS :: m.levels[l].node == T1_INVALID)
    && LeafEntriesOk(m.level1.entries[..m.edges])
    && EntriesRenewed(g.orig[1].leaves, m.level1.entries, m.edges, m.gen)
    && NoneUsableIn(m.level1.entries[..i], m.gen)
    && (forall p :: Balanced(m, g, t, p))
  }

  /** What the scan leaves alone. */
  ghost predicate Rescanned(m: Mt, r: Mt)
    requires |m.levels| == NR_OF_LEVELS
  {
    && |r.levels| == NR_OF_LEVELS
    && r == m.(level1 := r.level1, levels := r.levels, success := r.success, finished := r.finished, newPba := r.newPba)
    && r.level1.state == m.level1.state
    && (forall l | 0 <= l < NR_OF_LEVELS ::
          && r.levels[l] == m.levels[l].(node := r.levels[l].node, isVolatile := r.levels[l].isVolatile)
          && (m.levels[l].node.pba != 0 ==> r.levels[l].node.pba != 0)
          && (m.levels[l].node == T1_INVALID ==> r.levels[l] == m.levels[l]))
  }

  /** The exchanged entry and the place that took over its address. */
  lemma ExchangeKeepsTotal(m: Mt, g: Ghost, t: Tree, i: nat, w: Which, p: U64)
    requires Scan(m, g, t, i) && i < m.edges && UsableEntry(m.level1.entries[i], m.gen)
    ensures var r := ExchangeEntry(m, i);
            var e, e' := m.level1.entries[i], r.level1.entries[i];
            && e'.pba != 0 && e'.allocGen == m.gen
            && Sized(r, g)
            && Total(r, g, w, p) + EntryUses(e, w, p) + (if r.finished || w.UsableIn? then 0 else if e'.pba == p then 1 else 0)
            == Total(m, g, w, p) + EntryUses(e', w, p) + (if r.finished || w.UsableIn? then 0 else if e.pba == p then 1 else 0)
            && (r.finished ==> e'.pba == m.oldPba && r.newPba == e.pba)
  {
    var r := ExchangeEntry(m, i);
    var es, e' := m.level1.entries, r.level1.entries[i];
    var l := FirstExchangeable(m.levels, FIRST_N);
    assert r.level1.entries[..m.edges] == es[..m.edges][i := e'];
    EntriesUsesUpdate(es[..m.edges], i, e', w, p);
    if m.level1.isVolatile && l < NR_OF_LEVELS {
      PathUsesExchange(m.levels, g.kids, r.levels, m.edges, FIRST_N, l, m.maxLevel, w, p);
    } else {
      PathUsesFrame(m.levels, g.kids, r.levels, g.kids, m.edges, FIRST_N, m.maxLevel, w, p);
    }
  }

  /** What may still be handed out only becomes less. */
  lemma ExchangeLowers(m: Mt, g: Ghost, t: Tree, i: nat, w: Which, p: U64)
    requires Scan(m, g, t, i) && i < m.edges && UsableEntry(m.level1.entries[i], m.gen)
    requires w == UsableIn(m.gen) || w == MovableIn(m.gen)
    ensures var r := ExchangeEntry(m, i);
            Sized(r, g) && Total(r, g, w, p) + Served(r, r.newPba, p) <= Total(m, g, w, p)
  {
    ExchangeKeepsTotal(m, g, t, i, w, p);
  }

  lemma ExchangeConserves(m: Mt, g: Ghost, t: Tree, i: nat, p: U64)
    requires Scan(m, g, t, i) && i < m.edges && UsableEntry(m.level1.entries[i], m.gen)
    ensures var r := ExchangeEntry(m, i);
            Sized(r, g) && Total(r, g, Every, p) + Served(r, r.newPba, p) == Total(m, g, Every, p) + Served(r, m.oldPba, p)
  {
    ExchangeKeepsTotal(m, g, t, i, Every, p);
  }

  lemma ExchangeKeepsBalance(m: Mt, g: Ghost, t: Tree, i: nat, p: U64)
    requires Scan(m, g, t, i) && i < m.edges && UsableEntry(m.level1.entries[i], m.gen)
    ensures Sized(ExchangeEntry(m, i), g) && Balanced(ExchangeEntry(m, i), g, t, p)
  {
    assert Balanced(m, g, t, p);
    ExchangeConserves(m, g, t, i, p);
    ExchangeLowers(m, g, t, i, UsableIn(m.gen), p);
    ExchangeLowers(m, g, t, i, MovableIn(m.gen), p);
  }

  lemma ExchangeRescans(m: Mt, g: Ghost, t: Tree, i: nat)
    requires Scan(m, g, t, i) && i < m.edges && UsableEntry(m.level1.entries[i], m.gen)
    ensures Rescanned(m, ExchangeEntry(m, i)) && ExchangeEntry(m, i).level1.node.pba != 0
  {
    var l := FirstExchangeable(m.levels, FIRST_N);
    assert m.level1.entries[..m.edges][i] == m.level1.entries[i];
  }

  lemma ExchangeKeepsScan(m: Mt, g: Ghost, t: Tree, i: nat)
    requires Scan(m, g, t, i) && i < m.edges && UsableEntry(m.level1.entries[i], m.gen)
    ensures var r := ExchangeEntry(m, i); Rescanned(m, r) && (!r.finished ==> Scan(r, g, t, i + 1))
    ensures ExchangeEntry(m, i).finished ==> Exchanged(ExchangeEntry(m, i), g, t)
  {
    var r := ExchangeEntry(m, i);
    ExchangeKeepsTotal(m, g, t, i, Every, 0);
    ExchangeRescans(m, g, t, i);
    assert LeafEntriesOk(r.level1.entries[..m.edges]) by {
      assert r.level1.entries[..m.edges] == m.level1.entries[..m.edges][i := r.level1.entries[i]];
    }
    assert r.level1.entries[..i + 1] == m.level1.entries[..i] + [r.level1.entries[i]];
    forall p ensures Balanced(r, g, t, p) {
      ExchangeKeepsBalance(m, g, t, i, p);
    }
  }

  /** What holds after the scan, whether or not it served the request. */
  ghost predicate Exchanged(r: Mt, g: Ghost, t: Tree)
  {
    && Sized(r, g) && g.low == 1 && g.orig[1].Leafs?
    && r.level1.node.pba != 0 && r.success == r.finished
    && LeafEntriesOk(r.level1.entries[..r.edges])
    && EntriesRenewed(g.orig[1].leaves, r.level1.entries, r.edges, r.gen)
    && (!r.finished ==> NoneUsableIn(r.level1.entries[..r.edges], r.gen))
    && (forall p :: Balanced(r, g, t, p))
  }

  lemma {:induction false} ScanEntries(m: Mt, g: Ghost, t: Tree, i: nat)
    requires Scan(m, g, t, i)
    ensures var (r, handled) := HandleLevel0(m, i);
            && Rescanned(m, r) && Exchanged(r, g, t)
            && (!handled ==> r == m && NoneUsableIn(m.level1.entries[..m.edges], m.gen))
    decreases m.edges - i
  {
    if i < m.edges {
      if UsableEntry(m.level1.entries[i], m.gen) {
        ExchangeKeepsScan(m, g, t, i);
        var m1 := ExchangeEntry(m, i);
        if !m1.finished {
          ScanEntries(m1, g, t, i + 1);
        }
      } else {
        assert m.level1.entries[..i + 1] == m.level1.entries[..i] + [m.level1.entries[i]];
        ScanEntries(m, g, t, i + 1);
      }
    }
  }

  // ------------------------------------------------------ the round as a whole

  lemma ScanStarts(c: Codec, disk: Disk, m: Mt, g: Ghost, t: Tree)
    requires Inv(c, disk, m, g, t) && g.low == 1 && m.level1.state == ReadComplete && !m.finished
    ensures Scan(m, g, t, 0)
  {
    forall l | FIRST_N <= l <= m.maxLevel ensures m.levels[l].node.pba != 0 {
      assert FrameAt(c, disk, m, g, l);
    }
    RenewedRefl(g.orig[1], m.edges, m.gen);
  }

  /** Only address and generation of the node of an inner frame change. */
  lemma FrameStaysOnExchange(c: Codec, disk: Disk, f: T1Info, f': T1Info, o: Tree, ks: seq<Tree>, l: nat, edges: nat, gen: U64,
                             untouched: bool, unserved: bool, unserved': bool)
    requires ValidDegree(edges) && l >= FIRST_N && f.state == ReadComplete
    requires Frame(c, disk, f, o, ks, l, edges, gen, true, untouched, unserved) && (unserved' ==> unserved)
    requires f' == f.(node := f'.node, isVolatile := f'.isVolatile) && f'.node.pba != 0
    ensures Frame(c, disk, f', o, ks, l, edges, gen, true, false, unserved')
  {
  }

  /** m' is the state after the scan exchanged at least one entry. */
  lemma ExchangeKeepsInv(c: Codec, disk: Disk, m: Mt, m': Mt, g: Ghost, t: Tree)
    requires Inv(c, disk, m, g, t) && g.low == 1 && m.level1.state == ReadComplete && !m.finished
    requires Geometry(m') && m'.level1.state == Write
    requires var r := m'.(level1 := m'.level1.(state := ReadComplete)); Rescanned(m, r) && Exchanged(r, g, t)
    ensures Inv(c, disk, m', g, t)
  {
    var r := m'.(level1 := m'.level1.(state := ReadComplete));
    forall l | FIRST_N <= l <= m.maxLevel ensures FrameAt(c, disk, m', g, l) {
      assert FrameAt(c, disk, m, g, l);
      FrameStaysOnExchange(c, disk, m.levels[l], m'.levels[l], g.orig[l], g.kids[l], l, m.edges, m.gen,
                           Unmodified(m, 1, l), !m.finished, !m'.finished);
    }
    forall l | FIRST_N <= l <= m.maxLevel ensures LinkAt(c, m', g, l) {
      assert LinkAt(c, m, g, l);
    }
    forall p ensures Balanced(m', g, t, p) {
      assert Balanced(r, g, t, p);
    }
  }

  /** m' is the state after the scan found nothing to exchange. */
  lemma NoExchangeKeepsInv(c: Codec, disk: Disk, m: Mt, m': Mt, g: Ghost, t: Tree)
    requires Inv(c, disk, m, g, t) && g.low == 1 && m.level1.state == ReadComplete
    requires NoneUsableIn(m.level1.entries[..m.edges], m.gen)
    requires m' == m.(level1 := m.level1.(state := Complete))
    ensures Inv(c, disk, m', g, t)
  {
    forall l | FIRST_N <= l <= m.maxLevel ensures FrameAt(c, disk, m', g, l) {
      assert FrameAt(c, disk, m, g, l);
      UnmodifiedStays(m, m', 1, 1, l);
    }
    forall l | FIRST_N <= l <= m.maxLevel ensures LinkAt(c, m', g, l) {
      assert LinkAt(c, m, g, l);
    }
    forall p ensures Balanced(m', g, t, p) {
      assert Balanced(m, g, t, p);
    }
  }

  lemma Exchange(c: Codec, disk: Disk, m: Mt, g: Ghost, t: Tree)
    requires Inv(c, disk, m, g, t) && g.low == 1 && m.level1.state == ReadComplete && !m.finished
    ensures CanExecute(m) && Advance(c, m, disk).1 == disk && Inv(c, disk, Advance(c, m, disk).0, g, t)
    ensures Advance(c, m, disk).0.level1.state == Write || Advance(c, m, disk).0.level1.state == Complete
    ensures OnlyLowMoves(m, Advance(c, m, disk).0, 1)
  {
    InvCanExecute(c, disk, m, g, t);
    ScanStarts(c, disk, m, g, t);
    ScanEntries(m, g, t, 0);
    var (r, handled) := HandleLevel0(m, 0);
    var m' := r.(level1 := r.level1.(state := if handled then Write else Complete));
    assert Advance(c, m, disk) == (m', disk);
    if handled {
      assert m'.(level1 := m'.level1.(state := ReadComplete)) == r;
      ExchangeKeepsInv(c, disk, m, m', g, t);
    } else {
      NoExchangeKeepsInv(c, disk, m, m', g, t);
    }
  }
}
