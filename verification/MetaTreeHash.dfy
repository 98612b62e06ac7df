/** What the hash check guarantees over whole meta tree requests, on any device: all
    that is loaded descends from the root by matching hashes, and a block that does
    not match ends the request without any effect of that block.  */
module MetaTreeHash {
  import opened NodeCodec
  import opened HashTree
  import opened MetaTreeSpec
  import opened MetaTreeInv
  import opened MetaTreeVisits
  import opened MetaTreeTheorems
  import opened MetaTreeAccess
  import opened Iteration
  import FreeTree

  // --------------------------------------------------------------- descent by hashes

  /** Some block visited at level l holds node e among its entries. */
  ghost predicate HeldAbove(c: Codec, vs: seq<Visit>, l: nat, e: T1)
  {
    exists j :: 0 <= j < |vs| && vs[j].level == l && e in c.dec1(vs[j].data)
  }

  /** A node of level l comes from the root or from a block visited one level up. */
  ghost predicate Descends(c: Codec, root: T1, top: nat, vs: seq<Visit>, l: nat, node: T1)
  {
    if l == top then node == root else HeldAbove(c, vs, l + 1, node)
  }

  /** Every visited node is the root or an entry of a block visited before. */
  ghost predicate Authentic(c: Codec, root: T1, top: nat, vs: seq<Visit>)
  {
    forall i | 0 <= i < |vs| :: 1 <= vs[i].level <= top && Descends(c, root, top, vs[..i], vs[i].level, vs[i].node)
  }

  /** The first n visited blocks have the hash that their nodes hold. */
  ghost predicate Matching(c: Codec, vs: seq<Visit>, n: int)
  {
    forall i | 0 <= i < n && i < |vs| :: c.hash(vs[i].data) == vs[i].node.hash
  }

  lemma HeldStays(c: Codec, vs: seq<Visit>, v: Visit, l: nat, e: T1)
    requires HeldAbove(c, vs, l, e)
    ensures HeldAbove(c, vs + [v], l, e)
  {
    var j :| 0 <= j < |vs| && vs[j].level == l && e in c.dec1(vs[j].data);
    assert (vs + [v])[j] == vs[j];
  }

  lemma VisitIsAuthentic(c: Codec, root: T1, top: nat, vs: seq<Visit>, v: Visit)
    requires Authentic(c, root, top, vs) && 1 <= v.level <= top && Descends(c, root, top, vs, v.level, v.node)
    ensures Authentic(c, root, top, vs + [v])
  {
    var vs' := vs + [v];
    forall i | 0 <= i < |vs'|
      ensures 1 <= vs'[i].level <= top && Descends(c, root, top, vs'[..i], vs'[i].level, vs'[i].node)
    {
      assert vs'[..i] == vs[..i];
      if i == |vs| {
        assert vs[..i] == vs;
      }
    }
  }

  // ------------------------------------------------------------------- the invariant

  /** The entries of level l that are still to be visited were read from a block. */
  ghost predicate StillHeld(c: Codec, vs: seq<Visit>, f: T1Info, l: nat, edges: nat, open: bool)
  {
    f.state == ReadComplete ==>
      forall k | f.index <= k < edges && k < NODES_PER_BLOCK && !(open && k == f.index) :: HeldAbove(c, vs, l, f.entries[k])
  }

  ghost predicate LevelsHeld(c: Codec, m: Mt, vs: seq<Visit>, low: nat)
    requires Stack(m, low)
  {
    forall l | FIRST_N <= l <= m.maxLevel && low <= l :: StillHeld(c, vs, m.levels[l], l, m.edges, l > low)
  }

  /** The request is under way, all it has visited matches and descends from the root. */
  ghost predicate Follows(c: Codec, root: T1, m: Mt, vs: seq<Visit>, low: nat)
  {
    && Stack(m, low) && Authentic(c, root, m.maxLevel, vs) && Matching(c, vs, |vs|)
    && (StateAt(m, low) == Read ==> Descends(c, root, m.maxLevel, vs, low, NodeAt(m, low)))
    && LevelsHeld(c, m, vs, low)
  }

  /** The request is over: it was carried out, or the last visited block did not match. */
  ghost predicate Ended(c: Codec, root: T1, top: nat, m: Mt, vs: seq<Visit>)
  {
    && Authentic(c, root, top, vs)
    && match m.state
       case Done => Matching(c, vs, |vs|)
       case HashMismatch =>
         vs != [] && Matching(c, vs, |vs| - 1) && c.hash(vs[|vs| - 1].data) != vs[|vs| - 1].node.hash
       case _ => false
  }

  // ------------------------------------------------------------------ rounds to come

  /** Rounds from reading a node to leaving it. */
  function NodeRounds(l: nat, edges: nat): nat
  {
    if l <= 1 then 4 else 4 + FreeTree.Times(edges, 1 + NodeRounds(l - 1, edges))
  }

  function Rest(index: nat, edges: nat): nat
  {
    if index < edges then edges - index else 0
  }

  function LevelRounds(f: T1Info, l: nat, edges: nat, open: bool): nat
    requires l >= FIRST_N
  {
    match f.state
    case Invalid => 0
    case Read => NodeRounds(l, edges)
    case ReadComplete => 3 + FreeTree.Times(Rest(if open then f.index + 1 else f.index, edges), 1 + NodeRounds(l - 1, edges))
    case Write => 2
    case _ => 1
  }

  function Level1Rounds(f: T2Info): nat
  {
    match f.state
    case Invalid => 0
    case Read => 4
    case ReadComplete => 3
    case Write => 2
    case _ => 1
  }

  function UpperRounds(levels: seq<T1Info>, edges: nat, lo: nat, hi: nat): nat
    requires hi < |levels| && lo >= FIRST_N
    decreases hi + 1 - lo
  {
    if lo > hi then 0 else LevelRounds(levels[lo], lo, edges, true) + UpperRounds(levels, edges, lo + 1, hi)
  }

  function RoundsAhead(m: Mt, low: nat): nat
    requires Stack(m, low)
  {
    (if low == 1 then Level1Rounds(m.level1) else LevelRounds(m.levels[low], low, m.edges, false))
    + UpperRounds(m.levels, m.edges, low + 1, m.maxLevel)
  }

  lemma {:induction false} UpperRoundsSame(a: seq<T1Info>, b: seq<T1Info>, edges: nat, lo: nat, hi: nat)
    requires hi < |a| && hi < |b| && lo >= FIRST_N
    requires forall l | lo <= l <= hi :: a[l].state == b[l].state && a[l].index == b[l].index
    ensures UpperRounds(a, edges, lo, hi) == UpperRounds(b, edges, lo, hi)
    decreases hi + 1 - lo
  {
    if lo <= hi {
      UpperRoundsSame(a, b, edges, lo + 1, hi);
    }
  }

  // ------------------------------------------------------------- one round each

  /** One round: the request ends, or goes on with less ahead. */
  ghost predicate Moves(c: Codec, root: T1, m: Mt, disk: Disk, vs: seq<Visit>, low: nat, low': nat)
    requires Stack(m, low)
  {
    && CanExecute(m)
    && var (r, vs') := (Advance(c, m, disk).0, vs + RoundVisit(c, m, disk));
       && r.maxLevel == m.maxLevel && r.edges == m.edges
       && (Ended(c, root, m.maxLevel, r, vs')
           || (Follows(c, root, r, vs', low') && RoundsAhead(r, low') < RoundsAhead(m, low)))
  }

  lemma ReadMoves(c: Codec, root: T1, m: Mt, disk: Disk, vs: seq<Visit>, low: nat)
    requires Follows(c, root, m, vs, low) && StateAt(m, low) == Read
    ensures Moves(c, root, m, disk, vs, low, low)
  {
    ReadRound(c, m, disk, low);
    var node := NodeAt(m, low);
    var v := Visit(low, node, ReadBlock(disk, node.pba));
    VisitIsAuthentic(c, root, m.maxLevel, vs, v);
    MatchingGrows(c, vs, v);
    if c.hash(v.data) == node.hash {
      ReadFollows(c, root, m, Advance(c, m, disk).0, vs, v, low);
    }
  }

  lemma ReadFollows(c: Codec, root: T1, m: Mt, r: Mt, vs: seq<Visit>, v: Visit, low: nat)
    requires Stack(m, low) && StateAt(m, low) == Read && LevelsHeld(c, m, vs, low) && v.level == low
    requires Stack(r, low) && StateAt(r, low) == ReadComplete && r.maxLevel == m.maxLevel && r.edges == m.edges
    requires if low == 1 then r.levels == m.levels
             else r.levels == m.levels[low := m.levels[low].(entries := c.dec1(v.data), index := 0, state := ReadComplete)]
    requires Authentic(c, root, m.maxLevel, vs + [v]) && Matching(c, vs + [v], |vs + [v]|)
    ensures Follows(c, root, r, vs + [v], low) && RoundsAhead(r, low) < RoundsAhead(m, low)
  {
    ReadLoads(c, m, r, vs, v, low);
    UpperRoundsSame(m.levels, r.levels, m.edges, low + 1, m.maxLevel);
  }

  lemma MatchingGrows(c: Codec, vs: seq<Visit>, v: Visit)
    requires Matching(c, vs, |vs|)
    ensures var vs' := vs + [v];
            && vs'[|vs'| - 1] == v && Matching(c, vs', |vs'| - 1)
            && (c.hash(v.data) == v.node.hash ==> Matching(c, vs', |vs'|))
  {
    forall i | 0 <= i < |vs| ensures (vs + [v])[i] == vs[i] {
    }
  }

  /** The entries of the new block are held by it, those above as before. */
  lemma ReadLoads(c: Codec, m: Mt, r: Mt, vs: seq<Visit>, v: Visit, low: nat)
    requires Stack(m, low) && LevelsHeld(c, m, vs, low) && v.level == low
    requires Stack(r, low) && r.maxLevel == m.maxLevel && r.edges == m.edges
    requires if low == 1 then r.levels == m.levels
             else r.levels == m.levels[low := m.levels[low].(entries := c.dec1(v.data), index := 0, state := ReadComplete)]
    ensures LevelsHeld(c, r, vs + [v], low)
  {
    forall l | FIRST_N <= l <= m.maxLevel && low <= l ensures StillHeld(c, vs + [v], r.levels[l], l, m.edges, l > low) {
      if l > low {
        HeldAgain(c, m.levels[l], r.levels[l], vs, [v], l, m.edges, true);
      } else {
        forall k | 0 <= k < NODES_PER_BLOCK ensures HeldAbove(c, vs + [v], l, r.levels[l].entries[k]) {
          assert (vs + [v])[|vs|] == v;
        }
      }
    }
  }

  /** More visits, the same entries still to be visited. */
  lemma HeldAgain(c: Codec, f: T1Info, f': T1Info, vs: seq<Visit>, more: seq<Visit>, l: nat, edges: nat, open: bool)
    requires StillHeld(c, vs, f, l, edges, open) && f'.state == f.state && f'.index == f.index && |more| <= 1
    requires forall k | f.index <= k < NODES_PER_BLOCK && !(open && k == f.index) :: f'.entries[k] == f.entries[k]
    ensures StillHeld(c, vs + more, f', l, edges, open)
  {
    if f.state == ReadComplete {
      forall k | f.index <= k < edges && k < NODES_PER_BLOCK && !(open && k == f.index)
        ensures HeldAbove(c, vs + more, l, f'.entries[k])
      {
        if more == [] {
          assert vs + more == vs;
        } else {
          assert more == [more[0]];
          HeldStays(c, vs, more[0], l, f.entries[k]);
        }
      }
    }
  }

  lemma DescendMoves(c: Codec, root: T1, m: Mt, disk: Disk, vs: seq<Visit>, low: nat)
    requires Follows(c, root, m, vs, low) && low >= FIRST_N && m.levels[low].state == ReadComplete && HasNextChild(m, low)
    ensures Moves(c, root, m, disk, vs, low, low - 1)
  {
    DescendRound(c, m, disk, low);
    var r := Advance(c, m, disk).0;
    assert vs + [] == vs;
    assert StillHeld(c, vs, m.levels[low], low, m.edges, false);
    DescendHolds(c, m, r, vs, low);
    DescendCounts(m, r, low);
  }

  lemma DescendHolds(c: Codec, m: Mt, r: Mt, vs: seq<Visit>, low: nat)
    requires Stack(m, low) && low >= FIRST_N && LevelsHeld(c, m, vs, low)
    requires Stack(r, low - 1) && StateAt(r, low - 1) == Read && r.maxLevel == m.maxLevel && r.edges == m.edges
    requires forall l | low <= l < NR_OF_LEVELS :: r.levels[l] == m.levels[l]
    ensures LevelsHeld(c, r, vs, low - 1)
  {
    forall l | FIRST_N <= l <= m.maxLevel && low - 1 <= l ensures StillHeld(c, vs, r.levels[l], l, m.edges, l > low - 1) {
      if l >= low {
        assert StillHeld(c, vs, m.levels[l], l, m.edges, l > low);
      }
    }
  }

  /** One entry less at the node, and a fresh node below it. */
  lemma DescendCounts(m: Mt, r: Mt, low: nat)
    requires Stack(m, low) && low >= FIRST_N && m.levels[low].state == ReadComplete && m.levels[low].index < m.edges
    requires Stack(r, low - 1) && StateAt(r, low - 1) == Read && r.maxLevel == m.maxLevel && r.edges == m.edges
    requires forall l | low <= l < NR_OF_LEVELS :: r.levels[l] == m.levels[l]
    ensures RoundsAhead(r, low - 1) + 1 == RoundsAhead(m, low)
  {
    var f := m.levels[low];
    UpperRoundsSame(m.levels, r.levels, m.edges, low + 1, m.maxLevel);
    assert Rest(f.index, m.edges) == Rest(f.index + 1, m.edges) + 1;
    assert LevelRounds(f, low, m.edges, false) == LevelRounds(f, low, m.edges, true) + 1 + NodeRounds(low - 1, m.edges);
    assert UpperRounds(r.levels, m.edges, low, m.maxLevel)
        == LevelRounds(f, low, m.edges, true) + UpperRounds(r.levels, m.edges, low + 1, m.maxLevel);
  }

  /** The lowest node has no more entries to visit; above, what is to be visited has
      not changed. */
  ghost predicate Settles(m: Mt, r: Mt, low: nat)
  {
    && Stack(m, low) && Stack(r, low) && r.maxLevel == m.maxLevel && r.edges == m.edges
    && StateAt(r, low) != Read && StateAt(r, low) != ReadComplete
    && forall l | FIRST_N <= l <= m.maxLevel && low < l :: SameBehind(m.levels[l], r.levels[l])
  }

  lemma SettledHolds(c: Codec, m: Mt, r: Mt, vs: seq<Visit>, low: nat)
    requires Settles(m, r, low) && LevelsHeld(c, m, vs, low)
    ensures LevelsHeld(c, r, vs, low)
  {
    forall l | FIRST_N <= l <= m.maxLevel && low <= l ensures StillHeld(c, vs, r.levels[l], l, m.edges, l > low) {
      if l > low {
        assert StillHeld(c, vs, m.levels[l], l, m.edges, true) && SameBehind(m.levels[l], r.levels[l]);
      }
    }
  }

  lemma SettledCounts(m: Mt, r: Mt, low: nat)
    requires Settles(m, r, low)
    requires if StateAt(m, low) == Write then StateAt(r, low) == WriteComplete else StateAt(m, low) == ReadComplete
    ensures RoundsAhead(r, low) < RoundsAhead(m, low)
  {
    forall l | low + 1 <= l <= m.maxLevel ensures m.levels[l].state == r.levels[l].state && m.levels[l].index == r.levels[l].index {
      assert SameBehind(m.levels[l], r.levels[l]);
    }
    UpperRoundsSame(m.levels, r.levels, m.edges, low + 1, m.maxLevel);
  }

  lemma StopMoves(c: Codec, root: T1, m: Mt, disk: Disk, vs: seq<Visit>, low: nat)
    requires Follows(c, root, m, vs, low) && low >= FIRST_N && m.levels[low].state == ReadComplete && !HasNextChild(m, low)
    ensures Moves(c, root, m, disk, vs, low, low)
  {
    StopRound(c, m, disk, low);
    assert vs + [] == vs;
    SettledHolds(c, m, Advance(c, m, disk).0, vs, low);
    SettledCounts(m, Advance(c, m, disk).0, low);
  }

  lemma ScanMoves(c: Codec, root: T1, m: Mt, disk: Disk, vs: seq<Visit>)
    requires Follows(c, root, m, vs, 1) && m.level1.state == ReadComplete
    ensures Moves(c, root, m, disk, vs, 1, 1)
  {
    ScanRound(c, m, disk);
    assert vs + [] == vs;
    SettledHolds(c, m, Advance(c, m, disk).0, vs, 1);
    SettledCounts(m, Advance(c, m, disk).0, 1);
  }

  lemma WriteMoves(c: Codec, root: T1, m: Mt, disk: Disk, vs: seq<Visit>, low: nat)
    requires Follows(c, root, m, vs, low) && StateAt(m, low) == Write
    ensures Moves(c, root, m, disk, vs, low, low)
  {
    WriteRound(c, m, disk, low);
    assert vs + [] == vs;
    SettledHolds(c, m, Advance(c, m, disk).0, vs, low);
    SettledCounts(m, Advance(c, m, disk).0, low);
  }

  lemma AscendMoves(c: Codec, root: T1, m: Mt, disk: Disk, vs: seq<Visit>, low: nat)
    requires Follows(c, root, m, vs, low) && (StateAt(m, low) == WriteComplete || StateAt(m, low) == Complete)
    ensures Moves(c, root, m, disk, vs, low, low + 1)
  {
    AscendRound(c, m, disk, low);
    var r := Advance(c, m, disk).0;
    assert vs + [] == vs;
    if low < m.maxLevel {
      AscendHolds(c, m, r, vs, low);
      AscendCounts(m, r, low);
    }
  }

  /** r is the state after returning to the next node above. */
  ghost predicate Returned(m: Mt, r: Mt, low: nat)
    requires Stack(m, low)
  {
    && low < m.maxLevel && r.maxLevel == m.maxLevel && r.edges == m.edges && Stack(r, low + 1)
    && r.levels[low + 1] == m.levels[low + 1].(index := m.levels[low + 1].index + 1)
    && forall l | low + 1 < l < NR_OF_LEVELS :: r.levels[l] == m.levels[l]
  }

  lemma AscendHolds(c: Codec, m: Mt, r: Mt, vs: seq<Visit>, low: nat)
    requires Stack(m, low) && LevelsHeld(c, m, vs, low) && Returned(m, r, low)
    ensures LevelsHeld(c, r, vs, low + 1)
  {
    forall l | FIRST_N <= l <= m.maxLevel && low + 1 <= l ensures StillHeld(c, vs, r.levels[l], l, m.edges, l > low + 1) {
      assert StillHeld(c, vs, m.levels[l], l, m.edges, true);
    }
  }

  lemma AscendCounts(m: Mt, r: Mt, low: nat)
    requires Stack(m, low) && (StateAt(m, low) == WriteComplete || StateAt(m, low) == Complete) && Returned(m, r, low)
    ensures RoundsAhead(r, low + 1) < RoundsAhead(m, low)
  {
    UpperRoundsSame(m.levels, r.levels, m.edges, low + 2, m.maxLevel);
  }

  lemma RoundMoves(c: Codec, root: T1, m: Mt, disk: Disk, vs: seq<Visit>, low: nat) returns (low': nat)
    requires Follows(c, root, m, vs, low)
    ensures Moves(c, root, m, disk, vs, low, low')
  {
    low' := low;
    match StateAt(m, low) {
      case Read =>
        ReadMoves(c, root, m, disk, vs, low);
      case ReadComplete =>
        if low == 1 {
          ScanMoves(c, root, m, disk, vs);
        } else if HasNextChild(m, low) {
          DescendMoves(c, root, m, disk, vs, low);
          low' := low - 1;
        } else {
          StopMoves(c, root, m, disk, vs, low);
        }
      case Write =>
        WriteMoves(c, root, m, disk, vs, low);
      case WriteComplete =>
        AscendMoves(c, root, m, disk, vs, low);
        low' := low + 1;
      case Complete =>
        AscendMoves(c, root, m, disk, vs, low);
        low' := low + 1;
    }
  }

  // ------------------------------------------------------------------- whole runs

  /** One round with the node that it read noted down. */
  function VisitStepper(c: Codec): ((Mt, Disk, seq<Visit>)) -> (Mt, Disk, seq<Visit>)
  {
    (s: (Mt, Disk, seq<Visit>)) =>
      if s.0.state != Update || !CanExecute(s.0) then s
      else (Advance(c, s.0, s.1).0, Advance(c, s.0, s.1).1, s.2 + RoundVisit(c, s.0, s.1))
  }

  function VisitRounds(c: Codec, m: Mt, disk: Disk, vs: seq<Visit>, n: nat): (Mt, Disk, seq<Visit>)
  {
    Iterate(VisitStepper(c), (m, disk, vs), n)
  }

  lemma VisitOnce(c: Codec, m: Mt, disk: Disk, vs: seq<Visit>, n: nat)
    requires n > 0 && m.state == Update && CanExecute(m)
    ensures var (m', disk') := Advance(c, m, disk);
            && VisitRounds(c, m, disk, vs, n) == VisitRounds(c, m', disk', vs + RoundVisit(c, m, disk), n - 1)
            && Rounds(c, m, disk, n) == Rounds(c, m', disk', n - 1)
  {
    assert VisitStepper(c)((m, disk, vs))
        == (Advance(c, m, disk).0, Advance(c, m, disk).1, vs + RoundVisit(c, m, disk));
    assert Stepper(c)((m, disk)) == Advance(c, m, disk);
  }

  lemma EndStays(c: Codec, m: Mt, disk: Disk, vs: seq<Visit>, n: nat)
    requires m.state != Update
    ensures VisitRounds(c, m, disk, vs, n) == (m, disk, vs) && Rounds(c, m, disk, n) == (m, disk)
  {
    IterateFixed(VisitStepper(c), (m, disk, vs), n);
    IterateFixed(Stepper(c), (m, disk), n);
  }

  /** Under way with at most k rounds ahead. */
  ghost predicate GoesOn(c: Codec, root: T1, top: nat, m: Mt, vs: seq<Visit>, k: int)
  {
    m.maxLevel == top && exists low :: Follows(c, root, m, vs, low) && RoundsAhead(m, low) <= k
  }

  /** What n rounds lead to. */
  ghost predicate Reaches(c: Codec, root: T1, top: nat, m: Mt, disk: Disk, vs: seq<Visit>, n: nat, k: int)
  {
    var (m', disk', vs') := VisitRounds(c, m, disk, vs, n);
    && (m', disk') == Rounds(c, m, disk, n)
    && (Ended(c, root, top, m', vs') || GoesOn(c, root, top, m', vs', k))
  }

  lemma {:induction false} RunFollows(c: Codec, root: T1, m: Mt, disk: Disk, vs: seq<Visit>, low: nat, n: nat)
    requires Follows(c, root, m, vs, low)
    ensures Reaches(c, root, m.maxLevel, m, disk, vs, n, RoundsAhead(m, low) - n)
    decreases n, 1
  {
    if n == 0 {
      assert VisitRounds(c, m, disk, vs, 0) == (m, disk, vs) && Rounds(c, m, disk, 0) == (m, disk);
    } else {
      var low' := RoundMoves(c, root, m, disk, vs, low);
      var (m', disk') := Advance(c, m, disk);
      var vs' := vs + RoundVisit(c, m, disk);
      RunFollowsOn(c, root, m.maxLevel, m', disk', vs', low', n - 1, RoundsAhead(m, low) - 1);
      ReachesOnce(c, root, m, disk, vs, low, n);
    }
  }

  lemma ReachesOnce(c: Codec, root: T1, m: Mt, disk: Disk, vs: seq<Visit>, low: nat, n: nat)
    requires Stack(m, low) && CanExecute(m) && n > 0
    requires var (m', disk') := Advance(c, m, disk);
             Reaches(c, root, m.maxLevel, m', disk', vs + RoundVisit(c, m, disk), n - 1, RoundsAhead(m, low) - n)
    ensures Reaches(c, root, m.maxLevel, m, disk, vs, n, RoundsAhead(m, low) - n)
  {
    VisitOnce(c, m, disk, vs, n);
  }

  lemma RunFollowsOn(c: Codec, root: T1, top: nat, m: Mt, disk: Disk, vs: seq<Visit>, low: nat, n: nat, k: int)
    requires Ended(c, root, top, m, vs) || (m.maxLevel == top && Follows(c, root, m, vs, low) && RoundsAhead(m, low) <= k)
    ensures Reaches(c, root, top, m, disk, vs, n, k - n)
    decreases n, 2
  {
    if Ended(c, root, top, m, vs) {
      EndStays(c, m, disk, vs, n);
    } else {
      RunFollows(c, root, m, disk, vs, low, n);
    }
  }

  /** What a request needs that finds any device: the module is idle. */
  predicate Startable(m: Mt, maxLevel: nat, edges: nat)
  {
    && m.state == Idle && m.request == NoRequest && |m.levels| == NR_OF_LEVELS
    && FIRST_N <= maxLevel < NR_OF_LEVELS && ValidDegree(edges)
  }

  lemma SubmitFollows(c: Codec, m: Mt, root: T1, maxLevel: nat, edges: nat, gen: U64, oldPba: U64)
    requires Startable(m, maxLevel, edges)
    ensures var m0 := Submit(m, root, maxLevel, edges, gen, oldPba);
            Follows(c, root, m0, [], maxLevel) && RoundsAhead(m0, maxLevel) == NodeRounds(maxLevel, edges)
  {
    var m0 := Submit(m, root, maxLevel, edges, gen, oldPba);
    assert UpperRounds(m0.levels, edges, maxLevel + 1, maxLevel) == 0;
  }

  /** Every request on every device, whatever it holds:
      - each node that is read is the root or an entry of a block read before, one
        level up, and each block read has the hash that its node holds, except
        possibly the last one;
      - the request stops with a hash mismatch if and only if that one differs;
      - no array bound is violated, and after NodeRounds(maxLevel, edges) rounds the
        request is either done or stopped in this way.  */
  lemma RequestFollowsHashes(c: Codec, disk: Disk, m: Mt, root: T1, maxLevel: nat, edges: nat, gen: U64, oldPba: U64, n: nat)
    requires Startable(m, maxLevel, edges)
    ensures var m0 := Submit(m, root, maxLevel, edges, gen, oldPba);
            var (m', disk', vs) := VisitRounds(c, m0, disk, [], n);
            && (m', disk') == Rounds(c, m0, disk, n)
            && Authentic(c, root, maxLevel, vs) && Matching(c, vs, |vs| - 1)
            && (m'.state == HashMismatch <==> vs != [] && c.hash(vs[|vs| - 1].data) != vs[|vs| - 1].node.hash)
            && (m'.state == Update ==> CanExecute(m'))
            && (n >= NodeRounds(maxLevel, edges) ==> m'.state == Done || m'.state == HashMismatch)
  {
    var m0 := Submit(m, root, maxLevel, edges, gen, oldPba);
    SubmitFollows(c, m, root, maxLevel, edges, gen, oldPba);
    RunFollows(c, root, m0, disk, [], maxLevel, n);
    assert m0.maxLevel == maxLevel;
    var (m', disk', vs) := VisitRounds(c, m0, disk, [], n);
    if !Ended(c, root, maxLevel, m', vs) {
      var low :| Follows(c, root, m', vs, low) && RoundsAhead(m', low) <= NodeRounds(maxLevel, edges) - n;
      StackExecutes(m', low);
      SomethingAhead(m', low);
    }
  }

  lemma SomethingAhead(m: Mt, low: nat)
    requires Stack(m, low)
    ensures RoundsAhead(m, low) > 0
  {
  }

  // --------------------------------------------- a block that does not match has no effect

  /** The nodes read so far are among the visited ones. */
  ghost predicate ReadsVisited(ops: seq<Access>, vs: seq<Visit>)
  {
    forall p :: Access(false, p) in ops ==> exists i :: 0 <= i < |vs| && vs[i].node.pba == p
  }

  lemma OtherRoundsIdle(c: Codec, m: Mt, disk: Disk, low: nat)
    requires Stack(m, low) && StateAt(m, low) != Read
    ensures Idles(c, m, disk) && Advance(c, m, disk).0.state != HashMismatch
  {
    if StateAt(m, low) == ReadComplete {
      if low == 1 {
        ScanRound(c, m, disk);
      } else if HasNextChild(m, low) {
        DescendRound(c, m, disk, low);
      } else {
        StopRound(c, m, disk, low);
      }
    } else if StateAt(m, low) == Write {
      WriteRound(c, m, disk, low);
    } else {
      AscendRound(c, m, disk, low);
    }
  }

  /** A round that reads visits the node; if the block does not match that is all. */
  lemma RoundReadsVisited(c: Codec, m: Mt, disk: Disk, low: nat)
    requires Stack(m, low)
    ensures CanExecute(m) && ReadsVisited(RoundAccess(c, m), RoundVisit(c, m, disk))
    ensures Advance(c, m, disk).0.state == HashMismatch ==> Advance(c, m, disk).1 == disk && |RoundVisit(c, m, disk)| == 1
  {
    if StateAt(m, low) == Read {
      ReadRound(c, m, disk, low);
      LoadReads(c, m, low);
      assert RoundVisit(c, m, disk)[0].node == NodeAt(m, low);
    } else {
      OtherRoundsIdle(c, m, disk, low);
      NoVisitNoRead(c, m, disk);
    }
  }

  lemma LoadReads(c: Codec, m: Mt, low: nat)
    requires Stack(m, low) && StateAt(m, low) == Read
    ensures CanExecute(m) && RoundAccess(c, m) == [Access(false, NodeAt(m, low).pba)]
  {
    StackExecutes(m, low);
  }

  lemma NoVisitNoRead(c: Codec, m: Mt, disk: Disk)
    requires Idles(c, m, disk)
    ensures ReadsVisited(RoundAccess(c, m), [])
  {
  }

  lemma ReadsVisitedGrows(ops: seq<Access>, vs: seq<Visit>, op: seq<Access>, v: seq<Visit>)
    requires ReadsVisited(ops, vs) && ReadsVisited(op, v)
    ensures ReadsVisited(ops + op, vs + v)
  {
    forall p | Access(false, p) in ops + op ensures exists i :: 0 <= i < |vs + v| && (vs + v)[i].node.pba == p {
      if Access(false, p) in ops {
        var i :| 0 <= i < |vs| && vs[i].node.pba == p;
        assert (vs + v)[i].node.pba == p;
      } else {
        var i :| 0 <= i < |v| && v[i].node.pba == p;
        assert (vs + v)[|vs| + i].node.pba == p;
      }
    }
  }

  lemma {:induction false} RunReadsVisited(c: Codec, root: T1, m: Mt, disk: Disk, ops: seq<Access>, vs: seq<Visit>, low: nat, n: nat)
    requires Follows(c, root, m, vs, low) && ReadsVisited(ops, vs)
    ensures ReadsVisited(TracedRounds(c, m, disk, ops, n).2, VisitRounds(c, m, disk, vs, n).2)
    decreases n, 1
  {
    if n == 0 {
      assert TracedRounds(c, m, disk, ops, 0).2 == ops && VisitRounds(c, m, disk, vs, 0).2 == vs;
    } else {
      RoundReadsVisited(c, m, disk, low);
      ReadsVisitedGrows(ops, vs, RoundAccess(c, m), RoundVisit(c, m, disk));
      var low' := RoundMoves(c, root, m, disk, vs, low);
      var (m', disk') := Advance(c, m, disk);
      RunReadsVisitedOn(c, root, m.maxLevel, m', disk', ops + RoundAccess(c, m), vs + RoundVisit(c, m, disk), low', n - 1);
      VisitOnce(c, m, disk, vs, n);
      TraceOnce(c, m, disk, ops, n);
    }
  }

  lemma RunReadsVisitedOn(c: Codec, root: T1, top: nat, m: Mt, disk: Disk, ops: seq<Access>, vs: seq<Visit>, low: nat, n: nat)
    requires Ended(c, root, top, m, vs) || Follows(c, root, m, vs, low)
    requires ReadsVisited(ops, vs)
    ensures ReadsVisited(TracedRounds(c, m, disk, ops, n).2, VisitRounds(c, m, disk, vs, n).2)
    decreases n, 2
  {
    if Ended(c, root, top, m, vs) {
      EndStays(c, m, disk, vs, n);
      IterateFixed(TracedStepper(c), (m, disk, ops), n);
    } else {
      RunReadsVisited(c, root, m, disk, ops, vs, low, n);
    }
  }

  lemma TraceOnce(c: Codec, m: Mt, disk: Disk, ops: seq<Access>, n: nat)
    requires n > 0 && m.state == Update && CanExecute(m)
    ensures var (m', disk') := Advance(c, m, disk);
            TracedRounds(c, m, disk, ops, n) == TracedRounds(c, m', disk', ops + RoundAccess(c, m), n - 1)
  {
    assert TracedStepper(c)((m, disk, ops)) == (Advance(c, m, disk).0, Advance(c, m, disk).1, ops + RoundAccess(c, m));
  }

  /** The round in which the request met a block that does not match. */
  lemma {:induction false} MismatchRound(c: Codec, m: Mt, disk: Disk, vs: seq<Visit>, n: nat) returns (k: nat)
    requires m.state == Update && VisitRounds(c, m, disk, vs, n).0.state == HashMismatch
    ensures k < n && VisitRounds(c, m, disk, vs, k).0.state == Update
    ensures VisitRounds(c, m, disk, vs, n) == VisitStepper(c)(VisitRounds(c, m, disk, vs, k))
    decreases n
  {
    if n == 0 {
      assert false;
    } else {
      IterateOnce(VisitStepper(c), (m, disk, vs), n - 1);
      if VisitRounds(c, m, disk, vs, n - 1).0.state == Update {
        k := n - 1;
      } else {
        k := MismatchRound(c, m, disk, vs, n - 1);
      }
    }
  }

  /** After n rounds the request has met a block that does not match, at an address
      from which it had read nothing before. */
  ghost predicate MeetsMismatch(c: Codec, m: Mt, disk: Disk, n: nat, p: U64)
  {
    var (m', disk', vs) := VisitRounds(c, m, disk, [], n);
    && m'.state == HashMismatch && vs != [] && vs[|vs| - 1].node.pba == p
    && forall i | 0 <= i < |vs| - 1 :: vs[i].node.pba != p
  }

  /** The round k that met the mismatch: the visited block is the last one, and the
      device stays as it was. */
  lemma MismatchAt(c: Codec, root: T1, m0: Mt, disk: Disk, low0: nat, n: nat) returns (k: nat)
    requires Follows(c, root, m0, [], low0) && VisitRounds(c, m0, disk, [], n).0.state == HashMismatch
    ensures k < n && Rounds(c, m0, disk, k).0.state == Update && Rounds(c, m0, disk, n).1 == Rounds(c, m0, disk, k).1
    ensures var vs := VisitRounds(c, m0, disk, [], n).2;
            vs != [] && VisitRounds(c, m0, disk, [], k).2 == vs[..|vs| - 1]
  {
    k := MismatchRound(c, m0, disk, [], n);
    RunFollows(c, root, m0, disk, [], low0, n);
    RunFollows(c, root, m0, disk, [], low0, k);
    var (mk, diskk, vsk) := VisitRounds(c, m0, disk, [], k);
    var low :| Follows(c, root, mk, vsk, low);
    LastVisit(c, mk, diskk, vsk, low, VisitRounds(c, m0, disk, [], n));
  }

  lemma LastVisit(c: Codec, m: Mt, disk: Disk, vs: seq<Visit>, low: nat, r: (Mt, Disk, seq<Visit>))
    requires Stack(m, low) && r == VisitStepper(c)((m, disk, vs)) && r.0.state == HashMismatch
    ensures r.1 == disk && r.2 != [] && r.2[..|r.2| - 1] == vs
  {
    StackExecutes(m, low);
    RoundReadsVisited(c, m, disk, low);
    assert r.2 == vs + RoundVisit(c, m, disk);
  }

  /** Up to round k the request runs alike on devices that differ at p only, if it has
      not visited p. */
  lemma SameUpTo(c: Codec, root: T1, m0: Mt, disk: Disk, other: Disk, low0: nat, k: nat, p: U64)
    requires Follows(c, root, m0, [], low0) && forall q | q != p :: SameBlock(disk, other, q)
    requires var vs := VisitRounds(c, m0, disk, [], k).2; forall i | 0 <= i < |vs| :: vs[i].node.pba != p
    ensures Rounds(c, m0, other, k).0 == Rounds(c, m0, disk, k).0
    ensures forall q | q != p :: SameBlock(Rounds(c, m0, disk, k).1, Rounds(c, m0, other, k).1, q)
  {
    RunReadsVisited(c, root, m0, disk, [], [], low0, k);
    OnlyReadsMatter(c, m0, disk, other, [], k);
    TraceFollowsRun(c, m0, disk, [], k);
    TraceFollowsRun(c, m0, other, [], k);
  }

  /** Nothing is written from a block that does not match: the device is left as it
      was k rounds after the submission, before the block was read, and that is, but
      for the block itself, what the request makes of any other device that differs
      from the given one in this block only.  */
  lemma MismatchHasNoEffect(c: Codec, disk: Disk, other: Disk, m: Mt, root: T1, maxLevel: nat, edges: nat, gen: U64, oldPba: U64,
                            n: nat, p: U64)
    returns (k: nat)
    requires Startable(m, maxLevel, edges)
    requires MeetsMismatch(c, Submit(m, root, maxLevel, edges, gen, oldPba), disk, n, p)
    requires forall q | q != p :: SameBlock(disk, other, q)
    ensures var m0 := Submit(m, root, maxLevel, edges, gen, oldPba);
            && k < n && Rounds(c, m0, disk, k).0.state == Update
            && Rounds(c, m0, disk, n).1 == Rounds(c, m0, disk, k).1
            && Rounds(c, m0, other, k).0 == Rounds(c, m0, disk, k).0
            && forall q | q != p :: SameBlock(Rounds(c, m0, disk, n).1, Rounds(c, m0, other, k).1, q)
  {
    var m0 := Submit(m, root, maxLevel, edges, gen, oldPba);
    SubmitFollows(c, m, root, maxLevel, edges, gen, oldPba);
    k := MismatchAt(c, root, m0, disk, maxLevel, n);
    SameUpTo(c, root, m0, disk, other, maxLevel, k, p);
  }
}
