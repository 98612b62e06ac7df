/** What a whole allocation from the meta tree promises its client. */
module MetaTreeAllocation {
  import opened NodeCodec
  import opened HashTree
  import opened MetaTreeSpec
  import opened MetaTreeParameters
  import opened MetaTreeInv
  import opened MetaTreeAscend
  import opened MetaTreeRun
  import opened MetaTreeTheorems
  import opened MetaTreeAccess
  import opened MetaTreeSuccess
  import opened Iteration

  /** Request r turned the stored tree t into the stored tree u.  It succeeds if and
      only if t leaves a usable entry for it; then the old address takes the place of
      the new one.  Only blocks of nodes of u have changed.  */
  ghost predicate Allocated(c: Codec, before: Disk, after: Disk, level: nat, edges: nat, gen: U64, t: Tree, u: Tree, r: Exchange)
  {
    && ValidDegree(edges) && !u.Nil? && Stored(c, after, u, level, edges) && Renewed(t, u, edges, gen)
    && (r.success <==> Available(t, edges, gen) > 0)
    && (forall p :: Uses(u, edges, Every, p) + (if r.success && p == r.newPba then 1 else 0)
                    == Uses(t, edges, Every, p) + (if r.success && p == r.oldPba then 1 else 0))
    && Serves(t, u, edges, gen, r)
    && (!r.success && GapFree(t) ==> NoneUsable(u, edges, gen))
    && OnlyNodesWritten(before, after, u, edges)
  }

  ghost predicate OnlyNodesWritten(before: Disk, after: Disk, u: Tree, edges: nat)
    requires ValidDegree(edges)
  {
    forall p :: Uses(u, edges, NodesOnly, p) == 0 ==> SameBlock(before, after, p)
  }

  lemma RunWritesNodes(c: Codec, disk: Disk, m: Mt, root: T1, maxLevel: nat, edges: nat, gen: U64, oldPba: U64, t: Tree, n: nat)
    returns (u: Tree)
    requires Submittable(c, disk, m, root, maxLevel, edges, oldPba, t)
    ensures var (m', disk') := Rounds(c, Submit(m, root, maxLevel, edges, gen, oldPba), disk, n);
            m'.state == Done ==> Outcome(c, disk', m', t, u) && OnlyNodesWritten(disk, disk', u, edges)
  {
    var m0 := Submit(m, root, maxLevel, edges, gen, oldPba);
    u := RequestAccessesOnce(c, disk, m, root, maxLevel, edges, gen, oldPba, t, n);
    var (m', disk', ops) := TracedRounds(c, m0, disk, [], n);
    if m'.state == Done {
      forall p | Uses(u, edges, NodesOnly, p) == 0 ensures SameBlock(disk, disk', p) {
        OnlyWritesChange(c, m0, disk, [], n, p);
      }
    }
  }

  /** The result of a complete run, whatever the number of rounds. */
  lemma RunAllocates(c: Codec, disk: Disk, m: Mt, root: T1, maxLevel: nat, edges: nat, gen: U64, oldPba: U64, t: Tree, n: nat)
    returns (u: Tree)
    requires Submittable(c, disk, m, root, maxLevel, edges, oldPba, t)
    ensures var (m', disk') := Rounds(c, Submit(m, root, maxLevel, edges, gen, oldPba), disk, n);
            m'.state == Done ==>
              && Allocated(c, disk, disk', maxLevel, edges, gen, t, u, Exchange(oldPba, m'.success, m'.newPba))
              && u.node == m'.root && (!m'.success ==> m'.newPba == m.newPba) && m'.request == NoRequest
  {
    var m0 := Submit(m, root, maxLevel, edges, gen, oldPba);
    u := RunWritesNodes(c, disk, m, root, maxLevel, edges, gen, oldPba, t, n);
    RoundsKeepParameters(c, m0, disk, n);
    SucceedsIff(c, disk, m, root, maxLevel, edges, gen, oldPba, t, n);
    var (m', disk') := Rounds(c, m0, disk, n);
    if m'.state == Done {
      OutcomeServes(c, disk', m', t, u);
      forall p
        ensures Uses(u, edges, Every, p) + (if m'.success && p == m'.newPba then 1 else 0)
             == Uses(t, edges, Every, p) + (if m'.success && p == oldPba then 1 else 0)
      {
        assert Uses(u, edges, Every, p) + Served(m', m'.newPba, p) == Uses(t, edges, Every, p) + Served(m', m'.oldPba, p);
      }
    }
  }

  /** A run that is not complete can go on, and has not used up its rounds. */
  lemma UnderWayExecutes(c: Codec, disk: Disk, m: Mt, t: Tree, k: nat, n: nat)
    requires UnderWay(c, disk, m, t, k) && Rounds(c, m, disk, n).0.state != Done
    ensures var (m', disk') := Rounds(c, m, disk, n);
            && n < k && CanExecute(m') && m'.state == Update && m'.request == NoRequest
            && Rounds(c, m, disk, n + 1) == Advance(c, m', disk')
  {
    RunEnds(c, disk, m, t, k, n);
    var (m', disk') := Rounds(c, m, disk, n);
    var g :| Inv(c, disk', m', g, t) && RoundsLeft(m', g) < k - n;
    var g', u := Round(c, disk', m', g, t);
    IterateOnce(Stepper(c), (m, disk), n);
  }
}
