/** Consequences of a completed extension step, and of a sequence of steps. */
module FtOutcome {
  import opened NodeCodec
  import opened HashTree
  import opened TreeIndex
  import opened FreeTree
  import opened FtSpec
  import opened FtBuild
  import opened FtInv
  import opened FtTheorems
  import P = FtPlaces

  // ------------------------------------------------------------- leaves by address

  /** Every old address still leads to its leaf; the addresses behind lead to leaves
      made of consecutive contingent addresses.  */
  lemma AddressesKeepLeaves(c: Codec, o: World, t: Tree, w: World, u: Tree, v: nat)
    requires Outcome(c, o, t, w, u) && v < w.job.nrLeaves
    ensures var at := LeafAt(u, w.job.maxLevel, Path(v, w.job.maxLevel, w.job.edges));
            if v < o.job.nrLeaves then at == LeafAt(t, o.job.maxLevel, Path(v, o.job.maxLevel, o.job.edges))
            else at == NewLeaf(FirstAdded(o, w.job) + (v - o.job.nrLeaves))
  {
    NewLeafAt(c, o, t, w, u, v);
    OldLeaves(c, o, t, v);
    if v >= o.job.nrLeaves {
      AddedLeafAt(o, w, v - o.job.nrLeaves);
    }
  }

  lemma AddedLeafAt(o: World, w: World, i: nat)
    requires w.job.nrPbas + w.job.newLeaves <= o.job.nrPbas && i < w.job.newLeaves && Contingent(o.job.pba, o.job.nrPbas)
    ensures FirstAdded(o, w.job) + i < U64_LIMIT && Added(o, w.job)[i] == NewLeaf(FirstAdded(o, w.job) + i)
  {
    FreshLeafAt(FirstAdded(o, w.job), w.job.newLeaves, i);
  }

  lemma OldLeaves(c: Codec, o: World, t: Tree, v: nat)
    requires Request(c, o, t)
    ensures |Leaves(t, o.job.edges)| == o.job.nrLeaves
    ensures v < o.job.nrLeaves ==> LeafAt(t, o.job.maxLevel, Path(v, o.job.maxLevel, o.job.edges)) == Leaves(t, o.job.edges)[v]
  {
    PackedCount(t, o.job.maxLevel, o.job.nrLeaves, o.job.edges);
    if v < o.job.nrLeaves {
      LeafAtIsLeaf(t, o.job.maxLevel, o.job.nrLeaves, v, o.job.edges);
    }
  }

  lemma NewLeafAt(c: Codec, o: World, t: Tree, w: World, u: Tree, v: nat)
    requires Outcome(c, o, t, w, u) && v < w.job.nrLeaves
    ensures v < |Leaves(t, o.job.edges) + Added(o, w.job)|
    ensures LeafAt(u, w.job.maxLevel, Path(v, w.job.maxLevel, w.job.edges)) == (Leaves(t, o.job.edges) + Added(o, w.job))[v]
  {
    LeafAtIsLeaf(u, w.job.maxLevel, w.job.nrLeaves, v, w.job.edges);
  }

  /** Where the leaf addresses begin in the contingent: behind the new nodes. */
  function FirstAdded(o: World, j: Job): nat
    requires j.nrPbas + j.newLeaves <= o.job.nrPbas
  {
    o.job.pba + (o.job.nrPbas - j.nrPbas - j.newLeaves)
  }

  lemma {:induction false} FreshLeafAt(first: nat, count: nat, i: nat)
    requires i < count && first + count <= U64_LIMIT
    ensures FreshLeaves(first, count)[i] == NewLeaf(first + i)
    decreases count
  {
    if i > 0 {
      FreshLeafAt(first + 1, count - 1, i - 1);
    }
  }

  // ------------------------------------------------- the free tree can use new leaves

  const PBA_INVALID := U64_LIMIT - 1

  datatype Snapshot = Snapshot(valid: bool, gen: U64)

  /** What the free tree knows when it looks for a leaf to hand out. */
  datatype Search = Search(snapshots: seq<Snapshot>, lastSecuredGen: U64, rekeying: bool, previousKeyId: U32, rekeyingVba: nat)

  /** The free tree's test of a leaf entry. */
  predicate LeafUsable(s: Search, e: T2)
  {
    && e.pba != 0 && e.pba != PBA_INVALID && e.freeGen <= s.lastSecuredGen
    && (|| !e.reserved
        || (s.rekeying && e.lastKeyId == s.previousKeyId && e.lastVba < s.rekeyingVba)
        || !exists i :: 0 <= i < |s.snapshots| && s.snapshots[i].valid
                        && e.freeGen > s.snapshots[i].gen && e.allocGen < (s.snapshots[i].gen + 1) % U64_LIMIT)
  }

  /** An address behind the old ones leads to a leaf entry that was never used: it
      holds the next address of the contingent, belongs to the initial generation, and
      names no virtual address (these end below 64**5) and no key. */
  lemma NewLeafFields(c: Codec, o: World, t: Tree, w: World, u: Tree, v: nat)
    requires Outcome(c, o, t, w, u) && o.job.nrLeaves <= v < w.job.nrLeaves
    ensures var e := LeafAt(u, w.job.maxLevel, Path(v, w.job.maxLevel, w.job.edges));
            && e.pba == o.job.pba + (o.job.nrPbas - w.job.nrPbas) - (w.job.nrLeaves - v)
            && 0 < e.pba
            && e.allocGen == 0 && e.freeGen == 0 && !e.reserved
            && e.lastVba == Pow(64, 5) && e.lastKeyId == 0
  {
    AddressesKeepLeaves(c, o, t, w, u, v);
    PowersOfTwo();
    assert Pow(64, 5) == 64 * Pow(64, 4) == 64 * 64 * Pow(64, 3) && Pow(64, 3) == 64 * 64 * Pow(64, 1);
  }

  /** The free tree can hand out every new leaf at once, whatever generation was
      secured last; the only exception is the address that the source reserves as the
      invalid one. */
  lemma NewLeafUsableIff(c: Codec, o: World, t: Tree, w: World, u: Tree, v: nat, s: Search)
    requires Outcome(c, o, t, w, u) && o.job.nrLeaves <= v < w.job.nrLeaves
    ensures LeafUsable(s, LeafAt(u, w.job.maxLevel, Path(v, w.job.maxLevel, w.job.edges)))
       <==> o.job.pba + (o.job.nrPbas - w.job.nrPbas) - (w.job.nrLeaves - v) != PBA_INVALID
  {
    NewLeafFields(c, o, t, w, u, v);
  }

  /** A contingent that ends before the invalid address makes usable leaves only. */
  lemma NewLeavesUsable(c: Codec, o: World, t: Tree, w: World, u: Tree, v: nat, s: Search)
    requires Outcome(c, o, t, w, u) && o.job.nrLeaves <= v < w.job.nrLeaves
    requires o.job.pba + o.job.nrPbas <= PBA_INVALID
    ensures LeafUsable(s, LeafAt(u, w.job.maxLevel, Path(v, w.job.maxLevel, w.job.edges)))
  {
    NewLeafUsableIff(c, o, t, w, u, v, s);
  }

  // ------------------------------------------------------------------- conservation

  lemma {:induction false} GivenUsed(o: World, t: Tree, swaps: seq<Swap>, p: U64)
    requires ValidDegree(o.job.edges) && forall i | 0 <= i < |swaps| :: Uses(t, o.job.edges, Every, swaps[i].given) >= 1
    requires Given(swaps, p) > 0
    ensures Uses(t, o.job.edges, Every, p) >= 1
  {
    if swaps[|swaps| - 1].given != p {
      GivenUsed(o, t, swaps[..|swaps| - 1], p);
    }
  }

  /** Every address consumed from the contingent has exactly one use in the new tree
      and had none before, every address from the meta tree likewise; an address
      given away has none any more; all others are as before.  */
  lemma EachAddressOnce(c: Codec, o: World, t: Tree, w: World, u: Tree, p: U64)
    requires Outcome(c, o, t, w, u)
    ensures var before, after := Uses(t, o.job.edges, Every, p), Uses(u, o.job.edges, Every, p);
            && after <= 1
            && (InRange(p, o.job.pba, o.job.nrPbas - w.job.nrPbas) == 1 ==> before == 0 && after == 1)
            && (Taken(w.swaps, p) > 0 ==> before == 0 && after == 1)
            && (Given(w.swaps, p) > 0 ==> before == 1 && after == 0)
            && (InRange(p, o.job.pba, o.job.nrPbas - w.job.nrPbas) == 0 && Taken(w.swaps, p) == 0 && Given(w.swaps, p) == 0 ==> after == before)
  {
    assert Balance(o, t, w, Uses(u, o.job.edges, Every, p), p);
    assert Supplied(o, t, p) <= 1;
    assert Taken(w.swaps, p) + Count(w.supply, p) == Count(o.supply, p);
    if Given(w.swaps, p) > 0 {
      GivenUsed(o, t, w.swaps, p);
    }
  }

  /** The address and size of the contingent advance together. */
  lemma ContingentConserved(c: Codec, o: World, t: Tree, w: World, u: Tree)
    requires Outcome(c, o, t, w, u)
    ensures Contingent(w.job.pba, w.job.nrPbas)
    ensures w.job.nrPbas > 0 ==> w.job.pba + w.job.nrPbas == o.job.pba + o.job.nrPbas
    ensures (w.job.pba + w.job.nrPbas) % U64_LIMIT == (o.job.pba + o.job.nrPbas) % U64_LIMIT
  {
    assert PbaAfter(w.job.pba, o.job.pba + (o.job.nrPbas - w.job.nrPbas));
    ContingentAfter(o.job.pba, o.job.nrPbas, w.job.pba, w.job.nrPbas);
  }

  lemma ContingentAfter(first: U64, count: nat, next: U64, left: nat)
    requires Contingent(first, count) && left <= count && PbaAfter(next, first + (count - left))
    ensures Contingent(next, left)
    ensures left > 0 ==> next + left == first + count
    ensures (next + left) % U64_LIMIT == (first + count) % U64_LIMIT
  {
    if left == 0 && first + count == U64_LIMIT {
      assert next == 0;
    }
  }

  // -------------------------------------------------------------------- copy on write

  lemma {:induction false} RootIsYoungest(t: Tree, gen: U64)
    requires GensFall(t) && (!t.Nil? ==> t.node.gen < gen)
    ensures AllOld(t, gen)
    decreases t
  {
    if t.Inner? {
      forall i | 0 <= i < |t.kids| ensures AllOld(t.kids[i], gen) {
        RootIsYoungest(t.kids[i], gen);
      }
    }
  }

  ghost predicate OldBlocksSame(t: Tree, gen: U64, before: Disk, after: Disk)
  {
    forall p | !OldNodesAvoid(t, gen, p) && p in before :: p in after && after[p] == before[p]
  }

  lemma {:induction false} StoredKept(c: Codec, t: Tree, gen: U64, before: Disk, after: Disk, level: nat, edges: nat)
    requires ValidDegree(edges) && Stored(c, before, t, level, edges) && AllOld(t, gen) && OldBlocksSame(t, gen, before, after)
    ensures Stored(c, after, t, level, edges)
    decreases level
  {
    if !t.Nil? {
      assert !OldNodesAvoid(t, gen, t.node.pba);
    }
    if t.Inner? {
      forall i | 0 <= i < edges ensures Stored(c, after, t.kids[i], level - 1, edges) {
        assert forall p | !OldNodesAvoid(t.kids[i], gen, p) :: !OldNodesAvoid(t, gen, p);
        StoredKept(c, t.kids[i], gen, before, after, level - 1, edges);
      }
    }
  }

  /** If the tree is older than the current generation, the old root still reads the
      old tree in every state of every run. */
  lemma OldTreeSurvives(c: Codec, o: World, t: Tree, k: nat)
    requires Request(c, o, t) && GensFall(t) && t.node.gen < o.job.gen
    ensures Stored(c, Run(c, o, k).disk, t, o.job.maxLevel, o.job.edges)
  {
    RootIsYoungest(t, o.job.gen);
    forall p | !OldNodesAvoid(t, o.job.gen, p) && p in o.disk ensures p in Run(c, o, k).disk && Run(c, o, k).disk[p] == o.disk[p] {
      OldNodesUntouched(c, o, t, k, p);
    }
    StoredKept(c, t, o.job.gen, o.disk, Run(c, o, k).disk, o.job.maxLevel, o.job.edges);
  }

  // ------------------------------------------------------------------ repeated steps

  /** The result of one step is submitted again, for any generation. */
  function Resubmit(w: World, gen: U64): World
  {
    var j := w.job;
    w.(job := FtSpec.Submit(j, gen, j.root, j.maxLevel, j.nrLeaves, j.edges, j.pba, j.nrPbas), swaps := [], written := [])
  }

  lemma NextSupplied(c: Codec, o: World, t: Tree, w: World, u: Tree, gen: U64, p: U64)
    requires Outcome(c, o, t, w, u)
    ensures Supplied(Resubmit(w, gen), u, p) <= 1
  {
    ContingentConserved(c, o, t, w, u);
    assert Balance(o, t, w, Uses(u, o.job.edges, Every, p), p);
    assert Supplied(o, t, p) <= 1;
    assert Taken(w.swaps, p) + Count(w.supply, p) == Count(o.supply, p);
    if w.job.nrPbas > 0 {
      P.RangeSplit(p, o.job.pba, o.job.nrPbas - w.job.nrPbas, w.job.nrPbas);
    }
  }

  /** A completed step leaves a tree that the next step can be submitted for. */
  lemma OutcomeIsRequest(c: Codec, o: World, t: Tree, w: World, u: Tree, gen: U64)
    requires Outcome(c, o, t, w, u)
    ensures Request(c, Resubmit(w, gen), u)
  {
    ContingentConserved(c, o, t, w, u);
    forall p ensures Supplied(Resubmit(w, gen), u, p) <= 1 {
      NextSupplied(c, o, t, w, u, gen, p);
    }
  }

  /** The new root belongs to the generation of the step, and if no node of the old tree
      was younger than that or than its parent, this is so for the new tree. */
  lemma OutcomeIsYoung(c: Codec, o: World, t: Tree, w: World, u: Tree)
    requires Outcome(c, o, t, w, u)
    ensures w.job.root.gen == o.job.gen && w.job.root == u.node
    ensures GensFall(t) && t.node.gen <= o.job.gen ==> GensFall(u)
  {
  }

  /** Copy on write from step to step: the tree that one step published is still read by
      its root in every state of every run of the next step of a later generation.  */
  lemma PublishedTreeSurvives(c: Codec, o: World, t: Tree, w: World, u: Tree, gen: U64, k: nat)
    requires Outcome(c, o, t, w, u) && GensFall(t) && t.node.gen <= o.job.gen < gen
    ensures u.node == w.job.root && Stored(c, w.disk, u, w.job.maxLevel, w.job.edges)
    ensures Stored(c, Run(c, Resubmit(w, gen), k).disk, u, w.job.maxLevel, w.job.edges)
  {
    OutcomeIsYoung(c, o, t, w, u);
    OutcomeIsRequest(c, o, t, w, u, gen);
    OldTreeSurvives(c, Resubmit(w, gen), u, k);
  }

  /** One whole step of extension. */
  function Step(c: Codec, w: World, gen: U64): World
  {
    Run(c, Resubmit(w, gen), 3 * w.job.maxLevel + 3)
  }

  /** Steps for the given generations, as long as there are addresses and the next
      step will not raise. */
  function Extend(c: Codec, w: World, gens: seq<U64>): World
    decreases |gens|
  {
    if gens == [] || w.job.nrPbas == 0 || !Shaped(w.job) || !Finishes(w.job) then w
    else Extend(c, Step(c, w, gens[0]), gens[1..])
  }

  /** A tree that can be extended, with enough addresses in the meta tree for n steps. */
  ghost predicate Ready(c: Codec, w: World, t: Tree, n: nat)
  {
    |w.supply| >= MAX_LEVEL * (n + 1) && forall gen :: Request(c, Resubmit(w, gen), t)
  }

  ghost predicate Grows(w: World, t: Tree, r: World, u: Tree)
  {
    && ValidDegree(w.job.edges) && r.job.edges == w.job.edges && r.job.nrLeaves >= w.job.nrLeaves
    && Leaves(t, w.job.edges) <= Leaves(u, w.job.edges)
  }

  lemma StepIsReady(c: Codec, w: World, t: Tree, n: nat, gen: U64) returns (u: Tree)
    requires Ready(c, w, t, n) && n > 0 && w.job.nrPbas > 0 && Shaped(w.job) && Finishes(w.job)
    ensures var r := Step(c, w, gen);
            Ready(c, r, u, n - 1) && r.job.nrPbas < w.job.nrPbas && Grows(w, t, r, u)
  {
    var o := Resubmit(w, gen);
    var r := Step(c, w, gen);
    assert Request(c, o, t);
    u := StepAppends(c, o, t, 3 * w.job.maxLevel + 3);
    OutcomeGrows(c, w, t, gen, r, u);
    forall next ensures Request(c, Resubmit(r, next), u) {
      OutcomeIsRequest(c, o, t, r, u, next);
    }
  }

  lemma OutcomeGrows(c: Codec, w: World, t: Tree, gen: U64, r: World, u: Tree)
    requires Outcome(c, Resubmit(w, gen), t, r, u)
    ensures Grows(w, t, r, u) && |r.supply| + MAX_LEVEL >= |w.supply|
    ensures w.job.nrPbas > 0 ==> r.job.nrPbas < w.job.nrPbas
  {
  }

  /** Repeated extension terminates: within as many steps as there are addresses it
      uses them up, unless the height limit stops it; leaves are only ever appended. */
  lemma {:induction false} ExtensionTerminates(c: Codec, w: World, t: Tree, gens: seq<U64>) returns (u: Tree)
    requires Ready(c, w, t, |gens|) && Shaped(w.job)
    ensures var r := Extend(c, w, gens);
            && Shaped(r.job) && Ready(c, r, u, 0) && Grows(w, t, r, u)
            && (|gens| >= w.job.nrPbas ==> r.job.nrPbas == 0 || !Finishes(r.job))
    decreases |gens|
  {
    u := t;
    assert Request(c, Resubmit(w, 0), t);
    if gens != [] && w.job.nrPbas > 0 && Finishes(w.job) {
      u := StepIsReady(c, w, t, |gens|, gens[0]);
      u := RestTerminates(c, w, t, Step(c, w, gens[0]), u, gens);
    }
  }

  lemma RestTerminates(c: Codec, w: World, t: Tree, r: World, v: Tree, gens: seq<U64>) returns (u: Tree)
    requires gens != [] && Ready(c, r, v, |gens| - 1) && r.job.nrPbas < w.job.nrPbas && Grows(w, t, r, v)
    ensures var q := Extend(c, r, gens[1..]);
            && Shaped(q.job) && Ready(c, q, u, 0) && Grows(w, t, q, u)
            && (|gens| >= w.job.nrPbas ==> q.job.nrPbas == 0 || !Finishes(q.job))
    decreases |gens|, 0
  {
    assert Request(c, Resubmit(r, 0), v);
    u := ExtensionTerminates(c, r, v, gens[1..]);
  }
}
