/** Free tree extension and meta tree on one device.

    The step takes its addresses from the meta tree, which takes the old ones in
    exchange.  Both trees stay stored and share no address. */
module FtJoint {
  import opened NodeCodec
  import opened HashTree
  import opened TreeIndex
  import opened FtSpec
  import opened FtBuild
  import opened FtInv
  import opened FtTheorems
  import opened FtSupply
  import opened MetaTreeTheorems
  import opened MetaTreeAllocation
  import R = FtRead
  import A = FtAlloc
  import O = FtOutcome
  import MT = MetaTreeSpec

  /** Where the meta tree lives: height and degree. */
  datatype Shape = Shape(level: nat, edges: nat)

  ghost predicate StoredMeta(c: Codec, disk: Disk, v: Tree, s: Shape)
  {
    MT.FIRST_N <= s.level < MT.NR_OF_LEVELS && ValidDegree(s.edges) && !v.Nil? && Stored(c, disk, v, s.level, s.edges)
  }

  /** What a caller provides: an extension request and a meta tree, without a shared
      address. */
  ghost predicate JointRequest(c: Codec, o: World, t: Tree, v: Tree, s: Shape)
  {
    && Request(c, o, t) && o.supply == [] && StoredMeta(c, o.disk, v, s)
    && forall p :: Supplied(o, t, p) + Uses(v, s.edges, Every, p) <= 1
  }

  /** The addresses handed out so far left the meta tree for those given away. */
  ghost predicate Swapped(o: World, w: World, v0: Tree, v: Tree, s: Shape)
    requires ValidDegree(s.edges)
  {
    && (forall p :: Uses(v, s.edges, Every, p) + Count(o.supply, p) == Uses(v0, s.edges, Every, p) + Given(w.swaps, p))
    && (forall p :: Uses(v, s.edges, MovableIn(o.job.gen), p) + Count(o.supply, p) <= Uses(v0, s.edges, MovableIn(o.job.gen), p))
  }

  /** o is the request with the device as the last allocation left it and with all
      addresses handed out; w is a state of the step, v the meta tree. */
  ghost predicate Joined(c: Codec, o0: World, t: Tree, v0: Tree, s: Shape, o: World, w: World, v: Tree)
  {
    && JointRequest(c, o0, t, v0, s)
    && o == o0.(disk := o.disk, supply := o.supply) && Request(c, o, t)
    && StoredMeta(c, w.disk, v, s) && Swapped(o, w, v0, v, s)
  }

  // --------------------------------------------------------- the address asked for

  /** The asked for address is still planned, so it has not been given away. */
  lemma AskedIsPlanned(c: Codec, j: Job, g: Ghost, l: nat)
    requires Shaped(j) && Fits(g, j) && 1 <= j.lvl <= l <= j.maxLevel
    ensures BuiltUses(c, j, g, l - 1, j.oldPbas[l]) >= 1
  {
    var plan := Plan(j, l - 1);
    if l > j.lvl {
      R.AboveCounts(plan, g.base, g.path, j.edges, j.lvl + 1, l, j.maxLevel, plan[l]);
    }
  }

  lemma NotGivenTwice(c: Codec, o: World, t: Tree, w: World, g: Ghost, p: U64)
    requires WaitInv(c, o, t, w, g)
    ensures Given(w.swaps, p) <= 1
    ensures Given(w.swaps, p) > 0 ==> Uses(t, o.job.edges, Every, p) >= 1
    ensures Given(w.swaps, w.job.oldPbas[w.job.allocLvl]) == 0
  {
    var q := w.job.oldPbas[w.job.allocLvl];
    AskedIsPlanned(c, w.job, g, w.job.allocLvl);
    GivenOnce(c, o, t, w, g, p);
    GivenOnce(c, o, t, w, g, q);
    if Given(w.swaps, p) > 0 {
      O.GivenUsed(o, t, w.swaps, p);
    }
  }

  lemma GivenOnce(c: Codec, o: World, t: Tree, w: World, g: Ghost, p: U64)
    requires WaitInv(c, o, t, w, g)
    ensures BuiltUses(c, w.job, g, w.job.allocLvl - 1, p) + Given(w.swaps, p) <= 1
  {
    assert Balance(o, t, w, BuiltUses(c, w.job, g, w.job.allocLvl - 1, p), p);
    assert Supplied(o, t, p) <= 1;
    assert Taken(w.swaps, p) + Count(w.supply, p) == Count(o.supply, p);
  }

  /** A waiting step asks the meta tree to take an address that it does not have. */
  lemma AskedIsOutside(c: Codec, o0: World, t: Tree, v0: Tree, s: Shape, o: World, w: World, v: Tree, g: Ghost)
    requires Joined(c, o0, t, v0, s, o, w, v) && WaitInv(c, o, t, w, g)
    ensures var gone := w.job.oldPbas[w.job.allocLvl];
            gone != 0 && forall p :: Uses(v, s.edges, Every, p) + (if p == gone then 1 else 0) <= 1
  {
    var gone := w.job.oldPbas[w.job.allocLvl];
    assert Uses(t, o.job.edges, Every, gone) >= 1;
    ZeroUnused(c, o.disk, t, o.job.maxLevel, o.job.edges);
    forall p ensures Uses(v, s.edges, Every, p) + (if p == gone then 1 else 0) <= 1 {
      NotGivenTwice(c, o, t, w, g, p);
      assert Supplied(o0, t, p) + Uses(v0, s.edges, Every, p) <= 1;
    }
  }

  // ------------------------------------------------------- an allocation succeeds

  lemma {:induction false} CountAppend(s: seq<U64>, x: U64, p: U64)
    ensures Count(s + [x], p) == Count(s, p) + (if x == p then 1 else 0)
  {
    if s != [] {
      assert (s + [x])[1..] == s[1..] + [x];
      CountAppend(s[1..], x, p);
    }
  }

  /** Addresses of the free tree and its contingent are no nodes of the meta tree. */
  lemma NodesApart(o0: World, t: Tree, v0: Tree, v: Tree, s: Shape, gen: U64, handed: nat, p: U64)
    requires ValidDegree(s.edges) && ValidDegree(o0.job.edges)
    requires Supplied(o0, t, p) + Uses(v0, s.edges, Every, p) <= 1
    requires Uses(v, s.edges, MovableIn(gen), p) + handed <= Uses(v0, s.edges, MovableIn(gen), p)
    ensures Supplied(o0, t, p) + handed > 0 ==> Uses(v, s.edges, NodesOnly, p) == 0
    ensures Supplied(o0, t, p) + handed <= 1
  {
    UsableAreUsed(v0, s.edges, gen, p);
    UsableAreUsed(v, s.edges, gen, p);
  }

  /** The request after the allocation. */
  function NextOrigin(o: World, disk: Disk, x: U64): World
  {
    o.(disk := disk, supply := o.supply + [x])
  }

  ghost predicate Answers(c: Codec, o: World, w: World, disk: Disk, v: Tree, v': Tree, s: Shape, r: Exchange)
  {
    && Shaped(w.job) && r.oldPba == w.job.oldPbas[w.job.allocLvl]
    && Allocated(c, w.disk, disk, s.level, s.edges, o.job.gen, v, v', r)
  }

  lemma NextIsSupplement(c: Codec, o0: World, t: Tree, v0: Tree, s: Shape, o: World, w: World, v: Tree, g: Ghost, disk: Disk, v': Tree, r: Exchange)
    requires Joined(c, o0, t, v0, s, o, w, v) && WaitInv(c, o, t, w, g) && Answers(c, o, w, disk, v, v', s, r) && r.success
    ensures Supplement(o, NextOrigin(o, disk, r.newPba), t, r.newPba) && Request(c, NextOrigin(o, disk, r.newPba), t)
    ensures forall p :: Uses(v', s.edges, MovableIn(o.job.gen), p) + Count(o.supply + [r.newPba], p)
                     <= Uses(v0, s.edges, MovableIn(o.job.gen), p)
  {
    var o' := NextOrigin(o, disk, r.newPba);
    forall p
      ensures Uses(v', s.edges, MovableIn(o.job.gen), p) + Count(o'.supply, p) <= Uses(v0, s.edges, MovableIn(o.job.gen), p)
      ensures Supplied(o', t, p) <= 1
      ensures Uses(t, o.job.edges, Every, p) > 0 ==> SameBlock(o.disk, disk, p)
    {
      CountAppend(o.supply, r.newPba, p);
      assert Supplied(o0, t, p) + Uses(v0, s.edges, Every, p) <= 1;
      NodesApart(o0, t, v0, v', s, o.job.gen, Count(o'.supply, p), p);
      if Uses(t, o.job.edges, Every, p) > 0 {
        assert SameBlock(w.disk, disk, p);
      }
    }
    TreeStays(c, o, disk, t);
    NewIsNotZero(c, w.disk, v, v', s, o.job.gen, r);
  }

  lemma TreeStays(c: Codec, o: World, disk: Disk, t: Tree)
    requires Request(c, o, t) && forall p :: Uses(t, o.job.edges, Every, p) > 0 ==> SameBlock(o.disk, disk, p)
    ensures Stored(c, disk, t, o.job.maxLevel, o.job.edges)
  {
    forall p | Uses(t, o.job.edges, NodesOnly, p) > 0 ensures SameBlock(o.disk, disk, p) {
      UsableAreUsed(t, o.job.edges, 0, p);
    }
    StoredSame(c, o.disk, disk, t, o.job.maxLevel, o.job.edges);
  }

  lemma NewIsNotZero(c: Codec, disk: Disk, v: Tree, v': Tree, s: Shape, gen: U64, r: Exchange)
    requires StoredMeta(c, disk, v, s) && Serves(v, v', s.edges, gen, r) && r.success
    ensures r.newPba != 0
  {
    ZeroUnused(c, disk, v, s.level, s.edges);
    UsableAreUsed(v, s.edges, gen, 0);
  }

  /** The step goes on with the address, the meta tree has the old one. */
  lemma AllocationJoins(c: Codec, o0: World, t: Tree, v0: Tree, s: Shape, o: World, w: World, v: Tree, g: Ghost, disk: Disk, v': Tree, r: Exchange)
    requires Joined(c, o0, t, v0, s, o, w, v) && WaitInv(c, o, t, w, g) && Answers(c, o, w, disk, v, v', s, r) && r.success
    ensures var w' := Serve(c, w.(disk := disk, supply := [r.newPba]));
            Joined(c, o0, t, v0, s, NextOrigin(o, disk, r.newPba), w', v') && w'.supply == []
  {
    NextIsSupplement(c, o0, t, v0, s, o, w, v, g, disk, v', r);
    var o', w' := NextOrigin(o, disk, r.newPba), Serve(c, w.(disk := disk, supply := [r.newPba]));
    assert w'.swaps == w.swaps + [Swap(r.oldPba, r.newPba)];
    assert w'.swaps[..|w.swaps|] == w.swaps;
    forall p ensures Uses(v', s.edges, Every, p) + Count(o'.supply, p) == Uses(v0, s.edges, Every, p) + Given(w'.swaps, p) {
      CountAppend(o.supply, r.newPba, p);
      assert Uses(v, s.edges, Every, p) + Count(o.supply, p) == Uses(v0, s.edges, Every, p) + Given(w.swaps, p);
    }
  }

  // -------------------------------------------------------------- rounds of the step

  /** A round of the step changes no block of the meta tree. */
  lemma RoundKeepsMeta(c: Codec, o0: World, t: Tree, v0: Tree, s: Shape, o: World, w: World, v: Tree)
    requires Joined(c, o0, t, v0, s, o, w, v) && CanExecute(w.job) && w.supply == []
    requires OldKept(o, t, Advance(c, w))
    ensures Joined(c, o0, t, v0, s, o, Advance(c, w), v) && Advance(c, w).supply == []
  {
    var w' := Advance(c, w);
    RoundWritesOne(c, w);
    forall p | Uses(v, s.edges, NodesOnly, p) > 0 ensures SameBlock(w.disk, w'.disk, p) {
      if w'.written != w.written && p == w'.written[|w.written|] {
        assert Writable(o, t, p);
        assert Supplied(o0, t, p) + Uses(v0, s.edges, Every, p) <= 1;
        NodesApart(o0, t, v0, v, s, o.job.gen, Count(o.supply, p), p);
      }
    }
    StoredSame(c, w.disk, w'.disk, v, s.level, s.edges);
  }

  lemma RoundWritesOne(c: Codec, w: World)
    requires CanExecute(w.job) && w.supply == []
    ensures var w' := Advance(c, w);
            && w'.supply == [] && w'.swaps == w.swaps
            && ((w'.disk == w.disk && w'.written == w.written)
                || (|w'.written| == |w.written| + 1
                    && forall p :: p != w'.written[|w.written|] ==> SameBlock(w.disk, w'.disk, p)))
  {
  }

  // ------------------------------------------------------------------- the outcome

  /** No address is lost or shared, counting both trees. */
  ghost predicate JointlyKept(o0: World, t: Tree, v0: Tree, s: Shape, w: World, u: Tree, v: Tree)
    requires ValidDegree(s.edges) && ValidDegree(o0.job.edges) && w.job.nrPbas <= o0.job.nrPbas
  {
    forall p ::
      var joint := Uses(u, o0.job.edges, Every, p) + Uses(v, s.edges, Every, p);
      && joint == Uses(t, o0.job.edges, Every, p) + Uses(v0, s.edges, Every, p) + InRange(p, o0.job.pba, o0.job.nrPbas - w.job.nrPbas)
      && joint <= 1
  }

  lemma OutcomeIsJoint(c: Codec, o0: World, t: Tree, v0: Tree, s: Shape, o: World, w: World, v: Tree, u: Tree)
    requires Joined(c, o0, t, v0, s, o, w, v) && Outcome(c, o, t, w, u) && w.supply == []
    ensures JointlyKept(o0, t, v0, s, w, u, v)
  {
    forall p
      ensures Uses(u, o0.job.edges, Every, p) + Uses(v, s.edges, Every, p)
           == Uses(t, o0.job.edges, Every, p) + Uses(v0, s.edges, Every, p) + InRange(p, o0.job.pba, o0.job.nrPbas - w.job.nrPbas)
      ensures Uses(u, o0.job.edges, Every, p) + Uses(v, s.edges, Every, p) <= 1
    {
      assert Balance(o, t, w, Uses(u, w.job.edges, Every, p), p);
      assert Taken(w.swaps, p) + Count(w.supply, p) == Count(o.supply, p);
      assert Supplied(o0, t, p) + Uses(v0, s.edges, Every, p) <= 1;
    }
  }

  // -------------------------------------------------------------- a stale address

  /** The addresses that the waiting step has planned, plus those of the meta tree. */
  ghost function JointUses(c: Codec, w: World, g: Ghost, placed: nat, v: Tree, s: Shape, p: U64): nat
    requires Shaped(w.job) && Fits(g, w.job) && 1 <= w.job.lvl && ValidDegree(s.edges)
  {
    BuiltUses(c, w.job, g, placed, p) + Uses(v, s.edges, Every, p)
  }

  /** The meta tree's address goes to the step, whichever it is. */
  function Answered(c: Codec, w: World, disk: Disk, x: U64): World
    requires Shaped(w.job)
  {
    Serve(c, w.(disk := disk, supply := [x]))
  }

  lemma AnsweredJob(c: Codec, o: World, t: Tree, w: World, g: Ghost, disk: Disk, x: U64)
    requires WaitInv(c, o, t, w, g)
    ensures var j, j' := w.job, Answered(c, w, disk, x).job;
            j' == j.(state := AllocCompleted, newPbas := j.newPbas[j.allocLvl := x]) && Fits(g, j') && Shaped(j')
    ensures Plan(Answered(c, w, disk, x).job, w.job.allocLvl) == Plan(w.job, w.job.allocLvl - 1)[w.job.allocLvl := x]
  {
    var j, j' := w.job, Answered(c, w, disk, x).job;
    assert j' == j.(state := AllocCompleted, newPbas := j.newPbas[j.allocLvl := x]);
    var p, q := Plan(j', j.allocLvl), Plan(j, j.allocLvl - 1)[j.allocLvl := x];
    assert forall l | 0 <= l < LEVELS :: p[l] == q[l];
  }

  lemma AnsweredUses(c: Codec, o: World, t: Tree, w: World, g: Ghost, disk: Disk, x: U64, p: U64)
    requires WaitInv(c, o, t, w, g)
    ensures var w', l := Answered(c, w, disk, x), w.job.allocLvl;
            && Shaped(w'.job) && Fits(g, w'.job) && w'.job.lvl == w.job.lvl
            && BuiltUses(c, w'.job, g, l, p) + (if p == w.job.oldPbas[l] then 1 else 0)
               == BuiltUses(c, w.job, g, l - 1, p) + (if p == x then 1 else 0)
  {
    AnsweredJob(c, o, t, w, g, disk, x);
    A.PlanUpdate(c, w.job, g, Plan(w.job, w.job.allocLvl - 1), w.job.allocLvl, x, p);
  }

  /** What the answer adds to and takes from both trees at address p. */
  lemma AnsweredJointly(c: Codec, o: World, t: Tree, w: World, g: Ghost, v: Tree, v': Tree, s: Shape, disk: Disk, r: Exchange, p: U64)
    requires WaitInv(c, o, t, w, g) && Answers(c, o, w, disk, v, v', s, r)
    ensures var w', l := Answered(c, w, disk, r.newPba), w.job.allocLvl;
            && Shaped(w'.job) && Fits(g, w'.job) && w'.job.lvl == w.job.lvl
            && JointUses(c, w', g, l, v', s, p) + (if !r.success && p == r.oldPba then 1 else 0)
               == JointUses(c, w, g, l - 1, v, s, p) + (if !r.success && p == r.newPba then 1 else 0)
  {
    AnsweredUses(c, o, t, w, g, disk, r.newPba, p);
  }

  /** No address is lost or doubled by the answer, counting the planned addresses and
      those of the meta tree. */
  ghost predicate Conserved(c: Codec, w: World, w': World, g: Ghost, v: Tree, v': Tree, s: Shape)
    requires Shaped(w.job) && Shaped(w'.job) && Fits(g, w.job) && Fits(g, w'.job) && ValidDegree(s.edges)
    requires w'.job.lvl == w.job.lvl >= 1 && w.job.allocLvl >= 1
  {
    forall p :: ConservedAt(c, w, w', g, v, v', s, p)
  }

  ghost predicate ConservedAt(c: Codec, w: World, w': World, g: Ghost, v: Tree, v': Tree, s: Shape, p: U64)
    requires Shaped(w.job) && Shaped(w'.job) && Fits(g, w.job) && Fits(g, w'.job) && ValidDegree(s.edges)
    requires w'.job.lvl == w.job.lvl >= 1 && w.job.allocLvl >= 1
  {
    JointUses(c, w', g, w.job.allocLvl, v', s, p) == JointUses(c, w, g, w.job.allocLvl - 1, v, s, p)
  }

  lemma ConservedOnSuccess(c: Codec, o: World, t: Tree, w: World, g: Ghost, v: Tree, v': Tree, s: Shape, disk: Disk, r: Exchange)
    requires WaitInv(c, o, t, w, g) && Answers(c, o, w, disk, v, v', s, r) && (r.success || r.newPba == r.oldPba)
    ensures var w' := Answered(c, w, disk, r.newPba);
            Shaped(w'.job) && Fits(g, w'.job) && w'.job.lvl == w.job.lvl && Conserved(c, w, w', g, v, v', s)
  {
    AnsweredJob(c, o, t, w, g, disk, r.newPba);
    forall p ensures ConservedAt(c, w, Answered(c, w, disk, r.newPba), g, v, v', s, p) {
      AnsweredJointly(c, o, t, w, g, v, v', s, disk, r, p);
    }
  }

  /** The answer conserves the addresses if and only if the request succeeded, or the
      stale address is the one to be given away. */
  lemma ConservedIff(c: Codec, o: World, t: Tree, w: World, g: Ghost, v: Tree, v': Tree, s: Shape, disk: Disk, r: Exchange)
    requires WaitInv(c, o, t, w, g) && Answers(c, o, w, disk, v, v', s, r)
    ensures var w' := Answered(c, w, disk, r.newPba);
            && Shaped(w'.job) && Fits(g, w'.job) && w'.job.lvl == w.job.lvl
            && (Conserved(c, w, w', g, v, v', s) <==> r.success || r.newPba == r.oldPba)
  {
    AnsweredJob(c, o, t, w, g, disk, r.newPba);
    AnsweredJointly(c, o, t, w, g, v, v', s, disk, r, r.newPba);
    if r.success || r.newPba == r.oldPba {
      ConservedOnSuccess(c, o, t, w, g, v, v', s, disk, r);
    } else {
      assert !ConservedAt(c, w, Answered(c, w, disk, r.newPba), g, v, v', s, r.newPba);
    }
  }

  /** If the meta tree is exhausted, an address that it handed out in this very step
      is handed out again: two nodes of the path would go to the same place. */
  lemma StaleIsShared(c: Codec, o: World, t: Tree, w: World, g: Ghost, disk: Disk, x: U64)
    requires WaitInv(c, o, t, w, g)
    requires BuiltUses(c, w.job, g, w.job.allocLvl - 1, x) >= 1 && x != w.job.oldPbas[w.job.allocLvl]
    ensures var w' := Answered(c, w, disk, x);
            && Shaped(w'.job) && Fits(g, w'.job) && w'.job.lvl == w.job.lvl
            && BuiltUses(c, w'.job, g, w.job.allocLvl, x) >= 2
  {
    AnsweredUses(c, o, t, w, g, disk, x, x);
  }
}
