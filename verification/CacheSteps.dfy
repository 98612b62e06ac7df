/** Every step of the cache system keeps the invariant and acts on the logical
    block map as its event says.  */
module CacheSteps {
  import opened NodeCodec
  import opened CacheSpec
  import opened CacheSystem

  /** What an event means for the logical block map. */
  ghost predicate Refines(s: Sys, s': Sys, e: Event)
    requires Shaped(s) && Shaped(s')
  {
    match e
    case NoEvent => forall p :: Logical(s', p) == Logical(s, p)
    case DidRead(q, d) => d == Logical(s, q) && forall p :: Logical(s', p) == Logical(s, p)
    case DidWrite(q, d) => forall p :: Logical(s', p) == if p == q then d else Logical(s, p)
    case DidSync(dev) => dev == s.dev == s'.dev && forall p :: Logical(s, p) == At(dev, p) && Logical(s', p) == Logical(s, p)
  }

  /** The step keeps the invariant and refines its event. */
  ghost predicate Good(s: Sys, o: Outcome)
  {
    !o.Raised? && (o.Stepped? ==> Shaped(s) && Inv(o.s) && Refines(s, o.s, o.event))
  }

  // ------------------------------------------------------------ changing one slot

  /** s' differs from s in slot i only; the new slot is consistent. */
  ghost predicate OneSlot(s: Sys, s': Sys, i: nat)
  {
    && Shaped(s) && i < |s.c.slots| == |s'.c.slots| == |s'.c.slotData| == |s'.io|
    && s'.c.jobs == s.c.jobs && s'.c.jobData == s.c.jobData
    && s'.c.slots == s.c.slots[i := s'.c.slots[i]]
    && s'.c.slotData == s.c.slotData[i := s'.c.slotData[i]]
    && s'.io == s.io[i := s'.io[i]]
  }

  lemma SameContents(s: Sys, s': Sys, i: nat)
    requires OneSlot(s, s', i) && SlotsDistinct(s.c.slots) && s'.dev == s.dev && SlotsOk(s)
    requires s'.c.slots[i].pba == s.c.slots[i].pba && s.c.slots[i].state != Invalid && s'.c.slots[i].state != Invalid
    requires (if Holding(s.c.slots[i]) then s.c.slotData[i] else At(s.dev, s.c.slots[i].pba))
          == (if Holding(s'.c.slots[i]) then s'.c.slotData[i] else At(s.dev, s.c.slots[i].pba))
    ensures SlotsDistinct(s'.c.slots) && forall p :: Logical(s', p) == Logical(s, p)
  {
    assert SlotsDistinct(s'.c.slots);
    forall p ensures Logical(s', p) == Logical(s, p) {
      LogicalCases(s, p);
      LogicalCases(s', p);
      if k: nat :| k < |s.c.slots| && Holding(s.c.slots[k]) && s.c.slots[k].pba == p && k != i {
        assert Holding(s'.c.slots[k]) && s'.c.slots[k].pba == p;
      }
    }
  }

  lemma IssueGood(s: Sys, i: nat)
    requires Inv(s)
    ensures Good(s, IssueStep(s, i))
  {
    if IssueStep(s, i).Stepped? {
      var s' := IssueStep(s, i).s;
      SameContents(s, s', i);
      forall j | 0 <= j < |s.c.jobs| ensures JobOk(s', j) {
        assert JobOk(s, j);
      }
    }
  }

  lemma FinishGood(s: Sys, i: nat)
    requires Inv(s)
    ensures Good(s, FinishStep(s, i))
  {
    if i < |s.c.slots| && s.io[i].Arrived? {
      assert SlotOk(s.c.slots[i], s.c.slotData[i], s.io[i], s.dev, i);
      var s' := FinishStep(s, i).s;
      SameContents(s, s', i);
      forall j | 0 <= j < |s.c.jobs| ensures JobOk(s', j) {
        assert JobOk(s, j);
      }
    }
  }

  lemma TransferGood(s: Sys, i: nat)
    requires Inv(s)
    ensures Good(s, TransferStep(s, i))
  {
    if i < |s.c.slots| && s.io[i].Waiting? {
      assert SlotOk(s.c.slots[i], s.c.slotData[i], s.io[i], s.dev, i);
      var s' := TransferStep(s, i).s;
      forall p ensures Logical(s', p) == Logical(s, p) {
        LogicalCases(s, p);
        LogicalCases(s', p);
      }
      forall k | 0 <= k < |s.c.slots| ensures SlotOk(s'.c.slots[k], s'.c.slotData[k], s'.io[k], s'.dev, k) {
        assert SlotOk(s.c.slots[k], s.c.slotData[k], s.io[k], s.dev, k);
        assert k != i && s.c.slots[k].state != Invalid ==> s.c.slots[k].pba != s.c.slots[i].pba;
      }
      forall j | 0 <= j < |s.c.jobs| ensures JobOk(s', j) {
        assert JobOk(s, j);
      }
    }
  }

  lemma AckGood(s: Sys, j: nat)
    requires Inv(s)
    ensures Good(s, AckStep(s, j))
  {
    if j < |s.c.jobs| && s.c.jobs[j].state == Completed {
      var s' := AckStep(s, j).s;
      forall p ensures Logical(s', p) == Logical(s, p) {
        LogicalCases(s, p);
        LogicalCases(s', p);
      }
      forall i | 0 <= i < |s.c.slots| && Reading(s.c.slots[i])
        ensures exists k :: 0 <= k < |s'.c.jobs| && ReadJobFor(s'.c.jobs[k], s.c.slots[i].pba)
      {
        var k :| 0 <= k < |s.c.jobs| && ReadJobFor(s.c.jobs[k], s.c.slots[i].pba);
        assert ReadJobFor(s'.c.jobs[k], s.c.slots[i].pba);
      }
      forall k | 0 <= k < |s.c.jobs| ensures JobOk(s', k) {
        assert JobOk(s, k);
      }
    }
  }

  lemma SubmitGood(s: Sys, prim: Prim, data: Block)
    requires Inv(s)
    ensures Good(s, SubmitStep(s, prim, data))
  {
    if SubmitStep(s, prim, data).Stepped? {
      var s' := SubmitStep(s, prim, data).s;
      forall p ensures Logical(s', p) == Logical(s, p) {
        LogicalCases(s, p);
        LogicalCases(s', p);
      }
      forall i | 0 <= i < |s.c.slots| && Reading(s.c.slots[i])
        ensures exists k :: 0 <= k < |s'.c.jobs| && ReadJobFor(s'.c.jobs[k], s.c.slots[i].pba)
      {
        var k :| 0 <= k < |s.c.jobs| && ReadJobFor(s.c.jobs[k], s.c.slots[i].pba);
        assert ReadJobFor(s'.c.jobs[k], s.c.slots[i].pba);
      }
      forall k | 0 <= k < |s.c.jobs| ensures JobOk(s', k) {
        assert JobOk(s, k);
      }
    }
  }
}
