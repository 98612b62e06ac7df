/** The block cache refines a block map; it never raises; a sync makes it durable. */
module CacheTheorems {
  import opened NodeCodec
  import opened CacheSpec
  import opened CacheSystem
  import opened CacheSteps
  import opened CacheJobs

  datatype Reached = Reached(s: Sys, events: seq<Event>) | RunRaised

  /** Any sequence of steps; a step that is not enabled is skipped. */
  ghost function Run(s: Sys, steps: seq<Step>): Reached
    requires Shaped(s)
  {
    if steps == [] then Reached(s, [])
    else
      match Run(s, steps[..|steps| - 1])
      case RunRaised => RunRaised
      case Reached(r, es) =>
        if !Shaped(r) then RunRaised
        else
          match Do(r, steps[|steps| - 1])
          case Raised => RunRaised
          case Refused => Reached(r, es)
          case Stepped(r', e, _) => Reached(r', if e == NoEvent then es else es + [e])
  }

  /** The last value written to block p, else what the device held at the start. */
  function ValueAfter(dev: Device, es: seq<Event>, p: U64): Block
  {
    if es == [] then At(dev, p)
    else
      var e := es[|es| - 1];
      if e.DidWrite? && e.pba == p then e.data else ValueAfter(dev, es[..|es| - 1], p)
  }

  /** Event k of a history is what a plain block map would have answered. */
  ghost predicate Explained(dev: Device, es: seq<Event>, k: nat)
    requires k < |es|
  {
    match es[k]
    case DidRead(p, d) => d == ValueAfter(dev, es[..k], p)
    case DidSync(synced) => forall p :: At(synced, p) == ValueAfter(dev, es[..k], p)
    case _ => true
  }

  ghost predicate Consistent(dev: Device, es: seq<Event>)
  {
    forall k | 0 <= k < |es| :: Explained(dev, es, k)
  }

  lemma ConsistentExtend(dev: Device, es: seq<Event>, e: Event)
    requires Consistent(dev, es) && Explained(dev, es + [e], |es|)
    ensures Consistent(dev, es + [e])
  {
    forall k | 0 <= k < |es + [e]| ensures Explained(dev, es + [e], k) {
      assert k < |es| ==> (es + [e])[..k] == es[..k] && Explained(dev, es, k);
    }
  }

  /** Over every interleaving of submissions, job executions, device transfers and
      acknowledgements, nothing raises, every completed read returns the last
      completed write to its address (or the initial device content), and a sync
      completes only when the device equals the block map of all completed writes. */
  lemma {:induction false} CacheRefinesBlockMap(s0: Sys, steps: seq<Step>)
    requires Initial(s0)
    ensures var r := Run(s0, steps);
            && r.Reached? && Inv(r.s)
            && Consistent(s0.dev, r.events)
            && forall p :: Logical(r.s, p) == ValueAfter(s0.dev, r.events, p)
  {
    if steps == [] {
      InitialInv(s0);
      forall p ensures Logical(s0, p) == At(s0.dev, p) {
        LogicalCases(s0, p);
      }
    } else {
      CacheRefinesBlockMap(s0, steps[..|steps| - 1]);
      var Reached(r, es) := Run(s0, steps[..|steps| - 1]);
      var o := Do(r, steps[|steps| - 1]);
      DoGood(r, steps[|steps| - 1]);
      if o.Stepped? && o.event != NoEvent {
        var es' := es + [o.event];
        assert es'[..|es|] == es && es'[..|es'| - 1] == es;
        ConsistentExtend(s0.dev, es, o.event);
      }
    }
  }

  /** What a client takes from a completed read is still the current content, and a
      completed write is still in place. */
  lemma AcknowledgedDataIsCurrent(s0: Sys, steps: seq<Step>, j: nat)
    requires Initial(s0)
    requires var r := Run(s0, steps); r.Reached? && j < |r.s.c.jobs| && r.s.c.jobs[j].state == Completed
    requires j < |Run(s0, steps).s.c.jobData|
    ensures var r := Run(s0, steps);
            && r.s.c.jobs[j].prim.success
            && (r.s.c.jobs[j].prim.op != Sync ==>
                  r.s.c.jobData[j] == ValueAfter(s0.dev, r.events, r.s.c.jobs[j].pba))
  {
    CacheRefinesBlockMap(s0, steps);
    assert JobOk(Run(s0, steps).s, j);
  }

  /** In every reachable state clean slots agree with the device, and the data of a
      slot is frozen while it is written back.  */
  lemma SlotsAgreeWithDevice(s0: Sys, steps: seq<Step>, i: nat)
    requires Initial(s0)
    requires var r := Run(s0, steps); r.Reached? && Shaped(r.s) && i < |r.s.c.slots|
    ensures var s := Run(s0, steps).s;
            && (s.c.slots[i].state == Clean ==> s.c.slotData[i] == At(s.dev, s.c.slots[i].pba))
            && (s.c.slots[i].state == WriteInProgress ==> s.io[i] == Waiting(s.c.slotData[i]) || s.io[i] == Arrived(s.c.slotData[i]))
  {
    CacheRefinesBlockMap(s0, steps);
    var s := Run(s0, steps).s;
    assert SlotOk(s.c.slots[i], s.c.slotData[i], s.io[i], s.dev, i);
  }
}
