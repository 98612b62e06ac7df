/** Calls end. */
module VfsProgress {
  import opened NodeCodec
  import opened VfsSpec
  import opened VfsTheorems

  function BlocksLeft(s: Sys): nat
    requires s.Sys?
  {
    if s.c.flights == [] then 0 else |s.c.flights[0].left|
  }

  /** An upper bound of the steps until the call is final. */
  function Rank(s: Sys): nat
    requires s.Sys?
  {
    var back := if s.w.front.req.op == Write then 4 else 0;
    if Final(s.w.front.state) then 0
    else if s.w.front.state == Pending then |AllBlocks(s.w.front.req)| + 2
    else
      match s.w.helperRead.state
      case HelperPending => 4 + back
      case HelperInProgress => BlocksLeft(s) + 2 + back
      case HelperComplete => 1 + back
      case HelperNone =>
        match s.w.helperWrite.state
        case HelperPending => 4
        case HelperInProgress => BlocksLeft(s) + 2
        case HelperComplete => 1
        case HelperNone => BlocksLeft(s) + 1
  }

  lemma BelowOne()
    ensures |Below(1)| == 1 && Below(1) == {0}
  {
    assert Below(1) == {0};
  }

  /** A transfer changes data and the set of blocks left, nothing else. */
  lemma TransferEffect(x: Call, s: Sys, i: nat)
    requires Inv(x, s) && Enabled(s, Transfers(0, i))
    ensures var r := Do(s, Transfers(0, i));
            && r.Sys? && |r.c.flights| == 1 && r.c.flights[0].left == s.c.flights[0].left - {i}
            && r.w.front == s.w.front
            && r.w.helperRead.state == s.w.helperRead.state && r.w.helperWrite.state == s.w.helperWrite.state
  {
    TransferKeeps(x, s, 0, i);
    OnlyOneFlight(x, s);
  }

  lemma TransferLowersRank(x: Call, s: Sys, k: nat, i: nat)
    requires Inv(x, s) && Enabled(s, Transfers(k, i))
    ensures Do(s, Transfers(k, i)).Sys? && Rank(Do(s, Transfers(k, i))) < Rank(s)
  {
    OnlyOneFlight(x, s);
    TransferEffect(x, s, i);
    FlightState(x, s);
    SmallerSet(s.c.flights[0].left, i);
  }

  /** With a request at the volume, the request in progress is the one counted. */
  lemma FlightState(x: Call, s: Sys)
    requires Inv(x, s) && s.c.flights != []
    ensures s.w.front.state == InProgress
    ensures s.w.helperRead.state != HelperPending && s.w.helperRead.state != HelperComplete
    ensures s.w.helperRead.state == HelperNone ==> s.w.helperWrite.state != HelperPending && s.w.helperWrite.state != HelperComplete
  {
  }

  lemma SmallerSet(s: set<nat>, i: nat)
    requires i in s
    ensures |s - {i}| < |s|
  {
    assert |s - {i}| == |s| - 1;
  }

  lemma StartLowersRank(x: Call, s: Sys, step: Step)
    requires Inv(x, s) && Enabled(s, step)
    requires step == HelperReadStarts || step == HelperWriteStarts || step == FrontendStarts
    ensures Do(s, step).Sys? && Rank(Do(s, step)) < Rank(s)
  {
    BelowOne();
  }

  lemma FinishLowersRank(x: Call, s: Sys, step: Step)
    requires Inv(x, s) && Enabled(s, step) && (step == HelperReadFinishes || step == HelperWriteFinishes)
    ensures Do(s, step).Sys? && Rank(Do(s, step)) < Rank(s)
  {
  }

  lemma CompletionLowersRank(x: Call, s: Sys, k: nat)
    requires Inv(x, s) && k < |s.c.flights|
    ensures s.c.flights[k].left == {} ==> Rank(Do(s, Completes(k))) < Rank(s)
    ensures Rank(Do(s, Fails(k))) < Rank(s)
  {
    OnlyOneFlight(x, s);
  }

  /** Every inner step brings the call closer to its end. */
  lemma StepLowersRank(x: Call, s: Sys, step: Step)
    requires Inv(x, s) && Inner(step) && Enabled(s, step)
    ensures Do(s, step).Sys? && Rank(Do(s, step)) < Rank(s)
  {
    match step
    case Transfers(k, i) => TransferLowersRank(x, s, k, i);
    case Completes(k) => CompletionLowersRank(x, s, k);
    case Fails(k) => CompletionLowersRank(x, s, k);
    case HelperReadStarts | HelperWriteStarts | FrontendStarts => StartLowersRank(x, s, step);
    case HelperReadFinishes | HelperWriteFinishes => FinishLowersRank(x, s, step);
    case Submitted(_, _, _, _) | Acknowledged =>
  }

  /** Every step of the sequence is enabled when its turn comes. */
  predicate Effective(s: Sys, steps: seq<Step>)
    decreases |steps|
  {
    steps == [] ||
    (s.Sys? && Inner(steps[0]) && Enabled(s, steps[0]) && Effective(Do(s, steps[0]), steps[1..]))
  }

  /** No call takes more than Rank steps. */
  lemma {:induction false} CallEnds(x: Call, s: Sys, steps: seq<Step>)
    requires Inv(x, s) && Effective(s, steps)
    ensures |steps| <= Rank(s)
    decreases |steps|
  {
    if steps != [] {
      StepKeeps(x, s, steps[0]);
      StepLowersRank(x, s, steps[0]);
      CallEnds(x, Do(s, steps[0]), steps[1..]);
    }
  }

  /** Which step the loop or a working volume makes next. */
  ghost function NextStep(s: Sys): Step
    requires s.Sys?
  {
    if s.w.helperRead.state.HelperPending? then HelperReadStarts
    else if s.w.helperWrite.state.HelperPending? then HelperWriteStarts
    else if s.w.helperRead.state.HelperComplete? then HelperReadFinishes
    else if s.w.helperWrite.state.HelperComplete? then HelperWriteFinishes
    else if s.w.front.state.Pending? then FrontendStarts
    else if s.c.flights != [] && s.c.flights[0].left != {} then
      var i :| i in s.c.flights[0].left;
      Transfers(0, i)
    else Completes(0)
  }

  /** The block of an unaligned call exists; aligned calls are checked by the wrapper. */
  predicate BlockExists(x: Call)
  {
    Split(x) ==> Vba(x) < |x.volume|
  }

  /** A call that is not final can always go on without a failure. */
  lemma NeverStuck(x: Call, s: Sys)
    requires Inv(x, s) && !Final(s.w.front.state) && BlockExists(x)
    ensures Enabled(s, NextStep(s)) && Inner(NextStep(s)) && !NextStep(s).Fails?
  {
    BelowOne();
    if NextStep(s).Transfers? {
      assert NextStep(s).i in AllBlocks(s.c.flights[0].req);
    }
  }
}
