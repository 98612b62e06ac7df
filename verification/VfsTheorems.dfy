/** Byte access through the wrapper behaves like access to a byte array. */
module VfsTheorems {
  import opened NodeCodec
  import opened VfsSpec

  // ------------------------------------------------------------------ the byte array

  /** The file: all blocks of the volume in a row. */
  function Bytes(v: seq<Block>): (s: seq<Byte>)
    ensures |s| == |v| * SIZE
  {
    if v == [] then [] else v[0] + Bytes(v[1..])
  }

  lemma {:induction false} ByteAt(v: seq<Block>, n: nat)
    requires n < |v| * SIZE
    ensures n / SIZE < |v| && Bytes(v)[n] == v[n / SIZE][n % SIZE]
  {
    if n >= SIZE {
      ByteAt(v[1..], n - SIZE);
      assert v[1..][(n - SIZE) / SIZE] == v[n / SIZE];
    }
  }

  // ------------------------------------------------------------------------ one call

  /** A call of the client, the memory it brought, the volume it found, and the
      requests that the volume had accepted and completed before. */
  datatype Call = Call(op: Op, offset: nat, count: nat, buf: seq<Byte>, volume: seq<Block>,
                       accepted: seq<Req>, completed: seq<Req>)

  predicate Split(x: Call)
  {
    x.op != Sync && Unaligned(x.offset, x.count)
  }

  function Vba(x: Call): nat
  {
    if x.op == Sync then 0 else x.offset / SIZE
  }

  function ReqOf(x: Call): Req
  {
    if x.op == Sync then Req(Sync, 0, 1) else Req(x.op, Vba(x), Blocks(x.count))
  }

  function Out(x: Call): nat
  {
    if x.op == Sync then 0 else OutCount(x.offset, x.count)
  }

  /** Block i of the caller's memory. */
  function Slice(buf: seq<Byte>, i: nat): Block
    requires i * SIZE + SIZE <= |buf|
  {
    buf[i * SIZE..i * SIZE + SIZE]
  }

  /** The block that an unaligned write stores. */
  function Patched(x: Call): Block
    requires Split(x) && x.count <= |x.buf| && Vba(x) < |x.volume|
  {
    Copy(x.volume[Vba(x)], x.offset % SIZE, x.buf[..Out(x)])
  }

  ghost predicate Quiet(s: Sys)
    requires s.Sys?
  {
    s.w.helperRead.state == HelperNone && s.w.helperWrite.state == HelperNone && s.c.flights == []
  }

  ghost predicate Untouched(x: Call, s: Sys)
    requires s.Sys?
  {
    s.c.volume == x.volume && s.w.buf == x.buf
  }

  // ------------------------------------------------------- requests of a call so far

  /** The whole block that an unaligned call reads first. */
  function BlockRead(x: Call): Req { Req(Read, Vba(x), 1) }

  /** The whole block that an unaligned write stores in the end. */
  function BlockWrite(x: Call): Req { Req(Write, Vba(x), 1) }

  ghost predicate Unasked(x: Call, s: Sys)
    requires s.Sys?
  {
    s.c.accepted == x.accepted && s.c.completed == x.completed
  }

  ghost predicate Asked(x: Call, s: Sys, req: Req)
    requires s.Sys?
  {
    s.c.accepted == x.accepted + [req] && s.c.completed == x.completed
  }

  ghost predicate Answered(x: Call, s: Sys, req: Req)
    requires s.Sys?
  {
    s.c.accepted == x.accepted + [req] && s.c.completed == x.completed + [req]
  }

  ghost predicate AskedAgain(x: Call, s: Sys)
    requires s.Sys?
  {
    && s.c.accepted == x.accepted + [BlockRead(x)] + [BlockWrite(x)]
    && s.c.completed == x.completed + [BlockRead(x)]
  }

  ghost predicate AnsweredAgain(x: Call, s: Sys)
    requires s.Sys?
  {
    && s.c.accepted == x.accepted + [BlockRead(x)] + [BlockWrite(x)]
    && s.c.completed == x.completed + [BlockRead(x)] + [BlockWrite(x)]
  }

  /** The requests of a completed call without failure. */
  ghost predicate CarriedOut(x: Call, s: Sys)
    requires s.Sys?
  {
    if !Split(x) then Answered(x, s, ReqOf(x))
    else if x.op == Read then Answered(x, s, BlockRead(x))
    else AnsweredAgain(x, s)
  }

  /** The last request of a failed call was accepted, but not completed. */
  ghost predicate NotCarriedOut(x: Call, s: Sys)
    requires s.Sys?
  {
    if !Split(x) then Asked(x, s, ReqOf(x))
    else Asked(x, s, BlockRead(x)) || (x.op == Write && AskedAgain(x, s))
  }

  // ------------------------------------------------------------- states of an aligned call

  ghost predicate OneFlight(s: Sys, req: Req)
    requires s.Sys?
  {
    |s.c.flights| == 1 && s.c.flights[0].req == req && s.c.flights[0].left <= AllBlocks(req)
  }

  /** Blocks not left are read into memory, all other memory is as before. */
  ghost predicate ReadSoFar(x: Call, buf: seq<Byte>, left: set<nat>)
    requires x.op == Read && Vba(x) + Blocks(x.count) <= |x.volume| && Blocks(x.count) * SIZE <= |x.buf|
  {
    && |buf| == |x.buf|
    && (forall i | 0 <= i < Blocks(x.count) :: Slice(buf, i) == if i in left then Slice(x.buf, i) else x.volume[Vba(x) + i])
    && buf[Blocks(x.count) * SIZE..] == x.buf[Blocks(x.count) * SIZE..]
  }

  /** Blocks not left are written from memory, all others are as before. */
  ghost predicate WrittenSoFar(x: Call, volume: seq<Block>, left: set<nat>)
    requires x.op == Write && Blocks(x.count) * SIZE <= |x.buf|
  {
    && |volume| == |x.volume|
    && forall j | 0 <= j < |volume| ::
         volume[j] == if Vba(x) <= j < Vba(x) + Blocks(x.count) && j - Vba(x) !in left then Slice(x.buf, j - Vba(x)) else x.volume[j]
  }

  ghost predicate AlignedProgress(x: Call, s: Sys, left: set<nat>)
    requires s.Sys?
  {
    match x.op
    case Sync => Untouched(x, s) && |x.volume| > 0
    case Read => s.c.volume == x.volume && Vba(x) + Blocks(x.count) <= |x.volume| && Blocks(x.count) * SIZE <= |x.buf| && ReadSoFar(x, s.w.buf, left)
    case Write => s.w.buf == x.buf && Vba(x) + Blocks(x.count) <= |x.volume| && Blocks(x.count) * SIZE <= |x.buf| && WrittenSoFar(x, s.c.volume, left)
  }

  ghost predicate AlignedRunning(x: Call, s: Sys)
    requires s.Sys?
  {
    && s.w.helperRead.state == HelperNone && s.w.helperWrite.state == HelperNone
    && OneFlight(s, ReqOf(x)) && AlignedProgress(x, s, s.c.flights[0].left) && Asked(x, s, ReqOf(x))
  }

  // ----------------------------------------------------------- states of an unaligned call

  ghost predicate Reading(x: Call, s: Sys)
    requires s.Sys?
  {
    var h := s.w.helperRead;
    && Untouched(x, s) && h.req == BlockRead(x) && s.w.helperWrite.state == HelperNone
    && match h.state
       case HelperNone => false
       case HelperPending => s.c.flights == [] && Unasked(x, s)
       case HelperInProgress =>
         OneFlight(s, h.req) && Asked(x, s, h.req) && (0 !in s.c.flights[0].left ==> Vba(x) < |x.volume| && h.data == x.volume[Vba(x)])
       case HelperComplete =>
         h.success && s.c.flights == [] && Answered(x, s, h.req) && Vba(x) < |x.volume| && h.data == x.volume[Vba(x)]
  }

  ghost predicate WritingBack(x: Call, s: Sys)
    requires s.Sys? && Split(x) && x.count <= |x.buf|
  {
    var h := s.w.helperWrite;
    && x.op == Write && s.w.buf == x.buf && s.w.helperRead.state == HelperNone
    && Vba(x) < |x.volume| && h.req == BlockWrite(x) && h.data == Patched(x)
    && match h.state
       case HelperNone => false
       case HelperPending => s.c.flights == [] && s.c.volume == x.volume && Answered(x, s, BlockRead(x))
       case HelperInProgress =>
         OneFlight(s, h.req) && AskedAgain(x, s) && s.c.volume == if 0 in s.c.flights[0].left then x.volume else x.volume[Vba(x) := Patched(x)]
       case HelperComplete => s.c.flights == [] && AnsweredAgain(x, s) && s.c.volume == x.volume[Vba(x) := Patched(x)]
  }

  // ------------------------------------------------------------------------ all states

  /** A completed call without failure, block by block. */
  ghost predicate Done(x: Call, s: Sys)
    requires s.Sys? && x.count <= |x.buf|
  {
    if !Split(x) then AlignedProgress(x, s, {})
    else
      && Vba(x) < |x.volume|
      && if x.op == Read
         then s.c.volume == x.volume && s.w.buf == Copy(x.buf, 0, x.volume[Vba(x)][x.offset % SIZE..x.offset % SIZE + Out(x)])
         else s.w.buf == x.buf && s.c.volume == x.volume[Vba(x) := Patched(x)]
  }

  /** Even a failed call changed only the blocks that its bytes lie in. */
  ghost predicate Contained(x: Call, s: Sys)
    requires s.Sys?
  {
    && |s.c.volume| == |x.volume|
    && (x.op != Write ==> s.c.volume == x.volume)
    && forall j | 0 <= j < |x.volume| && !(Vba(x) <= j < Vba(x) + if Split(x) then 1 else ReqOf(x).blocks) ::
         s.c.volume[j] == x.volume[j]
  }

  /** The flag that a completed call carries. */
  predicate FlagOf(x: Call, s: Sys)
    requires s.Sys?
  {
    s.w.front.success <==> !s.failed && !(Split(x) && x.op == Write)
  }

  /** The invariant of a call, from its submission until it is acknowledged. */
  ghost predicate Inv(x: Call, s: Sys)
  {
    && s.Sys? && x.count <= |x.buf| && |x.volume| <= U32_LIMIT
    && s.w.front.req == ReqOf(x) && s.w.front.count == Out(x)
    && (Split(x) ==> s.w.front.helperOffset == x.offset % SIZE)
    && match s.w.front.state
       case None => false
       case Error => false
       case Pending => !Split(x) && Quiet(s) && Untouched(x, s) && Unasked(x, s) && !s.failed && !s.w.front.success
       case ErrorEof => !Split(x) && Quiet(s) && Untouched(x, s) && Unasked(x, s) && !s.failed && Rejected(s.c, ReqOf(x))
       case InProgress => !s.failed && !s.w.front.success && if Split(x) then Reading(x, s) || WritingBack(x, s) else AlignedRunning(x, s)
       case Complete =>
         && Quiet(s) && Contained(x, s) && FlagOf(x, s)
         && (if s.failed then NotCarriedOut(x, s) else Done(x, s) && CarriedOut(x, s))
  }

  ghost predicate Ready(s: Sys)
  {
    s.Sys? && s.w.front.state == None && Quiet(s) && |s.c.volume| <= U32_LIMIT
  }

  function CallOf(s: Sys, op: Op, offset: nat, count: nat, buf: seq<Byte>): Call
    requires s.Sys?
  {
    if op == Sync then Call(Sync, 0, 0, s.w.buf, s.c.volume, s.c.accepted, s.c.completed)
    else Call(op, offset, count, buf, s.c.volume, s.c.accepted, s.c.completed)
  }

  lemma SubmitStarts(s: Sys, op: Op, offset: nat, count: nat, buf: seq<Byte>)
    requires Ready(s) && count <= |buf|
    ensures Inv(CallOf(s, op, offset, count, buf), Do(s, Submitted(op, offset, count, buf)))
  {
  }

  // ---------------------------------------------------------------- steps keep it

  lemma StartKeeps(x: Call, s: Sys, step: Step)
    requires Inv(x, s) && Enabled(s, step)
    requires step == HelperReadStarts || step == HelperWriteStarts || step == FrontendStarts
    ensures Inv(x, Do(s, step))
  {
    if step == FrontendStarts && !Rejected(s.c, s.w.front.req) {
      BlocksFit(x);
    }
  }

  /** The blocks of an aligned request lie within the caller's memory. */
  lemma BlocksFit(x: Call)
    requires x.count <= |x.buf|
    ensures Blocks(x.count) <= x.count / SIZE && Blocks(x.count) * SIZE <= |x.buf|
  {
  }

  lemma SliceOfCopy(buf: seq<Byte>, i: nat, k: nat, b: Block)
    requires i * SIZE + SIZE <= |buf| && k * SIZE + SIZE <= |buf|
    ensures Slice(Copy(buf, i * SIZE, b), k) == if k == i then b else Slice(buf, k)
  {
    var r := Copy(buf, i * SIZE, b);
    if k == i {
      assert Slice(r, k) == b;
    } else {
      assert k < i || k > i;
      assert Slice(r, k) == Slice(buf, k);
    }
  }

  lemma ReadOneMore(x: Call, buf: seq<Byte>, left: set<nat>, i: nat)
    requires x.op == Read && Vba(x) + Blocks(x.count) <= |x.volume| && Blocks(x.count) * SIZE <= |x.buf|
    requires ReadSoFar(x, buf, left) && i < Blocks(x.count)
    ensures ReadSoFar(x, Copy(buf, i * SIZE, x.volume[Vba(x) + i]), left - {i})
  {
    var n, b := Blocks(x.count), x.volume[Vba(x) + i];
    var r := Copy(buf, i * SIZE, b);
    forall k | 0 <= k < n ensures Slice(r, k) == if k in left - {i} then Slice(x.buf, k) else x.volume[Vba(x) + k] {
      SliceOfCopy(buf, i, k, b);
    }
    assert r[n * SIZE..] == buf[n * SIZE..];
  }

  lemma AlignedReadStep(x: Call, s: Sys, i: nat)
    requires Inv(x, s) && !Split(x) && x.op == Read && Enabled(s, Transfers(0, i))
    ensures Inv(x, Do(s, Transfers(0, i)))
  {
    AlignedReadEffect(x, s, i);
    ReadOneMore(x, s.w.buf, s.c.flights[0].left, i);
    var s' := Do(s, Transfers(0, i));
    assert AlignedProgress(x, s', s'.c.flights[0].left);
  }

  lemma AlignedReadEffect(x: Call, s: Sys, i: nat)
    requires Inv(x, s) && !Split(x) && x.op == Read && Enabled(s, Transfers(0, i))
    ensures i < Blocks(x.count) && Vba(x) + i < |x.volume| && InBuffer(s.w, i)
    ensures Do(s, Transfers(0, i)) ==
      s.(w := s.w.(buf := Copy(s.w.buf, i * SIZE, x.volume[Vba(x) + i])),
         c := s.c.(flights := [s.c.flights[0].(left := s.c.flights[0].left - {i})]))
  {
    BlocksFit(x);
    assert s.c.flights == [s.c.flights[0]];
  }

  lemma AlignedWriteStep(x: Call, s: Sys, i: nat)
    requires Inv(x, s) && !Split(x) && x.op == Write && Enabled(s, Transfers(0, i))
    ensures Inv(x, Do(s, Transfers(0, i)))
  {
    assert i < Blocks(x.count);
  }

  lemma HelperStep(x: Call, s: Sys, i: nat)
    requires Inv(x, s) && Split(x) && Enabled(s, Transfers(0, i))
    ensures Inv(x, Do(s, Transfers(0, i)))
  {
    assert i == 0 by {
      assert Below(1) == {0};
    }
  }

  lemma OnlyOneFlight(x: Call, s: Sys)
    requires Inv(x, s)
    ensures |s.c.flights| <= 1
    ensures |s.c.flights| == 1 ==> s.w.front.state == InProgress
  {
  }

  lemma TransferKeeps(x: Call, s: Sys, k: nat, i: nat)
    requires Inv(x, s) && Enabled(s, Transfers(k, i))
    ensures Inv(x, Do(s, Transfers(k, i)))
  {
    OnlyOneFlight(x, s);
    if Split(x) {
      HelperStep(x, s, i);
    } else if x.op == Read {
      AlignedReadStep(x, s, i);
    } else if x.op == Write {
      AlignedWriteStep(x, s, i);
    }
  }

  lemma CompleteKeeps(x: Call, s: Sys, k: nat)
    requires Inv(x, s) && k < |s.c.flights|
    ensures s.c.flights[k].left == {} ==> Inv(x, Do(s, Completes(k)))
    ensures Inv(x, Do(s, Fails(k)))
  {
    OnlyOneFlight(x, s);
  }

  lemma FinishKeeps(x: Call, s: Sys, step: Step)
    requires Inv(x, s) && Enabled(s, step)
    requires step == HelperReadFinishes || step == HelperWriteFinishes
    ensures Inv(x, Do(s, step))
  {
  }

  /** Submitting and acknowledging aside, every step keeps the invariant. */
  predicate Inner(step: Step)
  {
    !step.Submitted? && !step.Acknowledged?
  }

  lemma StepKeeps(x: Call, s: Sys, step: Step)
    requires Inv(x, s) && Inner(step) && Enabled(s, step)
    ensures Inv(x, Do(s, step))
  {
    match step
    case Transfers(k, i) => TransferKeeps(x, s, k, i);
    case Completes(k) => CompleteKeeps(x, s, k);
    case Fails(k) => CompleteKeeps(x, s, k);
    case HelperReadFinishes => FinishKeeps(x, s, step);
    case HelperWriteFinishes => FinishKeeps(x, s, step);
    case HelperReadStarts | HelperWriteStarts | FrontendStarts => StartKeeps(x, s, step);
    case Submitted(_, _, _, _) | Acknowledged =>
  }

  // -------------------------------------------------------------------- whole calls

  /** Any sequence of inner steps; a step that is not enabled is skipped. */
  function Run(s: Sys, steps: seq<Step>): Sys
    decreases |steps|
  {
    if steps == [] || !s.Sys? then s
    else if Inner(steps[0]) && Enabled(s, steps[0]) then Run(Do(s, steps[0]), steps[1..])
    else Run(s, steps[1..])
  }

  lemma {:induction false} RunKeeps(x: Call, s: Sys, steps: seq<Step>)
    requires Inv(x, s)
    ensures Inv(x, Run(s, steps))
    decreases |steps|
  {
    if steps != [] {
      if Inner(steps[0]) && Enabled(s, steps[0]) {
        StepKeeps(x, s, steps[0]);
        RunKeeps(x, Do(s, steps[0]), steps[1..]);
      } else {
        RunKeeps(x, s, steps[1..]);
      }
    }
  }

  /** The state after a call was submitted in an idle state and some steps were made. */
  function After(s: Sys, op: Op, offset: nat, count: nat, buf: seq<Byte>, steps: seq<Step>): Sys
    requires Ready(s) && count <= |buf|
  {
    Run(Do(s, Submitted(op, offset, count, buf)), steps)
  }

  /** Over every interleaving at most one request is at the volume, nothing is thrown,
      and no copy leaves the helper's block or the caller's memory.  */
  lemma OneRequestInFlight(s: Sys, op: Op, offset: nat, count: nat, buf: seq<Byte>, steps: seq<Step>)
    requires Ready(s) && count <= |buf|
    ensures var r := After(s, op, offset, count, buf, steps);
            r.Sys? && |r.c.flights| <= 1 && CopiesFit(r.w)
  {
    var x := CallOf(s, op, offset, count, buf);
    SubmitStarts(s, op, offset, count, buf);
    RunKeeps(x, Do(s, Submitted(op, offset, count, buf)), steps);
    OnlyOneFlight(x, After(s, op, offset, count, buf, steps));
  }

  // ------------------------------------------------------- the meaning of a completed call

  /** The 32-bit block count covers the reported bytes. */
  predicate Covered(x: Call)
  {
    Split(x) || Blocks(x.count) * SIZE == Out(x)
  }

  /** Exactly the unaligned requests and those below 2**44 bytes are covered; any
      other reports more bytes than it transfers. */
  lemma CoveredIff(x: Call)
    requires x.op != Sync
    ensures Covered(x) <==> Split(x) || x.count < U32_LIMIT * SIZE
    ensures !Covered(x) ==> Blocks(x.count) * SIZE < Out(x)
  {
    var n := x.count / SIZE;
    if n < U32_LIMIT {
      assert n % U32_LIMIT == n;
    } else {
      assert n % U32_LIMIT < U32_LIMIT;
    }
  }

  lemma ReadBlockBytes(x: Call, buf: seq<Byte>, n: nat)
    requires x.op == Read && !Split(x) && x.count <= |x.buf| && Covered(x)
    requires Vba(x) + Blocks(x.count) <= |x.volume| && Blocks(x.count) * SIZE <= |x.buf| && ReadSoFar(x, buf, {})
    requires n < Out(x)
    ensures x.offset + n < |Bytes(x.volume)| && buf[n] == Bytes(x.volume)[x.offset + n]
  {
    var i := n / SIZE;
    ByteAt(x.volume, x.offset + n);
    assert Slice(buf, i)[n % SIZE] == buf[n];
    assert x.offset == Vba(x) * SIZE;
    assert (x.offset + n) / SIZE == Vba(x) + i && (x.offset + n) % SIZE == n % SIZE;
    assert Slice(buf, i) == x.volume[Vba(x) + i];
  }

  lemma AlignedReadBytes(x: Call, buf: seq<Byte>)
    requires x.op == Read && !Split(x) && x.count <= |x.buf| && Covered(x)
    requires Vba(x) + Blocks(x.count) <= |x.volume| && Blocks(x.count) * SIZE <= |x.buf| && ReadSoFar(x, buf, {})
    ensures x.offset + Out(x) <= |Bytes(x.volume)|
    ensures buf[..Out(x)] == Bytes(x.volume)[x.offset..x.offset + Out(x)] && buf[Out(x)..] == x.buf[Out(x)..]
  {
    forall n | 0 <= n < Out(x) ensures x.offset + n < |Bytes(x.volume)| && buf[n] == Bytes(x.volume)[x.offset + n] {
      ReadBlockBytes(x, buf, n);
    }
    assert x.offset == Vba(x) * SIZE;
  }

  lemma SplitReadBytes(x: Call)
    requires Split(x) && x.count <= |x.buf| && Vba(x) < |x.volume|
    ensures x.offset + Out(x) <= |Bytes(x.volume)|
    ensures x.volume[Vba(x)][x.offset % SIZE..x.offset % SIZE + Out(x)] == Bytes(x.volume)[x.offset..x.offset + Out(x)]
  {
    assert x.offset == Vba(x) * SIZE + x.offset % SIZE;
    var a := x.volume[Vba(x)][x.offset % SIZE..x.offset % SIZE + Out(x)];
    var b := Bytes(x.volume)[x.offset..x.offset + Out(x)];
    forall n | 0 <= n < |a| ensures a[n] == b[n] {
      ByteAt(x.volume, x.offset + n);
    }
    assert a == b;
  }

  /** A completed read put exactly the file's bytes at the offset into memory. */
  lemma ReadRefinesBytes(x: Call, s: Sys)
    requires Inv(x, s) && x.op == Read && Covered(x) && s.w.front.state == Complete && !s.failed
    ensures s.w.front.count == Out(x) && s.c.volume == x.volume
    ensures x.offset + Out(x) <= |Bytes(x.volume)| && Out(x) <= |x.buf|
    ensures s.w.buf == Copy(x.buf, 0, Bytes(x.volume)[x.offset..x.offset + Out(x)])
  {
    if Split(x) {
      SplitReadBytes(x);
    } else {
      AlignedReadBytes(x, s.w.buf);
      assert s.w.buf == s.w.buf[..Out(x)] + s.w.buf[Out(x)..];
    }
  }

  /** A byte lies in some blocks in a row exactly if its block is one of them. */
  lemma BlockOfByte(n: nat, first: nat, blocks: nat)
    ensures first * SIZE <= n < first * SIZE + blocks * SIZE <==> first <= n / SIZE < first + blocks
    ensures n - first * SIZE == (n / SIZE - first) * SIZE + n % SIZE
  {
  }

  lemma SliceByte(buf: seq<Byte>, i: nat, k: nat)
    requires i * SIZE + SIZE <= |buf| && k < SIZE
    ensures Slice(buf, i)[k] == buf[i * SIZE + k]
  {
  }

  lemma WrittenByte(x: Call, volume: seq<Block>, n: nat)
    requires x.op == Write && !Split(x) && x.count <= |x.buf| && Covered(x)
    requires Vba(x) + Blocks(x.count) <= |x.volume| && Blocks(x.count) * SIZE <= |x.buf| && WrittenSoFar(x, volume, {})
    requires n < |Bytes(x.volume)|
    ensures n < |Bytes(volume)|
    ensures Bytes(volume)[n] == if x.offset <= n < x.offset + Out(x) then x.buf[n - x.offset] else Bytes(x.volume)[n]
  {
    var j := n / SIZE;
    ByteAt(volume, n);
    ByteAt(x.volume, n);
    assert x.offset == Vba(x) * SIZE && Out(x) == Blocks(x.count) * SIZE;
    BlockOfByte(n, Vba(x), Blocks(x.count));
    if Vba(x) <= j < Vba(x) + Blocks(x.count) {
      WrittenInside(x, volume, n, j - Vba(x));
    } else {
      assert volume[j] == x.volume[j];
    }
  }

  lemma WrittenInside(x: Call, volume: seq<Block>, n: nat, i: nat)
    requires x.op == Write && i < Blocks(x.count) && x.offset == Vba(x) * SIZE
    requires Vba(x) + Blocks(x.count) <= |x.volume| && Blocks(x.count) * SIZE <= |x.buf| && WrittenSoFar(x, volume, {})
    requires n / SIZE == Vba(x) + i && n - x.offset == i * SIZE + n % SIZE
    ensures volume[n / SIZE][n % SIZE] == x.buf[n - x.offset]
  {
    assert volume[Vba(x) + i] == Slice(x.buf, i);
    SliceByte(x.buf, i, n % SIZE);
  }

  lemma PatchedByte(x: Call, n: nat)
    requires Split(x) && x.count <= |x.buf| && Vba(x) < |x.volume| && n < |Bytes(x.volume)|
    ensures var volume := x.volume[Vba(x) := Patched(x)];
            && n < |Bytes(volume)|
            && Bytes(volume)[n] == if x.offset <= n < x.offset + Out(x) then x.buf[n - x.offset] else Bytes(x.volume)[n]
  {
    var volume := x.volume[Vba(x) := Patched(x)];
    ByteAt(volume, n);
    ByteAt(x.volume, n);
    assert x.offset == Vba(x) * SIZE + x.offset % SIZE;
  }

  /** Byte n after a completed write. */
  lemma ByteAfterWrite(x: Call, s: Sys, n: nat)
    requires Inv(x, s) && x.op == Write && Covered(x) && s.w.front.state == Complete && !s.failed
    requires n < |Bytes(x.volume)|
    ensures n < |Bytes(s.c.volume)|
    ensures Bytes(s.c.volume)[n] == if x.offset <= n < x.offset + Out(x) then x.buf[n - x.offset] else Bytes(x.volume)[n]
  {
    if Split(x) {
      PatchedByte(x, n);
    } else {
      WrittenByte(x, s.c.volume, n);
    }
  }

  lemma WriteInRange(x: Call, s: Sys)
    requires Inv(x, s) && x.op == Write && Covered(x) && s.w.front.state == Complete && !s.failed
    ensures s.w.front.count == Out(x) && s.w.buf == x.buf && |s.c.volume| == |x.volume|
    ensures x.offset + Out(x) <= |Bytes(x.volume)| && Out(x) <= |x.buf|
  {
    assert x.offset == Vba(x) * SIZE + x.offset % SIZE;
  }

  lemma SameBytes(before: seq<Byte>, after: seq<Byte>, at: nat, src: seq<Byte>)
    requires |before| == |after| && at + |src| <= |before|
    requires forall n | 0 <= n < |before| :: after[n] == if at <= n < at + |src| then src[n - at] else before[n]
    ensures after == Copy(before, at, src)
  {
  }

  /** A completed write replaced exactly the bytes at the offset. */
  lemma WriteRefinesBytes(x: Call, s: Sys)
    requires Inv(x, s) && x.op == Write && Covered(x) && s.w.front.state == Complete && !s.failed
    ensures s.w.front.count == Out(x) && s.w.buf == x.buf
    ensures x.offset + Out(x) <= |Bytes(x.volume)| && Out(x) <= |x.buf|
    ensures Bytes(s.c.volume) == Copy(Bytes(x.volume), x.offset, x.buf[..Out(x)])
  {
    WriteInRange(x, s);
    var before, after, src := Bytes(x.volume), Bytes(s.c.volume), x.buf[..Out(x)];
    forall n | 0 <= n < |before| ensures after[n] == if x.offset <= n < x.offset + |src| then src[n - x.offset] else before[n] {
      ByteAfterWrite(x, s, n);
    }
    SameBytes(before, after, x.offset, src);
  }

  /** The flag tells a success from a failure, except that an unaligned write never
      reports a success; whatever it says, other blocks are not touched.  */
  lemma CompletedFlag(x: Call, s: Sys)
    requires Inv(x, s) && s.w.front.state == Complete
    ensures Split(x) && x.op == Write ==> !s.w.front.success
    ensures !(Split(x) && x.op == Write) ==> (s.w.front.success <==> !s.failed)
    ensures Contained(x, s)
  {
  }

  /** A sync that completes without a failure reached the volume: exactly one request
      was accepted since its submission, a sync, and the volume completed it.  A sync
      that completes with a failure was accepted, but not completed; one that is not
      complete has not made the volume complete anything.  */
  lemma SyncReachesVolume(s: Sys, offset: nat, count: nat, buf: seq<Byte>, steps: seq<Step>)
    requires Ready(s) && count <= |buf|
    ensures var r := After(s, Sync, offset, count, buf, steps);
            && r.Sys?
            && (r.w.front.state == Complete && !r.failed ==>
                  r.c.accepted == s.c.accepted + [Req(Sync, 0, 1)] && r.c.completed == s.c.completed + [Req(Sync, 0, 1)])
            && (r.w.front.state == Complete && r.failed ==>
                  r.c.accepted == s.c.accepted + [Req(Sync, 0, 1)] && r.c.completed == s.c.completed)
            && (r.w.front.state != Complete ==> r.c.completed == s.c.completed)
            && (r.w.front.state == ErrorEof ==> r.c.accepted == s.c.accepted && s.c.volume == [])
  {
    var x := CallOf(s, Sync, offset, count, buf);
    SubmitStarts(s, Sync, offset, count, buf);
    RunKeeps(x, Do(s, Submitted(Sync, offset, count, buf)), steps);
  }

  /** A complete sync was carried out if and only if the success flag says so.  The
      source's sync() does not look at the flag: it reports every complete one as done. */
  lemma SyncCarriedOutIff(s: Sys, offset: nat, count: nat, buf: seq<Byte>, steps: seq<Step>)
    requires Ready(s) && count <= |buf|
    requires var r := After(s, Sync, offset, count, buf, steps); r.Sys? && r.w.front.state == Complete
    ensures var r := After(s, Sync, offset, count, buf, steps);
            && r.Sys?
            && (r.c.completed == s.c.completed + [Req(Sync, 0, 1)] <==> r.w.front.success)
            && (!r.w.front.success ==> r.c.completed == s.c.completed)
  {
    SyncReachesVolume(s, offset, count, buf, steps);
    var x := CallOf(s, Sync, offset, count, buf);
    SubmitStarts(s, Sync, offset, count, buf);
    RunKeeps(x, Do(s, Submitted(Sync, offset, count, buf)), steps);
  }

  /** A call whose request fails at the volume is complete: a sync without being carried
      out, an aligned read with all its bytes reported and none in memory. */
  lemma FailedCallIsComplete(s: Sys, buf: seq<Byte>)
    requires Ready(s) && |s.c.volume| > 0 && SIZE <= |buf|
    ensures var r := After(s, Sync, 0, 0, [], [FrontendStarts, Fails(0)]);
            r.Sys? && r.w.front.state == Complete && !r.w.front.success && r.c.completed == s.c.completed
    ensures var r := After(s, Read, 0, SIZE, buf, [FrontendStarts, Fails(0)]);
            r.Sys? && r.w.front.state == Complete && !r.w.front.success && r.w.front.count == SIZE && r.w.buf == buf
  {
    FailsAtOnce(s, Sync, 0, []);
    FailsAtOnce(s, Read, SIZE, buf);
  }

  lemma FailsAtOnce(s: Sys, op: Op, count: nat, buf: seq<Byte>)
    requires Ready(s) && |s.c.volume| > 0 && count <= |buf| && (if op == Sync then count == 0 else count == SIZE)
    ensures var s1 := Do(s, Submitted(op, 0, count, buf));
            && s1.Sys? && Enabled(s1, FrontendStarts)
            && var s2 := Do(s1, FrontendStarts);
               && s2.Sys? && Enabled(s2, Fails(0))
               && After(s, op, 0, count, buf, [FrontendStarts, Fails(0)]) == Do(s2, Fails(0))
  {
    var s1 := Do(s, Submitted(op, 0, count, buf));
    var s2 := Do(s1, FrontendStarts);
    assert [FrontendStarts, Fails(0)][1..] == [Fails(0)] && [Fails(0)][1..] == [];
    assert Run(s1, [FrontendStarts, Fails(0)]) == Run(s2, [Fails(0)]);
  }

  /** The requests that a completed call without a failure made the volume complete,
      and no others: an aligned call its blocks at once, an unaligned one its block,
      which a write stores afterwards.  */
  lemma CallReachesVolume(s: Sys, op: Op, offset: nat, count: nat, buf: seq<Byte>, steps: seq<Step>)
    requires Ready(s) && count <= |buf| && op != Sync
    ensures var r := After(s, op, offset, count, buf, steps);
            && r.Sys?
            && (r.w.front.state == Complete && !r.failed ==>
                  var reqs := if offset % SIZE == 0 && count >= SIZE then [Req(op, offset / SIZE, (count / SIZE) % U32_LIMIT)]
                              else if op == Read then [Req(Read, offset / SIZE, 1)]
                              else [Req(Read, offset / SIZE, 1), Req(Write, offset / SIZE, 1)];
                  r.c.accepted == s.c.accepted + reqs && r.c.completed == s.c.completed + reqs)
            && (r.w.front.state == ErrorEof ==> r.c.accepted == s.c.accepted && r.c.completed == s.c.completed)
  {
    var x := CallOf(s, op, offset, count, buf);
    SubmitStarts(s, op, offset, count, buf);
    RunKeeps(x, Do(s, Submitted(op, offset, count, buf)), steps);
    AppendTwo(s.c.accepted, BlockRead(x), BlockWrite(x));
    AppendTwo(s.c.completed, BlockRead(x), BlockWrite(x));
  }

  lemma AppendTwo(s: seq<Req>, a: Req, b: Req)
    ensures s + [a] + [b] == s + [a, b]
  {
  }

  /** A rejected call transfers nothing; exactly aligned calls beyond the end and syncs
      of an empty volume are rejected.  */
  lemma RejectedTransfersNothing(x: Call, s: Sys)
    requires Inv(x, s) && s.w.front.state == ErrorEof
    ensures s.c.volume == x.volume && s.w.buf == x.buf && s.c.accepted == x.accepted && s.c.completed == x.completed
    ensures !Split(x) && (Vba(x) >= |x.volume| || Vba(x) + ReqOf(x).blocks > |x.volume|)
  {
  }

  lemma InRangeIsServed(x: Call, s: Sys)
    requires Inv(x, s) && x.op != Sync && x.count > 0 && x.offset + x.count <= |Bytes(x.volume)|
    ensures s.w.front.state != ErrorEof && 0 < Out(x) <= x.count
  {
  }

  /** A pending request starts if and only if its first block exists and no block lies
      beyond the end; then it is what the volume gets, and otherwise nothing happens but
      the rejection.  */
  lemma StartsIff(x: Call, s: Sys)
    requires Inv(x, s) && s.w.front.state == Pending
    ensures var r := Do(s, FrontendStarts);
            var req := if x.op == Sync then Req(Sync, 0, 1) else Req(x.op, x.offset / SIZE, (x.count / SIZE) % U32_LIMIT);
            if req.vba < |x.volume| && req.vba + req.blocks <= |x.volume| then
              && r.w.front.state == InProgress && r.c.volume == s.c.volume && r.c.accepted == s.c.accepted + [req]
              && |r.c.flights| == 1 && r.c.flights[0].req == req
              && (forall i: nat :: i in r.c.flights[0].left <==> req.op != Sync && i < req.blocks)
            else r == s.(w := s.w.(front := s.w.front.(state := ErrorEof)))
  {
  }

  /** A call reports as much as its kind can serve: an unaligned one all it wants or up
      to the end of its block, an aligned one all whole blocks. */
  lemma ReportsAllItCan(x: Call, s: Sys)
    requires Inv(x, s) && x.op != Sync
    ensures var n := s.w.front.count;
            && n <= x.count
            && (if x.offset % SIZE != 0 || x.count < SIZE then
                  && x.offset % SIZE + n <= SIZE
                  && (n == x.count || (x.offset + n) % SIZE == 0)
                else n % SIZE == 0 && x.count - n < SIZE)
  {
    if x.offset % SIZE != 0 || x.count < SIZE {
      assert x.offset == x.offset / SIZE * SIZE + x.offset % SIZE;
    }
  }

  /** The states of an aligned read of 2**44 bytes from the start: submitted, started
      and, as no block is left to transfer, completed at once. */
  function HugeRead(s: Sys, buf: seq<Byte>): seq<Sys>
    requires Ready(s) && U32_LIMIT * SIZE <= |buf| && |s.c.volume| > 0
  {
    var s1 := Do(s, Submitted(Read, 0, U32_LIMIT * SIZE, buf));
    var s2 := Do(s1, FrontendStarts);
    HugeReadStarts(s, buf);
    [s1, s2, Do(s2, Completes(0))]
  }

  lemma HugeReadStarts(s: Sys, buf: seq<Byte>)
    requires Ready(s) && U32_LIMIT * SIZE <= |buf| && |s.c.volume| > 0
    ensures Enabled(s, Submitted(Read, 0, U32_LIMIT * SIZE, buf))
    ensures var s1 := Do(s, Submitted(Read, 0, U32_LIMIT * SIZE, buf));
            && s1.Sys? && Enabled(s1, FrontendStarts)
            && var s2 := Do(s1, FrontendStarts);
               s2.Sys? && s2.w.front.state == InProgress && s2.c.flights == [Flight(Req(Read, 0, 0), {})]
               && Enabled(s2, Completes(0))
  {
    assert U32_LIMIT * SIZE % SIZE == 0 && (U32_LIMIT * SIZE / SIZE) % U32_LIMIT == 0;
  }

  /** On every nonempty volume this read is accepted, completes, reports success and
      all of its bytes, but has transferred none: the bound in CoveredIff is met. */
  lemma HugeReadTransfersNothing(s: Sys, buf: seq<Byte>)
    requires Ready(s) && U32_LIMIT * SIZE <= |buf| && |s.c.volume| > 0
    ensures var r := HugeRead(s, buf)[2];
            && r.Sys? && r.w.front.state == Complete && r.w.front.success && !r.failed
            && r.w.front.count == U32_LIMIT * SIZE
            && r.w.buf == buf && r.c.volume == s.c.volume
  {
    HugeReadStarts(s, buf);
  }
}
