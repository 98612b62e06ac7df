/** The byte file over the encrypted block volume, as transition functions.

    Unaligned requests go through a helper request for one whole block: read it,
    copy the wanted bytes, and for writes write the block back.  */
module VfsSpec {
  import opened NodeCodec

  /** Cbe::BLOCK_SIZE */
  const SIZE := BLOCK_BYTES

  datatype Op = Read | Write | Sync

  /** A request at the volume: block address and number of blocks (32 bits wide). */
  datatype Req = Req(op: Op, vba: nat, blocks: nat)

  const NO_REQ := Req(Sync, 0, 0)

  datatype HelperState = HelperNone | HelperPending | HelperInProgress | HelperComplete

  datatype Helper = Helper(state: HelperState, req: Req, data: Block, success: bool)

  datatype FrontState = None | Pending | InProgress | Complete | Error | ErrorEof

  datatype Frontend = Frontend(state: FrontState, count: nat, req: Req, success: bool, offset: nat, helperOffset: nat)

  /** buf is the memory that the request's data pointer refers to. */
  datatype Wrapper = Wrapper(front: Frontend, helperRead: Helper, helperWrite: Helper, buf: seq<Byte>)

  // ------------------------------------------------------------- submitting a request

  predicate Unaligned(offset: nat, count: nat)
  {
    offset % SIZE != 0 || count < SIZE
  }

  /** The number of blocks, converted to 32 bits. */
  function Blocks(count: nat): nat
  {
    (count / SIZE) % U32_LIMIT
  }

  function Min(a: nat, b: nat): nat { if a <= b then a else b }

  /** The number of bytes a request will report. */
  function OutCount(offset: nat, count: nat): nat
  {
    if Unaligned(offset, count) then Min(count, SIZE - offset % SIZE) else count - count % SIZE
  }

  function SubmitSync(w: Wrapper): Wrapper
  {
    w.(front := w.front.(state := Pending, count := 0, req := Req(Sync, 0, 1), success := false))
  }

  function SubmitUnaligned(w: Wrapper, op: Op, offset: nat, count: nat, buf: seq<Byte>): Wrapper
  {
    Wrapper(Frontend(InProgress, OutCount(offset, count), Req(op, offset / SIZE, Blocks(count)), false, offset, offset % SIZE),
            w.helperRead.(state := HelperPending, req := Req(Read, offset / SIZE, 1), success := false),
            w.helperWrite, buf)
  }

  function SubmitAligned(w: Wrapper, op: Op, offset: nat, count: nat, buf: seq<Byte>): Wrapper
  {
    Wrapper(Frontend(Pending, OutCount(offset, count), Req(op, offset / SIZE, Blocks(count)), false, offset, w.front.helperOffset),
            w.helperRead, w.helperWrite, buf)
  }

  /** submit_frontend_request in state NONE. */
  function Submit(w: Wrapper, op: Op, offset: nat, count: nat, buf: seq<Byte>): Wrapper
  {
    if op == Sync then SubmitSync(w)
    else if Unaligned(offset, count) then SubmitUnaligned(w, op, offset, count, buf)
    else SubmitAligned(w, op, offset, count, buf)
  }

  // ----------------------------------------------------------------------- the volume

  /** A request under work; `left` are the blocks not transferred yet. */
  datatype Flight = Flight(req: Req, left: set<nat>)

  /** The volume as its client sees it: the blocks and the requests under work, and as
      a history the requests it accepted and those it completed successfully. */
  datatype Client = Client(volume: seq<Block>, flights: seq<Flight>, accepted: seq<Req>, completed: seq<Req>)

  /** The numbers below n. */
  function Below(n: nat): (s: set<nat>)
    ensures forall i: nat :: i in s <==> i < n
  {
    if n == 0 then {} else Below(n - 1) + {n - 1}
  }

  function AllBlocks(req: Req): set<nat>
  {
    if req.op == Sync then {} else Below(req.blocks)
  }

  function Accept(c: Client, req: Req): Client
  {
    c.(flights := c.flights + [Flight(req, AllBlocks(req))], accepted := c.accepted + [req])
  }

  /** The wrapper, its volume, and whether a request failed since the last submit. */
  datatype Sys = Sys(w: Wrapper, c: Client, failed: bool) | Thrown

  // --------------------------------------------------- one round of the frontend loop

  function StartHelperRead(s: Sys): Sys
    requires s.Sys?
  {
    if s.w.helperRead.state.HelperPending? then
      s.(w := s.w.(helperRead := s.w.helperRead.(state := HelperInProgress)), c := Accept(s.c, s.w.helperRead.req))
    else s
  }

  function StartHelperWrite(s: Sys): Sys
    requires s.Sys?
  {
    if s.w.helperWrite.state.HelperPending? then
      s.(w := s.w.(helperWrite := s.w.helperWrite.(state := HelperInProgress)), c := Accept(s.c, s.w.helperWrite.req))
    else s
  }

  /** max_vba() is the address of the last block. */
  predicate Rejected(c: Client, req: Req)
  {
    var maxVba := |c.volume| - 1;
    || req.vba > maxVba
    || (req.vba + req.blocks) % U64_LIMIT < req.vba
    || req.vba + req.blocks > maxVba + 1
  }

  function SetFront(s: Sys, state: FrontState): Sys
    requires s.Sys?
  {
    s.(w := s.w.(front := s.w.front.(state := state)))
  }

  /** A pending request is checked; it starts if the volume accepts a request. */
  function StartFrontend(s: Sys, acceptable: bool): Sys
    requires s.Sys?
  {
    if !s.w.front.state.Pending? then s
    else if Rejected(s.c, s.w.front.req) then SetFront(s, ErrorEof)
    else if acceptable then SetFront(s.(c := Accept(s.c, s.w.front.req)), InProgress)
    else s
  }

  function Without(fs: seq<Flight>, k: nat): seq<Flight>
    requires k < |fs|
  {
    fs[..k] + fs[k + 1..]
  }

  function TakeBack(c: Client, k: nat): Client
    requires k < |c.flights|
  {
    c.(flights := Without(c.flights, k), completed := c.completed + [c.flights[k].req])
  }

  /** A completed request is taken back and attributed to the request in progress. */
  function Attribute(w: Wrapper, success: bool): Wrapper
  {
    if !success then
      w.(helperRead := w.helperRead.(state := HelperNone), helperWrite := w.helperWrite.(state := HelperNone),
         front := w.front.(state := Complete, success := false))
    else if w.helperRead.state.HelperInProgress? then
      w.(helperRead := w.helperRead.(state := HelperComplete, success := true))
    else if w.helperWrite.state.HelperInProgress? then
      w.(helperWrite := w.helperWrite.(state := HelperComplete, success := true))
    else
      w.(front := w.front.(state := Complete, success := true))
  }

  /** dst with the bytes of src copied to position `at`. */
  function Copy(dst: seq<Byte>, at: nat, src: seq<Byte>): (r: seq<Byte>)
    requires at + |src| <= |dst|
    ensures |r| == |dst|
  {
    dst[..at] + src + dst[at + |src|..]
  }

  /** The copies that a helper makes stay inside the block and the caller's memory. */
  predicate CopiesFit(w: Wrapper)
  {
    w.helperRead.state.HelperComplete? && !w.front.req.op.Sync? ==>
      w.front.helperOffset + w.front.count <= SIZE && w.front.count <= |w.buf|
  }

  /** The helper read is complete: finish a read, or prepare the block to write back. */
  function FinishHelperRead(w: Wrapper): Wrapper
    requires CopiesFit(w)
  {
    var f := w.front;
    if !w.helperRead.state.HelperComplete? then w
    else
      match f.req.op
      case Sync => w
      case Read =>
        w.(buf := Copy(w.buf, 0, w.helperRead.data[f.helperOffset..f.helperOffset + f.count]),
           helperRead := w.helperRead.(state := HelperNone),
           front := f.(state := Complete, success := w.helperRead.success))
      case Write =>
        w.(helperWrite := Helper(HelperPending, Req(Write, w.helperRead.req.vba, w.helperRead.req.blocks),
                                 Copy(w.helperRead.data, f.helperOffset, w.buf[..f.count]), false),
           helperRead := w.helperRead.(state := HelperNone))
  }

  /** The helper write is complete; the success flag of the request stays unset. */
  function FinishHelperWrite(w: Wrapper): Wrapper
  {
    if !w.helperWrite.state.HelperComplete? then w
    else w.(helperWrite := w.helperWrite.(state := HelperNone), front := w.front.(state := Complete))
  }

  predicate InBuffer(w: Wrapper, i: nat)
  {
    i * SIZE + SIZE <= |w.buf|
  }

  /** A block was read: to the helper's block, else to the caller's memory. */
  function DataReady(s: Sys, i: nat, b: Block): Sys
    requires s.Sys?
  {
    if s.w.helperRead.state.HelperInProgress? then
      s.(w := s.w.(helperRead := s.w.helperRead.(data := b)))
    else if s.w.front.state.InProgress? && InBuffer(s.w, i) then
      s.(w := s.w.(buf := Copy(s.w.buf, i * SIZE, b)))
    else Thrown
  }

  /** The block to write: from the helper, else from the caller's memory. */
  function DataRequired(w: Wrapper, i: nat): (r: seq<Block>)
    ensures |r| <= 1
  {
    if w.helperWrite.state.HelperInProgress? then [w.helperWrite.data]
    else if w.front.state.InProgress? && InBuffer(w, i) then [w.buf[i * SIZE..i * SIZE + SIZE]]
    else []
  }

  /** The volume transfers one block of request k. */
  function Transfer(s: Sys, k: nat, i: nat): Sys
    requires s.Sys? && k < |s.c.flights| && i in s.c.flights[k].left
  {
    var f := s.c.flights[k];
    var c := s.c.(flights := s.c.flights[k := f.(left := f.left - {i})]);
    if f.req.vba + i >= |s.c.volume| then s  // the volume cannot transfer this block
    else if f.req.op == Read then
      DataReady(s.(c := c), i, s.c.volume[f.req.vba + i])
    else
      var b := DataRequired(s.w, i);
      if b == [] then Thrown else s.(c := c.(volume := c.volume[f.req.vba + i := b[0]]))
  }

  /** What happens next: calls of the client, progress of the loop, the volume at work. */
  datatype Step =
    | Submitted(op: Op, offset: nat, count: nat, buf: seq<Byte>)
    | HelperReadStarts | HelperWriteStarts | FrontendStarts
    | Transfers(k: nat, i: nat)
    | Completes(k: nat) | Fails(k: nat)
    | HelperReadFinishes | HelperWriteFinishes
    | Acknowledged

  predicate Final(st: FrontState)
  {
    st == Complete || st == Error || st == ErrorEof
  }

  /** The caller's memory holds at least as many bytes as it asks for. */
  predicate Enabled(s: Sys, step: Step)
    requires s.Sys?
  {
    match step
    case Submitted(op, offset, count, buf) => s.w.front.state == None && count <= |buf|
    case HelperReadStarts => s.w.helperRead.state.HelperPending?
    case HelperWriteStarts => s.w.helperWrite.state.HelperPending?
    case FrontendStarts => s.w.front.state == Pending
    case Transfers(k, i) => k < |s.c.flights| && i in s.c.flights[k].left && s.c.flights[k].req.vba + i < |s.c.volume|
    case Completes(k) => k < |s.c.flights| && s.c.flights[k].left == {}
    case Fails(k) => k < |s.c.flights|
    case HelperReadFinishes => s.w.helperRead.state.HelperComplete? && CopiesFit(s.w)
    case HelperWriteFinishes => s.w.helperWrite.state.HelperComplete?
    case Acknowledged => Final(s.w.front.state)
  }

  function Do(s: Sys, step: Step): Sys
    requires s.Sys? && Enabled(s, step)
  {
    match step
    case Submitted(op, offset, count, buf) => Sys(Submit(s.w, op, offset, count, buf), s.c, false)
    case HelperReadStarts => StartHelperRead(s)
    case HelperWriteStarts => StartHelperWrite(s)
    case FrontendStarts => StartFrontend(s, true)
    case Transfers(k, i) => Transfer(s, k, i)
    case Completes(k) => s.(w := Attribute(s.w, true), c := TakeBack(s.c, k))
    case Fails(k) => Sys(Attribute(s.w, false), s.c.(flights := Without(s.c.flights, k)), true)
    case HelperReadFinishes => s.(w := FinishHelperRead(s.w))
    case HelperWriteFinishes => s.(w := FinishHelperWrite(s.w))
    case Acknowledged => s.(w := s.w.(front := s.w.front.(state := None, req := NO_REQ)))
  }
}
