/** The byte file in its imperative form, and whole calls on it. */
module Vfs {
  import opened NodeCodec
  import S = VfsSpec
  import T = VfsTheorems
  import P = VfsProgress

  /** memcpy of src to position `at`. */
  method CopyInto(dst: array<Byte>, at: nat, src: seq<Byte>)
    requires at + |src| <= dst.Length
    modifies dst
    ensures dst[..] == S.Copy(old(dst[..]), at, src)
  {
    ghost var was := dst[..];
    for n := 0 to |src|
      invariant dst[..at] == was[..at] && dst[at..at + n] == src[..n] && dst[at + n..] == was[at + n..]
    {
      dst[at + n] := src[n];
    }
    assert dst[..] == dst[..at] + dst[at..at + |src|] + dst[at + |src|..];
  }

  /** The volume: its blocks and the client requests under work. */
  class Volume {
    var blocks: seq<Block>
    var flights: seq<S.Flight>
    ghost var accepted: seq<S.Req>
    ghost var completed: seq<S.Req>

    ghost function View(): S.Client
      reads this
    {
      S.Client(blocks, flights, accepted, completed)
    }

    constructor (blocks: seq<Block>)
      ensures this.blocks == blocks && flights == [] && accepted == [] && completed == []
    {
      this.blocks := blocks;
      flights := [];
      accepted, completed := [], [];
    }

    method Accept(req: S.Req)
      modifies this
      ensures View() == S.Accept(old(View()), req)
    {
      flights := flights + [S.Flight(req, S.AllBlocks(req))];
      accepted := accepted + [req];
    }
  }

  class Wrapper {
    var front: S.Frontend
    var helperRead: S.Helper
    var helperWrite: S.Helper
    var data: array<Byte>

    ghost function View(): S.Wrapper
      reads this, data
    {
      S.Wrapper(front, helperRead, helperWrite, data[..])
    }

    ghost function With(v: Volume): S.Sys
      reads this, data, v
    {
      S.Sys(View(), v.View(), false)
    }

    constructor ()
      ensures View() == S.Wrapper(S.Frontend(S.None, 0, S.NO_REQ, false, 0, 0), S.Helper(S.HelperNone, S.NO_REQ, Zeros(BLOCK_BYTES), false),
                                  S.Helper(S.HelperNone, S.NO_REQ, Zeros(BLOCK_BYTES), false), [])
      ensures fresh(data)
    {
      front := S.Frontend(S.None, 0, S.NO_REQ, false, 0, 0);
      helperRead := S.Helper(S.HelperNone, S.NO_REQ, Zeros(BLOCK_BYTES), false);
      helperWrite := S.Helper(S.HelperNone, S.NO_REQ, Zeros(BLOCK_BYTES), false);
      data := new Byte[0];
    }

    /** Refuses a second request while one is under work. */
    method SubmitFrontendRequest(op: S.Op, offset: nat, count: nat, mem: array<Byte>) returns (accepted: bool)
      modifies this
      ensures accepted == (old(front).state == S.None)
      ensures accepted ==> View() == S.Submit(old(View()), op, offset, count, mem[..])
      ensures data == if accepted && op != S.Sync then mem else old(data)
      ensures !accepted ==> View() == old(View())
    {
      if front.state != S.None {
        return false;
      }
      accepted := true;
      if op == S.Sync {
        front := front.(state := S.Pending, count := 0, req := S.Req(S.Sync, 0, 1), success := false);
        return;
      }
      var unaligned := offset % S.SIZE != 0 || count < S.SIZE;
      var bytes := count;
      if count % S.SIZE != 0 && !unaligned {
        bytes := count - count % S.SIZE;
      }
      var req := S.Req(op, offset / S.SIZE, (bytes / S.SIZE) % U32_LIMIT);
      data := mem;
      if unaligned {
        helperRead := helperRead.(state := S.HelperPending, req := S.Req(S.Read, offset / S.SIZE, 1), success := false);
        var helperOffset := offset % S.SIZE;
        var n := if bytes >= S.SIZE - helperOffset then S.SIZE - helperOffset else bytes;
        front := S.Frontend(S.InProgress, n, req, false, offset, helperOffset);
      } else {
        assert bytes / S.SIZE == count / S.SIZE;
        front := S.Frontend(S.Pending, bytes, req, false, offset, front.helperOffset);
      }
    }

    // ------------------------------------------------ phases of the frontend loop

    method StartHelperRead(v: Volume, acceptable: bool)
      modifies this, v
      ensures With(v) == (if acceptable then S.StartHelperRead(old(With(v))) else old(With(v))) && data == old(data)
    {
      if helperRead.state.HelperPending? && acceptable {
        v.Accept(helperRead.req);
        helperRead := helperRead.(state := S.HelperInProgress);
      }
    }

    method StartHelperWrite(v: Volume, acceptable: bool)
      modifies this, v
      ensures With(v) == (if acceptable then S.StartHelperWrite(old(With(v))) else old(With(v))) && data == old(data)
    {
      if helperWrite.state.HelperPending? && acceptable {
        v.Accept(helperWrite.req);
        helperWrite := helperWrite.(state := S.HelperInProgress);
      }
    }

    method StartFrontend(v: Volume, acceptable: bool)
      modifies this, v
      ensures With(v) == S.StartFrontend(old(With(v)), acceptable) && data == old(data)
    {
      if front.state.Pending? {
        var maxVba := |v.blocks| - 1;
        var req := front.req;
        if req.vba > maxVba {
          front := front.(state := S.ErrorEof);
        } else if (req.vba + req.blocks) % U64_LIMIT < req.vba {
          front := front.(state := S.ErrorEof);
        } else if req.vba + req.blocks > maxVba + 1 {
          front := front.(state := S.ErrorEof);
        } else if acceptable {
          v.Accept(req);
          front := front.(state := S.InProgress);
        }
      }
    }

    /** A completed request was taken from the volume. */
    method Attribute(success: bool)
      modifies this
      ensures View() == S.Attribute(old(View()), success) && data == old(data)
    {
      if !success {
        helperRead := helperRead.(state := S.HelperNone);
        helperWrite := helperWrite.(state := S.HelperNone);
        front := front.(state := S.Complete, success := false);
      } else if helperRead.state.HelperInProgress? {
        helperRead := helperRead.(state := S.HelperComplete, success := true);
      } else if helperWrite.state.HelperInProgress? {
        helperWrite := helperWrite.(state := S.HelperComplete, success := true);
      } else {
        front := front.(state := S.Complete, success := true);
      }
    }

    method FinishHelperRead()
      requires S.CopiesFit(View())
      modifies this, data
      ensures View() == S.FinishHelperRead(old(View())) && data == old(data)
    {
      if !helperRead.state.HelperComplete? {
        return;
      }
      var at, n := front.helperOffset, front.count;
      if front.req.op == S.Read {
        CopyInto(data, 0, helperRead.data[at..at + n]);
        helperRead := helperRead.(state := S.HelperNone);
        front := front.(state := S.Complete, success := helperRead.success);
      } else if front.req.op == S.Write {
        var block := new Byte[S.SIZE](i requires 0 <= i < S.SIZE => 0);
        CopyInto(block, 0, helperRead.data);
        assert block[..] == helperRead.data;
        CopyInto(block, at, data[..n]);
        helperWrite := S.Helper(S.HelperPending, S.Req(S.Write, helperRead.req.vba, helperRead.req.blocks), block[..], false);
        helperRead := helperRead.(state := S.HelperNone);
      }
    }

    method FinishHelperWrite()
      modifies this
      ensures View() == S.FinishHelperWrite(old(View())) && data == old(data)
    {
      if helperWrite.state.HelperComplete? {
        helperWrite := helperWrite.(state := S.HelperNone);
        front := front.(state := S.Complete);
      }
    }

    /** The volume offers block i of a read request; false where the source throws. */
    method DataReady(v: Volume, i: nat, b: Block) returns (ok: bool)
      modifies this, data
      ensures data == old(data)
      ensures if ok then With(v) == S.DataReady(old(With(v)), i, b) else S.DataReady(old(With(v)), i, b) == S.Thrown
    {
      ok := true;
      if helperRead.state.HelperInProgress? {
        helperRead := helperRead.(data := b);
      } else if front.state.InProgress? && i * S.SIZE + S.SIZE <= data.Length {
        CopyInto(data, i * S.SIZE, b);
      } else {
        ok := false;
      }
    }

    /** The volume wants block i of a write request; false where the source throws. */
    method DataRequired(i: nat) returns (ok: bool, b: Block)
      ensures S.DataRequired(View(), i) == if ok then [b] else []
    {
      ok, b := true, helperWrite.data;
      if helperWrite.state.HelperInProgress? {
        return;
      }
      if front.state.InProgress? && i * S.SIZE + S.SIZE <= data.Length {
        b := data[i * S.SIZE..i * S.SIZE + S.SIZE];
      } else {
        ok := false;
      }
    }

    method AckFrontendRequest()
      modifies this
      ensures View() == old(View()).(front := old(front).(state := S.None, req := S.NO_REQ)) && data == old(data)
    {
      front := front.(state := S.None, req := S.NO_REQ);
    }

    // ------------------------------------------------------------ a volume at work

    /** Transfer block i of the request under work. */
    method Transfer(v: Volume, i: nat) returns (ok: bool)
      requires v.flights != [] && i in v.flights[0].left && v.flights[0].req.vba + i < |v.blocks|
      requires v.flights[0].req.op != S.Sync
      modifies this, data, v
      ensures data == old(data)
      ensures if ok then With(v) == S.Transfer(old(With(v)), 0, i) else S.Transfer(old(With(v)), 0, i) == S.Thrown
    {
      var f := v.flights[0];
      v.flights := v.flights[0 := f.(left := f.left - {i})];
      if f.req.op == S.Read {
        ok := DataReady(v, i, v.blocks[f.req.vba + i]);
      } else {
        var b;
        ok, b := DataRequired(i);
        if ok {
          v.blocks := v.blocks[f.req.vba + i := b];
        }
      }
    }

    /** Transfer some block of the request under work, if one is left. */
    method TransferBlock(v: Volume, ghost x: T.Call)
      requires T.Inv(x, With(v)) && P.BlockExists(x)
      modifies this, data, v
      ensures data == old(data) && T.Inv(x, With(v))
      ensures old(With(v)) == With(v) || P.Rank(With(v)) < old(P.Rank(With(v)))
      ensures old(v.flights) != [] && old(v.flights)[0].left != {} ==> P.Rank(With(v)) < old(P.Rank(With(v)))
    {
      if v.flights == [] || v.flights[0].left == {} {
        return;
      }
      ghost var s := With(v);
      var i :| i in v.flights[0].left;
      TransferFits(x, s, i);
      T.TransferKeeps(x, s, 0, i);
      P.TransferLowersRank(x, s, 0, i);
      var ok := Transfer(v, i);
    }

    /** Take back the request under work when all its blocks are transferred. */
    method TakeCompleted(v: Volume, ghost x: T.Call)
      requires T.Inv(x, With(v))
      modifies this, v
      ensures data == old(data) && T.Inv(x, With(v))
      ensures old(With(v)) == With(v) || P.Rank(With(v)) < old(P.Rank(With(v)))
      ensures old(v.flights) != [] && old(v.flights)[0].left == {} ==> P.Rank(With(v)) < old(P.Rank(With(v)))
    {
      if v.flights == [] || v.flights[0].left != {} {
        return;
      }
      T.CompleteKeeps(x, With(v), 0);
      P.StepLowersRank(x, With(v), S.Completes(0));
      v.completed := v.completed + [v.flights[0].req];
      v.flights := v.flights[..0] + v.flights[1..];
      Attribute(true);
    }
  }

  lemma TransferFits(x: T.Call, s: S.Sys, i: nat)
    requires T.Inv(x, s) && P.BlockExists(x) && s.c.flights != [] && i in s.c.flights[0].left
    ensures S.Enabled(s, S.Transfers(0, i)) && s.c.flights[0].req.op != S.Sync
  {
    P.BelowOne();
    assert i in S.AllBlocks(s.c.flights[0].req);
  }

  /** A phase of the loop, as a step that is skipped when it is not enabled. */
  lemma PhaseKeeps(x: T.Call, s: S.Sys, step: S.Step)
    requires T.Inv(x, s) && T.Inner(step)
    ensures S.Enabled(s, step) ==> T.Inv(x, S.Do(s, step)) && P.Rank(S.Do(s, step)) < P.Rank(s)
  {
    if S.Enabled(s, step) {
      T.StepKeeps(x, s, step);
      P.StepLowersRank(x, s, step);
    }
  }

  /** Between these states nothing happened, or the call came closer to its end. */
  ghost predicate Closer(before: S.Sys, after: S.Sys)
  {
    before.Sys? && after.Sys? && (before == after || P.Rank(after) < P.Rank(before))
  }

  method StartPhases(w: Wrapper, v: Volume, ghost x: T.Call)
    requires T.Inv(x, w.With(v))
    modifies w, v
    ensures w.data == old(w.data) && T.Inv(x, w.With(v)) && Closer(old(w.With(v)), w.With(v))
    ensures old(w.helperRead.state.HelperPending? || w.helperWrite.state.HelperPending? || w.front.state.Pending?)
            ==> w.With(v) != old(w.With(v))
  {
    PhaseKeeps(x, w.With(v), S.HelperReadStarts);
    w.StartHelperRead(v, true);
    PhaseKeeps(x, w.With(v), S.HelperWriteStarts);
    w.StartHelperWrite(v, true);
    PhaseKeeps(x, w.With(v), S.FrontendStarts);
    w.StartFrontend(v, true);
  }

  method FinishPhases(w: Wrapper, v: Volume, ghost x: T.Call)
    requires T.Inv(x, w.With(v))
    modifies w, w.data
    ensures w.data == old(w.data) && T.Inv(x, w.With(v)) && Closer(old(w.With(v)), w.With(v))
    ensures old(w.helperRead.state.HelperComplete? || w.helperWrite.state.HelperComplete?) ==> w.With(v) != old(w.With(v))
  {
    PhaseKeeps(x, w.With(v), S.HelperReadFinishes);
    w.FinishHelperRead();
    PhaseKeeps(x, w.With(v), S.HelperWriteFinishes);
    w.FinishHelperWrite();
  }

  method VolumePhases(w: Wrapper, v: Volume, ghost x: T.Call)
    requires T.Inv(x, w.With(v)) && P.BlockExists(x)
    modifies w, w.data, v
    ensures w.data == old(w.data) && T.Inv(x, w.With(v)) && Closer(old(w.With(v)), w.With(v))
    ensures old(v.flights) != [] ==> w.With(v) != old(w.With(v))
  {
    w.TransferBlock(v, x);
    w.TakeCompleted(v, x);
  }

  /** One round of the loop over all phases, with a volume that does its part. */
  method Round(w: Wrapper, v: Volume, ghost x: T.Call)
    requires T.Inv(x, w.With(v)) && P.BlockExists(x) && !S.Final(w.front.state)
    modifies w, w.data, v
    ensures w.data == old(w.data) && T.Inv(x, w.With(v)) && P.Rank(w.With(v)) < old(P.Rank(w.With(v)))
  {
    SomethingToDo(x, w.With(v));
    StartPhases(w, v, x);
    VolumePhases(w, v, x);
    FinishPhases(w, v, x);
  }

  lemma SomethingToDo(x: T.Call, s: S.Sys)
    requires T.Inv(x, s) && !S.Final(s.w.front.state)
    ensures s.w.helperRead.state.HelperPending? || s.w.helperWrite.state.HelperPending? || s.w.front.state.Pending?
         || s.c.flights != [] || s.w.helperRead.state.HelperComplete? || s.w.helperWrite.state.HelperComplete?
  {
  }

  /** A whole call: submit, run the loop until it is final, acknowledge. */
  method Call(w: Wrapper, v: Volume, op: S.Op, offset: nat, count: nat, mem: array<Byte>) returns (ok: bool, out: nat, ghost s: S.Sys)
    requires T.Ready(w.With(v)) && count <= mem.Length
    requires op != S.Sync && S.Unaligned(offset, count) ==> offset / S.SIZE < |v.blocks|
    modifies w, w.data, mem, v
    ensures T.Ready(w.With(v))
    ensures s.Sys? && T.Inv(T.CallOf(old(w.With(v)), op, offset, count, old(mem[..])), s) && !s.failed
    ensures s.c.volume == v.blocks && (op != S.Sync ==> s.w.buf == mem[..] && w.data == mem)
    ensures s.w.front.state == (if ok then S.Complete else S.ErrorEof) && out == if ok then s.w.front.count else 0
    ensures op == S.Sync && ok ==> v.accepted == old(v.accepted) + [S.Req(S.Sync, 0, 1)]
                                   && v.completed == old(v.completed) + [S.Req(S.Sync, 0, 1)]
    ensures op == S.Sync ==> ok == (|old(v.blocks)| > 0)
    ensures !ok ==> v.accepted == old(v.accepted) && v.completed == old(v.completed)
  {
    ghost var x := T.CallOf(w.With(v), op, offset, count, mem[..]);
    T.SubmitStarts(w.With(v), op, offset, count, mem[..]);
    var accepted := w.SubmitFrontendRequest(op, offset, count, mem);
    ghost var memory := w.data;
    while !S.Final(w.front.state)
      invariant w.data == memory && T.Inv(x, w.With(v))
      decreases P.Rank(w.With(v))
    {
      Round(w, v, x);
    }
    s := w.With(v);
    ok := w.front.state == S.Complete;
    out := if ok then w.front.count else 0;
    w.AckFrontendRequest();
  }

  /** One read call within the file. */
  method ReadSome(w: Wrapper, v: Volume, offset: nat, count: nat) returns (bytes: seq<Byte>)
    requires T.Ready(w.With(v)) && 0 < count < U32_LIMIT * S.SIZE && offset + count <= |T.Bytes(v.blocks)|
    modifies w, w.data, v
    ensures T.Ready(w.With(v)) && v.blocks == old(v.blocks) && fresh(w.data)
    ensures 0 < |bytes| <= count && bytes == T.Bytes(v.blocks)[offset..offset + |bytes|]
  {
    var mem := new Byte[count](i requires 0 <= i < count => 0);
    ghost var x := T.CallOf(w.With(v), S.Read, offset, count, mem[..]);
    var ok, out, s := Call(w, v, S.Read, offset, count, mem);
    T.InRangeIsServed(x, s);
    T.CoveredIff(x);
    T.ReadRefinesBytes(x, s);
    bytes := mem[..out];
  }

  /** Reading a range in the file: repeated calls advanced by the reported counts. */
  method ReadRange(w: Wrapper, v: Volume, offset: nat, count: nat) returns (bytes: seq<Byte>)
    requires T.Ready(w.With(v)) && offset + count <= |T.Bytes(v.blocks)| && count < U32_LIMIT * S.SIZE
    modifies w, w.data, v
    ensures v.blocks == old(v.blocks) && bytes == T.Bytes(v.blocks)[offset..offset + count]
  {
    bytes := [];
    ghost var file := T.Bytes(v.blocks);
    while |bytes| < count
      invariant T.Ready(w.With(v)) && v.blocks == old(v.blocks) && file == T.Bytes(v.blocks)
      invariant |bytes| <= count && bytes == file[offset..offset + |bytes|]
      invariant fresh(w.data) || w.data == old(w.data)
      decreases count - |bytes|
    {
      var more := ReadSome(w, v, offset + |bytes|, count - |bytes|);
      bytes := bytes + more;
    }
  }

  /** One write call within the file. */
  method WriteSome(w: Wrapper, v: Volume, offset: nat, src: seq<Byte>) returns (out: nat)
    requires T.Ready(w.With(v)) && 0 < |src| < U32_LIMIT * S.SIZE && offset + |src| <= |T.Bytes(v.blocks)|
    modifies w, w.data, v
    ensures T.Ready(w.With(v)) && fresh(w.data) && 0 < out <= |src|
    ensures |v.blocks| == |old(v.blocks)| && T.Bytes(v.blocks) == S.Copy(T.Bytes(old(v.blocks)), offset, src[..out])
  {
    var mem := new Byte[|src|](i requires 0 <= i < |src| => src[i]);
    assert mem[..] == src;
    ghost var x := T.CallOf(w.With(v), S.Write, offset, |src|, mem[..]);
    var ok, n, s := Call(w, v, S.Write, offset, |src|, mem);
    T.InRangeIsServed(x, s);
    T.CoveredIff(x);
    T.WriteRefinesBytes(x, s);
    out := n;
  }

  /** The part written so far and the part written next. */
  lemma CopyMore(file: seq<Byte>, offset: nat, src: seq<Byte>, done: nat, n: nat)
    requires done + n <= |src| && offset + |src| <= |file|
    ensures S.Copy(S.Copy(file, offset, src[..done]), offset + done, src[done..][..n]) == S.Copy(file, offset, src[..done + n])
  {
    assert src[..done + n] == src[..done] + src[done..][..n];
  }

  /** One more call where the part before `done` is written. */
  method WriteNext(w: Wrapper, v: Volume, offset: nat, src: seq<Byte>, done: nat, ghost file: seq<Byte>) returns (n: nat)
    requires T.Ready(w.With(v)) && |T.Bytes(v.blocks)| == |file| && done < |src| < U32_LIMIT * S.SIZE
    requires offset + |src| <= |file| && T.Bytes(v.blocks) == S.Copy(file, offset, src[..done])
    modifies w, w.data, v
    ensures T.Ready(w.With(v)) && fresh(w.data) && 0 < n <= |src| - done && |T.Bytes(v.blocks)| == |file|
    ensures T.Bytes(v.blocks) == S.Copy(file, offset, src[..done + n])
  {
    n := WriteSome(w, v, offset + done, src[done..]);
    CopyMore(file, offset, src, done, n);
  }

  lemma CopyNothing(file: seq<Byte>, offset: nat, src: seq<Byte>)
    requires offset + |src| <= |file|
    ensures S.Copy(file, offset, src[..0]) == file && src[..|src|] == src
  {
  }

  /** Writing a range in the file: repeated calls advanced by the reported counts. */
  method WriteRange(w: Wrapper, v: Volume, offset: nat, src: seq<Byte>)
    requires T.Ready(w.With(v)) && offset + |src| <= |T.Bytes(v.blocks)| && |src| < U32_LIMIT * S.SIZE
    modifies w, w.data, v
    ensures T.Bytes(v.blocks) == S.Copy(T.Bytes(old(v.blocks)), offset, src)
  {
    ghost var file := T.Bytes(v.blocks);
    var done := 0;
    CopyNothing(file, offset, src);
    while done < |src|
      invariant T.Ready(w.With(v)) && |T.Bytes(v.blocks)| == |file| && done <= |src|
      invariant T.Bytes(v.blocks) == S.Copy(file, offset, src[..done])
      invariant fresh(w.data) || w.data == old(w.data)
      decreases |src| - done
    {
      var n := WriteNext(w, v, offset, src, done, file);
      done := done + n;
    }
  }
}
