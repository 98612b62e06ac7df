/** The meta tree module in its imperative form. */
module MetaTree {
  import opened NodeCodec
  import opened HashTree
  import opened MetaTreeSpec

  class MetaTree {
    const codec: Codec
    var state: ObjState
    var success: bool
    var root: T1
    var rootDirty: bool
    var maxLevel: nat
    var edges: nat
    var gen: U64
    var oldPba: U64
    var newPba: U64
    var finished: bool
    var request: CacheRequest
    const levels: array<T1Info>
    var level1: T2Info

    /** The record the transition function works on. */
    ghost function View(): Mt
      reads this, levels
    {
      Mt(state, success, root, rootDirty, maxLevel, edges, gen, oldPba, newPba, finished, request, levels[..], level1)
    }

    constructor (codec: Codec)
      ensures fresh(levels) && this.codec == codec && levels.Length == NR_OF_LEVELS
      ensures View() == Mt(Idle, false, T1_INVALID, false, 0, NODES_PER_BLOCK, 0, U64_LIMIT - 1, U64_LIMIT - 1, false,
                           NoRequest, CleanLevels(), T2InfoInvalid())
    {
      this.codec := codec;
      state, success, root, rootDirty := Idle, false, T1_INVALID, false;
      maxLevel, edges, gen := 0, NODES_PER_BLOCK, 0;
      oldPba, newPba, finished := U64_LIMIT - 1, U64_LIMIT - 1, false;
      request := NoRequest;
      level1 := T2InfoInvalid();
      levels := new T1Info[NR_OF_LEVELS](_ => T1InfoInvalid());
      new;
      assert levels[..] == CleanLevels();
    }

    // ------------------------------------------------------------ module interface

    /** Returns false where the source raises Program_Error. */
    method SubmitPrimitive(root: T1, maxLevel: nat, edges: nat, gen: U64, oldPba: U64) returns (ok: bool)
      requires levels.Length == NR_OF_LEVELS && FIRST_N <= maxLevel < NR_OF_LEVELS
      modifies this, levels
      ensures ok == (old(state) == Idle)
      ensures View() == if ok then Submit(old(View()), root, maxLevel, edges, gen, oldPba) else old(View())
    {
      if state != Idle {
        return false;
      }
      this.root, this.maxLevel, this.edges, this.gen, this.oldPba := root, maxLevel, edges, gen, oldPba;
      success, finished := false, false;
      var i := 0;
      while i < levels.Length
        invariant i <= levels.Length
        invariant forall k | 0 <= k < i :: levels[k] == T1InfoInvalid()
        modifies levels
      {
        levels[i] := T1InfoInvalid();
        i := i + 1;
      }
      level1 := T2InfoInvalid();
      assert levels[..] == CleanLevels();
      levels[maxLevel] := levels[maxLevel].(node := root, state := Read, isVolatile := NodeVolatile(root, gen));
      state := Update;
      ok := true;
      assert levels[..] == CleanLevels()[maxLevel := levels[maxLevel]];
    }

    method DropGeneratedCachePrimitive() returns (ok: bool)
      modifies this
      ensures ok == (old(request).Request? && !old(request).inProgress)
      ensures View() == if ok then old(View()).(request := old(request).(inProgress := true)) else old(View())
    {
      if !request.Request? || request.inProgress {
        return false;
      }
      request := request.(inProgress := true);
      ok := true;
    }

    /** A served request arrives with the block that was read or written. */
    method MarkGeneratedCachePrimitiveComplete(data: Block) returns (ok: bool)
      requires request.Request? ==> RequestInRange(View())
      modifies this, levels
      ensures ok == (old(request).Request? && old(request).inProgress)
      ensures View() == if ok then MarkComplete(codec, old(View()), data) else old(View())
      ensures ok && !old(request).write ==>
        var l := old(request).level;
        var node := if l > 1 then old(levels[..])[l].node else old(level1).node;
        if codec.hash(data) != node.hash then
          state == HashMismatch && levels[..] == old(levels[..]) && level1 == old(level1)
        else
          && state == old(state)
          && levels[..] == (if l > 1 then
              old(levels[..])[l := old(levels[..])[l].(entries := codec.dec1(data), index := 0, state := ReadComplete)]
            else old(levels[..]))
          && level1 == (if l > 1 then old(level1) else old(level1).(entries := codec.dec2(data), state := ReadComplete))
    {
      if !request.Request? || !request.inProgress {
        return false;
      }
      var l := request.level;
      ghost var was := levels[..];
      if request.write {
        if l > 1 {
          levels[l] := levels[l].(state := WriteComplete);
        } else {
          level1 := level1.(state := WriteComplete);
        }
      } else if l > 1 {
        if codec.hash(data) != levels[l].node.hash {
          state := HashMismatch;
        } else {
          levels[l] := levels[l].(entries := codec.dec1(data), index := 0, state := ReadComplete);
        }
      } else {
        if codec.hash(data) != level1.node.hash {
          state := HashMismatch;
        } else {
          level1 := level1.(entries := codec.dec2(data), state := ReadComplete);
        }
      }
      assert levels[..] == if l > 1 then was[l := levels[l]] else was;
      request := NoRequest;
      ok := true;
    }

    method DropCompletedPrimitive() returns (ok: bool)
      modifies this
      ensures ok == (old(state) == Done)
      ensures View() == if ok then old(View()).(state := Idle) else old(View())
    {
      ok := state == Done;
      if ok {
        state := Idle;
      }
    }

    // -------------------------------------------------- exchanging block addresses

    method ExchangeNvLevel1Node(e: T2) returns (e': T2, exchanged: bool)
      modifies this
      ensures exchanged == !old(level1).isVolatile
      ensures e' == if exchanged then TakenOver(e, old(level1).node.pba, gen) else e
      ensures exchanged ==> e' == T2(old(level1).node.pba, e.lastVba, gen, gen, e.lastKeyId, false)
      ensures View() == if exchanged then
          old(View()).(level1 := old(level1).(node := old(level1).node.(pba := e.pba), isVolatile := true))
        else old(View())
    {
      e', exchanged := e, false;
      if !level1.isVolatile {
        e' := TakenOver(e, level1.node.pba, gen);
        level1 := level1.(node := level1.node.(pba := e.pba), isVolatile := true);
        exchanged := true;
      }
    }

    method ExchangeNvInnerNodes(e: T2) returns (e': T2, exchanged: bool)
      requires Geometry(View())
      modifies this, levels
      ensures var l := FirstExchangeable(old(levels[..]), FIRST_N);
              && exchanged == (l < NR_OF_LEVELS)
              && (exchanged ==>
                    var f := old(levels[..])[l];
                    && e' == TakenOver(e, f.node.pba, gen) == T2(f.node.pba, e.lastVba, gen, gen, e.lastKeyId, false)
                    && View() == old(View()).(levels := old(levels[..])[l := f.(node := f.node.(pba := e.pba, gen := gen), isVolatile := true)]))
              && (!exchanged ==> e' == e && View() == old(View()))
    {
      e', exchanged := e, false;
      var l := FIRST_N;
      while l < levels.Length
        invariant FIRST_N <= l <= levels.Length && !exchanged && e' == e
        invariant View() == old(View())
        invariant FirstExchangeable(levels[..], FIRST_N) == FirstExchangeable(levels[..], l)
      {
        if levels[l].node != T1_INVALID && !levels[l].isVolatile {
          var t1 := levels[l].node;
          levels[l] := levels[l].(node := t1.(pba := e.pba, gen := gen), isVolatile := true);
          e' := TakenOver(e, t1.pba, gen);
          exchanged := true;
          assert levels[..] == old(levels[..])[l := levels[l]];
          return;
        }
        l := l + 1;
      }
    }

    method ExchangeRequestPba(e: T2) returns (e': T2)
      modifies this
      ensures e' == TakenOver(e, oldPba, gen) == T2(oldPba, e.lastVba, gen, gen, e.lastKeyId, false)
      ensures View() == old(View()).(success := true, newPba := e.pba, finished := true)
    {
      success, newPba, finished := true, e.pba, true;
      e' := TakenOver(e, oldPba, gen);
    }

    /** First try the level 1 node, then the inner nodes, then the requester. */
    method HandleEntry(i: nat) returns (served: bool)
      requires Geometry(View()) && i < edges
      modifies this, levels
      ensures View() == ExchangeEntry(old(View()), i) && served == ServesRequest(old(View()))
    {
      served := false;
      var e, exchanged := ExchangeNvLevel1Node(level1.entries[i]);
      if !exchanged {
        e, exchanged := ExchangeNvInnerNodes(e);
      }
      if !exchanged {
        e := ExchangeRequestPba(e);
        served := true;
      }
      level1 := level1.(entries := level1.entries[i := e]);
    }

    method HandleLevel0Nodes() returns (handled: bool)
      requires Geometry(View())
      modifies this, levels
      ensures (View(), handled) == HandleLevel0(old(View()), 0)
    {
      handled := false;
      var i := 0;
      while i < edges
        invariant Geometry(View()) && edges == old(edges) && i <= edges
        invariant var r := HandleLevel0(View(), i); HandleLevel0(old(View()), 0) == (r.0, handled || r.1)
      {
        if UsableEntry(level1.entries[i], gen) {
          var served := HandleEntry(i);
          handled := true;
          if served {
            return;
          }
        }
        i := i + 1;
      }
    }

    // -------------------------------------------------------------- node handlers

    method HandleLevel1Node() returns (handled: bool)
      requires CanStep1(View())
      modifies this, levels
      ensures handled == (old(level1).state != Invalid)
      ensures View() == if handled then HandleLevel1(codec, old(View())) else old(View())
    {
      ghost var was := levels[..];
      handled := true;
      match level1.state {
        case Invalid =>
          handled := false;
        case Read =>
          request := Request(false, false, level1.node.pba, 1, ZeroBlock());
        case ReadComplete =>
          var exchanged := HandleLevel0Nodes();
          level1 := level1.(state := if exchanged then Write else Complete);
        case Write =>
          var data := codec.enc2(level1.entries);
          var f := levels[FIRST_N];
          var parent := UpdateParent(data, level1.node.pba);
          levels[FIRST_N] := f.(entries := f.entries[f.index := parent], dirty := true);
          request := Request(false, true, level1.node.pba, 1, data);
          assert levels[..] == was[FIRST_N := levels[FIRST_N]];
        case WriteComplete =>
          levels[FIRST_N] := levels[FIRST_N].(index := levels[FIRST_N].index + 1);
          level1 := level1.(state := Invalid);
          assert levels[..] == was[FIRST_N := levels[FIRST_N]];
        case Complete =>
          levels[FIRST_N] := levels[FIRST_N].(index := levels[FIRST_N].index + 1);
          level1 := level1.(state := Invalid);
          assert levels[..] == was[FIRST_N := levels[FIRST_N]];
      }
    }

    /** The entry describes the block: on every device with that block at that address,
        address and hash agree.  */
    method UpdateParent(data: Block, pba: U64) returns (parent: T1)
      ensures parent == ParentEntry(codec, View(), pba, data) && parent.gen == gen
      ensures pba != 0 ==> forall disk: Disk | pba in disk && disk[pba] == data :: BlockAt(codec, disk, parent, data)
    {
      parent := T1(pba, gen, codec.hash(data));
    }

    /** The body of the loop over the levels for a level that is under work. */
    method HandleNode(l: nat)
      requires CanStepN(View(), l) && levels[l].state != Invalid
      modifies this, levels
      ensures View() == HandleLevelN(codec, old(View()), l)
    {
      ghost var was := levels[..];
      var f := levels[l];
      match f.state {
        case Read =>
          request := Request(false, false, f.node.pba, l, ZeroBlock());
        case ReadComplete =>
          if f.index < edges && f.entries[f.index] != T1_INVALID && !finished {
            var child := f.entries[f.index];
            if l != FIRST_N {
              levels[l - 1] := T1Info(Read, child, NoT1s(), 0, false, NodeVolatile(f.node, gen));
              assert levels[..] == was[l - 1 := levels[l - 1]];
            } else {
              level1 := T2Info(Read, child, NoT2s(), NodeVolatile(f.node, gen));
            }
          } else {
            levels[l] := f.(state := if f.dirty then Write else Complete);
            assert levels[..] == was[l := levels[l]];
          }
        case Write =>
          var data := codec.enc1(f.entries);
          var parent := UpdateParent(data, f.node.pba);
          if l == maxLevel {
            root, rootDirty := parent, true;
          } else {
            var q := levels[l + 1];
            levels[l + 1] := q.(entries := q.entries[q.index := parent], dirty := true);
            assert levels[..] == was[l + 1 := levels[l + 1]];
          }
          request := Request(false, true, f.node.pba, l, data);
        case WriteComplete => LeaveNode(l);
        case Complete => LeaveNode(l);
      }
    }

    method LeaveNode(l: nat)
      requires CanStepN(View(), l)
      modifies this, levels
      ensures View() == Ascend(old(View()), l)
    {
      ghost var was := levels[..];
      if l == maxLevel {
        state := Done;
      } else {
        levels[l + 1] := levels[l + 1].(index := levels[l + 1].index + 1);
        assert levels[..] == was[l + 1 := levels[l + 1]];
      }
      ghost var up := levels[..];
      levels[l] := levels[l].(state := Invalid);
      assert levels[..] == up[l := levels[l]];
    }

    method HandleLevelNNodes() returns (handled: bool)
      requires Geometry(View())
      requires var l := FirstActive(levels[..], FIRST_N); l < NR_OF_LEVELS ==> CanStepN(View(), l)
      modifies this, levels
      ensures var l := FirstActive(old(levels[..]), FIRST_N);
              && handled == (l < NR_OF_LEVELS)
              && View() == if handled then HandleLevelN(codec, old(View()), l) else old(View())
    {
      handled := false;
      var l := FIRST_N;
      while l < levels.Length
        invariant FIRST_N <= l <= levels.Length && !handled && View() == old(View())
        invariant FirstActive(levels[..], FIRST_N) == FirstActive(levels[..], l)
      {
        if levels[l].state != Invalid {
          HandleNode(l);
          handled := true;
          return;
        }
        l := l + 1;
      }
    }

    /** Returns false where the source raises Program_Error. */
    method Execute() returns (ok: bool, progress: bool)
      requires CanExecute(View())
      modifies this, levels
      ensures ok == !(old(state) == HashMismatch && old(request) == NoRequest)
      ensures View() == MetaTreeSpec.Execute(codec, old(View()))
      ensures progress == (old(request) == NoRequest && old(state) == Update
                           && (old(level1).state != Invalid || FirstActive(old(levels[..]), FIRST_N) < NR_OF_LEVELS))
    {
      ok, progress := true, false;
      if request.Request? {
        return;
      }
      match state {
        case Idle =>
        case Update =>
          progress := HandleLevel1Node();
          if !progress {
            progress := HandleLevelNNodes();
          }
        case Done =>
        case HashMismatch =>
          ok := false;
      }
    }
  }
}
