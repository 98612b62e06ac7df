/** The free tree resizing module in its imperative form. */
module FtResizing {
  import opened NodeCodec
  import opened HashTree
  import opened TreeIndex
  import opened FtSpec
  import MT = MetaTreeSpec

  /** T1_Child_Idx_For_VBA, with the search for the highest bit of the degree. */
  method T1ChildIdx(vba: nat, lvl: nat, degree: nat) returns (i: nat)
    requires lvl > 0 && 0 < degree <= NODES_PER_BLOCK
    ensures i == ChildIndex(vba, lvl, degree)
  {
    SmallWord(degree);
    var log := FindLog2(degree);
    var shift := log.value * (lvl - 1);
    i := And(ShiftRight(vba, shift), ShiftLeft(1, log.value) - 1);
    ChildIndexMask(vba, lvl, degree, shift);
  }

  /** T2_Child_Idx_For_VBA: no shift at the lowest level. */
  method T2ChildIdx(vba: nat, degree: nat) returns (i: nat)
    requires 0 < degree <= NODES_PER_BLOCK
    ensures i == ChildIndex(vba, 1, degree)
  {
    SmallWord(degree);
    var log := FindLog2(degree);
    i := And(vba, ShiftLeft(1, log.value) - 1);
    LowestChildIndex(vba, degree);
  }

  lemma SmallWord(degree: nat)
    requires degree <= NODES_PER_BLOCK
    ensures degree < Pow(2, WORD_BITS)
  {
    assert Pow(2, 7) == 128 by {
      assert Pow(2, 3) == 8 && Pow(2, 5) == 32;
    }
    PowMonotone(2, 7, WORD_BITS);
  }

  class Resizing {
    const codec: Codec
    var state: JobState
    var block: U64
    var root: T1
    var maxLevel: nat
    var nrLeaves: nat
    var edges: nat
    var gen: U64
    const t1: array<T1Block>
    var t2: T2Block
    var lvl: nat
    var allocLvl: nat
    var vba: nat
    const oldPbas: array<U64>
    const oldGens: array<U64>
    const newPbas: array<U64>
    var pba: U64
    var nrPbas: U64
    var newLeaves: nat

    /** The job record the transition function works on. */
    ghost function View(): Job
      reads this, t1, oldPbas, oldGens, newPbas
    {
      Job(state, block, root, maxLevel, nrLeaves, edges, gen, t1[..], t2, lvl, allocLvl, vba,
          oldPbas[..], oldGens[..], newPbas[..], pba, nrPbas, newLeaves)
    }

    ghost predicate Valid()
      reads this
    {
      && t1.Length == oldPbas.Length == oldGens.Length == newPbas.Length == LEVELS
      && oldPbas != oldGens && oldGens != newPbas && newPbas != oldPbas
    }

    constructor (codec: Codec)
      ensures Valid() && this.codec == codec
      ensures View() == Job(Idle, 0, T1_INVALID, 0, 0, 1, 0, seq(LEVELS, _ => MT.NoT1s()), MT.NoT2s(), 0, 0, 0,
                            NoAddresses(), NoAddresses(), NoAddresses(), 0, 0, 0)
      ensures fresh(t1) && fresh(oldPbas) && fresh(oldGens) && fresh(newPbas)
    {
      this.codec := codec;
      state, block, root := Idle, 0, T1_INVALID;
      maxLevel, nrLeaves, edges, gen := 0, 0, 1, 0;
      t1 := new T1Block[LEVELS](_ => MT.NoT1s());
      t2 := MT.NoT2s();
      lvl, allocLvl, vba := 0, 0, 0;
      oldPbas := new U64[LEVELS](_ => 0);
      oldGens := new U64[LEVELS](_ => 0);
      newPbas := new U64[LEVELS](_ => 0);
      pba, nrPbas, newLeaves := 0, 0, 0;
      new;
      assert t1[..] == seq(LEVELS, _ => MT.NoT1s());
      assert oldPbas[..] == NoAddresses() && oldGens[..] == NoAddresses() && newPbas[..] == NoAddresses();
    }

    // ------------------------------------------------------------ building a branch

    /** Returns false where the source raises: the contingent is used up. */
    method AllocPba() returns (ok: bool, p: U64)
      modifies this`pba, this`nrPbas
      ensures ok == (old(nrPbas) > 0) && p == old(pba)
      ensures ok ==> pba == NextPba(old(pba)) && nrPbas == old(nrPbas) - 1
      ensures !ok ==> pba == old(pba) && nrPbas == old(nrPbas)
    {
      ok, p := nrPbas > 0, pba;
      if !ok {
        return;
      }
      pba := (pba + 1) % U64_LIMIT;
      nrPbas := nrPbas - 1;
    }

    method ResetLevels(mount: nat)
      requires Valid() && 1 <= mount < LEVELS
      modifies this`t2, t1
      ensures t1[..] == ResetBelow(old(BranchOf(View())), mount).t1
      ensures t2 == ResetBelow(old(BranchOf(View())), mount).t2
    {
      ghost var was := t1[..];
      var l := 1;
      while l < mount
        invariant 1 <= l <= mount
        invariant forall k | 0 <= k < LEVELS :: t1[k] == if 2 <= k < l then MT.NoT1s() else was[k]
        invariant t2 == if l > 1 then MT.NoT2s() else old(t2)
        modifies this`t2, t1
      {
        if l > 1 {
          t1[l] := MT.NoT1s();
        } else {
          t2 := MT.NoT2s();
        }
        l := l + 1;
      }
      ghost var b := old(BranchOf(View()));
      forall k | 0 <= k < LEVELS ensures t1[k] == ResetLevel(b, mount, k) {
      }
      assert t1[..] == ResetBelow(b, mount).t1;
    }

    /** The loop over the leaf entries of the lowest node. */
    method FillEntries(first: nat)
      requires Valid() && ValidDegree(edges)
      modifies this`t2, this`pba, this`nrPbas, this`newLeaves
      ensures BranchOf(View()) == FillLeaves(old(BranchOf(View())), first, edges)
      ensures forall x | first <= x < edges && x - first < old(nrPbas) ::
        && t2[x].allocGen == 0 && t2[x].freeGen == 0 && !t2[x].reserved
        && t2[x].lastVba == 0x4000_0000 && t2[x].lastKeyId == 0
    {
      var i := first;
      while i < edges && nrPbas > 0
        invariant FillLeaves(BranchOf(View()), i, edges) == FillLeaves(old(BranchOf(View())), first, edges)
        invariant i >= first && nrPbas + (i - first) == old(nrPbas)
        invariant forall x | first <= x < i && x < edges ::
          && t2[x].allocGen == 0 && t2[x].freeGen == 0 && !t2[x].reserved
          && t2[x].lastVba == 0x4000_0000 && t2[x].lastKeyId == 0
        modifies this`t2, this`pba, this`nrPbas, this`newLeaves
        decreases edges - i
      {
        ghost var b := BranchOf(View());
        var ok, p := AllocPba();
        t2 := t2[i := T2(p, MAX_LEAVES, 0, 0, 0, false)];
        newLeaves := newLeaves + 1;
        assert BranchOf(View()) == TakeLeaf(b, i);
        i := i + 1;
      }
    }

    method AddChildAt(l: nat, child: nat)
      requires Valid() && 1 < l < LEVELS && child < NODES_PER_BLOCK && nrPbas > 0
      modifies this`pba, this`nrPbas, t1, newPbas
      ensures BranchOf(View()) == AddChild(old(BranchOf(View())), l, child, gen)
    {
      ghost var b := BranchOf(View());
      var ok, p := AllocPba();
      newPbas[l - 1] := p;
      t1[l] := t1[l][child := T1(newPbas[l - 1], gen, ZERO_HASH)];
      assert newPbas[..] == b.newPbas[l - 1 := p];
      assert t1[..] == b.t1[l := t1[l]];
    }

    /** The loop down the levels; it ends early when the contingent is used up. */
    method BuildLevels(mount: nat, child: nat)
      requires Valid() && 1 <= mount < LEVELS && child < NODES_PER_BLOCK && ValidDegree(edges)
      modifies this`t2, this`pba, this`nrPbas, this`newLeaves, this`lvl, t1, newPbas
      ensures BranchOf(View()) == BuildDown(old(BranchOf(View())), mount, child, edges, gen)
    {
      ghost var goal := BuildDown(BranchOf(View()), mount, child, edges, gen);
      var l, done := mount, false;
      while !done
        invariant Valid() && 1 <= l <= mount && ValidDegree(edges)
        invariant done ==> BranchOf(View()) == goal
        invariant !done ==> BuildDown(BranchOf(View()), l, if l == mount then child else 0, edges, gen) == goal
        modifies this`t2, this`pba, this`nrPbas, this`newLeaves, this`lvl, t1, newPbas
        decreases !done, l
      {
        lvl := l;
        if l > 1 {
          if nrPbas == 0 {
            done := true;
          } else {
            AddChildAt(l, if l == mount then child else 0);
            l := l - 1;
          }
        } else {
          FillEntries(if l == mount then child else 0);
          done := true;
        }
      }
    }

    method AddBranchAt(mount: nat, child: nat)
      requires Valid() && Shaped(View()) && 1 <= mount < LEVELS && child < NODES_PER_BLOCK
      modifies this`t2, this`pba, this`nrPbas, this`newLeaves, this`lvl, t1, newPbas
      ensures View() == Mount(old(View()), mount, child)
    {
      ghost var b := BranchOf(View());
      newLeaves := 0;
      lvl := mount;
      ResetLevels(mount);
      assert BranchOf(View()) == ResetBelow(b, mount).(stopped := mount, leaves := 0);
      if nrPbas > 0 {
        BuildLevels(mount, child);
      }
      assert BranchOf(View()) == AddBranch(b, mount, child, edges, gen);
    }

    /** Returns false where the source raises: at the highest level, or without address. */
    method AddRootLevel() returns (ok: bool)
      requires Valid() && Shaped(View())
      modifies this`maxLevel, this`root, this`pba, this`nrPbas, t1, newPbas
      ensures ok == (old(maxLevel) < MAX_LEVEL && old(nrPbas) > 0)
      ensures ok ==> View() == AddRoot(old(View()))
    {
      ghost var j := View();
      if maxLevel == MAX_LEVEL {
        return false;
      }
      maxLevel := maxLevel + 1;
      t1[maxLevel] := MT.NoT1s()[0 := root];
      var p;
      ok, p := AllocPba();
      if !ok {
        return;
      }
      newPbas[maxLevel] := p;
      root := T1(newPbas[maxLevel], gen, ZERO_HASH);
      assert t1[..] == j.t1[maxLevel := MT.NoT1s()[0 := j.root]];
      assert newPbas[..] == j.newPbas[maxLevel := p];
    }

    // ------------------------------------------------------------------- execution

    method SetArgsForWriteBack(l: nat)
      requires Valid() && Shaped(View()) && l < LEVELS
      modifies this`state, this`block
      ensures View() == WriteBack(old(View()), l)
      ensures l == 0 || l > maxLevel ==> state == Raised && block == old(block)
      ensures 0 < l <= maxLevel ==> block == newPbas[l]
      ensures 0 < l < maxLevel ==> state == WriteInnerPending
      ensures 0 < l == maxLevel ==> state == WriteRootPending
    {
      if l == 0 || l > maxLevel {
        state := Raised;
      } else {
        block := newPbas[l];
        state := if l < maxLevel then WriteInnerPending else WriteRootPending;
      }
    }

    method ClearAddresses()
      requires Valid()
      modifies oldPbas, oldGens, newPbas
      ensures oldPbas[..] == oldGens[..] == newPbas[..] == NoAddresses()
    {
      for l := 0 to LEVELS
        invariant forall k | 0 <= k < l :: oldPbas[k] == oldGens[k] == newPbas[k] == 0
      {
        oldPbas[l], oldGens[l], newPbas[l] := 0, 0, 0;
      }
      assert oldPbas[..] == NoAddresses() && oldGens[..] == NoAddresses() && newPbas[..] == NoAddresses();
    }

    method Begin()
      requires Valid() && Shaped(View())
      modifies this, oldPbas, oldGens, newPbas
      ensures View() == old(View()).(newLeaves := 0, vba := old(nrLeaves), lvl := old(maxLevel), newPbas := NoAddresses(),
                oldPbas := NoAddresses()[old(maxLevel) := old(root).pba], oldGens := NoAddresses()[old(maxLevel) := old(root).gen])
    {
      newLeaves := 0;
      vba := nrLeaves;
      ClearAddresses();
      lvl := maxLevel;
      oldPbas[lvl] := root.pba;
      oldGens[lvl] := root.gen;
      assert oldPbas[..] == NoAddresses()[maxLevel := root.pba];
      assert oldGens[..] == NoAddresses()[maxLevel := root.gen];
    }

    method ExecuteSubmitted()
      requires Valid() && Shaped(View())
      modifies this, t1, oldPbas, oldGens, newPbas
      ensures View() == Start(old(View()))
    {
      Begin();
      var max := MaxMaxVba(edges, maxLevel);
      if max.None? {
        state := Raised;
      } else if vba <= max.value {
        block := root.pba;
        state := ReadRootPending;
      } else if maxLevel == MAX_LEVEL || nrPbas == 0 {
        state := Raised;
      } else {
        var ok := AddRootLevel();
        AddBranchAt(maxLevel, 1);
        SetArgsForWriteBack(lvl);
      }
    }

    method AllocLevel(l: nat)
      requires Valid() && Shaped(View()) && l < LEVELS
      modifies this`allocLvl, this`state, newPbas
      ensures View() == AllocAt(old(View()), l)
    {
      ghost var j := View();
      allocLvl := l;
      if oldGens[l] == gen {
        newPbas[l] := oldPbas[l];
        state := AllocCompleted;
        assert newPbas[..] == j.newPbas[l := j.oldPbas[l]];
      } else {
        state := AllocPending;
      }
    }

    method CheckHash() returns (mismatch: bool)
      requires Valid() && Shaped(View()) && 1 <= lvl <= maxLevel
      ensures mismatch == HashMismatch(codec, View())
    {
      var h := if lvl > 1 then codec.hash(codec.enc1(t1[lvl])) else codec.hash(codec.enc2(t2));
      if lvl == maxLevel {
        return h != root.hash;
      }
      var i := T1ChildIdx(vba, lvl + 1, edges);
      mismatch := h != t1[lvl + 1][i].hash;
    }

    /** An inner node was read: go on with its child, or mount a branch here. */
    method InnerNodeRead()
      requires Valid() && Shaped(View()) && 1 < lvl <= maxLevel && !HashMismatch(codec, View())
      modifies this, t1, oldPbas, oldGens, newPbas
      ensures View() == ReadCompleted(codec, old(View()))
    {
      ghost var j := View();
      var parentLvl := lvl;
      var i := T1ChildIdx(vba, parentLvl, edges);
      var child := t1[parentLvl][i];
      if child.pba != 0 {
        lvl := parentLvl - 1;
        oldPbas[lvl] := child.pba;
        oldGens[lvl] := child.gen;
        block := child.pba;
        state := ReadInnerPending;
        assert oldPbas[..] == j.oldPbas[lvl := child.pba] && oldGens[..] == j.oldGens[lvl := child.gen];
      } else {
        AddBranchAt(parentLvl, i);
        AllocLevel(parentLvl);
      }
    }

    /** The lowest node was read: fill its unused entries. */
    method LowestNodeRead()
      requires Valid() && Shaped(View()) && lvl == 1 && !HashMismatch(codec, View())
      modifies this, t1, newPbas
      ensures View() == ReadCompleted(codec, old(View()))
    {
      var i := T2ChildIdx(vba, edges);
      if t2[i].pba != 0 {
        state := Raised;
      } else {
        AddBranchAt(1, i);
        allocLvl := 1;
        state := AllocPending;
      }
    }

    method ExecuteReadCompleted()
      requires Valid() && Shaped(View()) && 1 <= lvl <= maxLevel
      modifies this, t1, oldPbas, oldGens, newPbas
      ensures View() == ReadCompleted(codec, old(View()))
    {
      var mismatch := CheckHash();
      if mismatch {
        state := Raised;
      } else if lvl > 1 {
        InnerNodeRead();
      } else {
        LowestNodeRead();
      }
    }

    method ExecuteAllocCompleted()
      requires Valid() && Shaped(View())
      modifies this, newPbas
      ensures View() == NextAlloc(old(View()))
    {
      if allocLvl < maxLevel {
        AllocLevel(allocLvl + 1);
      } else {
        SetArgsForWriteBack(lvl);
      }
    }

    method ExecuteWriteInnerCompleted()
      requires Valid() && Shaped(View()) && 1 <= lvl < maxLevel
      modifies this, t1
      ensures View() == UpdateParent(codec, old(View()))
    {
      ghost var j := View();
      var parentLvl := lvl + 1;
      var i := T1ChildIdx(vba, parentLvl, edges);
      var data := BlkData();
      t1[parentLvl] := t1[parentLvl][i := T1(newPbas[lvl], gen, codec.hash(data))];
      assert t1[..] == j.t1[parentLvl := t1[parentLvl]];
      SetArgsForWriteBack(parentLvl);
      lvl := lvl + 1;
    }

    method ExecuteWriteRootCompleted()
      requires Valid() && Shaped(View())
      modifies this
      ensures View() == Finish(codec, old(View()))
    {
      var data := BlkData();
      root := T1(newPbas[lvl], gen, codec.hash(data));
      if nrLeaves + newLeaves > MAX_LEAVES {
        state := Raised;
      } else {
        nrLeaves := nrLeaves + newLeaves;
        state := Completed;
      }
    }

    method Execute() returns (progress: bool)
      requires Valid() && CanExecute(View())
      modifies this, t1, oldPbas, oldGens, newPbas
      ensures View() == FtSpec.Execute(codec, old(View()))
      ensures progress == (state != Raised && IsExecuted(old(state)))
    {
      progress := IsExecuted(state);
      if state.Submitted? {
        ExecuteSubmitted();
      } else if state.ReadRootCompleted? || state.ReadInnerCompleted? {
        ExecuteReadCompleted();
      } else if state.AllocCompleted? {
        ExecuteAllocCompleted();
      } else if state.WriteInnerCompleted? {
        ExecuteWriteInnerCompleted();
      } else if state.WriteRootCompleted? {
        ExecuteWriteRootCompleted();
      }
      progress := progress && state != Raised;
    }

    // ------------------------------------------------------------- module interface

    /** Returns false where the source raises Program_Error. */
    method SubmitPrimitive(currGen: U64, ftRoot: T1, ftMaxLevel: nat, ftLeaves: nat, degree: nat, firstPba: U64, count: U64)
      returns (ok: bool)
      modifies this`state, this`gen, this`root, this`maxLevel, this`nrLeaves, this`edges, this`pba, this`nrPbas
      ensures ok == (old(state) == Idle)
      ensures ok ==> View() == FtSpec.Submit(old(View()), currGen, ftRoot, ftMaxLevel, ftLeaves, degree, firstPba, count)
      ensures ok ==> state == Submitted && gen == currGen && root == ftRoot && maxLevel == ftMaxLevel
      ensures ok ==> nrLeaves == ftLeaves && edges == degree && pba == firstPba && nrPbas == count
      ensures !ok ==> View() == old(View())
    {
      ok := state == Idle;
      if ok {
        SetTree(currGen, ftRoot, ftMaxLevel, ftLeaves, degree);
        pba, nrPbas, state := firstPba, count, Submitted;
      }
    }

    method SetTree(currGen: U64, ftRoot: T1, ftMaxLevel: nat, ftLeaves: nat, degree: nat)
      modifies this`gen, this`root, this`maxLevel, this`nrLeaves, this`edges
      ensures View() == old(View()).(gen := currGen, root := ftRoot, maxLevel := ftMaxLevel, nrLeaves := ftLeaves, edges := degree)
    {
      gen, root, maxLevel := currGen, ftRoot, ftMaxLevel;
      nrLeaves, edges := ftLeaves, degree;
    }

    method BlkData() returns (data: Block)
      requires Valid() && Shaped(View())
      ensures data == BlockOf(codec, View())
    {
      data := if lvl > 1 then codec.enc1(t1[lvl]) else codec.enc2(t2);
    }

    /** The block to write, from which the node of the current level reads back.  Returns
        false where the source raises: no write is pending, or there is no level. */
    method PeekGeneratedBlkData() returns (ok: bool, data: Block)
      requires Valid() && Shaped(View())
      ensures ok == (Writing(state) && lvl > 0)
      ensures ok ==> data == BlockOf(codec, View())
      ensures ok ==> if lvl > 1 then codec.dec1(data) == t1[lvl] else codec.dec2(data) == t2
    {
      ok := Writing(state) && lvl > 0;
      data := BlkData();
    }

    method DropGeneratedPrimitive() returns (ok: bool)
      modifies this
      ensures ok == Pending(old(state))
      ensures View() == if ok then old(View()).(state := Drop(old(state))) else old(View())
    {
      match state {
        case ReadRootPending => state := ReadRootInProgress;
        case ReadInnerPending => state := ReadInnerInProgress;
        case WriteInnerPending => state := WriteInnerInProgress;
        case WriteRootPending => state := WriteRootInProgress;
        case AllocPending => state := AllocInProgress;
        case _ => return false;
      }
      ok := true;
    }

    method MarkCompletedBlkData(data: Block) returns (ok: bool)
      requires Valid() && Shaped(View())
      modifies this, t1
      ensures ok == (old(state).ReadRootInProgress? || old(state).ReadInnerInProgress?)
      ensures View() == if ok then MarkRead(codec, old(View()), data) else old(View())
    {
      ghost var j := View();
      ok := true;
      if state.ReadRootInProgress? {
        state := ReadRootCompleted;
        t1[lvl] := codec.dec1(data);
        assert t1[..] == j.t1[lvl := codec.dec1(data)];
      } else if state.ReadInnerInProgress? {
        state := ReadInnerCompleted;
        if lvl > 1 {
          t1[lvl] := codec.dec1(data);
          assert t1[..] == j.t1[lvl := codec.dec1(data)];
        } else if lvl == 1 {
          t2 := codec.dec2(data);
        } else {
          state := Raised;
        }
      } else {
        ok := false;
      }
    }

    method MarkCompleted() returns (ok: bool)
      modifies this
      ensures ok == (old(state).WriteInnerInProgress? || old(state).WriteRootInProgress?)
      ensures View() == if ok then FtSpec.MarkWritten(old(View())) else old(View())
    {
      ok := true;
      if state.WriteInnerInProgress? {
        state := WriteInnerCompleted;
      } else if state.WriteRootInProgress? {
        state := WriteRootCompleted;
      } else {
        ok := false;
      }
    }

    method MarkCompletedNewPba(p: U64) returns (ok: bool)
      requires Valid() && Shaped(View())
      modifies this, newPbas
      ensures ok == old(state).AllocInProgress?
      ensures View() == if ok then MarkAllocated(old(View()), p) else old(View())
    {
      ok := state.AllocInProgress?;
      if ok {
        ghost var j := View();
        state := AllocCompleted;
        newPbas[allocLvl] := p;
        assert newPbas[..] == j.newPbas[allocLvl := p];
      }
    }

    method DropCompletedPrimitive() returns (ok: bool)
      modifies this
      ensures ok == old(state).Completed?
      ensures View() == if ok then old(View()).(state := Idle) else old(View())
    {
      ok := state.Completed?;
      if ok {
        state := Idle;
      }
    }
  }
}
