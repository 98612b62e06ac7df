/** What building a new branch does to the blocks in memory and to the contingent. */
module FtBuild {
  import opened NodeCodec
  import opened HashTree
  import opened FreeTree
  import opened FtSpec
  import MT = MetaTreeSpec

  /** A contingent never wraps around and does not hold the address 0. */
  predicate Contingent(first: nat, count: nat)
  {
    count == 0 || (first > 0 && first + count <= U64_LIMIT)
  }

  /** The next address of a contingent; it wraps around only behind the last one. */
  predicate PbaAfter(next: U64, first: nat)
  {
    next == if first == U64_LIMIT then 0 else first
  }

  /** How often address p is among `count` addresses from `first` on. */
  function InRange(p: U64, first: nat, count: nat): nat
  {
    if first <= p < first + count then 1 else 0
  }

  /** How often p is among the addresses of levels lo .. hi - 1. */
  function AtLevels(pbas: seq<U64>, lo: nat, hi: nat, p: U64): nat
    requires hi <= |pbas|
    decreases hi
  {
    if hi <= lo then 0 else AtLevels(pbas, lo, hi - 1, p) + (if pbas[hi - 1] == p then 1 else 0)
  }

  lemma {:induction false} AtLevelsSame(a: seq<U64>, b: seq<U64>, lo: nat, hi: nat, p: U64)
    requires hi <= |a| && hi <= |b| && forall i | lo <= i < hi :: a[i] == b[i]
    ensures AtLevels(a, lo, hi, p) == AtLevels(b, lo, hi, p)
    decreases hi
  {
    if lo < hi {
      AtLevelsSame(a, b, lo, hi - 1, p);
    }
  }

  /** The leaf entries made of `count` addresses from `first` on. */
  function FreshLeaves(first: nat, count: nat): (s: seq<T2>)
    ensures |s| == count
    decreases count
  {
    if count == 0 then [] else [NewLeaf(first % U64_LIMIT)] + FreshLeaves(first + 1, count - 1)
  }

  function Min(a: nat, b: nat): nat { if a <= b then a else b }

  // ------------------------------------------------------------ filling leaf entries

  ghost predicate FilledShape(before: T2Block, after: T2Block, from: nat, k: nat, edges: nat)
    requires ValidDegree(edges)
  {
    && from + k <= edges
    && (forall i | 0 <= i < from :: after[i] == before[i])
    && (forall i | from <= i < from + k :: after[i] != T2_INVALID && after[i].pba != 0)
    && (forall i | from + k <= i < edges :: after[i] == T2_INVALID)
  }

  ghost predicate FilledUses(before: T2Block, after: T2Block, first: nat, k: nat, edges: nat)
    requires ValidDegree(edges)
  {
    forall p :: EntriesUses(after[..edges], Every, p) == EntriesUses(before[..edges], Every, p) + InRange(p, first, k)
  }

  /** Entries from `from` on take k addresses, nothing else changes. */
  ghost predicate Filled(before: T2Block, after: T2Block, from: nat, k: nat, first: nat, edges: nat)
    requires ValidDegree(edges)
  {
    && FilledShape(before, after, from, k, edges)
    && UsedEntries(after[..edges]) == UsedEntries(before[..edges]) + FreshLeaves(first, k)
    && FilledUses(before, after, first, k, edges)
  }

  ghost predicate Unused(ls: T2Block, from: nat, edges: nat)
    requires ValidDegree(edges)
  {
    from <= edges && forall i | from <= i < edges :: ls[i] == T2_INVALID
  }

  lemma FilledNone(ls: T2Block, from: nat, first: nat, edges: nat)
    requires ValidDegree(edges) && Unused(ls, from, edges)
    ensures Filled(ls, ls, from, 0, first, edges)
  {
    assert UsedEntries(ls[..edges]) + [] == UsedEntries(ls[..edges]);
  }

  lemma FilledOne(ls: T2Block, from: nat, first: U64, edges: nat)
    requires ValidDegree(edges) && Unused(ls, from, edges) && from < edges && first > 0
    ensures var ms := ls[from := NewLeaf(first)];
            Unused(ms, from + 1, edges) && Filled(ls, ms, from, 1, first, edges)
  {
    var ms := ls[from := NewLeaf(first)];
    assert ms[..edges] == ls[..edges][from := NewLeaf(first)];
    UsedAppend(ls[..edges], from, NewLeaf(first));
    assert FreshLeaves(first, 1) == [NewLeaf(first)] + FreshLeaves(first + 1, 0);
    forall p ensures EntriesUses(ms[..edges], Every, p) == EntriesUses(ls[..edges], Every, p) + InRange(p, first, 1) {
      EntriesUsesUpdate(ls[..edges], from, NewLeaf(first), Every, p);
    }
  }

  lemma FreshOne(first: nat, k: nat)
    ensures FreshLeaves(first, k + 1) == FreshLeaves(first, 1) + FreshLeaves(first + 1, k)
  {
    var head := [NewLeaf(first % U64_LIMIT)];
    calc {
      FreshLeaves(first, k + 1);
      head + FreshLeaves(first + 1, k);
      (head + FreshLeaves(first + 1, 0)) + FreshLeaves(first + 1, k);
    }
  }

  lemma FilledShapeMore(a: T2Block, b: T2Block, d: T2Block, from: nat, k: nat, edges: nat)
    requires ValidDegree(edges) && FilledShape(a, b, from, 1, edges) && FilledShape(b, d, from + 1, k, edges)
    ensures FilledShape(a, d, from, k + 1, edges)
  {
    forall i | 0 <= i < from ensures d[i] == a[i] {
      assert d[i] == b[i];
    }
    assert d[from] == b[from];
  }

  lemma FilledMore(a: T2Block, b: T2Block, d: T2Block, from: nat, k: nat, first: nat, edges: nat)
    requires ValidDegree(edges)
    requires Filled(a, b, from, 1, first, edges) && Filled(b, d, from + 1, k, first + 1, edges)
    ensures Filled(a, d, from, k + 1, first, edges)
  {
    FilledShapeMore(a, b, d, from, k, edges);
    FreshOne(first, k);
    SeqAssoc(UsedEntries(a[..edges]), FreshLeaves(first, 1), FreshLeaves(first + 1, k));
  }

  lemma SeqAssoc(a: seq<T2>, b: seq<T2>, c: seq<T2>)
    ensures (a + b) + c == a + (b + c)
  {
  }

  lemma {:induction false} FillLeavesTakes(b: Branch, i: nat, edges: nat)
    requires ValidDegree(edges) && i <= edges && Contingent(b.pba, b.nrPbas)
    ensures var r := FillLeaves(b, i, edges);
            var k := Min(b.nrPbas, edges - i);
            r.leaves == b.leaves + k && r.nrPbas == b.nrPbas - k && PbaAfter(r.pba, b.pba + k)
    decreases edges - i
  {
    if i < edges && b.nrPbas > 0 {
      FillLeavesTakes(TakeLeaf(b, i), i + 1, edges);
    }
  }

  lemma FillNext(b: Branch, i: nat, edges: nat)
    requires ValidDegree(edges) && Unused(b.t2, i, edges) && Contingent(b.pba, b.nrPbas) && i < edges && b.nrPbas > 0
    ensures var b1 := TakeLeaf(b, i);
            && Filled(b.t2, b1.t2, i, 1, b.pba, edges) && Unused(b1.t2, i + 1, edges)
            && b1.nrPbas == b.nrPbas - 1 && (b.nrPbas > 1 ==> b1.pba == b.pba + 1 && Contingent(b1.pba, b1.nrPbas))
            && FillLeaves(b, i, edges) == FillLeaves(b1, i + 1, edges)
            && (b.nrPbas == 1 ==> FillLeaves(b, i, edges).t2 == b1.t2)
  {
    FilledOne(b.t2, i, b.pba, edges);
  }

  /** The first of the entries, then the rest. */
  lemma FillMore(b: Branch, i: nat, k: nat, edges: nat)
    requires ValidDegree(edges) && Unused(b.t2, i, edges) && Contingent(b.pba, b.nrPbas) && i < edges && b.nrPbas > 0
    requires Filled(TakeLeaf(b, i).t2, FillLeaves(TakeLeaf(b, i), i + 1, edges).t2, i + 1, k, b.pba + 1, edges)
    ensures Filled(b.t2, FillLeaves(b, i, edges).t2, i, k + 1, b.pba, edges)
  {
    FillNext(b, i, edges);
    FilledMore(b.t2, TakeLeaf(b, i).t2, FillLeaves(b, i, edges).t2, i, k, b.pba, edges);
  }

  lemma FillLast(b: Branch, i: nat, edges: nat)
    requires ValidDegree(edges) && Unused(b.t2, i, edges) && Contingent(b.pba, b.nrPbas) && i < edges && b.nrPbas == 1
    ensures Filled(b.t2, FillLeaves(b, i, edges).t2, i, 1, b.pba, edges)
  {
    FillNext(b, i, edges);
  }

  lemma TakeLeafReady(b: Branch, i: nat, edges: nat)
    requires ValidDegree(edges) && Unused(b.t2, i, edges) && Contingent(b.pba, b.nrPbas) && i < edges && b.nrPbas > 1
    ensures var b1 := TakeLeaf(b, i);
            b1.pba == b.pba + 1 && b1.nrPbas == b.nrPbas - 1 && Contingent(b1.pba, b1.nrPbas) && Unused(b1.t2, i + 1, edges)
  {
  }

  lemma {:induction false} FillLeavesFills(b: Branch, i: nat, edges: nat)
    requires ValidDegree(edges) && Unused(b.t2, i, edges) && Contingent(b.pba, b.nrPbas)
    ensures Filled(b.t2, FillLeaves(b, i, edges).t2, i, Min(b.nrPbas, edges - i), b.pba, edges)
    decreases edges - i
  {
    if i >= edges || b.nrPbas == 0 {
      FilledNone(b.t2, i, b.pba, edges);
    } else {
      if b.nrPbas > 1 {
        var b1 := TakeLeaf(b, i);
        TakeLeafReady(b, i, edges);
        FillLeavesFills(b1, i + 1, edges);
        FillMore(b, i, Min(b1.nrPbas, edges - (i + 1)), edges);
      } else {
        FillLast(b, i, edges);
      }
    }
  }

  lemma {:induction false} FillLeavesKeeps(b: Branch, i: nat, edges: nat, x: nat)
    requires ValidDegree(edges) && x < i
    ensures x < NODES_PER_BLOCK ==> FillLeaves(b, i, edges).t2[x] == b.t2[x]
    decreases edges - i
  {
    if i < edges && b.nrPbas > 0 {
      FillLeavesKeeps(TakeLeaf(b, i), i + 1, edges, x);
    }
  }

  /** Entry x got the address that is x - i behind the first one and is otherwise an
      entry that was never allocated, freed or reserved, without address and key. */
  lemma {:induction false} FilledEntry(b: Branch, i: nat, edges: nat, x: nat)
    requires ValidDegree(edges) && Contingent(b.pba, b.nrPbas) && i <= x < edges && x - i < b.nrPbas
    ensures var e := FillLeaves(b, i, edges).t2[x];
            && e.pba == b.pba + (x - i)
            && e.allocGen == 0 && e.freeGen == 0 && !e.reserved && e.lastVba == 0x4000_0000 && e.lastKeyId == 0
    decreases edges - i
  {
    if x == i {
      FillLeavesKeeps(TakeLeaf(b, i), i + 1, edges, i);
    } else {
      FilledEntry(TakeLeaf(b, i), i + 1, edges, x);
    }
  }

  // --------------------------------------------------------- levels of the new branch

  ghost predicate SameBut(a: T1Block, b: T1Block, d: nat)
  {
    forall i | 0 <= i < NODES_PER_BLOCK && i != d :: a[i] == b[i]
  }

  /** Levels above l and below the stop are as before, the levels between changed one
      entry, addresses went to the levels below l. */
  ghost predicate BranchLevels(b: Branch, r: Branch, l: nat, child: nat)
    requires BranchShaped(b) && BranchShaped(r) && 1 <= l < LEVELS
  {
    && 1 <= r.stopped <= l
    && (forall x | 0 <= x <= r.stopped :: r.t1[x] == b.t1[x])
    && (forall x | r.stopped < x <= l :: SameBut(r.t1[x], b.t1[x], if x == l then child else 0))
    && (forall x | l < x < LEVELS :: r.t1[x] == b.t1[x])
    && (forall x | l <= x < LEVELS :: r.newPbas[x] == b.newPbas[x])
    && (forall x | r.stopped <= x < l :: b.pba <= r.newPbas[x] < b.pba + (l - r.stopped))
  }

  /** The contingent shrinks by one address for each new node and each new leaf. */
  ghost predicate BranchCounts(b: Branch, r: Branch, l: nat)
  {
    && 1 <= r.stopped <= l && b.leaves <= r.leaves
    && r.nrPbas + (l - r.stopped) + (r.leaves - b.leaves) == b.nrPbas
    && PbaAfter(r.pba, b.pba + (l - r.stopped) + (r.leaves - b.leaves))
    && (r.stopped > 1 ==> r.leaves == b.leaves && r.nrPbas == 0)
  }

  /** Leaf entries took the addresses behind those of the levels, until none was left
      or the node was full.  */
  ghost predicate BranchLeaves(b: Branch, r: Branch, l: nat, child: nat, edges: nat)
    requires ValidDegree(edges) && BranchCounts(b, r, l)
  {
    LeavesTaken(b.t2, r, if l == 1 then child else 0, r.leaves - b.leaves, b.pba + (l - 1), edges)
  }

  ghost predicate LeavesTaken(t2: T2Block, r: Branch, from: nat, k: nat, first: nat, edges: nat)
    requires ValidDegree(edges)
  {
    if r.stopped > 1 then r.t2 == t2
    else Filled(t2, r.t2, from, k, first, edges) && (r.nrPbas > 0 ==> from + k == edges)
  }

  ghost predicate BranchNodes(b: Branch, r: Branch, l: nat)
    requires BranchShaped(r) && BranchCounts(b, r, l) && l < LEVELS
  {
    forall p :: AtLevels(r.newPbas, r.stopped, l, p) == InRange(p, b.pba, l - r.stopped)
  }

  /** Every address taken from the contingent went to a level or to a leaf entry. */
  ghost predicate BranchConserves(b: Branch, r: Branch, l: nat, child: nat, edges: nat)
    requires BranchShaped(b) && BranchShaped(r) && 1 <= l < LEVELS && ValidDegree(edges)
  {
    BranchCounts(b, r, l) && BranchLeaves(b, r, l, child, edges) && BranchNodes(b, r, l)
  }

  lemma AddChildLevels(b: Branch, b1: Branch, r: Branch, l: nat, child: nat, gen: U64)
    requires BranchShaped(b) && BranchShaped(r) && 1 < l < LEVELS && child < NODES_PER_BLOCK && b.nrPbas > 0
    requires Contingent(b.pba, b.nrPbas) && b.nrPbas > 1
    requires b1 == AddChild(b.(stopped := l), l, child, gen) && BranchLevels(b1, r, l - 1, 0)
    ensures BranchLevels(b, r, l, child)
  {
  }

  lemma AddChildNodes(b: Branch, b1: Branch, r: Branch, l: nat)
    requires BranchShaped(r) && 1 < l < LEVELS && r.newPbas[l - 1] == b.pba && b1.pba == b.pba + 1
    requires BranchCounts(b, r, l) && BranchCounts(b1, r, l - 1) && BranchNodes(b1, r, l - 1)
    ensures BranchNodes(b, r, l)
  {
    forall p ensures AtLevels(r.newPbas, r.stopped, l, p) == InRange(p, b.pba, l - r.stopped) {
      assert AtLevels(r.newPbas, r.stopped, l - 1, p) == InRange(p, b1.pba, l - 1 - r.stopped);
    }
  }

  lemma SameLeavesTaken(t2: T2Block, r: Branch, k: nat, first: nat, first': nat, edges: nat)
    requires ValidDegree(edges) && first == first' && LeavesTaken(t2, r, 0, k, first, edges)
    ensures LeavesTaken(t2, r, 0, k, first', edges)
  {
  }

  lemma AddChildLeaves(b: Branch, b1: Branch, r: Branch, l: nat, child: nat, edges: nat)
    requires ValidDegree(edges) && 1 < l && b1.pba == b.pba + 1 && b1.t2 == b.t2 && b1.leaves == b.leaves
    requires BranchCounts(b, r, l) && BranchCounts(b1, r, l - 1) && BranchLeaves(b1, r, l - 1, 0, edges)
    ensures BranchLeaves(b, r, l, child, edges)
  {
    SameLeavesTaken(b.t2, r, r.leaves - b.leaves, b1.pba + (l - 2), b.pba + (l - 1), edges);
  }

  lemma AddChildCounts(b: Branch, b1: Branch, r: Branch, l: nat)
    requires 1 < l && b1.pba == b.pba + 1 && b1.leaves == b.leaves && b1.nrPbas == b.nrPbas - 1
    requires BranchCounts(b1, r, l - 1)
    ensures BranchCounts(b, r, l)
  {
  }

  lemma AddChildEffect(b: Branch, l: nat, child: nat, gen: U64)
    requires BranchShaped(b) && 1 < l < LEVELS && child < NODES_PER_BLOCK && b.nrPbas > 1 && Contingent(b.pba, b.nrPbas)
    ensures var b1 := AddChild(b.(stopped := l), l, child, gen);
            && BranchShaped(b1) && b1.pba == b.pba + 1 && b1.nrPbas == b.nrPbas - 1 && Contingent(b1.pba, b1.nrPbas)
            && b1.t2 == b.t2 && b1.leaves == b.leaves && b1.newPbas[l - 1] == b.pba
  {
  }

  lemma AddChildConserves(b: Branch, b1: Branch, r: Branch, l: nat, child: nat, edges: nat)
    requires BranchShaped(b) && BranchShaped(r) && BranchShaped(b1) && 1 < l < LEVELS && ValidDegree(edges)
    requires b1.pba == b.pba + 1 && b1.nrPbas == b.nrPbas - 1 && b1.t2 == b.t2 && b1.leaves == b.leaves
    requires b1.newPbas[l - 1] == b.pba == r.newPbas[l - 1]
    requires BranchConserves(b1, r, l - 1, 0, edges)
    ensures BranchConserves(b, r, l, child, edges)
  {
    AddChildCounts(b, b1, r, l);
    AddChildNodes(b, b1, r, l);
    AddChildLeaves(b, b1, r, l, child, edges);
  }

  /** The last address went to level l - 1, where building stops. */
  lemma LastChild(b: Branch, l: nat, child: nat, edges: nat, gen: U64)
    requires BranchShaped(b) && 1 < l < LEVELS && child < NODES_PER_BLOCK && b.nrPbas == 1 && ValidDegree(edges)
    requires Contingent(b.pba, b.nrPbas) && Unused(b.t2, 0, edges)
    ensures var r := BuildDown(b, l, child, edges, gen);
            BranchLevels(b, r, l, child) && BranchConserves(b, r, l, child, edges)
  {
    var r := BuildDown(b, l, child, edges, gen);
    var b1 := AddChild(b.(stopped := l), l, child, gen);
    if l == 2 {
      assert r == FillLeaves(b1.(stopped := 1), 0, edges);
      FilledNone(b.t2, 0, b.pba + 1, edges);
    }
    assert r == b1.(stopped := l - 1);
    forall p ensures AtLevels(r.newPbas, l - 1, l, p) == InRange(p, b.pba, 1) {
      assert AtLevels(r.newPbas, l - 1, l - 1, p) == 0;
    }
  }

  lemma {:induction false} BuildDownBuilds(b: Branch, l: nat, child: nat, edges: nat, gen: U64)
    requires BranchShaped(b) && 1 <= l < LEVELS && child < edges && ValidDegree(edges)
    requires Contingent(b.pba, b.nrPbas) && b.nrPbas > 0
    requires Unused(b.t2, if l == 1 then child else 0, edges)
    ensures var r := BuildDown(b, l, child, edges, gen);
            BranchLevels(b, r, l, child) && BranchConserves(b, r, l, child, edges)
    decreases l
  {
    var r := BuildDown(b, l, child, edges, gen);
    if l == 1 {
      FillLeavesFills(b.(stopped := 1), child, edges);
      FillLeavesTakes(b.(stopped := 1), child, edges);
    } else if b.nrPbas == 1 {
      LastChild(b, l, child, edges, gen);
    } else {
      var b1 := AddChild(b.(stopped := l), l, child, gen);
      AddChildEffect(b, l, child, gen);
      BuildDownBuilds(b1, l - 1, 0, edges, gen);
      AddChildLevels(b, b1, r, l, child, gen);
      assert r.newPbas[l - 1] == b1.newPbas[l - 1];
      AddChildConserves(b, b1, r, l, child, edges);
    }
  }

  /** Adding a branch below the mount point, with a possibly empty contingent. */
  lemma AddBranchBuilds(b: Branch, mount: nat, child: nat, edges: nat, gen: U64)
    requires BranchShaped(b) && 1 <= mount < LEVELS && child < edges && ValidDegree(edges)
    requires Contingent(b.pba, b.nrPbas)
    requires mount == 1 ==> Unused(b.t2, child, edges)
    ensures var r := AddBranch(b, mount, child, edges, gen);
            var b1 := ResetBelow(b, mount).(stopped := mount, leaves := 0);
            && BranchLevels(b1, r, mount, child) && BranchConserves(b1, r, mount, child, edges)
            && (b.nrPbas > 0 ==> r.nrPbas < b.nrPbas)
  {
    var b1 := ResetBelow(b, mount).(stopped := mount, leaves := 0);
    if b.nrPbas > 0 {
      BuildDownBuilds(b1, mount, child, edges, gen);
      var r := AddBranch(b, mount, child, edges, gen);
      if r.stopped == mount && mount == 1 {
        FillLeavesTakes(b1.(stopped := 1), child, edges);
      }
    } else if mount == 1 {
      FilledNone(b.t2, child, b.pba, edges);
    }
  }
}
