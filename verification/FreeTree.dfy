/** The free tree as a sequence of leaves. */
module FreeTree {
  import opened NodeCodec
  import opened HashTree
  import opened TreeIndex

  // ------------------------------------------------------------ leaves in order

  function UsedEntries(ls: seq<T2>): seq<T2>
  {
    if ls == [] then [] else (if ls[0] == T2_INVALID then [] else [ls[0]]) + UsedEntries(ls[1..])
  }

  /** The used leaf entries of a tree, from left to right. */
  function Leaves(t: Tree, edges: nat): seq<T2>
    requires ValidDegree(edges)
    decreases t, 1
  {
    match t
    case Nil => []
    case Leafs(_, ls) => UsedEntries(ls[..edges])
    case Inner(_, _, kids) => LeavesOf(kids, edges)
  }

  function LeavesOf(ts: seq<Tree>, edges: nat): seq<T2>
    requires ValidDegree(edges)
    decreases ts, 0
  {
    if ts == [] then [] else Leaves(ts[0], edges) + LeavesOf(ts[1..], edges)
  }

  // ------------------------------------------------------- capacities and positions

  /** d * c, without a product of variables. */
  function Times(d: nat, c: nat): nat
  {
    if d == 0 then 0 else c + Times(d - 1, c)
  }

  /** The number of leaves below a child slot of the given level. */
  function Capacity(edges: nat, level: nat): (c: nat)
    requires edges > 0
    ensures c > 0
  {
    if level == 0 then 1 else Times(edges - 1, Capacity(edges, level - 1)) + Capacity(edges, level - 1)
  }

  /** The number of leaf places before the one that a path leads to, below `level`. */
  function Position(path: seq<nat>, level: nat, edges: nat): nat
    requires level <= |path| && edges > 0
  {
    if level == 0 then 0
    else Times(path[level - 1], Capacity(edges, level - 1)) + Position(path, level - 1, edges)
  }

  /** The leaf entry that a path of child indices leads to. */
  function LeafAt(t: Tree, level: nat, path: seq<nat>): T2
    requires 0 < level <= |path|
    decreases level
  {
    if t.Leafs? && path[0] < NODES_PER_BLOCK then t.leaves[path[0]]
    else if t.Inner? && level > 1 && path[level - 1] < |t.kids| then LeafAt(t.kids[path[level - 1]], level - 1, path)
    else T2_INVALID
  }

  // ------------------------------------------------------------ left-packed trees

  /** The n leaves of the tree occupy its first n places. */
  ghost predicate LeftPacked(t: Tree, level: nat, n: nat, edges: nat)
    requires ValidDegree(edges)
    decreases level, 0
  {
    match t
    case Nil => false
    case Leafs(_, ls) =>
      && level == 1 && n <= edges
      && (forall i | 0 <= i < n :: ls[i] != T2_INVALID)
      && (forall i | n <= i < edges :: ls[i] == T2_INVALID)
    case Inner(_, _, kids) =>
      level > 1 && |kids| == edges && KidsPacked(kids, level - 1, n, edges)
  }

  /** Children are filled one after the other; the first one without leaves may be
      missing or an empty spine, all behind it are missing.  */
  ghost predicate KidsPacked(kids: seq<Tree>, level: nat, n: nat, edges: nat)
    requires ValidDegree(edges)
    decreases level, 1, kids
  {
    var cap := Capacity(edges, level);
    if kids == [] then n == 0
    else if n >= cap then LeftPacked(kids[0], level, cap, edges) && KidsPacked(kids[1..], level, n - cap, edges)
    else ((kids[0].Nil? && n == 0) || LeftPacked(kids[0], level, n, edges)) && forall i | 1 <= i < |kids| :: kids[i].Nil?
  }

  // ------------------------------------------------------- counting and indexing

  lemma {:induction false} UsedPrefix(ls: seq<T2>, n: nat)
    requires n <= |ls|
    requires forall i | 0 <= i < n :: ls[i] != T2_INVALID
    requires forall i | n <= i < |ls| :: ls[i] == T2_INVALID
    ensures UsedEntries(ls) == ls[..n]
  {
    if ls != [] {
      UsedPrefix(ls[1..], if n == 0 then 0 else n - 1);
      assert n > 0 ==> ls[..n] == [ls[0]] + ls[1..][..n - 1];
    }
  }

  lemma {:induction false} LeavesOfNone(ts: seq<Tree>, edges: nat)
    requires ValidDegree(edges) && forall i | 0 <= i < |ts| :: ts[i].Nil?
    ensures LeavesOf(ts, edges) == []
  {
    if ts != [] {
      LeavesOfNone(ts[1..], edges);
    }
  }

  lemma {:induction false} TimesOne(d: nat)
    ensures Times(d, 1) == d
  {
    if d > 0 {
      TimesOne(d - 1);
    }
  }

  /** A left-packed tree has as many leaves as it claims, at most its capacity. */
  lemma {:induction false} PackedCount(t: Tree, level: nat, n: nat, edges: nat)
    requires ValidDegree(edges) && LeftPacked(t, level, n, edges)
    ensures |Leaves(t, edges)| == n <= Capacity(edges, level)
    decreases level, 0
  {
    if t.Leafs? {
      UsedPrefix(t.leaves[..edges], n);
      TimesOne(edges - 1);
      assert Capacity(edges, 0) == 1;
    } else {
      KidsCount(t.kids, level - 1, n, edges);
      assert Times(edges, Capacity(edges, level - 1)) == Capacity(edges, level);
    }
  }

  lemma {:induction false} KidsCount(kids: seq<Tree>, level: nat, n: nat, edges: nat)
    requires ValidDegree(edges) && KidsPacked(kids, level, n, edges)
    ensures |LeavesOf(kids, edges)| == n <= Times(|kids|, Capacity(edges, level))
    decreases level, 1, kids
  {
    var cap := Capacity(edges, level);
    if kids == [] {
    } else if n >= cap {
      PackedCount(kids[0], level, cap, edges);
      KidsCount(kids[1..], level, n - cap, edges);
    } else {
      if !kids[0].Nil? {
        PackedCount(kids[0], level, n, edges);
      }
      LeavesOfNone(kids[1..], edges);
    }
  }

  /** Leaf i * capacity + w below a node is leaf w below child i. */
  lemma {:induction false} KidAt(kids: seq<Tree>, level: nat, n: nat, i: nat, w: nat, edges: nat) returns (c: nat)
    requires ValidDegree(edges) && KidsPacked(kids, level, n, edges)
    requires w < Capacity(edges, level) && Times(i, Capacity(edges, level)) + w < n
    ensures w < c && i < |kids| && LeftPacked(kids[i], level, c, edges)
    ensures |LeavesOf(kids, edges)| == n && |Leaves(kids[i], edges)| == c
    ensures LeavesOf(kids, edges)[Times(i, Capacity(edges, level)) + w] == Leaves(kids[i], edges)[w]
    decreases i
  {
    var cap := Capacity(edges, level);
    KidsCount(kids, level, n, edges);
    c := if n >= cap then cap else n;
    if i == 0 {
      PackedCount(kids[0], level, c, edges);
    } else {
      PackedCount(kids[0], level, cap, edges);
      c := KidAt(kids[1..], level, n - cap, i - 1, w, edges);
    }
  }

  lemma LeafEntryAt(t: Tree, n: nat, path: seq<nat>, edges: nat)
    requires ValidDegree(edges) && 0 < |path| && path[0] < edges
    requires t.Leafs? && LeftPacked(t, 1, n, edges) && Position(path, 1, edges) < n
    ensures |Leaves(t, edges)| == n && Position(path, 1, edges) == path[0]
    ensures LeafAt(t, 1, path) == Leaves(t, edges)[path[0]]
  {
    UsedPrefix(t.leaves[..edges], n);
    TimesOne(path[0]);
    assert Capacity(edges, 0) == 1 && Position(path, 0, edges) == 0;
  }

  /** A path within the tree leads to the leaf whose number is the path's position. */
  lemma {:induction false} LeafAtPosition(t: Tree, level: nat, n: nat, path: seq<nat>, edges: nat)
    requires ValidDegree(edges) && 0 < level <= |path| && PathIn(path, |path|, edges)
    requires LeftPacked(t, level, n, edges) && Position(path, level, edges) < n
    ensures |Leaves(t, edges)| == n
    ensures LeafAt(t, level, path) == Leaves(t, edges)[Position(path, level, edges)]
    decreases level
  {
    if t.Leafs? {
      LeafEntryAt(t, n, path, edges);
    } else {
      var d, w := path[level - 1], Position(path, level - 1, edges);
      PackedCount(t, level, n, edges);
      PositionBelow(path, level - 1, edges);
      assert Position(path, level, edges) == Times(d, Capacity(edges, level - 1)) + w;
      var c := KidAt(t.kids, level - 1, n, d, w, edges);
      LeafAtPosition(t.kids[d], level - 1, c, path, edges);
      assert LeafAt(t, level, path) == LeafAt(t.kids[d], level - 1, path);
    }
  }

  lemma {:induction false} TimesBelow(d: nat, e: nat, c: nat)
    requires d <= e
    ensures Times(d, c) <= Times(e, c)
  {
    if d < e {
      TimesBelow(d, e - 1, c);
    }
  }

  lemma {:induction false} PositionBelow(path: seq<nat>, level: nat, edges: nat)
    requires edges > 0 && level <= |path| && PathIn(path, |path|, edges)
    ensures Position(path, level, edges) < Capacity(edges, level)
  {
    if level > 0 {
      PositionBelow(path, level - 1, edges);
      TimesBelow(path[level - 1], edges - 1, Capacity(edges, level - 1));
    }
  }

  /** At position zero all child indices are zero. */
  lemma {:induction false} PositionZero(path: seq<nat>, level: nat, edges: nat)
    requires edges > 0 && level <= |path| && Position(path, level, edges) == 0
    ensures forall i | 0 <= i < level :: path[i] == 0
    ensures forall l | 0 <= l < level :: Position(path, l, edges) == 0
  {
    if level > 0 {
      PositionZero(path, level - 1, edges);
    }
  }

  // -------------------------------------------------- positions and virtual addresses

  lemma {:induction false} TimesProduct(d: nat, c: nat)
    ensures Times(d, c) == d * c
  {
    if d > 0 {
      TimesProduct(d - 1, c);
      Distribute(d, 1, c);
    }
  }

  lemma {:induction false} CapacityPow(edges: nat, level: nat)
    requires edges > 0
    ensures Capacity(edges, level) == Pow(edges, level)
  {
    if level > 0 {
      CapacityPow(edges, level - 1);
      TimesProduct(edges, Capacity(edges, level - 1));
    }
  }

  /** The position of the path of an address is the address itself. */
  lemma {:induction false} PositionOfPath(v: nat, levels: nat, level: nat, edges: nat)
    requires PowerOfTwo(edges) && edges > 0 && level <= levels
    ensures Position(Path(v, levels, edges), level, edges) == v % Pow(edges, level)
  {
    if level > 0 {
      PositionOfPath(v, levels, level - 1, edges);
      ChildIndexDigit(v, level, edges);
      SplitAddress(v, level, edges);
      CapacityPow(edges, level - 1);
      TimesProduct(Digit(v, level, edges), Capacity(edges, level - 1));
    }
  }

  /** Within the highest address, the path of v has position v. */
  lemma PositionIsAddress(v: nat, levels: nat, edges: nat)
    requires PowerOfTwo(edges) && edges > 0 && v <= Pow(edges, levels) - 1
    ensures Position(Path(v, levels, edges), levels, edges) == v
    ensures PathIn(Path(v, levels, edges), levels, edges)
  {
    PositionOfPath(v, levels, levels, edges);
    DivUnique(v, Pow(edges, levels), 0, v);
  }

  /** Following the child indices of address v leads to leaf number v. */
  lemma LeafAtIsLeaf(t: Tree, level: nat, n: nat, v: nat, edges: nat)
    requires ValidDegree(edges) && PowerOfTwo(edges) && level > 0
    requires LeftPacked(t, level, n, edges) && v < n
    ensures |Leaves(t, edges)| == n
    ensures LeafAt(t, level, Path(v, level, edges)) == Leaves(t, edges)[v]
  {
    PackedCount(t, level, n, edges);
    CapacityPow(edges, level);
    PositionIsAddress(v, level, edges);
    LeafAtPosition(t, level, n, Path(v, level, edges), edges);
  }

  // ----------------------------------------------------------- appending on a path

  lemma UsedNone(ls: seq<T2>)
    requires forall i | 0 <= i < |ls| :: ls[i] == T2_INVALID
    ensures UsedEntries(ls) == []
  {
    UsedPrefix(ls, 0);
    assert ls[..0] == [];
  }

  /** Filling the first unused entry appends it. */
  lemma {:induction false} UsedAppend(ls: seq<T2>, i: nat, e: T2)
    requires i < |ls| && e != T2_INVALID
    requires forall j | i <= j < |ls| :: ls[j] == T2_INVALID
    ensures UsedEntries(ls[i := e]) == UsedEntries(ls) + [e]
  {
    if i == 0 {
      UsedNone(ls);
      UsedNone(ls[1..]);
      assert ls[0 := e][1..] == ls[1..];
    } else {
      UsedAppend(ls[1..], i - 1, e);
      assert ls[i := e][1..] == ls[1..][i - 1 := e];
    }
  }

  /** Leaves appended below the last used child are appended to the node. */
  lemma {:induction false} LeavesOfAppend(ts: seq<Tree>, d: nat, u: Tree, more: seq<T2>, edges: nat)
    requires ValidDegree(edges) && d < |ts|
    requires forall i | d < i < |ts| :: ts[i].Nil?
    requires Leaves(u, edges) == Leaves(ts[d], edges) + more
    ensures LeavesOf(ts[d := u], edges) == LeavesOf(ts, edges) + more
  {
    if d == 0 {
      LeavesOfNone(ts[1..], edges);
      assert ts[0 := u][1..] == ts[1..];
    } else {
      LeavesOfAppend(ts[1..], d - 1, u, more, edges);
      assert ts[d := u][1..] == ts[1..][d - 1 := u];
    }
  }

  /** The child on the path to the first unused leaf, and what lies behind it. */
  lemma {:induction false} KidsOnPath(kids: seq<Tree>, level: nat, d: nat, r: nat, edges: nat)
    requires ValidDegree(edges) && d < |kids| && r < Capacity(edges, level)
    requires KidsPacked(kids, level, Times(d, Capacity(edges, level)) + r, edges)
    ensures (kids[d].Nil? && r == 0) || LeftPacked(kids[d], level, r, edges)
    ensures forall i | d < i < |kids| :: kids[i].Nil?
    decreases d
  {
    if d > 0 {
      KidsOnPath(kids[1..], level, d - 1, r, edges);
      forall i | d < i < |kids| ensures kids[i].Nil? {
        assert kids[1..][i - 1].Nil?;
      }
    }
  }

  lemma {:induction false} KidsGraft(kids: seq<Tree>, level: nat, d: nat, r: nat, u: Tree, k: nat, edges: nat)
    requires ValidDegree(edges) && d < |kids| && r < Capacity(edges, level)
    requires KidsPacked(kids, level, Times(d, Capacity(edges, level)) + r, edges)
    requires LeftPacked(u, level, r + k, edges)
    ensures KidsPacked(kids[d := u], level, Times(d, Capacity(edges, level)) + r + k, edges)
    decreases d
  {
    if d == 0 {
      PackedCount(u, level, r + k, edges);
      assert kids[0 := u][1..] == kids[1..];
      NonePacked(kids[1..], level, edges);
    } else {
      KidsGraft(kids[1..], level, d - 1, r, u, k, edges);
      assert kids[d := u][1..] == kids[1..][d - 1 := u];
    }
  }

  lemma NonePacked(kids: seq<Tree>, level: nat, edges: nat)
    requires ValidDegree(edges) && forall i | 0 <= i < |kids| :: kids[i].Nil?
    ensures KidsPacked(kids, level, 0, edges)
  {
  }

  /** On the path to the first unused leaf: when the child grows by k leaves, so
      does the node, and it stays left-packed.  */
  lemma GraftAppends(b: Tree, u: Tree, v: Tree, low: nat, path: seq<nat>, k: nat, more: seq<T2>, edges: nat)
    requires ValidDegree(edges) && 1 <= low < |path| && PathIn(path, |path|, edges) && b.Inner?
    requires LeftPacked(b, low + 1, Position(path, low + 1, edges), edges)
    requires LeftPacked(u, low, Position(path, low, edges) + k, edges)
    requires Leaves(u, edges) == Leaves(b.kids[path[low]], edges) + more
    requires v.Inner? && v.kids == b.kids[path[low] := u]
    ensures LeftPacked(v, low + 1, Position(path, low + 1, edges) + k, edges)
    ensures Leaves(v, edges) == Leaves(b, edges) + more
  {
    var d, r := path[low], Position(path, low, edges);
    PositionBelow(path, low, edges);
    KidsOnPath(b.kids, low, d, r, edges);
    KidsGraft(b.kids, low, d, r, u, k, edges);
    LeavesOfAppend(b.kids, d, u, more, edges);
  }
}
