/** Hash trees on a block map: what both the meta tree and the free tree are on
    disk.  A tree value is a mathematical picture of the stored nodes; Stored
    ties it to the blocks of a device.  */
module HashTree {
  import opened NodeCodec

  /** A block device seen as a map from physical block addresses to blocks. */
  type Disk = map<U64, Block>

  /** Nil stands for an unused child slot.  */
  datatype Tree =
    | Nil
    | Leafs(node: T1, leaves: T2Block)
    | Inner(node: T1, entries: T1Block, kids: seq<Tree>)

  /** The number of children a node may have. */
  predicate ValidDegree(edges: nat)
  {
    1 <= edges <= NODES_PER_BLOCK
  }

  ghost predicate BlockAt(c: Codec, disk: Disk, n: T1, b: Block)
  {
    n.pba != 0 && n.pba in disk && disk[n.pba] == b && n.hash == c.hash(b)
  }

  /** Parent entry e describes child k. */
  predicate EntryOf(e: T1, k: Tree)
  {
    if k.Nil? then e == T1_INVALID else e == k.node
  }

  predicate LeafEntriesOk(ls: seq<T2>)
  {
    forall i :: 0 <= i < |ls| ==> ls[i] == T2_INVALID || ls[i].pba != 0
  }

  /** The hash-consistent tree t with the given height is stored on the disk:
      every node lies at the address, and has the hash, that its parent holds. */
  ghost predicate Stored(c: Codec, disk: Disk, t: Tree, level: nat, edges: nat)
    requires ValidDegree(edges)
    decreases level
  {
    match t
    case Nil => true
    case Leafs(n, ls) => level == 1 && BlockAt(c, disk, n, c.enc2(ls)) && LeafEntriesOk(ls[..edges])
    case Inner(n, es, kids) =>
      && level > 1
      && BlockAt(c, disk, n, c.enc1(es))
      && |kids| == edges
      && forall i | 0 <= i < edges :: EntryOf(es[i], kids[i]) && Stored(c, disk, kids[i], level - 1, edges)
  }

  // ------------------------------------------------------- addresses of a tree

  /** Which places to count: every place that holds an address, only the nodes, only
      the leaf entries that a request of generation gen may still hand out, or both
      of these.  */
  datatype Which = Every | NodesOnly | UsableIn(gen: U64) | MovableIn(gen: U64)

  /** How often node n holds address p. */
  function NodeUses(n: T1, w: Which, p: U64): nat
  {
    if !w.UsableIn? && n.pba == p then 1 else 0
  }

  function EntryUses(l: T2, w: Which, p: U64): nat
  {
    if l == T2_INVALID || l.pba != p || w.NodesOnly? || ((w.UsableIn? || w.MovableIn?) && l.allocGen == w.gen) then 0 else 1
  }

  function EntriesUses(ls: seq<T2>, w: Which, p: U64): nat
  {
    if ls == [] then 0 else EntryUses(ls[0], w, p) + EntriesUses(ls[1..], w, p)
  }

  /** How often address p is held by the inner nodes and leaf entries of a tree. */
  function Uses(t: Tree, edges: nat, w: Which, p: U64): nat
    requires ValidDegree(edges)
    decreases t, 1
  {
    match t
    case Nil => 0
    case Leafs(n, ls) => NodeUses(n, w, p) + EntriesUses(ls[..edges], w, p)
    case Inner(n, es, kids) => NodeUses(n, w, p) + SumUses(kids, edges, w, p)
  }

  function SumUses(ts: seq<Tree>, edges: nat, w: Which, p: U64): nat
    requires ValidDegree(edges)
    decreases ts, 0
  {
    if ts == [] then 0 else Uses(ts[0], edges, w, p) + SumUses(ts[1..], edges, w, p)
  }

  lemma {:induction false} SumUsesUpdate(ts: seq<Tree>, i: nat, t: Tree, edges: nat, w: Which, p: U64)
    requires ValidDegree(edges) && i < |ts|
    ensures SumUses(ts[i := t], edges, w, p) + Uses(ts[i], edges, w, p) == SumUses(ts, edges, w, p) + Uses(t, edges, w, p)
    ensures Uses(ts[i], edges, w, p) <= SumUses(ts, edges, w, p)
  {
    if i == 0 {
      assert ts[i := t][1..] == ts[1..];
    } else {
      SumUsesUpdate(ts[1..], i - 1, t, edges, w, p);
      assert ts[i := t][1..] == ts[1..][i - 1 := t];
    }
  }

  lemma {:induction false} SumUsesZero(ts: seq<Tree>, edges: nat, w: Which, p: U64)
    requires ValidDegree(edges) && forall i | 0 <= i < |ts| :: Uses(ts[i], edges, w, p) == 0
    ensures SumUses(ts, edges, w, p) == 0
  {
    if ts != [] {
      SumUsesZero(ts[1..], edges, w, p);
    }
  }

  lemma {:induction false} EntriesUsesUpdate(ls: seq<T2>, i: nat, l: T2, w: Which, p: U64)
    requires i < |ls|
    ensures EntriesUses(ls[i := l], w, p) + EntryUses(ls[i], w, p) == EntriesUses(ls, w, p) + EntryUses(l, w, p)
    ensures EntryUses(ls[i], w, p) <= EntriesUses(ls, w, p)
  {
    if i == 0 {
      assert ls[i := l][1..] == ls[1..];
    } else {
      EntriesUsesUpdate(ls[1..], i - 1, l, w, p);
      assert ls[i := l][1..] == ls[1..][i - 1 := l];
    }
  }

  lemma {:induction false} EntriesUsesZero(ls: seq<T2>, w: Which, p: U64)
    requires forall i | 0 <= i < |ls| :: EntryUses(ls[i], w, p) == 0
    ensures EntriesUses(ls, w, p) == 0
  {
    if ls != [] {
      EntriesUsesZero(ls[1..], w, p);
    }
  }

  /** Writing a block at an address the tree does not use leaves the tree stored. */
  lemma {:induction false} StoredFrame(c: Codec, disk: Disk, t: Tree, level: nat, edges: nat, p: U64, b: Block)
    requires ValidDegree(edges) && Stored(c, disk, t, level, edges)
    requires Uses(t, edges, Every, p) == 0
    ensures Stored(c, disk[p := b], t, level, edges)
    decreases level
  {
    if t.Inner? {
      forall i | 0 <= i < edges ensures Stored(c, disk[p := b], t.kids[i], level - 1, edges) {
        SumUsesUpdate(t.kids, i, Nil, edges, Every, p);
        StoredFrame(c, disk, t.kids[i], level - 1, edges, p, b);
      }
    }
  }

  /** What a device holds at one address. */
  predicate SameBlock(disk: Disk, disk': Disk, p: U64)
  {
    (p in disk <==> p in disk') && (p in disk ==> disk[p] == disk'[p])
  }

  /** A tree is stored on every device that holds the same blocks for its nodes. */
  lemma {:induction false} StoredSame(c: Codec, disk: Disk, disk': Disk, t: Tree, level: nat, edges: nat)
    requires ValidDegree(edges) && Stored(c, disk, t, level, edges)
    requires forall p :: Uses(t, edges, NodesOnly, p) > 0 ==> SameBlock(disk, disk', p)
    ensures Stored(c, disk', t, level, edges)
    decreases level
  {
    if !t.Nil? {
      assert Uses(t, edges, NodesOnly, t.node.pba) > 0;
    }
    if t.Inner? {
      forall i | 0 <= i < edges ensures Stored(c, disk', t.kids[i], level - 1, edges) {
        forall p | Uses(t.kids[i], edges, NodesOnly, p) > 0 ensures SameBlock(disk, disk', p) {
          SumUsesUpdate(t.kids, i, Nil, edges, NodesOnly, p);
        }
        StoredSame(c, disk, disk', t.kids[i], level - 1, edges);
      }
    }
  }

  /** Address 0 is never used. */
  lemma {:induction false} ZeroUnused(c: Codec, disk: Disk, t: Tree, level: nat, edges: nat)
    requires ValidDegree(edges) && Stored(c, disk, t, level, edges)
    ensures Uses(t, edges, Every, 0) == 0
    decreases level
  {
    if t.Leafs? {
      EntriesUsesZero(t.leaves[..edges], Every, 0);
    } else if t.Inner? {
      forall i | 0 <= i < edges ensures Uses(t.kids[i], edges, Every, 0) == 0 {
        ZeroUnused(c, disk, t.kids[i], level - 1, edges);
      }
      SumUsesZero(t.kids, edges, Every, 0);
    }
  }

  /** A disk and a root node determine the stored tree. */
  lemma {:induction false} StoredUnique(c: Codec, disk: Disk, t: Tree, u: Tree, level: nat, edges: nat)
    requires ValidDegree(edges) && Stored(c, disk, t, level, edges) && Stored(c, disk, u, level, edges)
    requires t.Nil? == u.Nil? && (!t.Nil? ==> t.node == u.node)
    ensures t == u
    decreases level
  {
    if t.Leafs? {
      assert t.leaves == c.dec2(c.enc2(t.leaves)) == c.dec2(c.enc2(u.leaves)) == u.leaves;
    } else if t.Inner? {
      assert t.entries == c.dec1(c.enc1(t.entries)) == c.dec1(c.enc1(u.entries)) == u.entries;
      forall i | 0 <= i < edges ensures t.kids[i] == u.kids[i] {
        assert EntryOf(t.entries[i], t.kids[i]) && EntryOf(u.entries[i], u.kids[i]);
        assert t.kids[i].Nil? == u.kids[i].Nil?;
        StoredUnique(c, disk, t.kids[i], u.kids[i], level - 1, edges);
      }
      assert t.kids == u.kids;
    }
  }

  // ------------------------------------------------------------- shape of a tree

  /** A leaf entry and what requests of generation gen make of it: nothing, or it
      was usable and took over another address, belongs to this generation now, and
      still names the virtual address and the key it was last used for. */
  predicate EntryRenewed(e: T2, f: T2, gen: U64)
  {
    || f == e
    || (&& e != T2_INVALID && e.allocGen != gen
        && f != T2_INVALID && f.allocGen == gen && f.freeGen == gen && !f.reserved
        && f.lastVba == e.lastVba && f.lastKeyId == e.lastKeyId)
  }

  ghost predicate EntriesRenewed(ls: T2Block, ms: T2Block, edges: nat, gen: U64)
    requires ValidDegree(edges)
  {
    forall i | 0 <= i < edges :: EntryRenewed(ls[i], ms[i], gen)
  }

  /** A node is the one it was or was written in generation gen. */
  predicate NodeRenewed(n: T1, n': T1, gen: U64)
  {
    n' == n || n'.gen == gen
  }

  /** The same tree after requests of generation gen: node for node and entry for
      entry, whatever addresses they hold. */
  ghost predicate Renewed(t: Tree, u: Tree, edges: nat, gen: U64)
    requires ValidDegree(edges)
    decreases t
  {
    match (t, u)
    case (Nil, Nil) => true
    case (Leafs(n, ls), Leafs(n', ms)) => NodeRenewed(n, n', gen) && EntriesRenewed(ls, ms, edges, gen)
    case (Inner(n, _, ks), Inner(n', _, js)) =>
      NodeRenewed(n, n', gen) && |ks| == |js| && forall i | 0 <= i < |ks| :: Renewed(ks[i], js[i], edges, gen)
    case (_, _) => false
  }

  lemma {:induction false} RenewedRefl(t: Tree, edges: nat, gen: U64)
    requires ValidDegree(edges)
    ensures Renewed(t, t, edges, gen)
    decreases t
  {
    if t.Inner? {
      forall i | 0 <= i < |t.kids| ensures Renewed(t.kids[i], t.kids[i], edges, gen) {
        RenewedRefl(t.kids[i], edges, gen);
      }
    }
  }

  lemma {:induction false} RenewedTrans(t: Tree, u: Tree, v: Tree, edges: nat, gen: U64)
    requires ValidDegree(edges) && Renewed(t, u, edges, gen) && Renewed(u, v, edges, gen)
    ensures Renewed(t, v, edges, gen)
    decreases t
  {
    if t.Leafs? {
      forall i | 0 <= i < edges ensures EntryRenewed(t.leaves[i], v.leaves[i], gen) {
        assert EntryRenewed(t.leaves[i], u.leaves[i], gen) && EntryRenewed(u.leaves[i], v.leaves[i], gen);
      }
    } else if t.Inner? {
      forall i | 0 <= i < |t.kids| ensures Renewed(t.kids[i], v.kids[i], edges, gen) {
        RenewedTrans(t.kids[i], u.kids[i], v.kids[i], edges, gen);
      }
    }
  }

  /** In every inner node the used child slots form a prefix. */
  ghost predicate GapFree(t: Tree)
    decreases t
  {
    t.Inner? ==>
      && (forall i, j | 0 <= i < j < |t.kids| :: t.kids[i].Nil? ==> t.kids[j].Nil?)
      && (forall i | 0 <= i < |t.kids| :: GapFree(t.kids[i]))
  }

  /** All nodes belong to generations other than gen. */
  ghost predicate AllOld(t: Tree, gen: U64)
    decreases t
  {
    t.Nil? || (t.node.gen != gen && (t.Inner? ==> forall i | 0 <= i < |t.kids| :: AllOld(t.kids[i], gen)))
  }
}
