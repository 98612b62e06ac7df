/** The invariant of a meta tree request. */
module MetaTreeInv {
  import opened NodeCodec
  import opened HashTree
  import opened MetaTreeSpec

  /** Proof state: `low` is the lowest level under work, orig[l] the subtree as it
      was when level l was entered, kids[l] the current subtrees below level l,
      with Nil in the place of the subtree under work.  */
  datatype Ghost = Ghost(low: nat, orig: seq<Tree>, kids: seq<seq<Tree>>)

  // ------------------------------------------------------------ one inner frame

  /** Every subtree but the one under work is stored under its entry, has kept its
      shape, and is still the original one if it was not visited yet.  */
  ghost predicate KidsOk(c: Codec, disk: Disk, f: T1Info, o: Tree, ks: seq<Tree>, l: nat, edges: nat, gen: U64, hole: bool)
    requires ValidDegree(edges) && l >= FIRST_N && o.Inner? && |o.kids| == |ks| == edges
  {
    && f.index <= edges
    && (hole ==> f.index < edges && ks[f.index].Nil?)
    && (forall i | 0 <= i < edges && !(hole && i == f.index) ::
          && EntryOf(f.entries[i], ks[i])
          && Stored(c, disk, ks[i], l - 1, edges)
          && Renewed(o.kids[i], ks[i], edges, gen)
          && (f.index <= i ==> ks[i] == o.kids[i]))
  }

  /** Nothing at or below this node has been changed by the request. */
  ghost predicate Pristine(c: Codec, disk: Disk, f: T1Info, o: Tree, ks: seq<Tree>, edges: nat, hole: bool)
    requires ValidDegree(edges) && o.Inner? && |o.kids| == |ks| == edges
  {
    && f.node == o.node && f.entries == o.entries
    && BlockAt(c, disk, o.node, c.enc1(o.entries))
    && (forall i | 0 <= i < edges && !(hole && i == f.index) :: ks[i] == o.kids[i])
  }

  /** No leaf entry of t could be handed out by a request of generation gen. */
  ghost predicate NoneUsable(t: Tree, edges: nat, gen: U64)
    requires ValidDegree(edges)
  {
    forall p :: Uses(t, edges, UsableIn(gen), p) == 0
  }

  ghost predicate NoneUsableIn(ls: seq<T2>, gen: U64)
  {
    forall i | 0 <= i < |ls| :: !UsableEntry(ls[i], gen)
  }

  /** The subtrees visited so far hold no usable leaf entry. */
  ghost predicate Exhausted(index: nat, o: Tree, ks: seq<Tree>, edges: nat, gen: U64)
    requires ValidDegree(edges) && |ks| == edges
  {
    GapFree(o) ==> forall i | 0 <= i < edges && i < index :: NoneUsable(ks[i], edges, gen)
  }

  predicate Stopped(f: T1Info, edges: nat)
    requires ValidDegree(edges)
  {
    f.index < edges ==> f.entries[f.index] == T1_INVALID
  }

  ghost predicate Loaded(c: Codec, disk: Disk, f: T1Info, o: Tree, ks: seq<Tree>, l: nat, edges: nat, gen: U64,
                         hole: bool, untouched: bool, unserved: bool)
    requires ValidDegree(edges) && l >= FIRST_N && o.Inner? && |o.kids| == |ks| == edges
  {
    && KidsOk(c, disk, f, o, ks, l, edges, gen, hole)
    && (untouched ==> Pristine(c, disk, f, o, ks, edges, hole))
    && (unserved ==> Exhausted(f.index, o, ks, edges, gen))
    && (unserved && f.state != ReadComplete ==> Stopped(f, edges))
  }

  ghost predicate Frame(c: Codec, disk: Disk, f: T1Info, o: Tree, ks: seq<Tree>, l: nat, edges: nat, gen: U64,
                        hole: bool, untouched: bool, unserved: bool)
    requires ValidDegree(edges) && l >= FIRST_N
  {
    && f.node.pba != 0
    && o.Inner? && |o.kids| == |ks| == edges
    && (if f.state == Read then
          f.node == o.node && ks == o.kids && !f.dirty && Stored(c, disk, o, l, edges)
        else
          Loaded(c, disk, f, o, ks, l, edges, gen, hole, untouched, unserved))
  }

  /** The level 1 node under work. */
  ghost predicate Frame1(c: Codec, disk: Disk, f: T2Info, o: Tree, edges: nat, gen: U64, unserved: bool)
    requires ValidDegree(edges)
  {
    && f.node.pba != 0 && o.Leafs?
    && LeafEntriesOk(o.leaves[..edges])
    && match f.state
       case Read => f.node == o.node && Stored(c, disk, o, 1, edges)
       case ReadComplete => f.node == o.node && f.entries == o.leaves && Stored(c, disk, o, 1, edges)
       case Complete =>
         && f.node == o.node && f.entries == o.leaves && Stored(c, disk, o, 1, edges)
         && (unserved ==> NoneUsableIn(f.entries[..edges], gen))
       case _ =>
         && LeafEntriesOk(f.entries[..edges])
         && EntriesRenewed(o.leaves, f.entries, edges, gen)
         && (unserved ==> NoneUsableIn(f.entries[..edges], gen))
         && (f.state == WriteComplete ==> Written1(c, disk, f))
  }

  ghost predicate Written1(c: Codec, disk: Disk, f: T2Info)
  {
    f.node.pba in disk && disk[f.node.pba] == c.enc2(f.entries)
  }

  ghost predicate WrittenN(c: Codec, disk: Disk, f: T1Info)
  {
    f.node.pba in disk && disk[f.node.pba] == c.enc1(f.entries)
  }

  // ---------------------------------------------------------- the addresses held

  function FrameUses(f: T1Info, ks: seq<Tree>, edges: nat, w: Which, p: U64): nat
    requires ValidDegree(edges)
  {
    NodeUses(f.node, w, p) + SumUses(ks, edges, w, p)
  }

  /** How often address p is held at levels lo..hi of the path under work. */
  function PathUses(levels: seq<T1Info>, kids: seq<seq<Tree>>, edges: nat, lo: nat, hi: nat, w: Which, p: U64): nat
    requires ValidDegree(edges) && hi < |levels| == |kids|
    decreases hi + 1 - lo
  {
    if lo > hi then 0 else FrameUses(levels[lo], kids[lo], edges, w, p) + PathUses(levels, kids, edges, lo + 1, hi, w, p)
  }

  function Level1Uses(f: T2Info, o: Tree, edges: nat, w: Which, p: U64): nat
    requires ValidDegree(edges) && o.Leafs?
  {
    NodeUses(f.node, w, p) + EntriesUses((if f.state == Read then o.leaves else f.entries)[..edges], w, p)
  }

  lemma {:induction false} PathUsesFrame(ls: seq<T1Info>, ks: seq<seq<Tree>>, ls': seq<T1Info>, ks': seq<seq<Tree>>,
                                         edges: nat, lo: nat, hi: nat, w: Which, p: U64)
    requires ValidDegree(edges) && hi < |ls| == |ks| == |ls'| == |ks'|
    requires forall k | lo <= k <= hi :: ls[k].node == ls'[k].node && ks[k] == ks'[k]
    ensures PathUses(ls, ks, edges, lo, hi, w, p) == PathUses(ls', ks', edges, lo, hi, w, p)
    decreases hi + 1 - lo
  {
    if lo <= hi {
      PathUsesFrame(ls, ks, ls', ks', edges, lo + 1, hi, w, p);
    }
  }

  lemma {:induction false} PathUsesMember(ls: seq<T1Info>, ks: seq<seq<Tree>>, edges: nat, lo: nat, l: nat, hi: nat, w: Which, p: U64)
    requires ValidDegree(edges) && lo <= l <= hi < |ls| == |ks|
    ensures FrameUses(ls[l], ks[l], edges, w, p) <= PathUses(ls, ks, edges, lo, hi, w, p)
    ensures lo < l ==>
      FrameUses(ls[lo], ks[lo], edges, w, p) + FrameUses(ls[l], ks[l], edges, w, p) <= PathUses(ls, ks, edges, lo, hi, w, p)
    decreases hi + 1 - lo
  {
    if lo < l {
      PathUsesMember(ls, ks, edges, lo + 1, l, hi, w, p);
    }
  }

  /** Giving the node of one level on the path another address. */
  lemma {:induction false} PathUsesExchange(ls: seq<T1Info>, ks: seq<seq<Tree>>, ls': seq<T1Info>,
                                            edges: nat, lo: nat, l: nat, hi: nat, w: Which, p: U64)
    requires ValidDegree(edges) && lo <= l <= hi < |ls| == |ks| == |ls'|
    requires forall k | 0 <= k < |ls| && k != l :: ls[k].node == ls'[k].node
    ensures PathUses(ls', ks, edges, lo, hi, w, p) + NodeUses(ls[l].node, w, p)
         == PathUses(ls, ks, edges, lo, hi, w, p) + NodeUses(ls'[l].node, w, p)
    decreases hi + 1 - lo
  {
    if lo < l {
      PathUsesExchange(ls, ks, ls', edges, lo + 1, l, hi, w, p);
    } else {
      PathUsesFrame(ls, ks, ls', ks, edges, lo + 1, hi, w, p);
    }
  }

  // ------------------------------------------------------------- the invariant

  ghost predicate Unmodified(m: Mt, low: nat, l: nat)
    requires Geometry(m) && l < NR_OF_LEVELS
  {
    && m.level1.state != Write && m.level1.state != WriteComplete
    && forall k | FIRST_N <= k <= l && low <= k :: !m.levels[k].dirty
  }

  ghost predicate NodeStates(m: Mt, low: nat)
    requires Geometry(m)
  {
    && (m.level1.state == Invalid <==> low != 1)
    && (forall l | FIRST_N <= l <= m.maxLevel ::
          var s := m.levels[l].state;
          && (l < low <==> s == Invalid)
          && (l > low ==> s == ReadComplete)
          && (s == Write || s == WriteComplete ==> m.levels[l].dirty)
          && (s == Complete ==> !m.levels[l].dirty))
    && (forall l | m.maxLevel < l < NR_OF_LEVELS :: m.levels[l] == T1InfoInvalid())
  }

  ghost predicate Sized(m: Mt, g: Ghost)
  {
    Geometry(m) && |g.orig| == |g.kids| == NR_OF_LEVELS && 1 <= g.low <= m.maxLevel
  }

  ghost predicate FrameAt(c: Codec, disk: Disk, m: Mt, g: Ghost, l: nat)
    requires Sized(m, g) && FIRST_N <= l <= m.maxLevel
  {
    Frame(c, disk, m.levels[l], g.orig[l], g.kids[l], l, m.edges, m.gen, l > g.low, Unmodified(m, g.low, l), !m.finished)
  }

  ghost predicate Frames(c: Codec, disk: Disk, m: Mt, g: Ghost)
    requires Sized(m, g)
  {
    && (forall l | FIRST_N <= l <= m.maxLevel && g.low <= l :: FrameAt(c, disk, m, g, l))
    && (g.low == 1 ==> Frame1(c, disk, m.level1, g.orig[1], m.edges, m.gen, !m.finished))
  }

  function StateAt(m: Mt, l: nat): InfoState
    requires Geometry(m) && 1 <= l < NR_OF_LEVELS
  {
    if l == 1 then m.level1.state else m.levels[l].state
  }

  /** What the entry of the node under work at level l holds after its write back. */
  ghost function WrittenEntry(c: Codec, m: Mt, l: nat): T1
    requires Geometry(m) && 1 <= l < NR_OF_LEVELS
  {
    if l == 1 then ParentEntry(c, m, m.level1.node.pba, c.enc2(m.level1.entries))
    else ParentEntry(c, m, m.levels[l].node.pba, c.enc1(m.levels[l].entries))
  }

  /** The subtree under work at level l - 1 belongs to the current entry of level l. */
  ghost predicate LinkAt(c: Codec, m: Mt, g: Ghost, l: nat)
    requires Sized(m, g) && FIRST_N <= l <= m.maxLevel
  {
    var f, o := m.levels[l], g.orig[l];
    && f.index < m.edges && o.Inner? && |o.kids| == m.edges
    && o.kids[f.index] == g.orig[l - 1] && !g.orig[l - 1].Nil?
    && (if StateAt(m, l - 1) == WriteComplete then f.dirty && f.entries[f.index] == WrittenEntry(c, m, l - 1)
        else f.entries[f.index] == g.orig[l - 1].node)
  }

  ghost predicate Links(c: Codec, disk: Disk, m: Mt, g: Ghost)
    requires Sized(m, g)
  {
    && (forall l | FIRST_N <= l <= m.maxLevel && g.low < l :: LinkAt(c, m, g, l))
    && !g.orig[m.maxLevel].Nil?
    && (if m.levels[m.maxLevel].state == WriteComplete then m.root == WrittenEntry(c, m, m.maxLevel)
        else m.root == g.orig[m.maxLevel].node)
    && (g.low >= FIRST_N && m.levels[g.low].state == WriteComplete ==> WrittenN(c, disk, m.levels[g.low]))
  }

  function Total(m: Mt, g: Ghost, w: Which, p: U64): nat
    requires Sized(m, g) && (g.low == 1 ==> g.orig[1].Leafs?)
  {
    (if g.low == 1 then Level1Uses(m.level1, g.orig[1], m.edges, w, p) else 0)
    + PathUses(m.levels, g.kids, m.edges, if g.low == 1 then FIRST_N else g.low, m.maxLevel, w, p)
  }

  /** 1 if the request was served and pba is p. */
  function Served(m: Mt, pba: U64, p: U64): nat
  {
    if m.finished && pba == p then 1 else 0
  }

  /** The tree and the old address hold exactly what tree t and the new address hold. */
  ghost predicate Balanced(m: Mt, g: Ghost, t: Tree, p: U64)
    requires Sized(m, g) && (g.low == 1 ==> g.orig[1].Leafs?)
  {
    && Total(m, g, Every, p) + Served(m, m.newPba, p) == Uses(t, m.edges, Every, p) + Served(m, m.oldPba, p)
    && Total(m, g, UsableIn(m.gen), p) + Served(m, m.newPba, p) <= Uses(t, m.edges, UsableIn(m.gen), p)
    && Total(m, g, MovableIn(m.gen), p) + Served(m, m.newPba, p) <= Uses(t, m.edges, MovableIn(m.gen), p)
    && Uses(t, m.edges, Every, p) + (if m.oldPba == p then 1 else 0) <= 1
  }

  ghost predicate Inv(c: Codec, disk: Disk, m: Mt, g: Ghost, t: Tree)
  {
    && Sized(m, g) && m.state == Update && m.request == NoRequest
    && g.orig[m.maxLevel] == t
    && NodeStates(m, g.low)
    && Frames(c, disk, m, g)
    && Links(c, disk, m, g)
    && (forall p :: Balanced(m, g, t, p))
    && m.oldPba != 0 && m.success == m.finished
    && (m.level1.state == Read || m.level1.state == ReadComplete ==> !m.finished)
  }

  /** States and indices above the lowest node under work stay as they are. */
  ghost predicate OnlyLowMoves(m: Mt, m': Mt, low: nat)
    requires Geometry(m)
  {
    && Geometry(m') && m'.maxLevel == m.maxLevel
    && forall l | 0 <= l < NR_OF_LEVELS && l != low ::
         m'.levels[l].state == m.levels[l].state && m'.levels[l].index == m.levels[l].index
  }
}
