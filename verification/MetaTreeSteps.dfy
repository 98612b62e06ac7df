/** Every round of a meta tree request keeps the invariant. */
module MetaTreeSteps {
  import opened NodeCodec
  import opened HashTree
  import opened MetaTreeSpec
  import opened MetaTreeInv

  // ------------------------------------------------------------- preliminaries

  lemma {:induction false} FirstActiveIs(levels: seq<T1Info>, from: nat, l: nat)
    requires from <= l < |levels| && levels[l].state != Invalid
    requires forall k | from <= k < l :: levels[k].state == Invalid
    ensures FirstActive(levels, from) == l
    decreases |levels| - from
  {
    if from < l {
      FirstActiveIs(levels, from + 1, l);
    }
  }

  /** Under the invariant no array bound is violated. */
  lemma InvCanExecute(c: Codec, disk: Disk, m: Mt, g: Ghost, t: Tree)
    requires Inv(c, disk, m, g, t)
    ensures CanExecute(m)
    ensures g.low >= FIRST_N ==> FirstActive(m.levels, FIRST_N) == g.low && CanStepN(m, g.low)
  {
    if g.low >= FIRST_N {
      FirstActiveIs(m.levels, FIRST_N, g.low);
      if g.low < m.maxLevel {
        assert LinkAt(c, m, g, g.low + 1);
      }
    } else {
      assert LinkAt(c, m, g, FIRST_N);
    }
  }

  lemma FrameStays(c: Codec, disk: Disk, f: T1Info, o: Tree, ks: seq<Tree>, l: nat, edges: nat, gen: U64, hole: bool,
                   untouched: bool, unserved: bool, untouched': bool, unserved': bool)
    requires ValidDegree(edges) && l >= FIRST_N
    requires Frame(c, disk, f, o, ks, l, edges, gen, hole, untouched, unserved)
    requires (untouched' ==> untouched) && (unserved' ==> unserved)
    ensures Frame(c, disk, f, o, ks, l, edges, gen, hole, untouched', unserved')
  {
  }

  /** A block written at an address that a frame does not hold. */
  lemma FrameStaysOnWrite(c: Codec, disk: Disk, f: T1Info, o: Tree, ks: seq<Tree>, l: nat, edges: nat, gen: U64, hole: bool,
                          untouched: bool, unserved: bool, p: U64, b: Block)
    requires ValidDegree(edges) && l >= FIRST_N && f.state != Read
    requires Frame(c, disk, f, o, ks, l, edges, gen, hole, untouched, unserved)
    requires FrameUses(f, ks, edges, Every, p) == 0
    ensures Frame(c, disk[p := b], f, o, ks, l, edges, gen, hole, untouched, unserved)
  {
    forall i | 0 <= i < edges && !(hole && i == f.index) ensures Stored(c, disk[p := b], ks[i], l - 1, edges) {
      SumUsesUpdate(ks, i, Nil, edges, Every, p);
      StoredFrame(c, disk, ks[i], l - 1, edges, p, b);
    }
  }

  lemma UnmodifiedStays(m: Mt, m': Mt, low: nat, low': nat, l: nat)
    requires Geometry(m) && Geometry(m') && l < NR_OF_LEVELS && low' <= low
    requires forall k | FIRST_N <= k <= l && low <= k :: m'.levels[k].dirty == m.levels[k].dirty
    requires m'.level1.state == m.level1.state || (m.level1.state != Write && m.level1.state != WriteComplete)
    ensures Unmodified(m', low', l) ==> Unmodified(m, low, l)
  {
    if Unmodified(m', low', l) {
      forall k | FIRST_N <= k <= l && low <= k ensures !m.levels[k].dirty {
        assert !m'.levels[k].dirty;
      }
    }
  }

  /** Only the state, index and entries of the lowest inner node under work change. */
  lemma RefitLowest(c: Codec, disk: Disk, m: Mt, m': Mt, g: Ghost, t: Tree)
    requires Inv(c, disk, m, g, t) && g.low >= FIRST_N
    requires m' == m.(levels := m'.levels) && |m'.levels| == NR_OF_LEVELS
    requires m'.levels == m.levels[g.low := m'.levels[g.low]]
    requires m'.levels[g.low].node == m.levels[g.low].node && m'.levels[g.low].dirty == m.levels[g.low].dirty
    requires NodeStates(m', g.low) && FrameAt(c, disk, m', g, g.low)
    requires m.levels[g.low].state != WriteComplete && m'.levels[g.low].state != WriteComplete
    ensures Inv(c, disk, m', g, t)
  {
    forall l | FIRST_N <= l <= m.maxLevel && g.low <= l ensures FrameAt(c, disk, m', g, l) {
      if l != g.low {
        assert FrameAt(c, disk, m, g, l);
        UnmodifiedStays(m, m', g.low, g.low, l);
        FrameStays(c, disk, m.levels[l], g.orig[l], g.kids[l], l, m.edges, m.gen, true,
                   Unmodified(m, g.low, l), !m.finished, Unmodified(m', g.low, l), !m.finished);
      }
    }
    forall l | FIRST_N <= l <= m.maxLevel && g.low < l ensures LinkAt(c, m', g, l) {
      assert LinkAt(c, m, g, l);
    }
    forall p ensures Balanced(m', g, t, p) {
      assert Balanced(m, g, t, p);
      RefitKeepsBalance(m, m', g, t, p);
    }
  }

  lemma RefitKeepsBalance(m: Mt, m': Mt, g: Ghost, t: Tree, p: U64)
    requires Sized(m, g) && g.low >= FIRST_N && Balanced(m, g, t, p)
    requires m' == m.(levels := m'.levels) && |m'.levels| == NR_OF_LEVELS
    requires forall k | 0 <= k < NR_OF_LEVELS :: m'.levels[k].node == m.levels[k].node
    ensures Balanced(m', g, t, p)
  {
    forall w: Which ensures Total(m', g, w, p) == Total(m, g, w, p) {
      PathUsesFrame(m.levels, g.kids, m'.levels, g.kids, m.edges, g.low, m.maxLevel, w, p);
    }
  }

  // ------------------------------------------------------------- reading a node

  function LoadedN(m: Mt, l: nat, es: T1Block): Mt
    requires Geometry(m) && l < NR_OF_LEVELS
  {
    m.(levels := m.levels[l := m.levels[l].(entries := es, index := 0, state := ReadComplete)])
  }

  lemma LoadNEffect(c: Codec, disk: Disk, m: Mt, g: Ghost, t: Tree)
    requires Inv(c, disk, m, g, t) && g.low >= FIRST_N && m.levels[g.low].state == Read
    ensures g.orig[g.low].Inner? && CanExecute(m)
    ensures Advance(c, m, disk) == (LoadedN(m, g.low, g.orig[g.low].entries), disk)
  {
    InvCanExecute(c, disk, m, g, t);
    assert FrameAt(c, disk, m, g, g.low);
  }

  lemma LoadNKeepsInv(c: Codec, disk: Disk, m: Mt, g: Ghost, t: Tree)
    requires Inv(c, disk, m, g, t) && g.low >= FIRST_N && m.levels[g.low].state == Read && g.orig[g.low].Inner?
    ensures Inv(c, disk, LoadedN(m, g.low, g.orig[g.low].entries), g, t)
  {
    assert FrameAt(c, disk, m, g, g.low);
    var o := g.orig[g.low];
    var m' := LoadedN(m, g.low, o.entries);
    assert FrameAt(c, disk, m', g, g.low) by {
      forall i | 0 <= i < m.edges ensures Renewed(o.kids[i], o.kids[i], m.edges, m.gen) {
        RenewedRefl(o.kids[i], m.edges, m.gen);
      }
    }
    RefitLowest(c, disk, m, m', g, t);
  }

  function Loaded1(m: Mt, ls: T2Block): Mt
  {
    m.(level1 := m.level1.(entries := ls, state := ReadComplete))
  }

  lemma Load1Effect(c: Codec, disk: Disk, m: Mt, g: Ghost, t: Tree)
    requires Inv(c, disk, m, g, t) && g.low == 1 && m.level1.state == Read
    ensures g.orig[1].Leafs? && CanExecute(m) && Advance(c, m, disk) == (Loaded1(m, g.orig[1].leaves), disk)
  {
    InvCanExecute(c, disk, m, g, t);
  }

  lemma Load1KeepsInv(c: Codec, disk: Disk, m: Mt, g: Ghost, t: Tree)
    requires Inv(c, disk, m, g, t) && g.low == 1 && m.level1.state == Read && g.orig[1].Leafs?
    ensures Inv(c, disk, Loaded1(m, g.orig[1].leaves), g, t)
  {
    var m' := Loaded1(m, g.orig[1].leaves);
    forall l | FIRST_N <= l <= m.maxLevel ensures FrameAt(c, disk, m', g, l) {
      assert FrameAt(c, disk, m, g, l);
    }
    forall l | FIRST_N <= l <= m.maxLevel ensures LinkAt(c, m', g, l) {
      assert LinkAt(c, m, g, l);
    }
    forall p ensures Balanced(m', g, t, p) {
      assert Balanced(m, g, t, p);
    }
  }

  // ---------------------------------------------- all children of a node handled

  function StoppedN(m: Mt, l: nat): Mt
    requires Geometry(m) && l < NR_OF_LEVELS
  {
    m.(levels := m.levels[l := m.levels[l].(state := if m.levels[l].dirty then Write else Complete)])
  }

  lemma StopNEffect(c: Codec, disk: Disk, m: Mt, g: Ghost, t: Tree)
    requires Inv(c, disk, m, g, t) && g.low >= FIRST_N && m.levels[g.low].state == ReadComplete
    requires !HasNextChild(m, g.low)
    ensures CanExecute(m) && Advance(c, m, disk) == (StoppedN(m, g.low), disk)
  {
    InvCanExecute(c, disk, m, g, t);
  }

  lemma StopNKeepsInv(c: Codec, disk: Disk, m: Mt, g: Ghost, t: Tree)
    requires Inv(c, disk, m, g, t) && g.low >= FIRST_N && m.levels[g.low].state == ReadComplete
    requires !HasNextChild(m, g.low)
    ensures Inv(c, disk, StoppedN(m, g.low), g, t)
  {
    assert FrameAt(c, disk, m, g, g.low);
    var m' := StoppedN(m, g.low);
    UnmodifiedStays(m, m', g.low, g.low, g.low);
    assert FrameAt(c, disk, m', g, g.low);
    RefitLowest(c, disk, m, m', g, t);
  }
}
