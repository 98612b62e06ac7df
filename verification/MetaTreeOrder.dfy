/** In which order the scan of the leaf entries serves those who want an address: the
    j-th usable entry exchanges its address with the j-th taker, and these are the
    level 1 node, the inner nodes from the lowest one up, and the requester last.  */
module MetaTreeOrder {
  import opened NodeCodec
  import opened HashTree
  import opened MetaTreeSpec

  datatype Taker = LowestNode | InnerNode(l: nat) | Requester

  /** The levels from l on whose nodes take part in an exchange. */
  function InnerTakers(levels: seq<T1Info>, l: nat): seq<Taker>
    requires l <= |levels|
    decreases |levels| - l
  {
    if l == |levels| then []
    else (if levels[l].node != T1_INVALID && !levels[l].isVolatile then [InnerNode(l)] else []) + InnerTakers(levels, l + 1)
  }

  function Takers(m: Mt): seq<Taker>
    requires Geometry(m)
  {
    (if m.level1.isVolatile then [] else [LowestNode]) + InnerTakers(m.levels, FIRST_N) + [Requester]
  }

  /** The usable leaf entries from entry i on. */
  function UsableEntries(es: T2Block, edges: nat, gen: U64, i: nat): seq<nat>
    requires ValidDegree(edges)
    decreases edges - i
  {
    if i >= edges then []
    else (if es[i] != T2_INVALID && es[i].allocGen != gen then [i] else []) + UsableEntries(es, edges, gen, i + 1)
  }

  function Wanted(m: Mt, t: Taker): U64
  {
    match t
    case LowestNode => m.level1.node.pba
    case InnerNode(l) => if l < |m.levels| then m.levels[l].node.pba else 0
    case Requester => m.oldPba
  }

  /** The taker has obtained address p: a node lives there now, an inner one with the
      current generation; the requester is served. */
  predicate Obtained(m: Mt, r: Mt, t: Taker, p: U64)
    requires |r.levels| == |m.levels|
  {
    match t
    case LowestNode => r.level1.node == m.level1.node.(pba := p)
    case InnerNode(l) =>
      && l < |m.levels|
      && r.levels[l] == m.levels[l].(node := T1(p, m.gen, m.levels[l].node.hash), isVolatile := true)
    case Requester => r.success && r.finished && r.newPba == p
  }

  predicate Unserved(m: Mt, r: Mt, t: Taker)
    requires |r.levels| == |m.levels|
  {
    match t
    case LowestNode => r.level1.node == m.level1.node
    case InnerNode(l) => l < |m.levels| ==> r.levels[l] == m.levels[l]
    case Requester => r.success == m.success && r.finished == m.finished && r.newPba == m.newPba
  }

  /** Entry u and taker t changed addresses. */
  predicate Swapped(m: Mt, r: Mt, u: nat, t: Taker)
    requires |r.levels| == |m.levels|
  {
    u < NODES_PER_BLOCK && r.level1.entries[u].pba == Wanted(m, t) && Obtained(m, r, t, m.level1.entries[u].pba)
  }

  function Least(a: nat, b: nat): nat { if a <= b then a else b }

  /** Usable entry us[j] and taker ts[j] changed addresses for every j for which there
      are both; nothing else has changed.  */
  ghost predicate Paired(m: Mt, r: Mt, us: seq<nat>, ts: seq<Taker>)
  {
    var n := Least(|us|, |ts|);
    && |r.levels| == |m.levels|
    && (forall j | 0 <= j < n :: Swapped(m, r, us[j], ts[j]))
    && (forall k | 0 <= k < NODES_PER_BLOCK && k !in us[..n] :: r.level1.entries[k] == m.level1.entries[k])
    && (forall t: Taker | t !in ts[..n] :: Unserved(m, r, t))
  }

  // ----------------------------------------------------------------- the first taker

  lemma {:induction false} FirstInner(levels: seq<T1Info>, f: T1Info, l: nat)
    requires l <= |levels| && FirstExchangeable(levels, l) < |levels| && f.isVolatile
    ensures var k := FirstExchangeable(levels, l);
            InnerTakers(levels, l) == [InnerNode(k)] + InnerTakers(levels[k := f], l)
    decreases |levels| - l
  {
    var k := FirstExchangeable(levels, l);
    if k > l {
      FirstInner(levels, f, l + 1);
    } else {
      SameTakers(levels, levels[k := f], l + 1);
    }
  }

  lemma {:induction false} SameTakers(a: seq<T1Info>, b: seq<T1Info>, l: nat)
    requires l <= |a| == |b| && forall k | l <= k < |a| :: a[k] == b[k]
    ensures InnerTakers(a, l) == InnerTakers(b, l)
    decreases |a| - l
  {
    if l < |a| {
      SameTakers(a, b, l + 1);
    }
  }

  lemma {:induction false} NoInner(levels: seq<T1Info>, l: nat)
    requires l <= |levels| && FirstExchangeable(levels, l) == |levels|
    ensures InnerTakers(levels, l) == []
    decreases |levels| - l
  {
    if l < |levels| {
      NoInner(levels, l + 1);
    }
  }

  lemma {:induction false} InnerTakersFrom(levels: seq<T1Info>, l: nat, t: Taker)
    requires l <= |levels| && t in InnerTakers(levels, l)
    ensures t.InnerNode? && l <= t.l < |levels| && !levels[t.l].isVolatile
    decreases |levels| - l
  {
    if t in InnerTakers(levels, l + 1) {
      InnerTakersFrom(levels, l + 1, t);
    }
  }

  lemma {:induction false} UsableEntriesFrom(es: T2Block, edges: nat, gen: U64, i: nat, k: nat)
    requires ValidDegree(edges) && k in UsableEntries(es, edges, gen, i)
    ensures i <= k < edges
    decreases edges - i
  {
    if k in UsableEntries(es, edges, gen, i + 1) {
      UsableEntriesFrom(es, edges, gen, i + 1, k);
    }
  }

  lemma {:induction false} SameUsable(a: T2Block, b: T2Block, edges: nat, gen: U64, i: nat)
    requires ValidDegree(edges) && forall k | i <= k < edges :: a[k] == b[k]
    ensures UsableEntries(a, edges, gen, i) == UsableEntries(b, edges, gen, i)
    decreases edges - i
  {
    if i < edges {
      SameUsable(a, b, edges, gen, i + 1);
    }
  }

  function FirstTaker(m: Mt): Taker
    requires Geometry(m)
  {
    var k := FirstExchangeable(m.levels, FIRST_N);
    if !m.level1.isVolatile then LowestNode else if k < NR_OF_LEVELS then InnerNode(k) else Requester
  }

  /** One exchange serves the first taker. */
  lemma ExchangeServesFirst(m: Mt, i: nat)
    requires Geometry(m) && i < m.edges
    ensures var m1, ts := ExchangeEntry(m, i), Takers(m);
            && Geometry(m1) && m1.edges == m.edges && m1.gen == m.gen && m1.oldPba == m.oldPba
            && ts == [FirstTaker(m)] + (if ServesRequest(m) then [] else Takers(m1))
            && (FirstTaker(m) == Requester <==> ServesRequest(m))
  {
    var m1, k := ExchangeEntry(m, i), FirstExchangeable(m.levels, FIRST_N);
    if m.level1.isVolatile {
      if k < NR_OF_LEVELS {
        FirstInner(m.levels, m1.levels[k], FIRST_N);
        assert Takers(m) == [InnerNode(k)] + Takers(m1);
      } else {
        NoInner(m.levels, FIRST_N);
      }
    } else {
      assert Takers(m) == [LowestNode] + Takers(m1);
    }
  }

  lemma ExchangePairs(m: Mt, i: nat)
    requires Geometry(m) && i < m.edges
    ensures Paired(m, ExchangeEntry(m, i), [i], [FirstTaker(m)])
  {
    var m1, t := ExchangeEntry(m, i), FirstTaker(m);
    assert [i][..1] == [i] && [t][..1] == [t];
    assert Swapped(m, m1, [i][0], [t][0]);
    forall x: Taker | x !in [t] ensures Unserved(m, m1, x) {
    }
  }

  /** Those who were served do not take part any more. */
  lemma FirstIsNotAgain(m: Mt, i: nat)
    requires Geometry(m) && i < m.edges && !ServesRequest(m)
    ensures Geometry(ExchangeEntry(m, i)) && FirstTaker(m) !in Takers(ExchangeEntry(m, i))
  {
    var m1 := ExchangeEntry(m, i);
    if FirstTaker(m) in InnerTakers(m1.levels, FIRST_N) {
      InnerTakersFrom(m1.levels, FIRST_N, FirstTaker(m));
    }
  }

  /** Changing other pairs before or afterwards does not matter. */
  lemma SwappedBefore(m: Mt, m1: Mt, r: Mt, u: nat, t: Taker)
    requires |r.levels| == |m1.levels| == |m.levels|
    requires Swapped(m, m1, u, t) && r.level1.entries[u] == m1.level1.entries[u] && Unserved(m1, r, t)
    ensures Swapped(m, r, u, t)
  {
  }

  lemma SwappedAfter(m: Mt, m1: Mt, r: Mt, u: nat, t: Taker)
    requires |r.levels| == |m1.levels| == |m.levels| && m1.oldPba == m.oldPba && m1.gen == m.gen
    requires Swapped(m1, r, u, t) && m1.level1.entries[u] == m.level1.entries[u] && Unserved(m, m1, t)
    ensures Swapped(m, r, u, t)
  {
  }

  /** First one pair, then the others. */
  lemma PairedMore(m: Mt, m1: Mt, r: Mt, i: nat, t: Taker, us: seq<nat>, ts: seq<Taker>)
    requires Paired(m, m1, [i], [t]) && Paired(m1, r, us, ts) && m1.oldPba == m.oldPba && m1.gen == m.gen
    requires i !in us && t !in ts
    ensures Paired(m, r, [i] + us, [t] + ts)
  {
    var n := Least(|us|, |ts|);
    var us', ts' := [i] + us, [t] + ts;
    assert Least(|us'|, |ts'|) == n + 1;
    assert us'[..n + 1] == [i] + us[..n] && ts'[..n + 1] == [t] + ts[..n] && [i][..1] == [i] && [t][..1] == [t];
    assert Swapped(m, m1, [i][0], [t][0]);
    forall j | 0 <= j < n + 1 ensures Swapped(m, r, us'[j], ts'[j]) {
      if j == 0 {
        SwappedBefore(m, m1, r, i, t);
      } else {
        assert Swapped(m1, r, us[j - 1], ts[j - 1]);
        SwappedAfter(m, m1, r, us[j - 1], ts[j - 1]);
      }
    }
    forall x: Taker | x !in ts'[..n + 1] ensures Unserved(m, r, x) {
      UnservedBoth(m, m1, r, x);
    }
  }

  lemma UnservedBoth(m: Mt, m1: Mt, r: Mt, t: Taker)
    requires |r.levels| == |m1.levels| == |m.levels| && Unserved(m, m1, t) && Unserved(m1, r, t)
    ensures Unserved(m, r, t)
  {
  }

  /** Only the first pair counts. */
  lemma PairedFirst(m: Mt, r: Mt, i: nat, t: Taker, us: seq<nat>)
    requires Paired(m, r, [i], [t])
    ensures Paired(m, r, [i] + us, [t])
  {
    assert ([i] + us)[..1] == [i][..1];
    assert ([i] + us)[0] == [i][0];
  }

  lemma PairedNone(m: Mt, ts: seq<Taker>)
    ensures Paired(m, m, [], ts)
  {
  }

  /** The scan of the leaf entries from entry i on. */
  lemma {:induction false} ScanPairs(m: Mt, i: nat)
    requires Geometry(m) && i <= m.edges
    ensures Paired(m, HandleLevel0(m, i).0, UsableEntries(m.level1.entries, m.edges, m.gen, i), Takers(m))
    decreases m.edges - i
  {
    if i == m.edges {
      PairedNone(m, Takers(m));
      assert UsableEntries(m.level1.entries, m.edges, m.gen, i) == [];
    } else if UsableEntry(m.level1.entries[i], m.gen) {
      ScanPairsOne(m, i);
    } else {
      ScanSkips(m, i);
      ScanPairs(m, i + 1);
    }
  }

  lemma ScanSkips(m: Mt, i: nat)
    requires Geometry(m) && i < m.edges && !UsableEntry(m.level1.entries[i], m.gen)
    ensures HandleLevel0(m, i) == HandleLevel0(m, i + 1)
    ensures UsableEntries(m.level1.entries, m.edges, m.gen, i) == UsableEntries(m.level1.entries, m.edges, m.gen, i + 1)
  {
  }

  lemma ScanPairsOne(m: Mt, i: nat)
    requires Geometry(m) && i < m.edges && UsableEntry(m.level1.entries[i], m.gen)
    ensures Paired(m, HandleLevel0(m, i).0, UsableEntries(m.level1.entries, m.edges, m.gen, i), Takers(m))
    decreases m.edges - i, 0
  {
    var m1, t := ExchangeEntry(m, i), FirstTaker(m);
    var us := UsableEntries(m.level1.entries, m.edges, m.gen, i + 1);
    assert UsableEntries(m.level1.entries, m.edges, m.gen, i) == [i] + us;
    ExchangeServesFirst(m, i);
    ExchangePairs(m, i);
    if ServesRequest(m) {
      PairedFirst(m, m1, i, Requester, us);
    } else {
      ScanPairs(m1, i + 1);
      FirstIsNotAgain(m, i);
      UsableBehind(m, m1, i, t);
      PairedMore(m, m1, HandleLevel0(m1, i + 1).0, i, t, us, Takers(m1));
    }
  }

  lemma UsableBehind(m: Mt, m1: Mt, i: nat, t: Taker)
    requires Geometry(m) && i < m.edges && Paired(m, m1, [i], [t])
    ensures var us := UsableEntries(m.level1.entries, m.edges, m.gen, i + 1);
            i !in us && UsableEntries(m1.level1.entries, m.edges, m.gen, i + 1) == us
  {
    if i in UsableEntries(m.level1.entries, m.edges, m.gen, i + 1) {
      UsableEntriesFrom(m.level1.entries, m.edges, m.gen, i + 1, i);
    }
    forall k | i + 1 <= k < m.edges ensures m1.level1.entries[k] == m.level1.entries[k] {
      assert k !in [i][..1];
    }
    SameUsable(m.level1.entries, m1.level1.entries, m.edges, m.gen, i + 1);
  }

  lemma {:induction false} HandledIff(m: Mt, i: nat)
    requires Geometry(m) && i <= m.edges
    ensures HandleLevel0(m, i).1 == (UsableEntries(m.level1.entries, m.edges, m.gen, i) != [])
    decreases m.edges - i
  {
    if i < m.edges && !UsableEntry(m.level1.entries[i], m.gen) {
      HandledIff(m, i + 1);
    }
  }

  /** When the lowest node is loaded, the next round serves its usable entries in this
      way, and the request is served if and only if there are more of them than nodes
      that take part.  */
  lemma RoundPairs(c: Codec, m: Mt)
    requires CanExecute(m) && m.state == Update && m.request == NoRequest && m.level1.state == ReadComplete && !m.finished
    ensures var r := Execute(c, m);
            var us, ts := UsableEntries(m.level1.entries, m.edges, m.gen, 0), Takers(m);
            && Paired(m, r, us, ts)
            && (r.finished <==> |us| >= |ts|)
            && r.level1.state == (if us == [] then InfoState.Complete else InfoState.Write)
  {
    ScanPairs(m, 0);
    HandledIff(m, 0);
    var us, ts := UsableEntries(m.level1.entries, m.edges, m.gen, 0), Takers(m);
    RequesterIsLast(m, Least(|us|, |ts|));
  }

  lemma RequesterIsLast(m: Mt, n: nat)
    requires Geometry(m) && n <= |Takers(m)|
    ensures Requester in Takers(m)[..n] <==> n == |Takers(m)|
  {
    var ts := Takers(m);
    assert ts[|ts| - 1] == Requester;
    if n < |ts| && Requester in ts[..n] {
      var j :| 0 <= j < n && ts[j] == Requester;
      if ts[j] in InnerTakers(m.levels, FIRST_N) {
        InnerTakersFrom(m.levels, FIRST_N, ts[j]);
      }
    }
  }
}
