/** What no round of a meta tree request changes. */
module MetaTreeParameters {
  import opened NodeCodec
  import opened HashTree
  import opened MetaTreeSpec

  /** Execution only generates requests for levels of the tree. */
  lemma GeneratedRequestInRange(c: Codec, m: Mt)
    requires CanExecute(m) && m.request == NoRequest
    ensures var r := Execute(c, m); r.request.Request? ==> RequestInRange(r) && !r.request.inProgress
  {
    if m.state == Update && m.level1.state == ReadComplete {
      HandleLevel0KeepsRequest(m, 0);
    }
  }

  /** As long as the request is not served, the new address is the one that an
      earlier request left behind. */
  predicate KeepsStale(m: Mt, r: Mt)
  {
    !r.finished ==> !m.finished && r.newPba == m.newPba
  }

  ghost predicate SameParameters(m: Mt, r: Mt)
  {
    r.maxLevel == m.maxLevel && r.edges == m.edges && r.gen == m.gen && r.oldPba == m.oldPba
  }

  lemma {:induction false} HandleLevel0KeepsRequest(m: Mt, i: nat)
    requires Geometry(m) && i <= m.edges
    ensures HandleLevel0(m, i).0.request == m.request && SameParameters(m, HandleLevel0(m, i).0) && KeepsStale(m, HandleLevel0(m, i).0)
    decreases m.edges - i
  {
    if i < m.edges {
      var m1 := if UsableEntry(m.level1.entries[i], m.gen) then ExchangeEntry(m, i) else m;
      HandleLevel0KeepsRequest(m1, i + 1);
    }
  }

  lemma HandleLevel1KeepsParameters(c: Codec, m: Mt)
    requires CanStep1(m) && m.level1.state != Invalid
    ensures SameParameters(m, HandleLevel1(c, m)) && KeepsStale(m, HandleLevel1(c, m))
  {
    if m.level1.state == ReadComplete {
      HandleLevel0KeepsRequest(m, 0);
    }
  }

  lemma HandleLevelNKeepsParameters(c: Codec, m: Mt, l: nat)
    requires CanStepN(m, l) && m.levels[l].state != Invalid
    ensures SameParameters(m, HandleLevelN(c, m, l)) && KeepsStale(m, HandleLevelN(c, m, l))
  {
  }

  lemma ExecuteKeepsParameters(c: Codec, m: Mt)
    requires CanExecute(m)
    ensures SameParameters(m, Execute(c, m)) && KeepsStale(m, Execute(c, m))
  {
    var l := FirstActive(m.levels, FIRST_N);
    if m.level1.state != Invalid {
      HandleLevel1KeepsParameters(c, m);
    } else if l < NR_OF_LEVELS && m.state == Update {
      HandleLevelNKeepsParameters(c, m, l);
    }
  }

  lemma MarkKeepsParameters(c: Codec, m: Mt, data: Block)
    requires RequestInRange(m)
    ensures SameParameters(m, MarkComplete(c, m, data)) && KeepsStale(m, MarkComplete(c, m, data)) && MarkComplete(c, m, data).request == NoRequest
  {
  }

  lemma AdvanceKeepsParameters(c: Codec, m: Mt, disk: Disk)
    requires CanExecute(m) && m.request == NoRequest
    ensures SameParameters(m, Advance(c, m, disk).0) && KeepsStale(m, Advance(c, m, disk).0) && Advance(c, m, disk).0.request == NoRequest
  {
    GeneratedRequestInRange(c, m);
    ExecuteKeepsParameters(c, m);
    var m1 := Execute(c, m);
    if RequestInRange(m1) {
      MarkKeepsParameters(c, m1, if m1.request.write then m1.request.data else ReadBlock(disk, m1.request.pba));
    }
  }
}
