/** The hash check of the extension step, on any device: a node on the path whose
    block does not have the hash that its parent holds stops the step before it has
    written anything.  */
module FtHashCheck {
  import opened NodeCodec
  import opened HashTree
  import opened TreeIndex
  import opened FtSpec
  import opened FtTheorems
  import opened Iteration
  import opened NodeBytes
  import MT = MetaTreeSpec
  import R = FtRead

  // ------------------------------------------------------------------- one block

  /** The block that the step hashes: the entries it decoded, encoded again. */
  function Rewritten(c: Codec, data: Block, l: nat): Block
  {
    if l > 1 then c.enc1(c.dec1(data)) else c.enc2(c.dec2(data))
  }

  /** The node that describes the block at the current level. */
  function Expected(j: Job): T1
    requires Shaped(j) && 1 <= j.lvl <= j.maxLevel
  {
    if j.lvl == j.maxLevel then j.root else j.t1[j.lvl + 1][ChildIndex(j.vba, j.lvl + 1, j.edges)]
  }

  ghost predicate ReadsBlock(j: Job)
  {
    && Shaped(j) && 1 <= j.lvl <= j.maxLevel && Reading(j.state)
    && (j.state.ReadRootPending? ==> j.lvl == j.maxLevel)
  }

  /** The read is served in the first round, checked in the second one. */
  function ReadAndCheck(c: Codec, w: World): World
    requires ReadsBlock(w.job)
  {
    Advance(c, Advance(c, w))
  }

  /** After reading a block the step raises if and only if the hash differs from the
      expected one, or if the lowest entry on the path is in use; neither the device
      nor the supply of addresses has changed then or if it goes on. */
  lemma ReadIsChecked(c: Codec, w: World)
    requires ReadsBlock(w.job)
    ensures var j, data, r := w.job, MT.ReadBlock(w.disk, w.job.block), ReadAndCheck(c, w);
            && (r.job.state.Raised?
                <==> (|| c.hash(Rewritten(c, data, j.lvl)) != Expected(j).hash
                      || (j.lvl == 1 && c.dec2(data)[ChildIndex(j.vba, 1, j.edges)].pba != 0)))
            && r.disk == w.disk && r.written == w.written
            && (c.hash(Rewritten(c, data, j.lvl)) != Expected(j).hash ==> r.supply == w.supply && r.swaps == w.swaps)
  {
    ReadIsServed(c, w);
    CheckDecides(c, Advance(c, w));
  }

  /** The entries at the current level are those of the block. */
  predicate Loaded(c: Codec, j: Job, data: Block)
    requires Shaped(j) && 1 <= j.lvl
  {
    if j.lvl > 1 then j.t1[j.lvl] == c.dec1(data) else j.t2 == c.dec2(data)
  }

  predicate JustRead(j: Job)
  {
    Shaped(j) && 1 <= j.lvl <= j.maxLevel && (j.state.ReadRootCompleted? || j.state.ReadInnerCompleted?)
  }

  lemma ReadIsServed(c: Codec, w: World)
    requires ReadsBlock(w.job)
    ensures var j, r := w.job, Advance(c, w);
            && JustRead(r.job) && r == w.(job := r.job) && r.job.lvl == j.lvl && Expected(r.job) == Expected(j)
            && r.job.vba == j.vba && r.job.edges == j.edges && Loaded(c, r.job, MT.ReadBlock(w.disk, j.block))
  {
  }

  lemma CheckDecides(c: Codec, w: World)
    requires JustRead(w.job)
    ensures CanExecute(w.job)
    ensures var j, r := w.job, Advance(c, w);
            var h := if j.lvl > 1 then c.hash(c.enc1(j.t1[j.lvl])) else c.hash(c.enc2(j.t2));
            && (r.job.state.Raised?
                <==> h != Expected(j).hash || (j.lvl == 1 && j.t2[ChildIndex(j.vba, 1, j.edges)].pba != 0))
            && r.disk == w.disk && r.written == w.written
            && (h != Expected(j).hash ==> r == w.(job := j.(state := Raised)))
  {
    CheckResult(c, w.job);
    NoReadServed(c, w.(job := Execute(c, w.job)));
  }

  lemma CheckResult(c: Codec, j: Job)
    requires JustRead(j)
    ensures var r := ReadCompleted(c, j);
            var h := if j.lvl > 1 then c.hash(c.enc1(j.t1[j.lvl])) else c.hash(c.enc2(j.t2));
            && !Writing(r.state) && (Reading(r.state) ==> r.lvl > 0)
            && (r.state.Raised?
                <==> h != Expected(j).hash || (j.lvl == 1 && j.t2[ChildIndex(j.vba, 1, j.edges)].pba != 0))
            && (h != Expected(j).hash ==> r == j.(state := Raised))
  {
  }

  lemma NoReadServed(c: Codec, w: World)
    requires Shaped(w.job) && !Writing(w.job.state)
    ensures var r := Serve(c, w);
            && r.disk == w.disk && r.written == w.written
            && (w.job.state.Raised? ==> r == w)
            && (!w.job.state.Raised? && (Reading(w.job.state) ==> w.job.lvl > 0) ==> !r.job.state.Raised?)
  {
  }

  // -------------------------------------------------------------------- whole runs

  /** Following the path of address vba down from the given node, one of the blocks
      does not have the hash that its parent holds. */
  ghost predicate MeetsBadBlock(c: Codec, disk: Disk, node: T1, vba: nat, l: nat, edges: nat)
    requires ValidDegree(edges)
    decreases l
  {
    l > 0 &&
    var data := MT.ReadBlock(disk, node.pba);
    || c.hash(Rewritten(c, data, l)) != node.hash
    || (l > 1 && var child := c.dec1(data)[ChildIndex(vba, l, edges)];
                 child.pba != 0 && MeetsBadBlock(c, disk, child, vba, l - 1, edges))
  }

  /** A block of the path is in memory, a bad one is still ahead or just read. */
  ghost predicate BadAhead(c: Codec, o: World, w: World)
  {
    var j := w.job;
    && JustRead(j) && w == o.(job := j)
    && Loaded(c, j, MT.ReadBlock(o.disk, Expected(j).pba))
    && MeetsBadBlock(c, o.disk, Expected(j), j.vba, j.lvl, j.edges)
  }

  ghost predicate Stopped(o: World, w: World)
  {
    w == o.(job := w.job) && w.job.state.Raised? && Shaped(w.job)
  }

  /** Submitted for a tree whose path to the first unused leaf has a bad block. */
  ghost predicate BadRequest(c: Codec, o: World)
  {
    var j := o.job;
    && Shaped(j) && j.state.Submitted?
    && MaxMaxVba(j.edges, j.maxLevel).Some? && j.nrLeaves <= MaxMaxVba(j.edges, j.maxLevel).value
    && MeetsBadBlock(c, o.disk, j.root, j.nrLeaves, j.maxLevel, j.edges)
  }

  lemma BadStart(c: Codec, o: World)
    requires BadRequest(c, o)
    ensures BadAhead(c, o, Advance(c, o)) && Advance(c, o).job.lvl == o.job.maxLevel
  {
  }

  lemma BadRound(c: Codec, o: World, w: World)
    requires BadAhead(c, o, w)
    ensures CanExecute(w.job)
    ensures var r := Advance(c, w);
            Stopped(o, r) || (w.job.lvl > 1 && BadAhead(c, o, r) && r.job.lvl == w.job.lvl - 1)
  {
    CheckDecides(c, w);
    if !HashMismatch(c, w.job) {
      NextIsRead(c, w);
    }
  }

  /** A node that passed the check is left for the child on the path, if there is one. */
  lemma NextIsRead(c: Codec, w: World)
    requires JustRead(w.job) && !HashMismatch(c, w.job) && w.job.lvl > 1
    requires w.job.t1[w.job.lvl][ChildIndex(w.job.vba, w.job.lvl, w.job.edges)].pba != 0
    ensures CanExecute(w.job)
    ensures var j, r, child := w.job, Advance(c, w).job, w.job.t1[w.job.lvl][ChildIndex(w.job.vba, w.job.lvl, w.job.edges)];
            && Advance(c, w) == w.(job := r) && JustRead(r) && r.lvl == j.lvl - 1 && Expected(r) == child
            && r.vba == j.vba && r.edges == j.edges && Loaded(c, r, MT.ReadBlock(w.disk, child.pba))
  {
    R.DescendEffect(c, w);
  }

  /** Submitted, or with the bad block still ahead, and at most i + 1 rounds to go. */
  ghost predicate BadRun(c: Codec, o: World, w: World, i: nat)
  {
    || (w == o && BadRequest(c, o) && i == o.job.maxLevel)
    || (BadAhead(c, o, w) && w.job.lvl <= i + 1)
  }

  lemma BadFalls(c: Codec, o: World, w: World, i: nat)
    requires BadRun(c, o, w, i)
    ensures Stopped(o, Stepper(c)(w)) || (i > 0 && BadRun(c, o, Stepper(c)(w), i - 1))
  {
    if BadAhead(c, o, w) {
      BadRound(c, o, w);
    } else {
      BadStart(c, o);
    }
  }

  lemma StoppedStays(c: Codec, o: World, w: World)
    requires Stopped(o, w)
    ensures Stepper(c)(w) == w
  {
  }

  lemma BadRuns(c: Codec, o: World, n: nat)
    requires BadRequest(c, o)
    ensures Stopped(o, Run(c, o, n)) || (n <= o.job.maxLevel && BadRun(c, o, Run(c, o, n), o.job.maxLevel - n))
  {
    var inv := (w: World, i: nat) => BadRun(c, o, w, i);
    var end := (w: World) => Stopped(o, w);
    forall w, i ensures StepFalls(Stepper(c), inv, end, w, i) {
      if inv(w, i) {
        BadFalls(c, o, w, i);
      }
    }
    forall w | end(w) ensures Stepper(c)(w) == w {
      StoppedStays(c, o, w);
    }
    IterateEnds(Stepper(c), inv, end, o, o.job.maxLevel, n);
  }

  /** On any device: if the path to the first unused leaf meets a block with a wrong
      hash, no run of the step writes a block or asks for an address, and the step has
      raised after one round for each level and one for the submission. */
  lemma BadBlockStopsStep(c: Codec, o: World, n: nat)
    requires BadRequest(c, o)
    ensures var r := Run(c, o, n);
            && r.disk == o.disk && r.written == o.written && r.supply == o.supply && r.swaps == o.swaps
            && !r.job.state.Completed?
            && (n > o.job.maxLevel ==> r.job.state.Raised?)
  {
    BadRuns(c, o, n);
  }

  // ------------------------------------------------ what the check of the step misses

  function FormatCodec(hash: Block -> Hash): Codec
  {
    CbeCodecRoundTrips(hash);
    CbeCodec(hash)
  }

  /** A block whose padding is zero is checked itself: the source hashes the entries
      that it decoded and encoded again. */
  lemma PaddedIsChecked(hash: Block -> Hash, data: Block, l: nat)
    requires if l > 1 then Padded1(data) else Padded2(data)
    ensures Rewritten(FormatCodec(hash), data, l) == data
  {
    T1RewrittenIff(data);
    T2RewrittenIff(data);
  }

  /** A block that differs from a node block of the format in padding bytes only has
      the same effect: the step goes on with it, whatever its own hash is.  */
  lemma PaddingIsNotChecked(hash: Block -> Hash, w: World, ns: T1Block, data: Block)
    requires ReadsBlock(w.job) && w.job.lvl > 1
    requires forall i, k | 0 <= i < NODES_PER_BLOCK && 0 <= k < 48 :: RecordOf(data, i)[k] == RecordOf(EncodeT1Block(ns), i)[k]
    ensures Advance(FormatCodec(hash), w.(disk := w.disk[w.job.block := data])).job
         == Advance(FormatCodec(hash), w.(disk := w.disk[w.job.block := EncodeT1Block(ns)])).job
  {
    SameRecords(data, EncodeT1Block(ns));
    ReadLoads(FormatCodec(hash), w.(disk := w.disk[w.job.block := data]));
    ReadLoads(FormatCodec(hash), w.(disk := w.disk[w.job.block := EncodeT1Block(ns)]));
  }

  lemma ReadLoads(c: Codec, w: World)
    requires ReadsBlock(w.job)
    ensures Advance(c, w).job == MarkRead(c, w.job.(state := Drop(w.job.state)), MT.ReadBlock(w.disk, w.job.block))
  {
  }

  lemma SameRecords(a: Block, b: Block)
    requires forall i, k | 0 <= i < NODES_PER_BLOCK && 0 <= k < 48 :: RecordOf(a, i)[k] == RecordOf(b, i)[k]
    ensures DecodeT1Block(a) == DecodeT1Block(b)
  {
    forall i: nat | i < NODES_PER_BLOCK ensures DecodeT1(RecordOf(a, i)) == DecodeT1(RecordOf(b, i)) {
      assert RecordOf(a, i)[..48] == RecordOf(b, i)[..48];
      SameFields(RecordOf(a, i), RecordOf(b, i));
    }
    forall i: nat | i < NODES_PER_BLOCK ensures DecodeT1Block(a)[i] == DecodeT1Block(b)[i] {
      assert DecodeT1(RecordOf(a, i)) == DecodeT1(RecordOf(b, i));
    }
  }

  lemma SameFields(s: seq<Byte>, t: seq<Byte>)
    requires |s| == |t| == NODE_BYTES && s[..48] == t[..48]
    ensures DecodeT1(s) == DecodeT1(t)
  {
    assert s[0..8] == s[..48][0..8] && s[8..16] == s[..48][8..16] && s[16..48] == s[..48][16..48];
    assert t[0..8] == t[..48][0..8] && t[8..16] == t[..48][8..16] && t[16..48] == t[..48][16..48];
  }
}
