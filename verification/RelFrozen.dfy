/** A whole vacuum, as far as relfrozenxid and relminmxid are concerned: which pages are skipped, and
    why the values it ends up with are safe. */
module RelFrozen {
  import opened Base
  import opened TupleHeader
  import opened MultiXact
  import opened Visibility
  import opened Freeze
  import opened PageFreeze

  const SKIP_PAGES_THRESHOLD: nat := 32

  datatype VmBits = VmBits(allVisible: bool, allFrozen: bool)

  /** What vacuum finds at a block when it gets there: whether it can have a cleanup lock at once, the
      page it sees with a share lock, and the page it sees, once pruned, with a cleanup lock. */
  datatype BlockRead = BlockRead(cleanupLock: bool, shared: seq<Item>, pruned: seq<Item>, w: World, fpi: bool)

  /** Blocks that may be skipped: never the last one, and in an aggressive vacuum only frozen ones. */
  predicate Skippable(vm: seq<VmBits>, b: int, aggressive: bool) {
    0 <= b < |vm| - 1 && vm[b].allVisible && (aggressive ==> vm[b].allFrozen)
  }

  /** The same, in a vacuum that goes by the visibility map at all. */
  predicate MaySkip(vm: seq<VmBits>, b: int, aggressive: bool, skipWithVm: bool) {
    skipWithVm && Skippable(vm, b, aggressive)
  }

  /** Block `b` is one of so many in a row that it is worth the while to skip them. */
  ghost predicate InLongRun(vm: seq<VmBits>, b: int, aggressive: bool, skipWithVm: bool) {
    exists lo, hi :: LongRun(vm, lo, hi, aggressive, skipWithVm) && lo <= b < hi
  }

  ghost predicate LongRun(vm: seq<VmBits>, lo: int, hi: int, aggressive: bool, skipWithVm: bool) {
    hi - lo >= SKIP_PAGES_THRESHOLD && forall b :: lo <= b < hi ==> MaySkip(vm, b, aggressive, skipWithVm)
  }

  /** Within a run between two blocks that may not be skipped, its length decides. */
  lemma RunDecides(vm: seq<VmBits>, lo: int, hi: int, b: int, aggressive: bool, skipWithVm: bool)
    requires lo <= b < hi && forall x :: lo <= x < hi ==> MaySkip(vm, x, aggressive, skipWithVm)
    requires !MaySkip(vm, lo - 1, aggressive, skipWithVm) && !MaySkip(vm, hi, aggressive, skipWithVm)
    ensures InLongRun(vm, b, aggressive, skipWithVm) <==> hi - lo >= SKIP_PAGES_THRESHOLD
  {
    if hi - lo >= SKIP_PAGES_THRESHOLD {
      assert LongRun(vm, lo, hi, aggressive, skipWithVm);
    }
    forall l, h | LongRun(vm, l, h, aggressive, skipWithVm) && l <= b < h ensures lo <= l && h <= hi {
      assert l <= lo - 1 ==> MaySkip(vm, lo - 1, aggressive, skipWithVm);
      assert hi < h ==> MaySkip(vm, hi, aggressive, skipWithVm);
    }
  }

  /** lazy_scan_skip: the next block that must be scanned, and whether to skip those before it. */
  method ScanSkip(rel: VacRel, vm: seq<VmBits>, nextBlock: nat)
    returns (nextUnskippable: nat, allVis: bool, skipping: bool)
    requires nextBlock <= |vm|
    modifies rel`skippedAllVis
    ensures nextBlock <= nextUnskippable <= |vm| && (nextBlock < |vm| ==> nextUnskippable < |vm|)
    ensures forall b :: nextBlock <= b < nextUnskippable ==> Skippable(vm, b, rel.aggressive)
    ensures skipping <==> nextUnskippable - nextBlock >= SKIP_PAGES_THRESHOLD
    ensures rel.skippedAllVis == (old(rel.skippedAllVis) ||
                                  (skipping && exists b :: nextBlock <= b < nextUnskippable && !vm[b].allFrozen))
    ensures nextUnskippable < |vm| ==>
      nextUnskippable == |vm| - 1 || !rel.skipWithVm || !Skippable(vm, nextUnskippable, rel.aggressive)
    ensures !rel.skipWithVm ==> nextUnskippable == nextBlock
    ensures skipping ==> forall b :: nextBlock <= b < nextUnskippable ==>
      vm[b].allVisible && (vm[b].allFrozen || rel.skippedAllVis)
    ensures rel.aggressive ==> rel.skippedAllVis == old(rel.skippedAllVis)
  {
    nextUnskippable, allVis := nextBlock, true;
    var skipsAllVis := false;
    while nextUnskippable < |vm|
      invariant nextBlock <= nextUnskippable <= |vm| && (nextBlock < |vm| ==> nextUnskippable < |vm|)
      invariant forall b :: nextBlock <= b < nextUnskippable ==> Skippable(vm, b, rel.aggressive)
      invariant skipsAllVis <==> exists b :: nextBlock <= b < nextUnskippable && !vm[b].allFrozen
      invariant !rel.skipWithVm ==> nextUnskippable == nextBlock
      invariant forall b :: nextBlock <= b < nextUnskippable ==> vm[b].allVisible
      invariant rel.aggressive ==> !skipsAllVis
    {
      var bits := vm[nextUnskippable];
      if !bits.allVisible {
        allVis := false;
        break;
      }
      if nextUnskippable == |vm| - 1 {
        break;
      }
      if !rel.skipWithVm {
        allVis := false;
        break;
      }
      if !bits.allFrozen {
        if rel.aggressive {
          break;
        }
        skipsAllVis := true;
      }
      nextUnskippable := nextUnskippable + 1;
    }
    skipping := nextUnskippable - nextBlock >= SKIP_PAGES_THRESHOLD;
    if skipping && skipsAllVis {
      rel.skippedAllVis := true;
    }
  }

  ghost predicate SoundRead(x: BlockRead, c: Cutoffs, store: MultiStore, next: nat) {
    x.w.Valid() && SoundItems(x.pruned, x.w, store, next) && !AnyDead(x.pruned, c, x.w, store) &&
      SoundItems(x.shared, x.w, store, next)
  }

  /** No transaction below the horizon is running, and no tuple is older than the cutoffs allow. */
  ghost predicate HealthyRead(x: BlockRead, c: Cutoffs, store: MultiStore) {
    HorizonHolds(c, x.w) && !AnyCorrupt(x.pruned, c, x.w, store)
  }

  /** What a scan leaves of a block: without a cleanup lock the page as it was, unless an aggressive vacuum has to
      wait for the lock; and else a page that nobody can tell from the pruned one. */
  ghost predicate ReadOff(x: BlockRead, c: Cutoffs, aggressive: bool, store0: MultiStore, items: seq<Item>,
                          store: MultiStore) {
    if !x.cleanupLock && !(aggressive && AnyOverdue(x.shared, c, store0)) then items == x.shared
    else HorizonHolds(c, x.w) ==> SamePage(x.pruned, store0, items, store, c, x.w)
  }

  /** Scan one block that is not skipped. */
  method ScanBlock(rel: VacRel, x: BlockRead, mx: MultiXacts) returns (r: Result<seq<Item>>)
    requires rel.Valid() && mx.Valid() && rel.c.oldestMxact <= mx.next && mx.store.Valid()
    requires SoundRead(x, rel.c, mx.store, mx.next)
    modifies rel`newRelfrozenXid, rel`newRelminMxid, mx
    ensures mx.Valid() && old(mx.next) <= mx.next && mx.store.Valid() && Grown(old(mx.store), mx.store, old(mx.next))
    ensures r.Ok? ==>
      rel.Valid() && Left(r.value, mx.store, rel.newRelfrozenXid, rel.newRelminMxid) && KnownMultis(r.value, mx.next)
    ensures r.Ok? ==> ReadOff(x, rel.c, rel.aggressive, old(mx.store), r.value, mx.store)
    ensures r.Ok? ==> rel.newRelfrozenXid <= old(rel.newRelfrozenXid) && rel.newRelminMxid <= old(rel.newRelminMxid)
    ensures r.Ok? ==>
      rel.newRelfrozenXid == old(rel.newRelfrozenXid) || PageXid(r.value, mx.store, rel.newRelfrozenXid)
    ensures r.Ok? ==> rel.newRelminMxid == old(rel.newRelminMxid) || PageMxid(r.value, rel.newRelminMxid)
    ensures r.Ok? && rel.aggressive && rel.c.freezeLimit <= old(rel.newRelfrozenXid) ==>
      rel.c.freezeLimit <= rel.newRelfrozenXid
    ensures r.Ok? && rel.aggressive && rel.c.multiXactCutoff <= old(rel.newRelminMxid) ==>
      rel.c.multiXactCutoff <= rel.newRelminMxid
    ensures r.Err? ==> !HealthyRead(x, rel.c, old(mx.store))
  {
    if !x.cleanupLock {
      var enough := rel.LazyScanNoprune(x.shared, mx.store);
      if enough {
        return Ok(x.shared);
      }
    }
    var page := new Page(x.pruned);
    var state, retry, hinted := rel.LazyScanPrune(page, x.w, mx, x.fpi);
    r := if state.Ok? then Ok(page.items) else Err(state.error);
  }

  // ---- A whole run ----

  lemma LeftStays(items: seq<Item>, store: MultiStore, store': MultiStore, n: nat, n': nat, xid: nat, mxid: nat,
                  xid': nat, mxid': nat)
    requires Left(items, store, xid, mxid) && KnownMultis(items, n) && Grown(store, store', n) && n <= n' &&
      xid' <= xid && mxid' <= mxid
    ensures Left(items, store', xid', mxid') && KnownMultis(items, n')
  {
    forall i | 0 <= i < |items| && items[i].LpTuple?
      ensures XidsFrom(xid', items[i].h, store') && MxidsFrom(mxid', items[i].h)
    {
      GrowthIsHarmless(items[i].h, store, store', n);
      assert forall x: nat :: HasXid(items[i].h, store', x) == HasXid(items[i].h, store, x);
    }
  }

  lemma ReadStaysSound(x: BlockRead, c: Cutoffs, store: MultiStore, store': MultiStore, n: nat, n': nat)
    requires SoundRead(x, c, store, n) && Grown(store, store', n) && n <= n'
    ensures SoundRead(x, c, store', n')
    ensures HealthyRead(x, c, store) ==> HealthyRead(x, c, store')
  {
    forall i | 0 <= i < |x.pruned| && x.pruned[i].LpTuple?
      ensures SoundTuple(x.pruned[i].h, x.w, store', n') && !FateAt(x.pruned[i].h, c.oldestXmin, x.w, store').Dead?
    {
      StillSound(x.pruned[i].h, c, x.w, store, store', n, n');
    }
    forall i | 0 <= i < |x.pruned| && x.pruned[i].LpTuple?
      ensures Uncorrupted(x.pruned[i].h, c, x.w, store') == Uncorrupted(x.pruned[i].h, c, x.w, store)
    {
      GrowthKeepsAll(x.pruned[i].h, store, store', n, c, x.w);
    }
    forall i | 0 <= i < |x.shared| && x.shared[i].LpTuple? ensures SoundTuple(x.shared[i].h, x.w, store', n') {
      StillSound(x.shared[i].h, c, x.w, store, store', n, n');
    }
  }

  /** What is known of a block the scan has passed. */
  ghost predicate Passed(a: Option<seq<Item>>, bits: VmBits, store: MultiStore, next: nat, xid: nat, mxid: nat,
                         skippedAllVis: bool) {
    if a.Some? then Left(a.value, store, xid, mxid) && KnownMultis(a.value, next)
    else bits.allVisible && (bits.allFrozen || skippedAllVis)
  }

  lemma StillPassed(a: Option<seq<Item>>, bits: VmBits, store: MultiStore, store': MultiStore, n: nat, n': nat,
                    xid: nat, mxid: nat, xid': nat, mxid': nat, skipped: bool, skipped': bool)
    requires Passed(a, bits, store, n, xid, mxid, skipped)
    requires Grown(store, store', n) && n <= n' && xid' <= xid && mxid' <= mxid && (skipped ==> skipped')
    ensures Passed(a, bits, store', n', xid', mxid', skipped')
  {
    if a.Some? {
      LeftStays(a.value, store, store', n, n', xid, mxid, xid', mxid');
    }
  }

  /** The blocks passed so far stay so while one more is scanned. */
  lemma AllStillPassed(after: seq<Option<seq<Item>>>, vm: seq<VmBits>, store: MultiStore, store': MultiStore, n: nat,
                       n': nat, xid: nat, mxid: nat, xid': nat, mxid': nat, skipped: bool, skipped': bool)
    requires |after| <= |vm| && Grown(store, store', n) && n <= n' && xid' <= xid && mxid' <= mxid
    requires skipped ==> skipped'
    requires forall b :: 0 <= b < |after| ==> Passed(after[b], vm[b], store, n, xid, mxid, skipped)
    ensures forall b :: 0 <= b < |after| ==> Passed(after[b], vm[b], store', n', xid', mxid', skipped')
  {
    forall b | 0 <= b < |after| ensures Passed(after[b], vm[b], store', n', xid', mxid', skipped') {
      StillPassed(after[b], vm[b], store, store', n, n', xid, mxid, xid', mxid', skipped, skipped');
    }
  }

  /** What is left of a block that has been scanned, seen from the start and the end of the whole scan. */
  lemma StillReadOff(x: BlockRead, c: Cutoffs, aggressive: bool, store0: MultiStore, store: MultiStore, n: nat,
                     items: seq<Item>, store1: MultiStore, store': MultiStore, n1: nat, next0: nat)
    requires ReadOff(x, c, aggressive, store, items, store1) && KnownMultis(items, n1)
    requires Grown(store1, store', n1)
    requires SoundRead(x, c, store0, next0) && Grown(store0, store, next0)
    ensures ReadOff(x, c, aggressive, store0, items, store')
  {
    forall i | 0 <= i < |x.shared| && x.shared[i].LpTuple? ensures KnownMulti(x.shared[i].h, next0) {
      assert SoundTuple(x.shared[i].h, x.w, store0, next0);
    }
    GrowthKeepsPage(x.shared, c, x.w, store0, store, next0);
    if SamePage(x.pruned, store, items, store1, c, x.w) {
      forall i | 0 <= i < |x.pruned| && x.pruned[i].LpTuple?
        ensures SameToAll(x.pruned[i].h, store0, items[i].h, store', c, x.w)
      {
        assert SoundTuple(x.pruned[i].h, x.w, store0, next0);
        GrowthKeepsAll(x.pruned[i].h, store0, store, next0, c, x.w);
        GrowthKeepsAll(items[i].h, store1, store', n1, c, x.w);
        SameToAllTwice(x.pruned[i].h, store0, x.pruned[i].h, store, items[i].h, store1, c, x.w);
        SameToAllTwice(x.pruned[i].h, store0, items[i].h, store1, items[i].h, store', c, x.w);
      }
    }
  }

  /** Every scanned block is read off, and trackers that have moved are at something that is left. */
  ghost predicate AllReadOff(blocks: seq<BlockRead>, after: seq<Option<seq<Item>>>, c: Cutoffs, aggressive: bool,
                             store0: MultiStore, store: MultiStore, next: nat) {
    |after| <= |blocks| && forall b :: 0 <= b < |after| && after[b].Some? ==>
      ReadOff(blocks[b], c, aggressive, store0, after[b].value, store) && KnownMultis(after[b].value, next)
  }

  ghost predicate Reached(after: seq<Option<seq<Item>>>, c: Cutoffs, store: MultiStore, xid: nat, mxid: nat) {
    && (xid == c.oldestXmin || exists b :: 0 <= b < |after| && after[b].Some? && PageXid(after[b].value, store, xid))
    && (mxid == c.oldestMxact || exists b :: 0 <= b < |after| && after[b].Some? && PageMxid(after[b].value, mxid))
  }

  lemma AllStillReadOff(blocks: seq<BlockRead>, after: seq<Option<seq<Item>>>, c: Cutoffs, aggressive: bool,
                        store0: MultiStore, next0: nat, store: MultiStore, n: nat, store': MultiStore, n': nat)
    requires AllReadOff(blocks, after, c, aggressive, store0, store, n) && Grown(store, store', n) && n <= n'
    requires forall b :: 0 <= b < |blocks| ==> SoundRead(blocks[b], c, store0, next0)
    ensures AllReadOff(blocks, after, c, aggressive, store0, store', n')
  {
    forall b | 0 <= b < |after| && after[b].Some?
      ensures ReadOff(blocks[b], c, aggressive, store0, after[b].value, store') && KnownMultis(after[b].value, n')
    {
      StillReadOff(blocks[b], c, aggressive, store0, store0, n, after[b].value, store, store', n, next0);
    }
  }

  lemma StillReached(blocks: seq<BlockRead>, after: seq<Option<seq<Item>>>, last: seq<Item>, c: Cutoffs,
                     aggressive: bool, store0: MultiStore, store: MultiStore, n: nat, store': MultiStore, xid: nat,
                     mxid: nat, xid': nat, mxid': nat)
    requires AllReadOff(blocks, after, c, aggressive, store0, store, n) && Grown(store, store', n)
    requires Reached(after, c, store, xid, mxid)
    requires (xid' == xid || PageXid(last, store', xid')) && (mxid' == mxid || PageMxid(last, mxid'))
    ensures Reached(after + [Some(last)], c, store', xid', mxid')
  {
    var all := after + [Some(last)];
    assert all[|after|] == Some(last) && forall b :: 0 <= b < |after| ==> all[b] == after[b];
    if xid' == xid != c.oldestXmin {
      var b :| 0 <= b < |after| && after[b].Some? && PageXid(after[b].value, store, xid);
      var i :| 0 <= i < |after[b].value| && after[b].value[i].LpTuple? && HasXid(after[b].value[i].h, store, xid);
      GrowthIsHarmless(after[b].value[i].h, store, store', n);
      assert PageXid(all[b].value, store', xid);
    }
  }

  lemma SkippedReached(after: seq<Option<seq<Item>>>, c: Cutoffs, store: MultiStore, xid: nat, mxid: nat)
    requires Reached(after, c, store, xid, mxid)
    ensures Reached(after + [None], c, store, xid, mxid)
  {
    var all := after + [None];
    assert forall b :: 0 <= b < |after| ==> all[b] == after[b];
  }

  /** A whole scan: what it starts from. */
  datatype Job = Job(vm: seq<VmBits>, blocks: seq<BlockRead>, c: Cutoffs, aggressive: bool, skipWithVm: bool,
                     store: MultiStore, next: nat)
  {
    ghost predicate Valid() {
      c.Valid() && |vm| == |blocks| && forall b :: 0 <= b < |blocks| ==> SoundRead(blocks[b], c, store, next)
    }

    /** Block `b` may be skipped. */
    predicate May(b: int) {
      MaySkip(vm, b, aggressive, skipWithVm)
    }

    /** Block `b` is to be skipped. */
    ghost predicate Skips(b: int) {
      InLongRun(vm, b, aggressive, skipWithVm)
    }

    /** The ranges of blocks between two that may not be skipped, each with what has been decided up to its end. */
    ghost function Ranges(): iset<Range> {
      iset x: Range |
        && 0 <= x.lo <= x.hi <= |vm| && (x.skipping <==> x.hi - x.lo >= SKIP_PAGES_THRESHOLD)
        && (forall b :: x.lo <= b < x.hi ==> May(b)) && !May(x.lo - 1) && !May(x.hi)
        && (x.skippedAllVis <==> exists b :: 0 <= b < x.hi && Skips(b) && !vm[b].allFrozen)
    }

    ghost predicate SoFar(x: Scan) {
      && |x.after| <= |blocks| == |vm| && Grown(store, x.store, next) && next <= x.next
      && (forall b :: 0 <= b < |x.after| ==> (x.after[b].None? <==> Skips(b)))
      && (forall b :: 0 <= b < |x.after| ==>
          Passed(x.after[b], vm[b], x.store, x.next, x.xid, x.mxid, x.skippedAllVis))
      && AllReadOff(blocks, x.after, c, aggressive, store, x.store, x.next)
      && Reached(x.after, c, x.store, x.xid, x.mxid)
      && (aggressive ==> !x.skippedAllVis && c.freezeLimit <= x.xid && c.multiXactCutoff <= x.mxid)
    }

    /** The scans that are in order so far. */
    ghost function Scans(): iset<Scan> {
      iset x | SoFar(x)
    }
  }

  /** Blocks lo..hi-1 may be skipped, and whether they are; and whether any skipped so far is not all-frozen. */
  datatype Range = Range(lo: int, hi: int, skipping: bool, skippedAllVis: bool)

  /** How far a scan has got: what it has left of each block, the multixacts there are, and its trackers. */
  datatype Scan = Scan(after: seq<Option<seq<Item>>>, store: MultiStore, next: nat, xid: nat, mxid: nat,
                       skippedAllVis: bool)

  lemma InThisRange(job: Job, x: Range, b: int)
    requires |job.vm| == |job.blocks| && x in job.Ranges() && x.lo <= b < x.hi
    ensures job.Skips(b) <==> x.skipping
    ensures x.skipping ==> job.vm[b].allVisible && (job.vm[b].allFrozen || x.skippedAllVis)
  {
    forall y | x.lo <= y < x.hi ensures MaySkip(job.vm, y, job.aggressive, job.skipWithVm) {
      assert job.May(y);
    }
    RunDecides(job.vm, x.lo, x.hi, b, job.aggressive, job.skipWithVm);
    assert job.May(b);
  }

  lemma MustNotSkip(job: Job, b: int)
    requires !job.May(b)
    ensures !job.Skips(b)
  {
  }

  /** The next range: what ScanSkip finds from block `lo` on. */
  lemma NextRange(job: Job, x0: Range, x: Range)
    requires (x.lo == 0 && x0 == Range(0, 0, false, false)) ||
      (x0 in job.Ranges() && x.lo == x0.hi + 1 && x0.hi < |job.vm|)
    requires x.lo <= x.hi <= |job.vm| && (x.skipping <==> x.hi - x.lo >= SKIP_PAGES_THRESHOLD)
    requires forall b :: x.lo <= b < x.hi ==> Skippable(job.vm, b, job.aggressive)
    requires x.hi < |job.vm| ==> x.hi == |job.vm| - 1 || !job.skipWithVm || !Skippable(job.vm, x.hi, job.aggressive)
    requires !job.skipWithVm ==> x.hi == x.lo
    requires x.skippedAllVis ==
      (x0.skippedAllVis || (x.skipping && exists b :: x.lo <= b < x.hi && !job.vm[b].allFrozen))
    ensures x in job.Ranges()
  {
    forall b | x.lo <= b < x.hi ensures job.Skips(b) <==> x.skipping {
      RunDecides(job.vm, x.lo, x.hi, b, job.aggressive, job.skipWithVm);
    }
    if x.lo > 0 {
      MustNotSkip(job, x0.hi);
    }
    if x.skippedAllVis && !x0.skippedAllVis {
      var b :| x.lo <= b < x.hi && !job.vm[b].allFrozen;
      assert job.Skips(b);
    }
  }

  /** lazy_scan_skip, as part of a scan that has passed the range `x0`. */
  method SkipNext(rel: VacRel, vm: seq<VmBits>, nextBlock: nat, ghost job: Job, ghost x0: Range)
    returns (nextUnskippable: nat, allVis: bool, skipping: bool)
    requires nextBlock <= |vm| && vm == job.vm && rel.aggressive == job.aggressive && rel.skipWithVm == job.skipWithVm
    requires x0.skippedAllVis == rel.skippedAllVis
    requires (nextBlock == 0 && x0 == Range(0, 0, false, false)) ||
      (x0 in job.Ranges() && nextBlock == x0.hi + 1 && x0.hi < |vm|)
    modifies rel`skippedAllVis
    ensures nextBlock <= nextUnskippable <= |vm|
    ensures Range(nextBlock, nextUnskippable, skipping, rel.skippedAllVis) in job.Ranges()
    ensures (old(rel.skippedAllVis) ==> rel.skippedAllVis) &&
      (rel.aggressive ==> rel.skippedAllVis == old(rel.skippedAllVis))
  {
    nextUnskippable, allVis, skipping := ScanSkip(rel, vm, nextBlock);
    NextRange(job, x0, Range(nextBlock, nextUnskippable, skipping, rel.skippedAllVis));
  }

  lemma SoFarNothing(job: Job, skipped: bool)
    requires job.Valid() && (job.aggressive ==> !skipped)
    ensures Scan([], job.store, job.next, job.c.oldestXmin, job.c.oldestMxact, skipped) in job.Scans()
  {
  }

  lemma SoFarSkipping(job: Job, x: Scan)
    requires x in job.Scans() && |x.after| < |job.vm| && job.Skips(|x.after|)
    requires job.vm[|x.after|].allVisible && (job.vm[|x.after|].allFrozen || x.skippedAllVis)
    ensures x.(after := x.after + [None]) in job.Scans()
  {
    SkippedReached(x.after, job.c, x.store, x.xid, x.mxid);
  }

  lemma SoFarMarked(job: Job, x: Scan, skipped: bool)
    requires x in job.Scans() && (x.skippedAllVis ==> skipped) && (job.aggressive ==> skipped == x.skippedAllVis)
    ensures x.(skippedAllVis := skipped) in job.Scans()
  {
    AllStillPassed(x.after, job.vm, x.store, x.store, x.next, x.next, x.xid, x.mxid, x.xid, x.mxid, x.skippedAllVis,
                   skipped);
  }

  lemma SoFarScanned(job: Job, x: Scan, items: seq<Item>, store: MultiStore, next: nat, xid: nat, mxid: nat)
    requires job.Valid() && x in job.Scans() && |x.after| < |job.blocks| && !job.Skips(|x.after|)
    requires ReadOff(job.blocks[|x.after|], job.c, job.aggressive, x.store, items, store)
    requires Left(items, store, xid, mxid) && Grown(x.store, store, x.next) && x.next <= next
    requires KnownMultis(items, next) && xid <= x.xid && mxid <= x.mxid
    requires (xid == x.xid || PageXid(items, store, xid)) && (mxid == x.mxid || PageMxid(items, mxid))
    requires job.aggressive && job.c.freezeLimit <= x.xid ==> job.c.freezeLimit <= xid
    requires job.aggressive && job.c.multiXactCutoff <= x.mxid ==> job.c.multiXactCutoff <= mxid
    ensures Scan(x.after + [Some(items)], store, next, xid, mxid, x.skippedAllVis) in job.Scans()
  {
    GrownTwice(job.store, x.store, store, job.next, x.next);
    AllStillPassed(x.after, job.vm, x.store, store, x.next, next, x.xid, x.mxid, xid, mxid, x.skippedAllVis,
                   x.skippedAllVis);
    AllStillReadOff(job.blocks, x.after, job.c, job.aggressive, job.store, job.next, x.store, x.next, store, next);
    StillReadOff(job.blocks[|x.after|], job.c, job.aggressive, job.store, x.store, next, items, store, store, next,
                 job.next);
    StillReached(job.blocks, x.after, items, job.c, job.aggressive, job.store, x.store, x.next, store, x.xid, x.mxid,
                 xid, mxid);
    OneMoreScanned(job, x.after, items, store, next, xid, mxid, x.skippedAllVis);
  }

  lemma OneMoreScanned(job: Job, after: seq<Option<seq<Item>>>, items: seq<Item>, store: MultiStore, next: nat,
                       xid: nat, mxid: nat, skipped: bool)
    requires |after| < |job.blocks| == |job.vm| && Grown(job.store, store, job.next) && job.next <= next
    requires forall b :: 0 <= b < |after| ==> (after[b].None? <==> job.Skips(b))
    requires !job.Skips(|after|)
    requires forall b :: 0 <= b < |after| ==> Passed(after[b], job.vm[b], store, next, xid, mxid, skipped)
    requires Passed(Some(items), job.vm[|after|], store, next, xid, mxid, skipped)
    requires AllReadOff(job.blocks, after, job.c, job.aggressive, job.store, store, next)
    requires ReadOff(job.blocks[|after|], job.c, job.aggressive, job.store, items, store) && KnownMultis(items, next)
    requires Reached(after + [Some(items)], job.c, store, xid, mxid)
    requires job.aggressive ==> !skipped && job.c.freezeLimit <= xid && job.c.multiXactCutoff <= mxid
    ensures Scan(after + [Some(items)], store, next, xid, mxid, skipped) in job.Scans()
  {
    var all := after + [Some(items)];
    assert all[|after|] == Some(items) && forall b :: 0 <= b < |after| ==> all[b] == after[b];
  }

  /** Scan the next block. */
  method ScanNextBlock(rel: VacRel, x: BlockRead, mx: MultiXacts, ghost job: Job, ghost after: seq<Option<seq<Item>>>)
    returns (r: Result<seq<Item>>)
    requires rel.Valid() && mx.Valid() && rel.c.oldestMxact <= mx.next && mx.store.Valid() && job.Valid()
    requires rel.c == job.c && rel.aggressive == job.aggressive
    requires |after| < |job.blocks| && x == job.blocks[|after|] && !job.Skips(|after|)
    requires Scan(after, mx.store, mx.next, rel.newRelfrozenXid, rel.newRelminMxid, rel.skippedAllVis) in job.Scans()
    modifies rel`newRelfrozenXid, rel`newRelminMxid, mx
    ensures mx.Valid() && mx.store.Valid() && old(mx.next) <= mx.next && (r.Ok? ==> rel.Valid())
    ensures r.Ok? ==> Scan(after + [Some(r.value)], mx.store, mx.next, rel.newRelfrozenXid, rel.newRelminMxid,
                           rel.skippedAllVis) in job.Scans()
    ensures r.Err? ==> !HealthyRead(x, rel.c, job.store)
  {
    ghost var before := Scan(after, mx.store, mx.next, rel.newRelfrozenXid, rel.newRelminMxid, rel.skippedAllVis);
    ReadStaysSound(x, rel.c, job.store, mx.store, job.next, mx.next);
    r := ScanBlock(rel, x, mx);
    if r.Ok? {
      SoFarScanned(job, before, r.value, mx.store, mx.next, rel.newRelfrozenXid, rel.newRelminMxid);
    }
  }

  /** lazy_scan_heap, reduced to what bears on the trackers: a block is skipped if and only if it is in a long run
      of blocks that may be, and so never the last one; any other is scanned. */
  method ScanHeap(rel: VacRel, vm: seq<VmBits>, blocks: seq<BlockRead>, mx: MultiXacts)
    returns (error: Option<Corruption>, after: seq<Option<seq<Item>>>)
    requires rel.Valid() && mx.Valid() && rel.c.oldestMxact <= mx.next && mx.store.Valid()
    requires rel.newRelfrozenXid == rel.c.oldestXmin && rel.newRelminMxid == rel.c.oldestMxact && !rel.skippedAllVis
    requires |vm| == |blocks| && forall b :: 0 <= b < |blocks| ==> SoundRead(blocks[b], rel.c, mx.store, mx.next)
    modifies rel, mx
    ensures error.None? ==> |after| == |blocks| && rel.Valid() && forall b :: 0 <= b < |blocks| ==>
      Passed(after[b], vm[b], mx.store, mx.next, rel.newRelfrozenXid, rel.newRelminMxid, rel.skippedAllVis)
    ensures error.None? ==> forall b :: 0 <= b < |blocks| ==>
      if InLongRun(vm, b, rel.aggressive, rel.skipWithVm) then after[b].None?
      else after[b].Some? && ReadOff(blocks[b], rel.c, rel.aggressive, old(mx.store), after[b].value, mx.store)
    ensures error.None? ==>
      (rel.skippedAllVis <==> exists b :: 0 <= b < |blocks| && after[b].None? && !vm[b].allFrozen)
    ensures error.None? ==> Reached(after, rel.c, mx.store, rel.newRelfrozenXid, rel.newRelminMxid)
    ensures error.None? && |blocks| > 0 ==> after[|blocks|-1].Some?
    ensures error.Some? ==> exists b :: 0 <= b < |blocks| && !HealthyRead(blocks[b], rel.c, old(mx.store))
    ensures error.None? && rel.aggressive ==>
      && Published(rel.newRelfrozenXid, rel.newRelminMxid, rel.skippedAllVis) ==
           Some((rel.newRelfrozenXid, rel.newRelminMxid))
      && rel.c.freezeLimit <= rel.newRelfrozenXid && rel.c.multiXactCutoff <= rel.newRelminMxid
  {
    ghost var job := Job(vm, blocks, rel.c, rel.aggressive, rel.skipWithVm, mx.store, mx.next);
    ghost var lo, hi, skipping;
    error, after, lo, hi, skipping := ScanBlocks(rel, vm, blocks, mx, job);
    if error.None? {
      SkippedAre(job, Range(lo, hi, skipping, rel.skippedAllVis), after);
    }
  }

  /** Whether to skip a block; before it is scanned, look ahead for the next range of blocks to skip. */
  method Decide(rel: VacRel, vm: seq<VmBits>, blkno: nat, nextUnskippable: nat, skipping: bool, ghost job: Job,
                ghost lo: int, ghost scan: Scan)
    returns (skip: bool, nextUnskippable': nat, skipping': bool, ghost lo': int)
    requires job.Valid() && vm == job.vm && rel.aggressive == job.aggressive && rel.skipWithVm == job.skipWithVm
    requires Range(lo, nextUnskippable, skipping, rel.skippedAllVis) in job.Ranges()
    requires scan in job.Scans() && scan.skippedAllVis == rel.skippedAllVis
    requires |scan.after| == blkno && lo <= blkno <= nextUnskippable && blkno < |vm|
    modifies rel`skippedAllVis
    ensures lo' <= blkno + 1 <= nextUnskippable' <= |vm|
    ensures Range(lo', nextUnskippable', skipping', rel.skippedAllVis) in job.Ranges()
    ensures skip == job.Skips(blkno)
    ensures scan.(skippedAllVis := rel.skippedAllVis) in job.Scans()
    ensures skip ==> scan.(skippedAllVis := rel.skippedAllVis, after := scan.after + [None]) in job.Scans()
  {
    ghost var range := Range(lo, nextUnskippable, skipping, rel.skippedAllVis);
    nextUnskippable', skipping', lo' := nextUnskippable, skipping, lo;
    if blkno == nextUnskippable {
      MustNotSkip(job, blkno);
      var allVis;
      nextUnskippable', allVis, skipping' := SkipNext(rel, vm, blkno + 1, job, range);
      lo' := blkno + 1;
      SoFarMarked(job, scan, rel.skippedAllVis);
      skip := false;
    } else {
      InThisRange(job, range, blkno);
      skip := skipping;
      if skip {
        SoFarSkipping(job, scan);
      }
    }
  }

  /** The loop. */
  method ScanBlocks(rel: VacRel, vm: seq<VmBits>, blocks: seq<BlockRead>, mx: MultiXacts, ghost job: Job)
    returns (error: Option<Corruption>, after: seq<Option<seq<Item>>>, ghost lo: int, ghost hi: int,
             ghost skipping': bool)
    requires job.Valid() && job == Job(vm, blocks, rel.c, rel.aggressive, rel.skipWithVm, mx.store, mx.next)
    requires rel.Valid() && mx.Valid() && rel.c.oldestMxact <= mx.next && mx.store.Valid()
    requires rel.newRelfrozenXid == rel.c.oldestXmin && rel.newRelminMxid == rel.c.oldestMxact && !rel.skippedAllVis
    modifies rel, mx
    ensures error.None? ==> rel.Valid() && |after| == |blocks| == hi
    ensures error.None? ==> Range(lo, hi, skipping', rel.skippedAllVis) in job.Ranges()
    ensures error.None? ==>
      Scan(after, mx.store, mx.next, rel.newRelfrozenXid, rel.newRelminMxid, rel.skippedAllVis) in job.Scans()
    ensures error.Some? ==> exists b :: 0 <= b < |blocks| && !HealthyRead(blocks[b], rel.c, job.store)
  {
    after, error := [], None;
    var nextUnskippable, allVis, skipping := SkipNext(rel, vm, 0, job, Range(0, 0, false, false));
    lo := 0;
    SoFarNothing(job, rel.skippedAllVis);
    for blkno := 0 to |blocks|
      invariant rel.Valid() && mx.Valid() && mx.store.Valid() && job.next <= mx.next
      invariant |after| == blkno && lo <= blkno <= nextUnskippable <= |vm|
      invariant Range(lo, nextUnskippable, skipping, rel.skippedAllVis) in job.Ranges()
      invariant Scan(after, mx.store, mx.next, rel.newRelfrozenXid, rel.newRelminMxid, rel.skippedAllVis) in job.Scans()
    {
      ghost var scan := Scan(after, mx.store, mx.next, rel.newRelfrozenXid, rel.newRelminMxid, rel.skippedAllVis);
      var skip;
      skip, nextUnskippable, skipping, lo := Decide(rel, vm, blkno, nextUnskippable, skipping, job, lo, scan);
      if skip {
        after := after + [None];
        continue;
      }
      var r := ScanNextBlock(rel, blocks[blkno], mx, job, after);
      if r.Err? {
        return Some(r.error), after, lo, nextUnskippable, skipping;
      }
      after := after + [Some(r.value)];
    }
    hi, skipping' := nextUnskippable, skipping;
  }

  /** At the end it is known of all blocks whether they were skipped. */
  lemma SkippedAre(job: Job, x: Range, after: seq<Option<seq<Item>>>)
    requires x in job.Ranges() && x.hi == |job.vm| == |after|
    requires forall b :: 0 <= b < |after| ==> (after[b].None? <==> job.Skips(b))
    ensures |after| > 0 ==> after[|after|-1].Some?
    ensures x.skippedAllVis <==> exists b :: 0 <= b < |after| && after[b].None? && !job.vm[b].allFrozen
  {
    MustNotSkip(job, |job.vm| - 1);
    if x.skippedAllVis {
      var b :| 0 <= b < x.hi && job.Skips(b) && !job.vm[b].allFrozen;
      assert after[b].None?;
    }
  }

  /** The values that go to pg_class; none if all-visible pages were skipped. */
  function Published(xid: nat, mxid: nat, skippedAllVis: bool): Option<(nat, nat)> {
    if skippedAllVis then None else Some((xid, mxid))
  }

  /** What other backends can do to a page meanwhile: anything, but with XIDs and multixacts that are
      there already or not older than the horizons. */
  ghost predicate Evolved(c: Cutoffs, items: seq<Item>, store: MultiStore, items': seq<Item>, store': MultiStore) {
    && (forall x: nat :: PageXid(items', store', x) ==> PageXid(items, store, x) || c.oldestXmin <= x)
    && (forall m: nat :: PageMxid(items', m) ==> PageMxid(items, m) || c.oldestMxact <= m)
  }

  lemma LeftBound(items: seq<Item>, store: MultiStore, xid: nat, mxid: nat)
    ensures Left(items, store, xid, mxid) <==>
      (forall x: nat :: PageXid(items, store, x) ==> xid <= x) && (forall m: nat :: PageMxid(items, m) ==> mxid <= m)
  {
    if (forall x: nat :: PageXid(items, store, x) ==> xid <= x) && (forall m: nat :: PageMxid(items, m) ==> mxid <= m) {
      forall i | 0 <= i < |items| && items[i].LpTuple?
        ensures XidsFrom(xid, items[i].h, store) && MxidsFrom(mxid, items[i].h)
      {
        forall x: nat | HasXid(items[i].h, store, x) ensures xid <= x {
          assert PageXid(items, store, x);
        }
        if HasMxid(items[i].h, items[i].h.xmax) {
          assert PageMxid(items, items[i].h.xmax);
        }
      }
    }
  }

  /** The published values are safe: when vacuum ends, nothing older is left on any page, scanned or
      skipped, whatever other backends have done to the pages since they were scanned or skipped. That an
      aggressive vacuum always publishes, and no less than the freeze cutoffs, is part of `ScanHeap`. */
  lemma PublishedIsSafe(c: Cutoffs, vm: seq<VmBits>, after: seq<Option<seq<Item>>>, store: MultiStore, next: nat,
                        xid: nat, mxid: nat, skippedAllVis: bool, found: seq<seq<Item>>, store0: MultiStore,
                        final: seq<seq<Item>>, store': MultiStore)
    requires |vm| == |after| == |found| == |final| && xid <= c.oldestXmin && mxid <= c.oldestMxact
    requires forall b :: 0 <= b < |vm| ==> Passed(after[b], vm[b], store, next, xid, mxid, skippedAllVis)
    requires forall b :: 0 <= b < |vm| && vm[b].allFrozen ==> Left(found[b], store0, c.oldestXmin, c.oldestMxact)
    requires forall b :: 0 <= b < |vm| ==>
      if after[b].Some? then Evolved(c, after[b].value, store, final[b], store')
        else Evolved(c, found[b], store0, final[b], store')
    ensures Published(xid, mxid, skippedAllVis).Some? ==>
      forall b :: 0 <= b < |vm| ==>
        Left(final[b], store', Published(xid, mxid, skippedAllVis).value.0, Published(xid, mxid, skippedAllVis).value.1)
  {
    if !skippedAllVis {
      forall b | 0 <= b < |vm| ensures Left(final[b], store', xid, mxid) {
        assert Passed(after[b], vm[b], store, next, xid, mxid, skippedAllVis);
        LeftBound(final[b], store', xid, mxid);
        if after[b].Some? {
          LeftBound(after[b].value, store, xid, mxid);
        } else {
          LeftBound(found[b], store0, c.oldestXmin, c.oldestMxact);
        }
      }
    }
  }
}
