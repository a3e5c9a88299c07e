/** The first heap pass of vacuum, page by page: freezing, the trackers behind relfrozenxid and
    relminmxid, and whether a page is all-visible and all-frozen. */
module PageFreeze {
  import opened Base
  import opened TupleHeader
  import opened MultiXact
  import opened Visibility
  import opened Freeze

  datatype Item = LpUnused | LpRedirect | LpDead | LpTuple(h: Header)

  // ---- How facts about one tuple last ----

  /** New multixacts change nothing about a tuple that has none of them. */
  lemma GrowthIsHarmless(h: Header, store: MultiStore, store': MultiStore, n: nat)
    requires Grown(store, store', n) && KnownMulti(h, n)
    ensures MembersOf(h, store') == MembersOf(h, store) && h.RawUpdater(store') == h.RawUpdater(store)
    ensures NamesUpdater(h, store') == NamesUpdater(h, store) && LocksOnly(h, store') == LocksOnly(h, store)
    ensures h.mask.isMulti ==> forall b :: store'.Get(h.xmax, b) == store.Get(h.xmax, b)
  {
    if h.mask.isMulti {
      assert Same(store, store', h.xmax);
      assert forall b :: store'.Get(h.xmax, b) == store.Get(h.xmax, b);
    }
  }

  lemma GrowthKeepsAll(h: Header, store: MultiStore, store': MultiStore, n: nat, c: Cutoffs, w: World)
    requires Grown(store, store', n) && KnownMulti(h, n)
    ensures SameToAll(h, store, h, store', c, w)
    ensures WellFormed(h, w, store) ==> WellFormed(h, w, store')
    ensures forall t: nat :: XidsFrom(t, h, store') == XidsFrom(t, h, store)
    ensures Overdue(h, c, store') == Overdue(h, c, store) && MustFreeze(h, c, store') == MustFreeze(h, c, store)
    ensures forall x: nat :: HasXid(h, store', x) == HasXid(h, store, x)
    ensures Uncorrupted(h, c, w, store') == Uncorrupted(h, c, w, store)
  {
    GrowthIsHarmless(h, store, store', n);
    assert forall x: nat :: HasXid(h, store', x) == HasXid(h, store, x);
  }

  /** Hint bits change nothing that anybody sees. */
  lemma HintsAreHarmless(h: Header, h': Header, store: MultiStore, c: Cutoffs, w: World)
    requires w.Valid() && WellFormed(h, w, store) && h' in Hinted(h, w, store)
    ensures SameToAll(h, store, h', store, c, w) && WellFormed(h', w, store)
    ensures Uncorrupted(h', c, w, store) == Uncorrupted(h, c, w, store)
  {
  }

  lemma SameToAllTwice(h: Header, store: MultiStore, h1: Header, store1: MultiStore, h2: Header, store2: MultiStore,
                       c: Cutoffs, w: World)
    requires SameToAll(h, store, h1, store1, c, w) && SameToAll(h1, store1, h2, store2, c, w)
    ensures SameToAll(h, store, h2, store2, c, w)
  {
  }

  // ---- Scanning one tuple ----

  /** What is known of a scanned tuple: `h0` in `store0` is what it was before the scan. */
  datatype Scanned = Scanned(h0: Header, h: Header, plan: Option<FreezePlan>, totallyFrozen: bool)
  {
    function Frozen(): Header {
      After(h, plan)
    }
  }

  /** Trackers are safe for the tuple, whether its page is frozen or not. */
  ghost predicate TupleTracked(x: Scanned, c: Cutoffs, store: MultiStore, t: Trackers) {
    && XidsFrom(t.frzXid, x.Frozen(), store) && MxidsFrom(t.frzMxid, x.Frozen())
    && (!t.required ==>
        XidsFrom(t.noXid, x.h, store) && MxidsFrom(t.noMxid, x.h) && (x.plan.Some? ==> NeedsEventualFreeze(x.h)))
  }

  /** Nobody can see that the tuple was scanned, nor that it was frozen, which the checks allow. */
  ghost predicate TupleKept(x: Scanned, c: Cutoffs, w: World, store0: MultiStore, store: MultiStore, next: nat) {
    && x.h in Hinted(x.h0, w, store0)
    && WellFormed(x.h, w, store) && KnownMulti(x.h, next) && KnownMulti(x.Frozen(), next)
    && SameToAll(x.h0, store0, x.h, store, c, w)
    && (HorizonHolds(c, w) ==> ChecksPass(x.h, x.plan, w) && SameToAll(x.h0, store0, x.Frozen(), store, c, w))
  }

  predicate TupleFlags(x: Scanned, c: Cutoffs) {
    && (x.totallyFrozen <==> !NeedsEventualFreeze(x.Frozen()))
    && x.Frozen().xmin == x.h.xmin
    && x.Frozen().mask.xminHint == if FreezesXmin(x.h, c) then XminFrozen else x.h.mask.xminHint
  }

  /** They go back no further than to something in the tuple, and freezing is forced only where it must be. */
  ghost predicate TupleTight(x: Scanned, c: Cutoffs, store: MultiStore, t: Trackers, t': Trackers) {
    && (t'.required <==> t.required || MustFreeze(x.h, c, store))
    && TrackersTight(x.h, x.Frozen(), store, store, t, t')
  }

  /** The trackers move back only, and not behind the cutoffs unless freezing is forced. */
  predicate Ratcheted(c: Cutoffs, t: Trackers, t': Trackers) {
    && (t.required ==> t'.required)
    && t'.frzXid <= t.frzXid && t'.frzMxid <= t.frzMxid && t'.noXid <= t.noXid && t'.noMxid <= t.noMxid
    && (c.freezeLimit <= t.frzXid ==> c.freezeLimit <= t'.frzXid)
    && (c.multiXactCutoff <= t.frzMxid ==> c.multiXactCutoff <= t'.frzMxid)
    && (!t'.required && c.freezeLimit <= t.noXid ==> c.freezeLimit <= t'.noXid)
    && (!t'.required && c.multiXactCutoff <= t.noMxid ==> c.multiXactCutoff <= t'.noMxid)
  }

  /** What is known of one tuple survives the scan of the next. */
  lemma StillKnown(x: Scanned, c: Cutoffs, w: World, store0: MultiStore, store: MultiStore, store': MultiStore,
                   next: nat, next': nat, t: Trackers, t': Trackers)
    requires TupleTracked(x, c, store, t) && TupleKept(x, c, w, store0, store, next)
    requires Grown(store, store', next) && next <= next' && Ratcheted(c, t, t')
    ensures TupleTracked(x, c, store', t') && TupleKept(x, c, w, store0, store', next')
  {
    GrowthKeepsAll(x.h, store, store', next, c, w);
    GrowthKeepsAll(x.Frozen(), store, store', next, c, w);
    SameToAllTwice(x.h0, store0, x.h, store, x.h, store', c, w);
    if SameToAll(x.h0, store0, x.Frozen(), store, c, w) {
      SameToAllTwice(x.h0, store0, x.Frozen(), store, x.Frozen(), store', c, w);
    }
  }

  /** Check one tuple and prepare to freeze it. A dead tuple is not for freezing. */
  method ScanTuple(h: Header, c: Cutoffs, w: World, mx: MultiXacts, pf: HeapPageFreeze)
    returns (f: Status, r: Result<Scanned>)
    requires mx.Valid() && c.Valid() && c.oldestMxact <= mx.next && mx.store.Valid() && w.Valid()
    requires WellFormed(h, w, mx.store) && KnownMulti(h, mx.next) && h.mask.moved.NotMoved?
    requires pf.t.frzXid <= c.oldestXmin && pf.t.frzMxid <= c.oldestMxact
    modifies mx, pf
    ensures mx.Valid() && old(mx.next) <= mx.next && mx.store.Valid() && Grown(old(mx.store), mx.store, old(mx.next))
    ensures f == FateAt(h, c.oldestXmin, w, old(mx.store))
    ensures !f.Dead? && r.Ok? ==>
      && r.value.h0 == h && TupleTracked(r.value, c, mx.store, pf.t) && TupleFlags(r.value, c)
      && TupleKept(r.value, c, w, old(mx.store), mx.store, mx.next) && Ratcheted(c, old(pf.t), pf.t)
      && TupleTight(r.value, c, mx.store, old(pf.t), pf.t)
    ensures !f.Dead? && r.Err? ==> !Uncorrupted(h, c, w, old(mx.store))
  {
    var tuple := new HeapTuple(h);
    f := tuple.SatisfiesVacuum(c.oldestXmin, w, mx.store);
    var h' := tuple.h;
    if f.Dead? {
      return f, Err(UncommittedXmin);
    }
    ghost var store, next := mx.store, mx.next;
    HintsAreHarmless(h, h', store, c, w);
    var plan, totallyFrozen := PrepareFreezeTuple(h', c, w, mx, pf);
    if plan.Err? {
      return f, Err(plan.error);
    }
    var x := Scanned(h, h', plan.value, totallyFrozen);
    GrowthKeepsAll(h', store, mx.store, next, c, w);
    SameToAllTwice(h, store, h', store, h', mx.store, c, w);
    if HorizonHolds(c, w) {
      SameToAllTwice(h, store, h', store, x.Frozen(), mx.store, c, w);
    }
    return f, Ok(x);
  }

  // ---- Scanning a page ----

  datatype OffsetPlan = OffsetPlan(offset: nat, plan: FreezePlan)

  /** The array of plans: those that tuples need, in line pointer order. */
  function Plans(xs: seq<Option<Scanned>>): seq<OffsetPlan> {
    if xs == [] then []
    else
      var n := |xs| - 1;
      Plans(xs[..n]) + if xs[n].Some? && xs[n].value.plan.Some? then [OffsetPlan(n, xs[n].value.plan.value)] else []
  }

  function DeadOffsets(items: seq<Item>): seq<nat> {
    if items == [] then [] else DeadOffsets(items[..|items|-1]) + if items[|items|-1].LpDead? then [|items| - 1] else []
  }

  /** A live tuple that everybody sees, now and later. */
  predicate SeenByAll(x: Scanned, c: Cutoffs, w: World, store: MultiStore) {
    FateAt(x.h0, c.oldestXmin, w, store).Live? && x.h.XminIsCommitted() && x.h.Xmin() < c.oldestXmin
  }

  predicate AllSeen(xs: seq<Option<Scanned>>, c: Cutoffs, w: World, store: MultiStore) {
    forall i :: 0 <= i < |xs| && xs[i].Some? ==> SeenByAll(xs[i].value, c, w, store)
  }

  predicate AllFrozen(xs: seq<Option<Scanned>>) {
    forall i :: 0 <= i < |xs| && xs[i].Some? ==> xs[i].value.totallyFrozen
  }

  /** The newest normal xmin, or none. */
  function Newest(xs: seq<Option<Scanned>>): nat {
    if xs == [] then INVALID_XID
    else Newer(Newest(xs[..|xs|-1]), if xs[|xs|-1].Some? then xs[|xs|-1].value.h.Xmin() else INVALID_XID)
  }

  function Newer(cutoff: nat, xmin: nat): nat {
    if xmin > cutoff && Normal(xmin) then xmin else cutoff
  }

  /** What is known of line pointer `j` once it has been scanned. */
  ghost predicate Known(items: seq<Item>, xs: seq<Option<Scanned>>, j: int, c: Cutoffs, w: World, store0: MultiStore,
                        store: MultiStore, next: nat, t: Trackers)
    requires 0 <= j < |xs| <= |items|
  {
    if items[j].LpTuple? then
      && xs[j].Some? && xs[j].value.h0 == items[j].h && TupleFlags(xs[j].value, c)
      && TupleTracked(xs[j].value, c, store, t) && TupleKept(xs[j].value, c, w, store0, store, next)
    else xs[j].None?
  }

  ghost predicate AllKnown(items: seq<Item>, xs: seq<Option<Scanned>>, c: Cutoffs, w: World, store0: MultiStore,
                           store: MultiStore, next: nat, t: Trackers) {
    |xs| <= |items| && forall j {:trigger Known(items, xs, j, c, w, store0, store, next, t)} :: 0 <= j < |xs| ==>
      Known(items, xs, j, c, w, store0, store, next, t)
  }

  lemma KnowOneMore(items: seq<Item>, xs: seq<Option<Scanned>>, x: Option<Scanned>, c: Cutoffs, w: World,
                    store0: MultiStore, store: MultiStore, store': MultiStore, next: nat, next': nat, t: Trackers,
                    t': Trackers)
    requires AllKnown(items, xs, c, w, store0, store, next, t) && |xs| < |items|
    requires Grown(store, store', next) && next <= next' && Ratcheted(c, t, t')
    requires if items[|xs|].LpTuple? then
        && x.Some? && x.value.h0 == items[|xs|].h && TupleFlags(x.value, c)
        && TupleTracked(x.value, c, store', t') && TupleKept(x.value, c, w, store0, store', next')
      else x.None?
    ensures AllKnown(items, xs + [x], c, w, store0, store', next', t')
  {
    forall j | 0 <= j < |xs| + 1 ensures Known(items, xs + [x], j, c, w, store0, store', next', t') {
      if j < |xs| {
        assert Known(items, xs, j, c, w, store0, store, next, t);
        if items[j].LpTuple? {
          StillKnown(xs[j].value, c, w, store0, store, store', next, next', t, t');
        }
      }
    }
  }

  /** Pages hold well-formed tuples, none of them left from before release 9.0. */
  ghost predicate SoundItems(items: seq<Item>, w: World, store: MultiStore, next: nat) {
    forall i {:trigger items[i]} :: 0 <= i < |items| && items[i].LpTuple? ==> SoundTuple(items[i].h, w, store, next)
  }

  ghost predicate SoundTuple(h: Header, w: World, store: MultiStore, next: nat) {
    WellFormed(h, w, store) && KnownMulti(h, next) && h.mask.moved.NotMoved?
  }

  lemma StillSound(h: Header, c: Cutoffs, w: World, store: MultiStore, store': MultiStore, next: nat, next': nat)
    requires SoundTuple(h, w, store, next) && Grown(store, store', next) && next <= next'
    ensures SoundTuple(h, w, store', next') && SameToAll(h, store, h, store', c, w)
  {
    GrowthKeepsAll(h, store, store', next, c, w);
  }

  /** What scanning the tuples of a page finds out. */
  datatype PageScan = PageScan(items: seq<Item>, frozen: seq<OffsetPlan>, allVisible: bool, allFrozen: bool,
                               cutoffXid: nat, hastup: bool, dead: seq<nat>)

  /** Before anything is scanned. */
  function NothingScanned(): PageScan {
    PageScan([], [], true, true, INVALID_XID, false, [])
  }

  ghost predicate ScanFits(s: PageScan, items: seq<Item>, xs: seq<Option<Scanned>>, c: Cutoffs, w: World,
                           store0: MultiStore) {
    && ItemsFit(s.items, s.hastup, s.dead, items, xs) && s.frozen == Plans(xs) && (s.allFrozen <==> AllFrozen(xs))
    && (s.allVisible <==> AllSeen(xs, c, w, store0)) && (s.allVisible ==> s.cutoffXid == Newest(xs))
  }

  /** What is known of the line pointers as such. */
  ghost predicate ItemsFit(found: seq<Item>, hastup: bool, dead: seq<nat>, items: seq<Item>, xs: seq<Option<Scanned>>) {
    && |xs| == |items| == |found| && dead == DeadOffsets(items)
    && (hastup <==> exists i :: 0 <= i < |items| && (items[i].LpTuple? || items[i].LpRedirect?))
    && forall i :: 0 <= i < |items| ==> found[i] == if xs[i].Some? then LpTuple(xs[i].value.h) else items[i]
  }

  lemma OneMoreItem(found: seq<Item>, hastup: bool, dead: seq<nat>, items: seq<Item>, xs: seq<Option<Scanned>>,
                    item: Item, x: Option<Scanned>, found': seq<Item>, hastup': bool, dead': seq<nat>)
    requires ItemsFit(found, hastup, dead, items, xs)
    requires found' == found + [if x.Some? then LpTuple(x.value.h) else item]
    requires hastup' == (hastup || item.LpTuple? || item.LpRedirect?)
    requires dead' == if item.LpDead? then dead + [|items|] else dead
    ensures ItemsFit(found', hastup', dead', items + [item], xs + [x])
  {
    var all := items + [item];
    assert all[|items|] == item && forall i :: 0 <= i < |items| ==> all[i] == items[i];
  }

  /** Account for a line pointer without a tuple. */
  function NoteItem(s: PageScan, item: Item): PageScan
    requires !item.LpTuple?
  {
    var s' := s.(items := s.items + [item]);
    match item
    case LpRedirect => s'.(hastup := true)
    case LpDead => s'.(dead := s.dead + [|s.items|])
    case _ => s'
  }

  /** Account for a tuple with fate `f`. */
  function NoteTuple(s: PageScan, x: Scanned, f: Status, c: Cutoffs): PageScan {
    var s' := if f.Live? && s.allVisible then
                if !x.h.XminIsCommitted() || !(x.h.Xmin() < c.oldestXmin) then s.(allVisible := false)
                else s.(cutoffXid := Newer(s.cutoffXid, x.h.Xmin()))
              else if f.Live? then s
              else s.(allVisible := false);
    s'.(items := s.items + [LpTuple(x.h)], hastup := true, allFrozen := s.allFrozen && x.totallyFrozen,
        frozen := if x.plan.Some? then s.frozen + [OffsetPlan(|s.items|, x.plan.value)] else s.frozen)
  }

  lemma NoteItemFits(s: PageScan, items: seq<Item>, xs: seq<Option<Scanned>>, item: Item, c: Cutoffs, w: World,
                     store: MultiStore)
    requires ScanFits(s, items, xs, c, w, store) && !item.LpTuple?
    ensures ScanFits(NoteItem(s, item), items + [item], xs + [None], c, w, store)
  {
    var s' := NoteItem(s, item);
    OneMoreItem(s.items, s.hastup, s.dead, items, xs, item, None, s'.items, s'.hastup, s'.dead);
    NoneMoreSeen(xs, c, w, store);
  }

  lemma NoneMoreSeen(xs: seq<Option<Scanned>>, c: Cutoffs, w: World, store: MultiStore)
    ensures AllSeen(xs + [None], c, w, store) <==> AllSeen(xs, c, w, store)
    ensures AllFrozen(xs + [None]) <==> AllFrozen(xs)
    ensures Newest(xs + [None]) == Newest(xs) && Plans(xs + [None]) == Plans(xs)
  {
    var ys := xs + [None];
    assert ys[..|xs|] == xs && forall i :: 0 <= i < |xs| ==> ys[i] == xs[i];
  }

  lemma OneMoreSeen(xs: seq<Option<Scanned>>, x: Scanned, c: Cutoffs, w: World, store: MultiStore)
    ensures AllSeen(xs + [Some(x)], c, w, store) <==> AllSeen(xs, c, w, store) && SeenByAll(x, c, w, store)
    ensures AllFrozen(xs + [Some(x)]) <==> AllFrozen(xs) && x.totallyFrozen
  {
    var ys := xs + [Some(x)];
    assert ys[|xs|] == Some(x);
    assert forall i :: 0 <= i < |xs| ==> ys[i] == xs[i];
  }

  lemma OneMoreListed(xs: seq<Option<Scanned>>, x: Scanned)
    ensures Newest(xs + [Some(x)]) == Newer(Newest(xs), x.h.Xmin())
    ensures Plans(xs + [Some(x)]) == if x.plan.Some? then Plans(xs) + [OffsetPlan(|xs|, x.plan.value)] else Plans(xs)
  {
  }

  lemma NoteTupleFits(s: PageScan, items: seq<Item>, xs: seq<Option<Scanned>>, item: Item, x: Scanned, f: Status,
                      c: Cutoffs, w: World, store: MultiStore)
    requires ScanFits(s, items, xs, c, w, store) && item.LpTuple? && x.h0 == item.h &&
      f == FateAt(x.h0, c.oldestXmin, w, store)
    ensures ScanFits(NoteTuple(s, x, f, c), items + [item], xs + [Some(x)], c, w, store)
  {
    var s' := NoteTuple(s, x, f, c);
    OneMoreItem(s.items, s.hastup, s.dead, items, xs, item, Some(x), s'.items, s'.hastup, s'.dead);
    NoteTupleSeen(s, xs, x, f, c, w, store);
    OneMoreListed(xs, x);
  }

  lemma NoteTupleSeen(s: PageScan, xs: seq<Option<Scanned>>, x: Scanned, f: Status, c: Cutoffs, w: World,
                      store: MultiStore)
    requires f == FateAt(x.h0, c.oldestXmin, w, store)
    requires (s.allVisible <==> AllSeen(xs, c, w, store)) && (s.allFrozen <==> AllFrozen(xs))
    requires s.allVisible ==> s.cutoffXid == Newest(xs)
    ensures var s', ys := NoteTuple(s, x, f, c), xs + [Some(x)];
      && (s'.allVisible <==> AllSeen(ys, c, w, store)) && (s'.allFrozen <==> AllFrozen(ys))
      && (s'.allVisible ==> s'.cutoffXid == Newest(ys))
  {
    OneMoreSeen(xs, x, c, w, store);
    OneMoreListed(xs, x);
  }

  /** Some tuple is dead, and should have been pruned. */
  predicate AnyDead(items: seq<Item>, c: Cutoffs, w: World, store: MultiStore) {
    exists i :: 0 <= i < |items| && items[i].LpTuple? && FateAt(items[i].h, c.oldestXmin, w, store).Dead?
  }

  ghost predicate AnyCorrupt(items: seq<Item>, c: Cutoffs, w: World, store: MultiStore) {
    exists i :: 0 <= i < |items| && items[i].LpTuple? && !Uncorrupted(items[i].h, c, w, store)
  }

  lemma GrownTwice(store: MultiStore, store1: MultiStore, store2: MultiStore, n: nat, n1: nat)
    requires Grown(store, store1, n) && Grown(store1, store2, n1) && n <= n1
    ensures Grown(store, store2, n)
  {
    forall m {:trigger Same(store, store2, m)} | m < n ensures Same(store, store2, m) {
      assert Same(store, store1, m) && Same(store1, store2, m);
    }
  }

  lemma KeptSince(x: Scanned, c: Cutoffs, w: World, store0: MultiStore, store: MultiStore, store': MultiStore,
                  next: nat)
    requires TupleKept(x, c, w, store, store', next) && SameToAll(x.h0, store0, x.h0, store, c, w)
    requires x.h in Hinted(x.h0, w, store0)
    ensures TupleKept(x, c, w, store0, store', next)
  {
    FlagsKeptTwice(x.h0, x.h0, x.h);
  }

  lemma HintedSince(h: Header, h': Header, w: World, store0: MultiStore, store: MultiStore, next0: nat)
    requires Grown(store0, store, next0) && KnownMulti(h, next0) && h' in Hinted(h, w, store)
    ensures h' in Hinted(h, w, store0)
  {
    GrowthIsHarmless(h', store0, store, next0);
  }

  /** ScanTuple, seen from the start of the page. */
  method ScanNext(h: Header, c: Cutoffs, w: World, mx: MultiXacts, pf: HeapPageFreeze, ghost store0: MultiStore,
                  ghost next0: nat, ghost t0: Trackers)
    returns (f: Status, r: Result<Scanned>)
    requires mx.Valid() && c.Valid() && c.oldestMxact <= mx.next && mx.store.Valid() && w.Valid()
    requires SoundTuple(h, w, store0, next0) && Grown(store0, mx.store, next0) && next0 <= mx.next
    requires t0.frzXid <= c.oldestXmin && t0.frzMxid <= c.oldestMxact && Ratcheted(c, t0, pf.t)
    modifies mx, pf
    ensures mx.Valid() && mx.store.Valid() && old(mx.next) <= mx.next
    ensures Grown(store0, mx.store, next0) && Grown(old(mx.store), mx.store, old(mx.next))
    ensures f == FateAt(h, c.oldestXmin, w, store0)
    ensures !f.Dead? && r.Ok? ==>
      && r.value.h0 == h && TupleTracked(r.value, c, mx.store, pf.t) && TupleFlags(r.value, c)
      && TupleKept(r.value, c, w, store0, mx.store, mx.next) && Ratcheted(c, old(pf.t), pf.t) && Ratcheted(c, t0, pf.t)
      && TupleTight(r.value, c, mx.store, old(pf.t), pf.t)
    ensures !f.Dead? && r.Err? ==> !Uncorrupted(h, c, w, store0)
  {
    ghost var store, next := mx.store, mx.next;
    StillSound(h, c, w, store0, store, next0, next);
    GrowthKeepsAll(h, store0, store, next0, c, w);
    f, r := ScanTuple(h, c, w, mx, pf);
    GrownTwice(store0, store, mx.store, next0, next);
    if !f.Dead? && r.Ok? {
      HintedSince(h, r.value.h, w, store0, store, next0);
      KeptSince(r.value, c, w, store0, store, mx.store, mx.next);
    }
  }

  // ---- How far back the trackers of a page go ----

  ghost predicate PageXid(items: seq<Item>, store: MultiStore, x: nat) {
    exists i :: 0 <= i < |items| && items[i].LpTuple? && HasXid(items[i].h, store, x)
  }

  predicate PageMxid(items: seq<Item>, m: nat) {
    exists i :: 0 <= i < |items| && items[i].LpTuple? && HasMxid(items[i].h, m)
  }

  ghost predicate AnyOverdue(items: seq<Item>, c: Cutoffs, store: MultiStore) {
    exists i :: 0 <= i < |items| && items[i].LpTuple? && Overdue(items[i].h, c, store)
  }

  ghost predicate PageMustFreeze(items: seq<Item>, c: Cutoffs, store: MultiStore) {
    exists i :: 0 <= i < |items| && items[i].LpTuple? && MustFreeze(items[i].h, c, store)
  }

  /** The tuples scanned so far, as they are or as they would be once frozen. */
  function Tuples(xs: seq<Option<Scanned>>, frozen: bool): (r: seq<Item>)
    ensures |r| == |xs|
  {
    seq(|xs|, i requires 0 <= i < |xs| =>
        if xs[i].None? then Item.LpUnused else LpTuple(if frozen then xs[i].value.Frozen() else xs[i].value.h))
  }

  /** Freezing is forced exactly if some tuple forces it, and each tracker is where it was or at something that
      is on the page. */
  ghost predicate PageTight(xs: seq<Option<Scanned>>, c: Cutoffs, store: MultiStore, t0: Trackers, t: Trackers) {
    && (t.required <==> t0.required || PageMustFreeze(Tuples(xs, false), c, store))
    && (t.frzXid == t0.frzXid || PageXid(Tuples(xs, true), store, t.frzXid))
    && (t.frzMxid == t0.frzMxid || PageMxid(Tuples(xs, true), t.frzMxid))
    && (t.noXid == t0.noXid || PageXid(Tuples(xs, false), store, t.noXid))
    && (t.noMxid == t0.noMxid || PageMxid(Tuples(xs, false), t.noMxid))
  }

  /** A page that has the same tuples leaves the same behind. */
  lemma SameTuples(items: seq<Item>, items': seq<Item>, c: Cutoffs, store: MultiStore)
    requires |items| <= |items'|
    requires forall i :: 0 <= i < |items'| ==>
      if i < |items| && items[i].LpTuple? then items'[i] == items[i] else !items'[i].LpTuple?
    ensures forall x: nat :: PageXid(items', store, x) <==> PageXid(items, store, x)
    ensures forall m: nat :: PageMxid(items', m) <==> PageMxid(items, m)
    ensures PageMustFreeze(items', c, store) <==> PageMustFreeze(items, c, store)
  {
  }

  lemma OneMoreTuple(items: seq<Item>, h: Header, c: Cutoffs, store: MultiStore)
    ensures forall x: nat ::
      PageXid(items + [LpTuple(h)], store, x) <==> PageXid(items, store, x) || HasXid(h, store, x)
    ensures forall m: nat :: PageMxid(items + [LpTuple(h)], m) <==> PageMxid(items, m) || HasMxid(h, m)
    ensures PageMustFreeze(items + [LpTuple(h)], c, store) <==>
      PageMustFreeze(items, c, store) || MustFreeze(h, c, store)
  {
    var all := items + [LpTuple(h)];
    assert all[|items|] == LpTuple(h) && forall i :: 0 <= i < |items| ==> all[i] == items[i];
  }

  /** New multixacts change nothing about a page that has none of them. */
  lemma GrowthKeepsPage(items: seq<Item>, c: Cutoffs, w: World, store: MultiStore, store': MultiStore, n: nat)
    requires Grown(store, store', n) && KnownMultis(items, n)
    ensures forall x: nat :: PageXid(items, store', x) <==> PageXid(items, store, x)
    ensures PageMustFreeze(items, c, store') <==> PageMustFreeze(items, c, store)
    ensures AnyOverdue(items, c, store') <==> AnyOverdue(items, c, store)
  {
    forall i | 0 <= i < |items| && items[i].LpTuple?
      ensures MustFreeze(items[i].h, c, store') == MustFreeze(items[i].h, c, store)
      ensures Overdue(items[i].h, c, store') == Overdue(items[i].h, c, store)
      ensures forall x: nat :: HasXid(items[i].h, store', x) == HasXid(items[i].h, store, x)
    {
      GrowthKeepsAll(items[i].h, store, store', n, c, w);
    }
  }

  lemma TightMore(items: seq<Item>, xs: seq<Option<Scanned>>, x: Scanned, c: Cutoffs, w: World, store0: MultiStore,
                  store: MultiStore, next: nat, store': MultiStore, t0: Trackers, t: Trackers, t': Trackers)
    requires PageTight(xs, c, store, t0, t) && TupleTight(x, c, store', t, t') && Grown(store, store', next)
    requires AllKnown(items, xs, c, w, store0, store, next, t)
    ensures PageTight(xs + [Some(x)], c, store', t0, t')
  {
    forall i | 0 <= i < |xs| && xs[i].Some?
      ensures KnownMulti(xs[i].value.h, next) && KnownMulti(xs[i].value.Frozen(), next)
    {
      assert Known(items, xs, i, c, w, store0, store, next, t);
    }
    GrowthKeepsPage(Tuples(xs, true), c, w, store, store', next);
    GrowthKeepsPage(Tuples(xs, false), c, w, store, store', next);
    OneMoreTuple(Tuples(xs, true), x.Frozen(), c, store');
    OneMoreTuple(Tuples(xs, false), x.h, c, store');
    assert Tuples(xs + [Some(x)], true) == Tuples(xs, true) + [LpTuple(x.Frozen())];
    assert Tuples(xs + [Some(x)], false) == Tuples(xs, false) + [LpTuple(x.h)];
  }

  lemma TightSkip(xs: seq<Option<Scanned>>, c: Cutoffs, store: MultiStore, t0: Trackers, t: Trackers)
    requires PageTight(xs, c, store, t0, t)
    ensures PageTight(xs + [None], c, store, t0, t)
  {
    SameTuples(Tuples(xs, true), Tuples(xs + [None], true), c, store);
    SameTuples(Tuples(xs, false), Tuples(xs + [None], false), c, store);
  }

  /** How far the scan of a page has got. */
  ghost predicate ScannedTo(s: PageScan, items: seq<Item>, xs: seq<Option<Scanned>>, c: Cutoffs, w: World,
                            store0: MultiStore, next0: nat, store: MultiStore, next: nat, t0: Trackers, t: Trackers) {
    && |xs| <= |items| && ScanFits(s, items[..|xs|], xs, c, w, store0) && Ratcheted(c, t0, t)
    && AllKnown(items, xs, c, w, store0, store, next, t)
    && next0 <= next && Grown(store0, store, next0)
  }

  lemma ScanTupleFits(s: PageScan, items: seq<Item>, xs: seq<Option<Scanned>>, x: Scanned, f: Status, c: Cutoffs,
                      w: World, store0: MultiStore, next0: nat, store: MultiStore, next: nat, store': MultiStore,
                      next': nat, t0: Trackers, t: Trackers, t': Trackers)
    requires ScannedTo(s, items, xs, c, w, store0, next0, store, next, t0, t) && |xs| < |items| && items[|xs|].LpTuple?
    requires Grown(store0, store', next0) && Grown(store, store', next) && next <= next' && Ratcheted(c, t, t') &&
      Ratcheted(c, t0, t')
    requires x.h0 == items[|xs|].h && TupleTracked(x, c, store', t') && TupleFlags(x, c) &&
      TupleKept(x, c, w, store0, store', next')
    requires f == FateAt(x.h0, c.oldestXmin, w, store0)
    ensures ScannedTo(NoteTuple(s, x, f, c), items, xs + [Some(x)], c, w, store0, next0, store', next', t0, t')
  {
    var i := |xs|;
    assert items[..i+1] == items[..i] + [items[i]];
    NoteTupleFits(s, items[..i], xs, items[i], x, f, c, w, store0);
    KnowOneMore(items, xs, Some(x), c, w, store0, store, store', next, next', t, t');
  }

  lemma ScanItemFits(s: PageScan, items: seq<Item>, xs: seq<Option<Scanned>>, c: Cutoffs, w: World, store0: MultiStore,
                     next0: nat, store: MultiStore, next: nat, t0: Trackers, t: Trackers)
    requires ScannedTo(s, items, xs, c, w, store0, next0, store, next, t0, t) && |xs| < |items| && !items[|xs|].LpTuple?
    ensures ScannedTo(NoteItem(s, items[|xs|]), items, xs + [None], c, w, store0, next0, store, next, t0, t)
  {
    var i := |xs|;
    assert items[..i+1] == items[..i] + [items[i]];
    NoteItemFits(s, items[..i], xs, items[i], c, w, store0);
    KnowOneMore(items, xs, None, c, w, store0, store, store, next, next, t, t);
  }

  /** The loop of lazy_scan_prune over the line pointers of a pruned page; `retry` when a tuple
      turns out to have died since the page was pruned. */
  method ScanPage(items: seq<Item>, c: Cutoffs, w: World, mx: MultiXacts, pf: HeapPageFreeze)
    returns (r: Result<PageScan>, retry: bool, ghost xs: seq<Option<Scanned>>)
    requires mx.Valid() && c.Valid() && c.oldestMxact <= mx.next && mx.store.Valid() && w.Valid()
    requires SoundItems(items, w, mx.store, mx.next)
    requires pf.t.frzXid <= c.oldestXmin && pf.t.frzMxid <= c.oldestMxact
    modifies mx, pf
    ensures mx.Valid() && old(mx.next) <= mx.next && mx.store.Valid() && Grown(old(mx.store), mx.store, old(mx.next))
    ensures !retry && r.Ok? ==>
      && ScanFits(r.value, items, xs, c, w, old(mx.store)) && Ratcheted(c, old(pf.t), pf.t)
      && AllKnown(items, xs, c, w, old(mx.store), mx.store, mx.next, pf.t)
      && PageTight(xs, c, mx.store, old(pf.t), pf.t)
    ensures retry ==> AnyDead(items, c, w, old(mx.store))
    ensures !retry && r.Err? ==> AnyCorrupt(items, c, w, old(mx.store))
  {
    ghost var store0, next0, t0 := mx.store, mx.next, pf.t;
    var s := NothingScanned();
    xs, retry, r := [], false, Ok(s);
    for i := 0 to |items|
      invariant mx.Valid() && mx.store.Valid() && |xs| == i && !retry
      invariant ScannedTo(s, items, xs, c, w, store0, next0, mx.store, mx.next, t0, pf.t)
      invariant PageTight(xs, c, mx.store, t0, pf.t)
    {
      r, retry, xs := ScanItem(items, i, s, c, w, mx, pf, xs, store0, next0, t0);
      if retry || r.Err? {
        return;
      }
      s := r.value;
    }
    assert items[..|items|] == items;
    r := Ok(s);
  }

  /** One of them. */
  method ScanItem(items: seq<Item>, i: nat, s: PageScan, c: Cutoffs, w: World, mx: MultiXacts, pf: HeapPageFreeze,
                  ghost xs: seq<Option<Scanned>>, ghost store0: MultiStore, ghost next0: nat, ghost t0: Trackers)
    returns (r: Result<PageScan>, retry: bool, ghost xs': seq<Option<Scanned>>)
    requires mx.Valid() && c.Valid() && c.oldestMxact <= next0 && mx.store.Valid() && store0.Valid() && w.Valid()
    requires SoundItems(items, w, store0, next0) && i < |items| && |xs| == i
    requires t0.frzXid <= c.oldestXmin && t0.frzMxid <= c.oldestMxact
    requires ScannedTo(s, items, xs, c, w, store0, next0, mx.store, mx.next, t0, pf.t)
    requires PageTight(xs, c, mx.store, t0, pf.t)
    modifies mx, pf
    ensures mx.Valid() && mx.store.Valid() && old(mx.next) <= mx.next && Grown(store0, mx.store, next0)
    ensures !retry && r.Ok? ==>
      && |xs'| == i + 1 && ScannedTo(r.value, items, xs', c, w, store0, next0, mx.store, mx.next, t0, pf.t)
      && PageTight(xs', c, mx.store, t0, pf.t)
    ensures retry ==> AnyDead(items, c, w, store0)
    ensures !retry && r.Err? ==> AnyCorrupt(items, c, w, store0)
  {
    ghost var store, next, t := mx.store, mx.next, pf.t;
    if items[i].LpTuple? {
      assert SoundTuple(items[i].h, w, store0, next0);
      var f, x := ScanNext(items[i].h, c, w, mx, pf, store0, next0, t0);
      if f.Dead? || x.Err? {
        return Err(if x.Err? then x.error else UncommittedXmin), f.Dead?, xs;
      }
      ScanTupleFits(s, items, xs, x.value, f, c, w, store0, next0, store, next, mx.store, mx.next, t0, t, pf.t);
      TightMore(items, xs, x.value, c, w, store0, store, next, mx.store, t0, t, pf.t);
      return Ok(NoteTuple(s, x.value, f, c)), false, xs + [Some(x.value)];
    }
    ScanItemFits(s, items, xs, c, w, store0, next0, store, next, t0, t);
    TightSkip(xs, c, mx.store, t0, t);
    return Ok(NoteItem(s, items[i])), false, xs + [None];
  }

  // ---- Freezing a page ----

  /** Carry out one plan. */
  function Apply(items: seq<Item>, p: OffsetPlan): seq<Item> {
    if p.offset < |items| && items[p.offset].LpTuple?
      then items[p.offset := LpTuple(Execute(items[p.offset].h, p.plan))] else items
  }

  function ApplyAll(items: seq<Item>, plans: seq<OffsetPlan>): seq<Item> {
    if plans == [] then items else Apply(ApplyAll(items, plans[..|plans|-1]), plans[|plans|-1])
  }

  /** The page once every tuple's plan is carried out. */
  function FrozenItems(items: seq<Item>, xs: seq<Option<Scanned>>): seq<Item>
    requires |xs| == |items|
  {
    seq(|items|, i requires 0 <= i < |items| => if xs[i].Some? then LpTuple(xs[i].value.Frozen()) else items[i])
  }

  lemma OneMorePlan(items: seq<Item>, xs: seq<Option<Scanned>>, n: nat)
    requires 0 < n <= |xs|
    ensures var x, done := xs[n-1], ApplyAll(items, Plans(xs[..n-1]));
      ApplyAll(items, Plans(xs[..n])) ==
        if x.Some? && x.value.plan.Some? then Apply(done, OffsetPlan(n - 1, x.value.plan.value)) else done
  {
    var x, init := xs[n-1], Plans(xs[..n-1]);
    assert xs[..n][..n-1] == xs[..n-1];
    if x.Some? && x.value.plan.Some? {
      var p := OffsetPlan(n - 1, x.value.plan.value);
      assert Plans(xs[..n]) == init + [p] && (init + [p])[..|init|] == init;
    } else {
      assert Plans(xs[..n]) == init;
    }
  }

  /** The first `n` tuples are frozen, the others as they were. */
  predicate FrozenTo(items: seq<Item>, xs: seq<Option<Scanned>>, n: nat, done: seq<Item>)
    requires |xs| == |items|
  {
    && |done| == |items| && (forall i :: 0 <= i < n <= |items| ==> done[i] == FrozenItems(items, xs)[i])
    && (forall i :: n <= i < |items| ==> done[i] == items[i])
  }

  lemma FreezeNext(items: seq<Item>, xs: seq<Option<Scanned>>, n: nat, done: seq<Item>, done': seq<Item>)
    requires |xs| == |items| && 0 < n <= |xs| && FrozenTo(items, xs, n - 1, done)
    requires xs[n-1].Some? ==> items[n-1] == LpTuple(xs[n-1].value.h)
    requires done' == if xs[n-1].Some? && xs[n-1].value.plan.Some?
      then Apply(done, OffsetPlan(n - 1, xs[n-1].value.plan.value)) else done
    ensures FrozenTo(items, xs, n, done')
  {
  }

  /** The array of plans has the right plan for each tuple, once. */
  lemma {:induction false} PlansFreezeAll(items: seq<Item>, xs: seq<Option<Scanned>>, n: nat)
    requires |xs| == |items| && n <= |xs|
    requires forall i :: 0 <= i < |xs| && xs[i].Some? ==> items[i] == LpTuple(xs[i].value.h)
    ensures FrozenTo(items, xs, n, ApplyAll(items, Plans(xs[..n])))
  {
    if n > 0 {
      PlansFreezeAll(items, xs, n - 1);
      OneMorePlan(items, xs, n);
      FreezeNext(items, xs, n, ApplyAll(items, Plans(xs[..n-1])), ApplyAll(items, Plans(xs[..n])));
    }
  }

  predicate CheckPasses(items: seq<Item>, p: OffsetPlan, w: World) {
    p.offset < |items| && items[p.offset].LpTuple? ==> ChecksPass(items[p.offset].h, Some(p.plan), w)
  }

  class Page {
    var items: seq<Item>

    constructor (items: seq<Item>)
      ensures this.items == items
    {
      this.items := items;
    }

    /** pg_tde_freeze_execute_prepared: all checks come before any change. */
    method ExecutePrepared(frozen: seq<OffsetPlan>, w: World) returns (error: Option<Corruption>)
      modifies this
      ensures error.None? <==> forall k :: 0 <= k < |frozen| ==> CheckPasses(old(items), frozen[k], w)
      ensures items == if error.None? then ApplyAll(old(items), frozen) else old(items)
    {
      for k := 0 to |frozen|
        invariant items == old(items)
        invariant forall j :: 0 <= j < k ==> CheckPasses(items, frozen[j], w)
      {
        var p := frozen[k];
        if p.offset < |items| && items[p.offset].LpTuple? {
          var h := items[p.offset].h;
          if p.plan.checkXmin && w.state(h.xmin) != Committed {
            return Some(UncommittedXmin);
          }
          if p.plan.checkXmax && w.state(h.xmax) == Committed {
            return Some(CommittedXmax);
          }
        }
      }
      for k := 0 to |frozen|
        invariant items == ApplyAll(old(items), frozen[..k])
      {
        assert frozen[..k+1][..k] == frozen[..k];
        items := Apply(items, frozen[k]);
      }
      assert frozen[..|frozen|] == frozen;
      return None;
    }
  }

  lemma {:induction false} PlansAreChecked(items: seq<Item>, xs: seq<Option<Scanned>>, n: nat, i: nat, w: World)
    requires |xs| == |items| && i < n <= |xs| && xs[i].Some? && items[i] == LpTuple(xs[i].value.h)
    requires forall k :: 0 <= k < |Plans(xs[..n])| ==> CheckPasses(items, Plans(xs[..n])[k], w)
    ensures ChecksPass(xs[i].value.h, xs[i].value.plan, w)
  {
    assert xs[..n][..n-1] == xs[..n-1];
    var ps, init := Plans(xs[..n]), Plans(xs[..n-1]);
    if i == n - 1 {
      assert xs[i].value.plan.Some? ==> CheckPasses(items, ps[|ps|-1], w);
    } else {
      assert forall k :: 0 <= k < |init| ==> init[k] == ps[k];
      PlansAreChecked(items, xs, n - 1, i, w);
    }
  }

  // ---- lazy_scan_prune ----

  /** The trackers are no later than anything left on a page. */
  ghost predicate Left(items: seq<Item>, store: MultiStore, xid: nat, mxid: nat) {
    forall i {:trigger items[i]} :: 0 <= i < |items| && items[i].LpTuple? ==>
      XidsFrom(xid, items[i].h, store) && MxidsFrom(mxid, items[i].h)
  }

  predicate KnownMultis(items: seq<Item>, n: nat) {
    forall i {:trigger items[i]} :: 0 <= i < |items| && items[i].LpTuple? ==> KnownMulti(items[i].h, n)
  }

  /** A page as everybody sees it has not changed. */
  ghost predicate SamePage(items: seq<Item>, store: MultiStore, items': seq<Item>, store': MultiStore, c: Cutoffs,
                           w: World) {
    |items'| == |items| && forall i {:trigger items[i]} {:trigger items'[i]} :: 0 <= i < |items| ==>
      if items[i].LpTuple? then items'[i].LpTuple? && SameToAll(items[i].h, store, items'[i].h, store', c, w)
        else items'[i] == items[i]
  }

  lemma UnfrozenPage(s: PageScan, items: seq<Item>, xs: seq<Option<Scanned>>, c: Cutoffs, w: World, store0: MultiStore,
                     store: MultiStore, next: nat, t: Trackers)
    requires ScanFits(s, items, xs, c, w, store0) && AllKnown(items, xs, c, w, store0, store, next, t)
    ensures SamePage(items, store0, s.items, store, c, w)
    ensures !t.required ==> Left(s.items, store, t.noXid, t.noMxid)
    ensures KnownMultis(s.items, next)
  {
    forall i | 0 <= i < |items|
      ensures items[i].LpTuple? ==>
        && xs[i].Some? && s.items[i] == LpTuple(xs[i].value.h) &&
             SameToAll(items[i].h, store0, xs[i].value.h, store, c, w)
        && TupleTracked(xs[i].value, c, store, t) && KnownMulti(xs[i].value.h, next)
      ensures !items[i].LpTuple? ==> s.items[i] == items[i]
    {
      assert Known(items, xs, i, c, w, store0, store, next, t);
    }
  }

  /** Unless a transaction below the horizon is running, no check stands in the way of freezing. */
  lemma {:induction false} PlansPass(s: PageScan, items: seq<Item>, xs: seq<Option<Scanned>>, n: nat, c: Cutoffs,
                                     w: World, store0: MultiStore, store: MultiStore, next: nat, t: Trackers)
    requires ScanFits(s, items, xs, c, w, store0) && AllKnown(items, xs, c, w, store0, store, next, t) &&
      HorizonHolds(c, w) && n <= |xs|
    ensures forall k :: 0 <= k < |Plans(xs[..n])| ==> CheckPasses(s.items, Plans(xs[..n])[k], w)
  {
    if n > 0 {
      PlansPass(s, items, xs, n - 1, c, w, store0, store, next, t);
      assert xs[..n][..n-1] == xs[..n-1];
      assert Known(items, xs, n - 1, c, w, store0, store, next, t);
    }
  }

  lemma AllPlansPass(s: PageScan, items: seq<Item>, xs: seq<Option<Scanned>>, c: Cutoffs, w: World, store0: MultiStore,
                     store: MultiStore, next: nat, t: Trackers)
    requires ScanFits(s, items, xs, c, w, store0) && AllKnown(items, xs, c, w, store0, store, next, t)
    ensures HorizonHolds(c, w) ==> forall k :: 0 <= k < |s.frozen| ==> CheckPasses(s.items, s.frozen[k], w)
  {
    if HorizonHolds(c, w) {
      assert xs[..|xs|] == xs;
      PlansPass(s, items, xs, |xs|, c, w, store0, store, next, t);
    }
  }

  lemma FrozenPage(s: PageScan, items: seq<Item>, xs: seq<Option<Scanned>>, c: Cutoffs, w: World, store0: MultiStore,
                   store: MultiStore, next: nat, t: Trackers)
    requires ScanFits(s, items, xs, c, w, store0) && AllKnown(items, xs, c, w, store0, store, next, t)
    requires forall k :: 0 <= k < |s.frozen| ==> CheckPasses(s.items, s.frozen[k], w)
    ensures ApplyAll(s.items, s.frozen) == FrozenItems(s.items, xs)
    ensures Left(FrozenItems(s.items, xs), store, t.frzXid, t.frzMxid) && KnownMultis(FrozenItems(s.items, xs), next)
    ensures HorizonHolds(c, w) ==> SamePage(items, store0, FrozenItems(s.items, xs), store, c, w)
  {
    var n := |xs|;
    assert xs[..n] == xs;
    PlansFreezeAll(s.items, xs, n);
    var frozen := FrozenItems(s.items, xs);
    forall i | 0 <= i < n
      ensures items[i].LpTuple? ==>
        && frozen[i].LpTuple? && KnownMulti(frozen[i].h, next)
        && XidsFrom(t.frzXid, frozen[i].h, store) && MxidsFrom(t.frzMxid, frozen[i].h)
        && (HorizonHolds(c, w) ==> SameToAll(items[i].h, store0, frozen[i].h, store, c, w))
      ensures !items[i].LpTuple? ==> frozen[i] == items[i]
    {
      assert Known(items, xs, i, c, w, store0, store, next, t);
      if xs[i].Some? {
        PlansAreChecked(s.items, xs, n, i, w);
      }
    }
  }

  // ---- Agreement with pg_tde_page_is_all_visible ----

  predicate VisibleToAll(h: Header, c: Cutoffs, w: World, store: MultiStore) {
    FateAt(h, c.oldestXmin, w, store).Live? && h.XminIsCommitted() && h.Xmin() < c.oldestXmin
  }

  /** No dead line pointer, and every tuple visible to everybody. */
  predicate PageVisibleToAll(items: seq<Item>, c: Cutoffs, w: World, store: MultiStore) {
    forall i :: 0 <= i < |items| ==> !items[i].LpDead? && (items[i].LpTuple? ==> VisibleToAll(items[i].h, c, w, store))
  }

  predicate PageFrozen(items: seq<Item>) {
    forall i :: 0 <= i < |items| && items[i].LpTuple? ==> !NeedsEventualFreeze(items[i].h)
  }

  /** Every tuple is seen, now and later, by each snapshot that takes all XIDs below the horizon as finished. */
  ghost predicate PageSeen(items: seq<Item>, c: Cutoffs, w: World, store: MultiStore) {
    forall i :: 0 <= i < |items| && items[i].LpTuple? ==> SeenByEverybody(items[i].h, c.oldestXmin, w, store)
  }

  /** That is exactly what the test for an all-visible page comes to, but for hint bits that could not be set
      yet and dead line pointers. */
  lemma PageVisibleToAllIff(items: seq<Item>, c: Cutoffs, w: World, store: MultiStore)
    requires w.Valid() && FROZEN_XID < c.oldestXmin
    requires forall i :: 0 <= i < |items| && items[i].LpTuple? ==> WellFormed(items[i].h, w, store)
    ensures PageVisibleToAll(items, c, w, store) <==>
      && PageSeen(items, c, w, store)
      && forall i :: 0 <= i < |items| ==> !items[i].LpDead? && (items[i].LpTuple? ==> items[i].h.XminIsCommitted())
  {
    forall i | 0 <= i < |items| && items[i].LpTuple?
      ensures VisibleToAll(items[i].h, c, w, store) <==>
        SeenByEverybody(items[i].h, c.oldestXmin, w, store) && items[i].h.XminIsCommitted()
    {
      SeenByEverybodyIff(items[i].h, c.oldestXmin, w, store);
    }
  }

  /** The cutoff of an all-visible page is what a snapshot must have past it to see the whole page, */
  lemma CutoffIsEnough(items: seq<Item>, c: Cutoffs, w: World, store: MultiStore, s: Snapshot, w': World)
    requires w.Valid() && PageVisibleToAll(items, c, w, store) && Later(w, w') && TakenIn(s, w')
    requires forall i :: 0 <= i < |items| && items[i].LpTuple? ==> WellFormed(items[i].h, w, store)
    requires forall x: nat :: x < FIRST_NORMAL_XID || x <= NewestXmin(items) ==> !s.Running(x)
    ensures forall i :: 0 <= i < |items| && items[i].LpTuple? ==> Visible(items[i].h, s, w', store)
  {
    NewestXminIs(items);
    forall i | 0 <= i < |items| && items[i].LpTuple? ensures Visible(items[i].h, s, w', store) {
      FateTells(items[i].h, w, store, s, w');
    }
  }

  /** and it is no more than that: the newest normal xmin on the page. */
  lemma {:induction false} NewestXminIs(items: seq<Item>)
    ensures forall i :: 0 <= i < |items| && items[i].LpTuple? && Normal(items[i].h.Xmin()) ==>
      items[i].h.Xmin() <= NewestXmin(items)
    ensures NewestXmin(items) == INVALID_XID || exists i ::
      0 <= i < |items| && items[i].LpTuple? && Normal(items[i].h.Xmin()) && items[i].h.Xmin() == NewestXmin(items)
  {
    if items != [] {
      var init := items[..|items|-1];
      NewestXminIs(init);
      if NewestXmin(items) == NewestXmin(init) && NewestXmin(init) != INVALID_XID {
        var i :| 0 <= i < |init| && init[i].LpTuple? && Normal(init[i].h.Xmin()) &&
          init[i].h.Xmin() == NewestXmin(init);
        assert items[i] == init[i];
      }
    }
  }

  function NewestXmin(items: seq<Item>): nat {
    if items == [] then INVALID_XID
    else Newer(NewestXmin(items[..|items|-1]),
               if items[|items|-1].LpTuple? then items[|items|-1].h.Xmin() else INVALID_XID)
  }

  /** What lazy_scan_prune concludes is what pg_tde_page_is_all_visible will find. */
  ghost predicate Agrees(s: PruneState, items: seq<Item>, c: Cutoffs, w: World, store: MultiStore) {
    s.allVisible ==>
      && PageVisibleToAll(items, c, w, store) && (s.allFrozen <==> PageFrozen(items))
      && (NewestXmin(items) == INVALID_XID || NewestXmin(items) == s.cutoffXid)
  }

  lemma {:induction false} NewestAgrees(items: seq<Item>, xs: seq<Option<Scanned>>)
    requires |xs| == |items|
    requires forall i :: 0 <= i < |items| ==> if xs[i].Some? then items[i] == LpTuple(xs[i].value.h)
      else !items[i].LpTuple?
    ensures NewestXmin(items) == Newest(xs)
  {
    if items != [] {
      NewestAgrees(items[..|items|-1], xs[..|xs|-1]);
    }
  }

  lemma {:induction false} NoneNormal(items: seq<Item>)
    requires forall i :: 0 <= i < |items| && items[i].LpTuple? ==> !Normal(items[i].h.Xmin())
    ensures NewestXmin(items) == INVALID_XID
  {
    if items != [] {
      NoneNormal(items[..|items|-1]);
    }
  }

  lemma {:induction false} NoDeadOffsets(items: seq<Item>)
    ensures DeadOffsets(items) == [] <==> forall i :: 0 <= i < |items| ==> !items[i].LpDead?
  {
    if items != [] {
      var init, last := items[..|items|-1], items[|items|-1];
      NoDeadOffsets(init);
      assert forall i :: 0 <= i < |init| ==> items[i] == init[i];
      assert DeadOffsets(items) == [] <==> DeadOffsets(init) == [] && !last.LpDead?;
    }
  }

  lemma {:induction false} NoPlans(xs: seq<Option<Scanned>>)
    ensures Plans(xs) == [] <==> forall i :: 0 <= i < |xs| && xs[i].Some? ==> xs[i].value.plan.None?
  {
    if xs != [] {
      NoPlans(xs[..|xs|-1]);
    }
  }

  /** What is known of one tuple of a page that is all visible, frozen or not. */
  lemma TupleAgrees(x: Scanned, c: Cutoffs, w: World, store0: MultiStore, store: MultiStore)
    requires SeenByAll(x, c, w, store0) && TupleFlags(x, c) && c.Valid()
    ensures SameToAll(x.h0, store0, x.h, store, c, w) ==> VisibleToAll(x.h, c, w, store)
    ensures SameToAll(x.h0, store0, x.Frozen(), store, c, w) ==> VisibleToAll(x.Frozen(), c, w, store)
    ensures !Normal(x.Frozen().Xmin())
  {
  }

  /** The page was not frozen. */
  lemma AgreesUnfrozen(s: PageScan, items: seq<Item>, xs: seq<Option<Scanned>>, c: Cutoffs, w: World,
                       store0: MultiStore, store: MultiStore, next: nat, t: Trackers)
    requires ScanFits(s, items, xs, c, w, store0) && AllKnown(items, xs, c, w, store0, store, next, t)
    requires s.allVisible && s.dead == [] && c.Valid()
    ensures PageVisibleToAll(s.items, c, w, store) && NewestXmin(s.items) == s.cutoffXid
    ensures s.frozen == [] ==> (s.allFrozen <==> PageFrozen(s.items))
    ensures s.frozen != [] && !t.required ==> !PageFrozen(s.items)
  {
    NoDeadOffsets(items);
    NoPlans(xs);
    forall i | 0 <= i < |items|
      ensures !s.items[i].LpDead? && (s.items[i].LpTuple? <==> xs[i].Some?)
      ensures xs[i].Some? ==> s.items[i] == LpTuple(xs[i].value.h) && VisibleToAll(xs[i].value.h, c, w, store)
      ensures xs[i].Some? && xs[i].value.plan.None? ==>
        (xs[i].value.totallyFrozen <==> !NeedsEventualFreeze(xs[i].value.h))
      ensures xs[i].Some? && xs[i].value.plan.Some? && !t.required ==> NeedsEventualFreeze(xs[i].value.h)
    {
      assert Known(items, xs, i, c, w, store0, store, next, t);
      if xs[i].Some? {
        TupleAgrees(xs[i].value, c, w, store0, store);
      }
    }
    NewestAgrees(s.items, xs);
  }

  /** The page was frozen. */
  lemma AgreesFrozen(s: PageScan, items: seq<Item>, xs: seq<Option<Scanned>>, c: Cutoffs, w: World, store0: MultiStore,
                     store: MultiStore, next: nat, t: Trackers)
    requires ScanFits(s, items, xs, c, w, store0) && AllKnown(items, xs, c, w, store0, store, next, t)
    requires s.allVisible && s.dead == [] && HorizonHolds(c, w) && c.Valid()
    requires forall k :: 0 <= k < |s.frozen| ==> CheckPasses(s.items, s.frozen[k], w)
    ensures var f := FrozenItems(s.items, xs);
      PageVisibleToAll(f, c, w, store) && NewestXmin(f) == INVALID_XID && (s.allFrozen <==> PageFrozen(f))
  {
    NoDeadOffsets(items);
    var f, n := FrozenItems(s.items, xs), |xs|;
    assert xs[..n] == xs;
    forall i | 0 <= i < n
      ensures !f[i].LpDead? && (f[i].LpTuple? <==> xs[i].Some?)
      ensures xs[i].Some? ==>
        VisibleToAll(f[i].h, c, w, store) && !Normal(f[i].h.Xmin()) &&
          (xs[i].value.totallyFrozen <==> !NeedsEventualFreeze(f[i].h))
    {
      assert Known(items, xs, i, c, w, store0, store, next, t);
      if xs[i].Some? {
        PlansAreChecked(s.items, xs, n, i, w);
        TupleAgrees(xs[i].value, c, w, store0, store);
      }
    }
    NoneNormal(f);
  }

  /** LVPagePruneState */
  datatype PruneState = PruneState(allVisible: bool, allFrozen: bool, cutoffXid: nat, hastup: bool, hasLpdead: bool,
                                   dead: seq<nat>)

  /** Whether the page must, or may as well, be frozen. */
  predicate FreezePage(s: PageScan, t: Trackers, fpi: bool) {
    t.required || s.frozen == [] || (s.allVisible && s.allFrozen && fpi)
  }

  /** What freezing the page or not leaves, and concludes. */
  ghost predicate Concluded(s: PageScan, t: Trackers, fpi: bool, r: PruneState, items: seq<Item>, w: World) {
    if FreezePage(s, t, fpi) then
      && (forall k :: 0 <= k < |s.frozen| ==> CheckPasses(s.items, s.frozen[k], w)) &&
           items == ApplyAll(s.items, s.frozen)
      && r == PruneState(s.allVisible, s.allFrozen,
                         if s.frozen != [] && s.allVisible && s.allFrozen then INVALID_XID else s.cutoffXid,
                         s.hastup, s.dead != [], s.dead)
    else
      items == s.items && r == PruneState(s.allVisible, false, s.cutoffXid, s.hastup, s.dead != [], s.dead)
  }

  /** The dead line pointers, and whether there are any, and whether the page must not be truncated away. */
  ghost predicate ListsDead(r: PruneState, items: seq<Item>) {
    && r.dead == DeadOffsets(items) && (forall o :: o in r.dead <==> 0 <= o < |items| && items[o].LpDead?)
    && (r.hasLpdead <==> r.dead != [])
    && (r.hastup <==> exists i :: 0 <= i < |items| && (items[i].LpTuple? || items[i].LpRedirect?))
  }

  lemma ConclusionAgrees(s: PageScan, fpi: bool, r: PruneState, items': seq<Item>, items: seq<Item>,
                         xs: seq<Option<Scanned>>, c: Cutoffs, w: World, store0: MultiStore, store: MultiStore,
                         next: nat, t: Trackers)
    requires ScanFits(s, items, xs, c, w, store0) && AllKnown(items, xs, c, w, store0, store, next, t)
    requires Concluded(s, t, fpi, r, items', w) && c.Valid() && HorizonHolds(c, w) && s.dead == []
    ensures Agrees(r, items', c, w, store)
  {
    if s.allVisible {
      AgreesUnfrozen(s, items, xs, c, w, store0, store, next, t);
      if FreezePage(s, t, fpi) && s.frozen != [] {
        AgreesFrozen(s, items, xs, c, w, store0, store, next, t);
        FrozenPage(s, items, xs, c, w, store0, store, next, t);
      }
    }
  }

  lemma ConclusionIsSound(s: PageScan, fpi: bool, r: PruneState, items': seq<Item>, items: seq<Item>,
                          xs: seq<Option<Scanned>>, c: Cutoffs, w: World, store0: MultiStore, store: MultiStore,
                          next: nat, t: Trackers)
    requires ScanFits(s, items, xs, c, w, store0) && AllKnown(items, xs, c, w, store0, store, next, t)
    requires Concluded(s, t, fpi, r, items', w) && c.Valid()
    ensures if FreezePage(s, t, fpi) then Left(items', store, t.frzXid, t.frzMxid)
      else Left(items', store, t.noXid, t.noMxid)
    ensures KnownMultis(items', next)
    ensures HorizonHolds(c, w) ==>
      SamePage(items, store0, items', store, c, w) && (s.dead == [] ==> Agrees(r, items', c, w, store))
  {
    UnfrozenPage(s, items, xs, c, w, store0, store, next, t);
    if FreezePage(s, t, fpi) {
      FrozenPage(s, items, xs, c, w, store0, store, next, t);
    }
    if HorizonHolds(c, w) && s.dead == [] {
      ConclusionAgrees(s, fpi, r, items', items, xs, c, w, store0, store, next, t);
    }
  }

  // ---- What the conclusion means ----

  lemma {:induction false} DeadOffsetsAre(items: seq<Item>)
    ensures forall o :: o in DeadOffsets(items) <==> 0 <= o < |items| && items[o].LpDead?
  {
    if items != [] {
      DeadOffsetsAre(items[..|items|-1]);
    }
  }

  /** The scan has left hint bits on the page, if anything, and has found out whether it is all-visible. */
  lemma ScanSees(s: PageScan, items: seq<Item>, xs: seq<Option<Scanned>>, c: Cutoffs, w: World, store0: MultiStore,
                 store: MultiStore, next0: nat, next: nat, t: Trackers)
    requires w.Valid() && SoundItems(items, w, store0, next0)
    requires ScanFits(s, items, xs, c, w, store0) && AllKnown(items, xs, c, w, store0, store, next, t)
    ensures HintedPage(items, s.items, w, store0)
    ensures s.allVisible && s.dead == [] <==> PageVisibleToAll(s.items, c, w, store0)
    ensures s.allVisible ==> s.cutoffXid == NewestXmin(s.items)
  {
    NoDeadOffsets(items);
    forall i | 0 <= i < |items|
      ensures if items[i].LpTuple? then
          && xs[i].Some? && s.items[i] == LpTuple(xs[i].value.h) && s.items[i].h in Hinted(items[i].h, w, store0)
          && (SeenByAll(xs[i].value, c, w, store0) <==> VisibleToAll(s.items[i].h, c, w, store0))
        else xs[i].None? && s.items[i] == items[i]
    {
      assert Known(items, xs, i, c, w, store0, store, next, t);
      if items[i].LpTuple? {
        assert SoundTuple(items[i].h, w, store0, next0);
        HintsAreHarmless(items[i].h, xs[i].value.h, store0, c, w);
      }
    }
    NewestAgrees(s.items, xs);
  }

  /** Each tracker is where it was, or at something that is left on the page. */
  lemma ConclusionIsTight(s: PageScan, fpi: bool, r: PruneState, items': seq<Item>, items: seq<Item>,
                          xs: seq<Option<Scanned>>, c: Cutoffs, w: World, store0: MultiStore, store: MultiStore,
                          next: nat, t0: Trackers, t: Trackers)
    requires ScanFits(s, items, xs, c, w, store0) && AllKnown(items, xs, c, w, store0, store, next, t)
    requires Concluded(s, t, fpi, r, items', w) && PageTight(xs, c, store, t0, t)
    ensures FreezePage(s, t, fpi) ==>
      (t.frzXid == t0.frzXid || PageXid(items', store, t.frzXid)) &&
      (t.frzMxid == t0.frzMxid || PageMxid(items', t.frzMxid))
    ensures !FreezePage(s, t, fpi) ==>
      (t.noXid == t0.noXid || PageXid(items', store, t.noXid)) &&
      (t.noMxid == t0.noMxid || PageMxid(items', t.noMxid))
    ensures t.required <==> t0.required || PageMustFreeze(s.items, c, store)
  {
    forall i | 0 <= i < |items| ensures xs[i].None? ==> !s.items[i].LpTuple? {
      assert Known(items, xs, i, c, w, store0, store, next, t);
    }
    SameTuples(Tuples(xs, false), s.items, c, store);
    if FreezePage(s, t, fpi) {
      FrozenPage(s, items, xs, c, w, store0, store, next, t);
      SameTuples(Tuples(xs, true), FrozenItems(s.items, xs), c, store);
    }
  }

  /** Either nothing is frozen, or every xmin that can be. */
  lemma AllOrNothing(s: PageScan, fpi: bool, r: PruneState, items': seq<Item>, items: seq<Item>,
                     xs: seq<Option<Scanned>>, c: Cutoffs, w: World, store0: MultiStore, store: MultiStore, next: nat,
                     t: Trackers)
    requires ScanFits(s, items, xs, c, w, store0) && AllKnown(items, xs, c, w, store0, store, next, t)
    requires Concluded(s, t, fpi, r, items', w)
    ensures FreezePage(s, t, fpi) ==>
      forall i :: 0 <= i < |items'| && items'[i].LpTuple? ==> !FreezesXmin(items'[i].h, c)
    ensures !FreezePage(s, t, fpi) ==> items' == s.items
    ensures !t.required && !fpi ==> items' == s.items
  {
    if FreezePage(s, t, fpi) {
      FrozenPage(s, items, xs, c, w, store0, store, next, t);
      forall i | 0 <= i < |items'| && items'[i].LpTuple? ensures !FreezesXmin(items'[i].h, c) {
        assert Known(items, xs, i, c, w, store0, store, next, t);
      }
    }
  }

  /** What is all-visible is seen by everybody, frozen or not. */
  lemma SamePageSeen(items: seq<Item>, store: MultiStore, items': seq<Item>, store': MultiStore, c: Cutoffs, w: World)
    requires SamePage(items, store, items', store', c, w) && PageSeen(items, c, w, store)
    ensures PageSeen(items', c, w, store')
  {
    forall i | 0 <= i < |items'| && items'[i].LpTuple?
      ensures SeenByEverybody(items'[i].h, c.oldestXmin, w, store')
    {
      assert SeenByEverybody(items[i].h, c.oldestXmin, w, store);
    }
  }

  /** What is found out about visibility, by what the tuples are after they have been judged. */
  ghost predicate Conclusive(r: PruneState, hinted: seq<Item>, c: Cutoffs, w: World, store: MultiStore) {
    && (r.allVisible <==> PageVisibleToAll(hinted, c, w, store))
    && (r.allVisible ==>
        r.cutoffXid == NewestXmin(hinted) || (r.allFrozen && r.cutoffXid == INVALID_XID))
  }

  /** A page is frozen if some tuple forces it, and otherwise only where a full page image is written anyway; and
      then no xmin that can be frozen is left. */
  ghost predicate FrozenOrNot(hinted: seq<Item>, items: seq<Item>, c: Cutoffs, store: MultiStore, fpi: bool) {
    && (!PageMustFreeze(hinted, c, store) && !fpi ==> items == hinted)
    && (items != hinted || PageMustFreeze(hinted, c, store) ==>
        forall i :: 0 <= i < |items| && items[i].LpTuple? ==> !FreezesXmin(items[i].h, c))
  }

  lemma ConclusionTells(s: PageScan, fpi: bool, r: PruneState, r': PruneState, items': seq<Item>, items: seq<Item>,
                        xs: seq<Option<Scanned>>, c: Cutoffs, w: World, store0: MultiStore, store: MultiStore,
                        next0: nat, next: nat, t: Trackers)
    requires w.Valid() && c.Valid() && SoundItems(items, w, store0, next0) && Grown(store0, store, next0)
    requires ScanFits(s, items, xs, c, w, store0) && AllKnown(items, xs, c, w, store0, store, next, t)
    requires Concluded(s, t, fpi, r, items', w) && r' == r.(allVisible := r.allVisible && !r.hasLpdead)
    requires t.required <==> PageMustFreeze(s.items, c, store)
    ensures HintedPage(items, s.items, w, store0) && Conclusive(r', s.items, c, w, store0) && ListsDead(r', items)
    ensures FrozenOrNot(s.items, items', c, store0, fpi)
    ensures HorizonHolds(c, w) && r'.allVisible ==> PageSeen(items', c, w, store)
  {
    ScanSees(s, items, xs, c, w, store0, store, next0, next, t);
    DeadOffsetsAre(items);
    AllOrNothing(s, fpi, r, items', items, xs, c, w, store0, store, next, t);
    HintedIsKnown(items, s.items, w, store0, next0);
    GrowthKeepsPage(s.items, c, w, store0, store, next0);
    if HorizonHolds(c, w) && r'.allVisible {
      ConclusionIsSeen(s, fpi, r, items', items, xs, c, w, store0, store, next0, next, t);
    }
  }

  lemma HintedIsKnown(items: seq<Item>, items': seq<Item>, w: World, store: MultiStore, next: nat)
    requires SoundItems(items, w, store, next) && HintedPage(items, items', w, store)
    ensures KnownMultis(items', next)
  {
    forall i | 0 <= i < |items| && items[i].LpTuple? ensures KnownMulti(items'[i].h, next) {
      assert SoundTuple(items[i].h, w, store, next);
    }
  }

  lemma ConclusionIsSeen(s: PageScan, fpi: bool, r: PruneState, items': seq<Item>, items: seq<Item>,
                         xs: seq<Option<Scanned>>, c: Cutoffs, w: World, store0: MultiStore, store: MultiStore,
                         next0: nat, next: nat, t: Trackers)
    requires w.Valid() && c.Valid() && SoundItems(items, w, store0, next0) && HintedPage(items, s.items, w, store0)
    requires ScanFits(s, items, xs, c, w, store0) && AllKnown(items, xs, c, w, store0, store, next, t)
    requires Concluded(s, t, fpi, r, items', w) && PageVisibleToAll(s.items, c, w, store0) && HorizonHolds(c, w)
    ensures PageSeen(items', c, w, store)
  {
    ConclusionIsSound(s, fpi, r, items', items, xs, c, w, store0, store, next, t);
    HintedPageAgrees(items, s.items, c, w, store0, next0);
    forall i | 0 <= i < |items| && items[i].LpTuple? ensures WellFormed(s.items[i].h, w, store0) {
      assert SoundTuple(items[i].h, w, store0, next0);
    }
    PageVisibleToAllIff(s.items, c, w, store0);
    SeenBefore(items, s.items, c, w, store0);
    SamePageSeen(items, store0, items', store, c, w);
  }

  lemma SeenBefore(items: seq<Item>, items': seq<Item>, c: Cutoffs, w: World, store: MultiStore)
    requires SamePage(items, store, items', store, c, w) && PageSeen(items', c, w, store)
    ensures PageSeen(items, c, w, store)
  {
    forall i | 0 <= i < |items| && items[i].LpTuple? ensures SeenByEverybody(items[i].h, c.oldestXmin, w, store) {
      assert SeenByEverybody(items'[i].h, c.oldestXmin, w, store);
    }
  }

  class VacRel {
    const c: Cutoffs
    const aggressive: bool
    const skipWithVm: bool
    var newRelfrozenXid: nat
    var newRelminMxid: nat
    var skippedAllVis: bool

    constructor (c: Cutoffs, aggressive: bool, skipWithVm: bool)
      ensures this.c == c && this.aggressive == aggressive && this.skipWithVm == skipWithVm
      ensures newRelfrozenXid == c.oldestXmin && newRelminMxid == c.oldestMxact && !skippedAllVis
    {
      this.c, this.aggressive, this.skipWithVm := c, aggressive, skipWithVm;
      newRelfrozenXid, newRelminMxid, skippedAllVis := c.oldestXmin, c.oldestMxact, false;
    }

    predicate Valid()
      reads this
    {
      c.Valid() && newRelfrozenXid <= c.oldestXmin && newRelminMxid <= c.oldestMxact
    }

    /** Decide whether to freeze the page, and set the trackers to match. */
    method FreezeOrNot(page: Page, s: PageScan, pf: HeapPageFreeze, fpi: bool, w: World) returns (r: Result<PruneState>)
      requires page.items == s.items
      modifies `newRelfrozenXid, `newRelminMxid, page
      ensures r.Ok? ==> Concluded(s, pf.t, fpi, r.value, page.items, w)
      ensures newRelfrozenXid == if FreezePage(s, pf.t, fpi) then pf.t.frzXid else pf.t.noXid
      ensures newRelminMxid == if FreezePage(s, pf.t, fpi) then pf.t.frzMxid else pf.t.noMxid
      ensures r.Err? ==>
        FreezePage(s, pf.t, fpi) && exists k :: 0 <= k < |s.frozen| && !CheckPasses(s.items, s.frozen[k], w)
    {
      var cutoffXid, allFrozen := s.cutoffXid, s.allFrozen;
      if FreezePage(s, pf.t, fpi) {
        newRelfrozenXid, newRelminMxid := pf.t.frzXid, pf.t.frzMxid;
        if s.frozen != [] {
          if s.allVisible && s.allFrozen {
            cutoffXid := INVALID_XID;
          }
          var error := page.ExecutePrepared(s.frozen, w);
          if error.Some? {
            return Err(error.value);
          }
        }
      } else {
        newRelfrozenXid, newRelminMxid := pf.t.noXid, pf.t.noMxid;
        allFrozen := false;
      }
      return Ok(PruneState(s.allVisible, allFrozen, cutoffXid, s.hastup, s.dead != [], s.dead));
    }

    /** The work of lazy_scan_prune: scan the page, and freeze it or not. */
    method ScanAndFreeze(page: Page, w: World, mx: MultiXacts, fpi: bool)
      returns (r: Result<PruneState>, retry: bool, ghost s: PageScan, ghost xs: seq<Option<Scanned>>,
               ghost t: Trackers)
      requires Valid() && mx.Valid() && c.oldestMxact <= mx.next && mx.store.Valid() && w.Valid()
      requires SoundItems(page.items, w, mx.store, mx.next)
      modifies `newRelfrozenXid, `newRelminMxid, page, mx
      ensures mx.Valid() && old(mx.next) <= mx.next && mx.store.Valid() && Grown(old(mx.store), mx.store, old(mx.next))
      ensures retry ==> r.Err? && unchanged(this) && unchanged(page)
      ensures retry ==> AnyDead(old(page.items), c, w, old(mx.store))
      ensures r.Ok? ==>
        && ScanFits(s, old(page.items), xs, c, w, old(mx.store))
        && AllKnown(old(page.items), xs, c, w, old(mx.store), mx.store, mx.next, t)
        && Ratcheted(c, Trackers(false, old(newRelfrozenXid), old(newRelminMxid), old(newRelfrozenXid),
                                 old(newRelminMxid)), t)
        && PageTight(xs, c, mx.store, Trackers(false, old(newRelfrozenXid), old(newRelminMxid), old(newRelfrozenXid),
                                               old(newRelminMxid)), t)
        && Concluded(s, t, fpi, r.value, page.items, w)
        && newRelfrozenXid == (if FreezePage(s, t, fpi) then t.frzXid else t.noXid)
        && newRelminMxid == (if FreezePage(s, t, fpi) then t.frzMxid else t.noMxid)
      ensures r.Err? && !retry && HorizonHolds(c, w) ==> AnyCorrupt(old(page.items), c, w, old(mx.store))
    {
      ghost var items, store0 := page.items, mx.store;
      var pf := new HeapPageFreeze(newRelfrozenXid, newRelminMxid);
      var scan;
      scan, retry, xs := ScanPage(page.items, c, w, mx, pf);
      s, t := if scan.Ok? then scan.value else NothingScanned(), pf.t;
      if retry || scan.Err? {
        r := Err(if scan.Err? then scan.error else UncommittedXmin);
        return;
      }
      page.items := scan.value.items;
      AllPlansPass(scan.value, items, xs, c, w, store0, mx.store, mx.next, pf.t);
      r := FreezeOrNot(page, scan.value, pf, fpi, w);
    }

    /** lazy_scan_prune, after pruning: one attempt; `retry` asks for another.  `hinted` is the page with the
        hint bits that judging its tuples has set. */
    method LazyScanPrune(page: Page, w: World, mx: MultiXacts, fpi: bool)
      returns (r: Result<PruneState>, retry: bool, ghost hinted: seq<Item>)
      requires Valid() && mx.Valid() && c.oldestMxact <= mx.next && mx.store.Valid() && w.Valid()
      requires SoundItems(page.items, w, mx.store, mx.next)
      modifies `newRelfrozenXid, `newRelminMxid, page, mx
      ensures mx.Valid() && old(mx.next) <= mx.next && mx.store.Valid() && Grown(old(mx.store), mx.store, old(mx.next))
      ensures retry ==> r.Err? && unchanged(this) && unchanged(page)
      ensures retry ==> AnyDead(old(page.items), c, w, old(mx.store))
      ensures r.Ok? ==>
        Valid() && Left(page.items, mx.store, newRelfrozenXid, newRelminMxid) && KnownMultis(page.items, mx.next)
      ensures r.Ok? ==> newRelfrozenXid <= old(newRelfrozenXid) && newRelminMxid <= old(newRelminMxid)
      ensures r.Ok? ==> newRelfrozenXid == old(newRelfrozenXid) || PageXid(page.items, mx.store, newRelfrozenXid)
      ensures r.Ok? ==> newRelminMxid == old(newRelminMxid) || PageMxid(page.items, newRelminMxid)
      ensures r.Ok? && c.freezeLimit <= old(newRelfrozenXid) ==> c.freezeLimit <= newRelfrozenXid
      ensures r.Ok? && c.multiXactCutoff <= old(newRelminMxid) ==> c.multiXactCutoff <= newRelminMxid
      ensures r.Ok? && HorizonHolds(c, w) ==> SamePage(old(page.items), old(mx.store), page.items, mx.store, c, w)
      ensures r.Ok? ==> ListsDead(r.value, old(page.items))
      ensures r.Ok? && HorizonHolds(c, w) ==> Agrees(r.value, page.items, c, w, mx.store)
      ensures r.Ok? ==> HintedPage(old(page.items), hinted, w, old(mx.store))
      ensures r.Ok? ==> Conclusive(r.value, hinted, c, w, old(mx.store))
      ensures r.Ok? && r.value.allVisible && HorizonHolds(c, w) ==> PageSeen(page.items, c, w, mx.store)
      ensures r.Ok? ==> FrozenOrNot(hinted, page.items, c, old(mx.store), fpi)
      ensures r.Err? && !retry && HorizonHolds(c, w) ==> AnyCorrupt(old(page.items), c, w, old(mx.store))
    {
      ghost var items, store0, next0, xid0, mxid0 := page.items, mx.store, mx.next, newRelfrozenXid, newRelminMxid;
      ghost var s, xs, t;
      r, retry, s, xs, t := ScanAndFreeze(page, w, mx, fpi);
      hinted := s.items;
      if r.Ok? {
        ghost var state := r.value;
        r := Ok(r.value.(allVisible := r.value.allVisible && !r.value.hasLpdead));
        ConclusionIsSound(s, fpi, state, page.items, items, xs, c, w, store0, mx.store, mx.next, t);
        ConclusionIsTight(s, fpi, state, page.items, items, xs, c, w, store0, mx.store, mx.next,
                          Trackers(false, xid0, mxid0, xid0, mxid0), t);
        ConclusionTells(s, fpi, state, r.value, page.items, items, xs, c, w, store0, mx.store, next0, mx.next, t);
      }
    }

    /** lazy_scan_noprune: nothing is changed; false if an aggressive vacuum cannot leave it at that. */
    method LazyScanNoprune(items: seq<Item>, store: MultiStore) returns (r: bool)
      requires Valid() && store.Valid()
      modifies `newRelfrozenXid, `newRelminMxid
      ensures r ==> Valid() && Left(items, store, newRelfrozenXid, newRelminMxid)
      ensures newRelfrozenXid <= old(newRelfrozenXid) && newRelminMxid <= old(newRelminMxid)
      ensures r && aggressive && c.freezeLimit <= old(newRelfrozenXid) ==> c.freezeLimit <= newRelfrozenXid
      ensures r && aggressive && c.multiXactCutoff <= old(newRelminMxid) ==> c.multiXactCutoff <= newRelminMxid
      ensures r ==> newRelfrozenXid == old(newRelfrozenXid) || PageXid(items, store, newRelfrozenXid)
      ensures r ==> newRelminMxid == old(newRelminMxid) || PageMxid(items, newRelminMxid)
      ensures !r <==> aggressive && AnyOverdue(items, c, store)
      ensures !r ==> unchanged(this)
    {
      var noXid: nat, noMxid: nat := newRelfrozenXid, newRelminMxid;
      for i := 0 to |items|
        invariant unchanged(this) && noXid <= newRelfrozenXid && noMxid <= newRelminMxid
        invariant forall j :: 0 <= j < i && items[j].LpTuple? ==>
          XidsFrom(noXid, items[j].h, store) && MxidsFrom(noMxid, items[j].h)
        invariant noXid == newRelfrozenXid || PageXid(items, store, noXid)
        invariant noMxid == newRelminMxid || PageMxid(items, noMxid)
        invariant aggressive ==> forall j :: 0 <= j < i && items[j].LpTuple? ==> !Overdue(items[j].h, c, store)
        invariant aggressive && c.freezeLimit <= newRelfrozenXid ==> c.freezeLimit <= noXid
        invariant aggressive && c.multiXactCutoff <= newRelminMxid ==> c.multiXactCutoff <= noMxid
      {
        if items[i].LpTuple? {
          var freeze;
          freeze, noXid, noMxid := ShouldFreeze(items[i].h, c, store, noXid, noMxid);
          if freeze && aggressive {
            return false;
          }
        }
      }
      newRelfrozenXid, newRelminMxid := noXid, noMxid;
      return true;
    }

    /** Judge one tuple of the page, and leave the hint bits there that this sets. */
    method JudgeTuple(page: Page, i: nat, h: Header, ghost items: seq<Item>, w: World, store: MultiStore)
      returns (f: Status, h': Header)
      requires w.Valid() && store.Valid() && WellFormed(h, w, store) && h.mask.moved.NotMoved?
      requires i < |page.items| && page.items[i] == LpTuple(h) && HintedPage(items, page.items, w, store)
      requires |items| == |page.items| && items[i] == LpTuple(h)
      modifies page
      ensures page.items == old(page.items)[i := LpTuple(h')] && HintedPage(items, page.items, w, store)
      ensures f == FateAt(h', c.oldestXmin, w, store)
    {
      var tuple := new HeapTuple(h);
      f := tuple.SatisfiesVacuum(c.oldestXmin, w, store);
      h' := tuple.h;
      HintsAreHarmless(h, h', store, c, w);
      HintOne(items, page.items, i, h', w, store);
      page.items := page.items[i := LpTuple(h')];
    }

    /** pg_tde_page_is_all_visible. It may set hint bits on the way. */
    method PageIsAllVisible(page: Page, w: World, store: MultiStore, ghost next: nat)
      returns (allVisible: bool, cutoffXid: nat, allFrozen: bool)
      requires w.Valid() && store.Valid() && SoundItems(page.items, w, store, next)
      modifies page
      ensures HintedPage(old(page.items), page.items, w, store)
      ensures allVisible <==> PageVisibleToAll(page.items, c, w, store)
      ensures allVisible ==> cutoffXid == NewestXmin(page.items) && (allFrozen <==> PageFrozen(page.items))
      ensures allVisible ==> PageSeen(page.items, c, w, store)
    {
      allVisible, cutoffXid, allFrozen := true, INVALID_XID, true;
      ghost var items := page.items;
      NothingHinted(items, w, store, next);
      for i := 0 to |page.items|
        invariant allVisible && HintedPage(items, page.items, w, store)
        invariant forall j :: i <= j < |items| ==> page.items[j] == items[j]
        invariant cutoffXid == NewestXmin(page.items[..i]) && (allFrozen <==> PageFrozen(page.items[..i]))
        invariant PageVisibleToAll(page.items[..i], c, w, store)
      {
        match page.items[i]
        case LpDead =>
          assert !PageVisibleToAll(page.items, c, w, store);
          return false, cutoffXid, false;
        case LpTuple(h) =>
          assert SoundTuple(items[i].h, w, store, next);
          var f, h' := JudgeTuple(page, i, h, items, w, store);
          if !f.Live? || !h'.XminIsCommitted() || !(h'.Xmin() < c.oldestXmin) {
            assert !PageVisibleToAll(page.items, c, w, store);
            return false, cutoffXid, false;
          }
          OneMoreVisible(page.items, i, c, w, store);
          cutoffXid := Newer(cutoffXid, h'.Xmin());
          if allFrozen && NeedsEventualFreeze(h') {
            allFrozen := false;
          }
        case _ =>
          OneMoreVisible(page.items, i, c, w, store);
      }
      assert page.items[..|page.items|] == page.items;
      HintedPageSeen(items, page.items, c, w, store, next);
    }
  }

  /** A page that passes the test is seen by everybody. */
  lemma HintedPageSeen(items: seq<Item>, items': seq<Item>, c: Cutoffs, w: World, store: MultiStore, next: nat)
    requires w.Valid() && SoundItems(items, w, store, next) && HintedPage(items, items', w, store)
    requires PageVisibleToAll(items', c, w, store)
    ensures PageSeen(items', c, w, store)
  {
    forall i | 0 <= i < |items'| && items'[i].LpTuple?
      ensures SeenByEverybody(items'[i].h, c.oldestXmin, w, store)
    {
      assert SoundTuple(items[i].h, w, store, next);
      HintsAreHarmless(items[i].h, items'[i].h, store, c, w);
      SeenByEverybodyIff(items'[i].h, c.oldestXmin, w, store);
    }
  }

  lemma OneMoreVisible(items: seq<Item>, i: nat, c: Cutoffs, w: World, store: MultiStore)
    requires i < |items|
    ensures PageVisibleToAll(items[..i+1], c, w, store) <==>
      PageVisibleToAll(items[..i], c, w, store) && !items[i].LpDead? &&
        (items[i].LpTuple? ==> VisibleToAll(items[i].h, c, w, store))
    ensures PageFrozen(items[..i+1]) <==>
      PageFrozen(items[..i]) && (items[i].LpTuple? ==> !NeedsEventualFreeze(items[i].h))
    ensures NewestXmin(items[..i+1]) ==
      if items[i].LpTuple? then Newer(NewestXmin(items[..i]), items[i].h.Xmin()) else NewestXmin(items[..i])
  {
    var more := items[..i+1];
    assert more[..i] == items[..i] && more[i] == items[i];
    assert forall j :: 0 <= j < i ==> more[j] == items[..i][j];
  }

  /** The page has got truthful hint bits, if anything. */
  ghost predicate HintedPage(items: seq<Item>, items': seq<Item>, w: World, store: MultiStore) {
    |items'| == |items| && forall i {:trigger items[i]} {:trigger items'[i]} :: 0 <= i < |items| ==>
      if items[i].LpTuple? then items'[i].LpTuple? && items'[i].h in Hinted(items[i].h, w, store)
        else items'[i] == items[i]
  }

  lemma NothingHinted(items: seq<Item>, w: World, store: MultiStore, next: nat)
    requires SoundItems(items, w, store, next)
    ensures HintedPage(items, items, w, store)
  {
  }

  lemma HintOne(items: seq<Item>, items': seq<Item>, i: nat, h: Header, w: World, store: MultiStore)
    requires HintedPage(items, items', w, store) && i < |items| && items'[i] == items[i] && items[i].LpTuple?
    requires h in Hinted(items[i].h, w, store)
    ensures HintedPage(items, items'[i := LpTuple(h)], w, store)
  {
  }

  /** Hint bits take nothing from a page that is visible to all, and nobody else can see them. */
  lemma HintedPageAgrees(items: seq<Item>, items': seq<Item>, c: Cutoffs, w: World, store: MultiStore, next: nat)
    requires w.Valid() && SoundItems(items, w, store, next) && HintedPage(items, items', w, store)
    ensures SamePage(items, store, items', store, c, w)
    ensures PageVisibleToAll(items, c, w, store) ==> PageVisibleToAll(items', c, w, store)
    ensures NewestXmin(items') == NewestXmin(items) && (PageFrozen(items') <==> PageFrozen(items))
  {
    forall i | 0 <= i < |items| && items[i].LpTuple?
      ensures SameToAll(items[i].h, store, items'[i].h, store, c, w)
      ensures VisibleToAll(items[i].h, c, w, store) ==> VisibleToAll(items'[i].h, c, w, store)
      ensures NeedsEventualFreeze(items'[i].h) == NeedsEventualFreeze(items[i].h) &&
        items'[i].h.Xmin() == items[i].h.Xmin()
    {
      assert SoundTuple(items[i].h, w, store, next);
      HintsAreHarmless(items[i].h, items'[i].h, store, c, w);
    }
    SameXmins(items, items');
  }

  lemma {:induction false} SameXmins(items: seq<Item>, items': seq<Item>)
    requires |items'| == |items| && forall i :: 0 <= i < |items| ==>
      items'[i].LpTuple? == items[i].LpTuple? && (items[i].LpTuple? ==> items'[i].h.Xmin() == items[i].h.Xmin())
    ensures NewestXmin(items') == NewestXmin(items)
  {
    if items != [] {
      SameXmins(items[..|items|-1], items'[..|items|-1]);
    }
  }

  /** MAIN: a page that lazy_scan_prune calls all-visible is so for pg_tde_page_is_all_visible, with the same
      all-frozen answer, and the same cutoff or none. */
  lemma CheckAgrees(r: PruneState, items: seq<Item>, items': seq<Item>, c: Cutoffs, w: World, store: MultiStore,
                    next: nat, allVisible: bool, cutoffXid: nat, allFrozen: bool)
    requires w.Valid() && SoundItems(items, w, store, next) && Agrees(r, items, c, w, store) && r.allVisible
    requires HintedPage(items, items', w, store) && (allVisible <==> PageVisibleToAll(items', c, w, store))
    requires allVisible ==> cutoffXid == NewestXmin(items') && (allFrozen <==> PageFrozen(items'))
    ensures allVisible && (allFrozen <==> r.allFrozen) && (cutoffXid == INVALID_XID || cutoffXid == r.cutoffXid)
  {
    HintedPageAgrees(items, items', c, w, store, next);
  }
}
