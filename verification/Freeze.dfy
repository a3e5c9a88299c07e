/** Freezing: which XIDs and multixacts of a tuple must go, what replaces them, and how far back the
    trackers of the oldest remaining ones must be set. */
module Freeze {
  import opened Base
  import opened TupleHeader
  import opened MultiXact
  import opened Visibility

  /** struct VacuumCutoffs */
  datatype Cutoffs = Cutoffs(relfrozenxid: nat, relminmxid: nat, oldestXmin: nat, oldestMxact: nat, freezeLimit: nat,
                             multiXactCutoff: nat)
  {
    predicate Valid() {
      FIRST_NORMAL_XID <= relfrozenxid <= oldestXmin && freezeLimit <= oldestXmin && multiXactCutoff <= oldestMxact
    }
  }

  datatype Corruption =
    | MultiBeforeRelminmxid | MultiStillRunning | UpdateBeforeRelfrozenxid | CommittedUpdateBeforeCutoff
    | RunningLockerBeforeCutoff | TwoUpdaters | XminBeforeRelfrozenxid | XmaxBeforeRelfrozenxid | RawXmaxNotInvalid
    | UncommittedXmin | CommittedXmax

  datatype Result<T> = Ok(value: T) | Err(error: Corruption)

  // ---- What a tuple leaves behind ----

  predicate Normal(x: nat) {
    FIRST_NORMAL_XID <= x
  }

  function MembersOf(h: Header, store: MultiStore): seq<Member> {
    if h.mask.isMulti && !h.mask.LockedUpgraded() then store.Get(h.xmax, h.mask.LockedOnly()) else []
  }

  /** An XID whose fate someone may still have to look up for this tuple. */
  ghost predicate HasXid(h: Header, store: MultiStore, x: nat) {
    Normal(x) && (x == h.Xmin() || (!h.mask.isMulti && x == h.xmax) || x == h.Xvac() ||
                  IsMember(x, MembersOf(h, store)))
  }

  /** Nobody need look up any other: what snapshots and vacuum make of the tuple depends on the states of
      these alone. */
  lemma OnlyTheseMatter(h: Header, store: MultiStore, w: World, w': World, s: Snapshot)
    requires w.Valid() && w'.Valid() && store.Valid() && h.mask.moved.NotMoved? && LocksOnly(h, store)
    requires forall x: nat :: HasXid(h, store, x) ==>
      w'.state(x) == w.state(x) && (x in w'.current <==> x in w.current)
    ensures Fate(h, w', store) == Fate(h, w, store) && Visible(h, s, w', store) == Visible(h, s, w, store)
  {
    if !h.Frozen() {
      SameTransaction(h, store, w, w', h.xmin);
    }
    var x := h.RawUpdater(store);
    if x.Some? {
      if h.mask.isMulti {
        UpdaterInMembers(store.Get(h.xmax, false));
      }
      SameTransaction(h, store, w, w', x.value);
    }
  }

  /** XIDs that are not normal are the same in all worlds. */
  lemma SameTransaction(h: Header, store: MultiStore, w: World, w': World, x: nat)
    requires w.Valid() && w'.Valid() && (Normal(x) ==> HasXid(h, store, x))
    requires forall y: nat :: HasXid(h, store, y) ==>
      w'.state(y) == w.state(y) && (y in w'.current <==> y in w.current)
    ensures w'.state(x) == w.state(x) && (x in w'.current <==> x in w.current)
  {
    assert Normal(x) || x == INVALID_XID || x == 1 || x == FROZEN_XID;
  }

  predicate IsMember(x: nat, members: seq<Member>) {
    exists i :: 0 <= i < |members| && members[i].xid == x
  }

  predicate HasMxid(h: Header, m: nat) {
    h.mask.isMulti && h.xmax != INVALID_MULTI && m == h.xmax
  }

  /** `t` is a safe lower bound for what the tuple leaves behind. */
  ghost predicate XidsFrom(t: nat, h: Header, store: MultiStore) {
    forall x: nat :: HasXid(h, store, x) ==> t <= x
  }

  predicate MxidsFrom(t: nat, h: Header) {
    HasMxid(h, h.xmax) ==> t <= h.xmax
  }

  /** heap_tuple_should_freeze's answer: something in the tuple is too old to be left behind. */
  ghost predicate Overdue(h: Header, c: Cutoffs, store: MultiStore) {
    || (exists x: nat :: HasXid(h, store, x) && x < c.freezeLimit)
    || (HasMxid(h, h.xmax) && (h.xmax < c.multiXactCutoff || h.mask.LockedUpgraded()))
    || Normal(h.Xvac())
  }

  /** pg_tde_tuple_needs_eventual_freeze */
  predicate NeedsEventualFreeze(h: Header) {
    || Normal(h.Xmin())
    || (if h.mask.isMulti then h.xmax != INVALID_MULTI else Normal(h.xmax))
    || Normal(h.Xvac())
  }

  /** Nothing needs freezing in a tuple that leaves no XID and no multixact behind. */
  lemma NeedsEventualFreezeIff(h: Header, store: MultiStore)
    ensures NeedsEventualFreeze(h) <==> (exists x: nat :: HasXid(h, store, x)) || HasMxid(h, h.xmax)
  {
    if NeedsEventualFreeze(h) {
      assert HasXid(h, store, h.Xmin()) || HasXid(h, store, h.Xvac()) || HasXid(h, store, h.xmax) || HasMxid(h, h.xmax);
    }
  }

  function Min(a: nat, b: nat): nat {
    if a < b then a else b
  }

  /** The smaller of `t` and the oldest member. */
  function Oldest(t: nat, members: seq<Member>): (r: nat)
    ensures r <= t && forall i :: 0 <= i < |members| ==> r <= members[i].xid
    ensures r == t || IsMember(r, members)
  {
    if members == [] then t
    else
      var init := members[..|members|-1];
      var r := Min(Oldest(t, init), members[|members|-1].xid);
      assert r < Oldest(t, init) ==> members[|members|-1].xid == r;
      assert r != t && r == Oldest(t, init) ==> exists i :: 0 <= i < |init| && members[i].xid == r;
      r
  }

  predicate AnyBefore(members: seq<Member>, limit: nat) {
    exists i :: 0 <= i < |members| && members[i].xid < limit
  }

  lemma OverdueParts(h: Header, c: Cutoffs, store: MultiStore)
    requires store.Valid()
    ensures Overdue(h, c, store) <==>
      || (Normal(h.Xmin()) && h.Xmin() < c.freezeLimit)
      || (!h.mask.isMulti && Normal(h.xmax) && h.xmax < c.freezeLimit)
      || AnyBefore(MembersOf(h, store), c.freezeLimit)
      || (HasMxid(h, h.xmax) && (h.xmax < c.multiXactCutoff || h.mask.LockedUpgraded()))
      || Normal(h.Xvac())
  {
    assert HasXid(h, store, h.Xmin()) <==> Normal(h.Xmin());
    assert !h.mask.isMulti && Normal(h.xmax) ==> HasXid(h, store, h.xmax);
    var members := MembersOf(h, store);
    assert NormalMembers(members);
    if AnyBefore(members, c.freezeLimit) {
      var i :| 0 <= i < |members| && members[i].xid < c.freezeLimit;
      assert HasXid(h, store, members[i].xid);
    }
  }

  /** Look at each member once. */
  method AgeOfMembers(members: seq<Member>, limit: nat, t: nat) returns (t': nat, anyOld: bool)
    ensures t' == Oldest(t, members) && (anyOld <==> AnyBefore(members, limit))
  {
    t', anyOld := t, false;
    for i := 0 to |members|
      invariant t' == Oldest(t, members[..i])
      invariant anyOld <==> exists j :: 0 <= j < i && members[j].xid < limit
    {
      assert members[..i+1][..i] == members[..i];
      t' := Min(t', members[i].xid);
      if members[i].xid < limit {
        anyOld := true;
      }
    }
    assert members[..|members|] == members;
  }

  /** The part of pg_tde_tuple_should_freeze that deals with xmax. */
  method ShouldFreezeXmax(h: Header, c: Cutoffs, store: MultiStore, noXid: nat, noMxid: nat)
    returns (freeze: bool, noXid': nat, noMxid': nat)
    ensures freeze <==>
      || (!h.mask.isMulti && Normal(h.xmax) && h.xmax < c.freezeLimit)
      || AnyBefore(MembersOf(h, store), c.freezeLimit)
      || (HasMxid(h, h.xmax) && (h.xmax < c.multiXactCutoff || h.mask.LockedUpgraded()))
    ensures noXid' == if !h.mask.isMulti && Normal(h.xmax) then Min(noXid, h.xmax)
                      else Oldest(noXid, MembersOf(h, store))
    ensures noMxid' == if HasMxid(h, h.xmax) then Min(noMxid, h.xmax) else noMxid
  {
    freeze, noXid', noMxid' := false, noXid, noMxid;
    var xid := if h.mask.isMulti then INVALID_XID else h.xmax;
    var multi := if h.mask.isMulti then h.xmax else INVALID_MULTI;
    if Normal(xid) {
      noXid' := Min(noXid, xid);
      freeze := xid < c.freezeLimit;
    } else if multi == INVALID_MULTI {
    } else if h.mask.LockedUpgraded() {
      noMxid' := Min(noMxid, multi);
      freeze := true;
    } else {
      noMxid' := Min(noMxid, multi);
      freeze := multi < c.multiXactCutoff;
      var members := store.Get(multi, h.mask.LockedOnly());
      var tooOld;
      noXid', tooOld := AgeOfMembers(members, c.freezeLimit, noXid);
      freeze := freeze || tooOld;
    }
  }

  /** pg_tde_tuple_should_freeze */
  method ShouldFreeze(h: Header, c: Cutoffs, store: MultiStore, noXid: nat, noMxid: nat)
    returns (freeze: bool, noXid': nat, noMxid': nat)
    requires store.Valid()
    ensures freeze <==> Overdue(h, c, store)
    ensures noXid' <= noXid && XidsFrom(noXid', h, store) && (noXid' == noXid || HasXid(h, store, noXid'))
    ensures noMxid' <= noMxid && MxidsFrom(noMxid', h) && (noMxid' == noMxid || HasMxid(h, noMxid'))
  {
    OverdueParts(h, c, store);
    assert NormalMembers(MembersOf(h, store));
    freeze, noXid', noMxid' := false, noXid, noMxid;
    var xid := h.Xmin();
    if Normal(xid) {
      noXid' := Min(noXid', xid);
      freeze := xid < c.freezeLimit;
    }
    var xmaxOld;
    xmaxOld, noXid', noMxid' := ShouldFreezeXmax(h, c, store, noXid', noMxid');
    freeze := freeze || xmaxOld;
    xid := h.Xvac();
    if Normal(xid) {
      noXid' := Min(noXid', xid);
      freeze := true;
    }
  }

  // ---- Multixacts ----

  datatype MultiPlan = Noop | Invalidate | ReturnXid(xid: nat, committed: bool) | ReturnMulti(multi: nat)

  /** A member that freezing must keep: a running locker, or an updater that has not aborted. */
  predicate Survives(m: Member, w: World) {
    if m.status.IsUpdate() then w.state(m.xid) != Aborted else w.state(m.xid) == InProgress
  }

  function Survivors(members: seq<Member>, w: World): seq<Member> {
    if members == [] then []
    else
      var last := members[|members|-1];
      Survivors(members[..|members|-1], w) + if Survives(last, w) then [last] else []
  }

  lemma {:induction false} SurvivorsAreMembers(members: seq<Member>, w: World)
    ensures forall m :: m in Survivors(members, w) <==> m in members && Survives(m, w)
  {
    if members != [] {
      SurvivorsAreMembers(members[..|members|-1], w);
      assert members == members[..|members|-1] + [members[|members|-1]];
    }
  }

  predicate HasLocker(members: seq<Member>) {
    exists m :: m in members && !m.status.IsUpdate()
  }

  predicate NoneBefore(members: seq<Member>, limit: nat) {
    forall m :: m in members ==> limit <= m.xid
  }

  /** The first pass: is some member too old to be left alone? */
  method FirstPass(members: seq<Member>, c: Cutoffs, t: nat) returns (needReplace: bool, t': nat)
    ensures needReplace <==> AnyBefore(members, c.freezeLimit)
    ensures !needReplace ==> t' == Oldest(t, members)
  {
    needReplace, t' := false, t;
    for i := 0 to |members|
      invariant t' == Oldest(t, members[..i])
      invariant !AnyBefore(members[..i], c.freezeLimit)
    {
      assert members[..i+1][..i] == members[..i];
      if members[i].xid < c.freezeLimit {
        return true, t';
      }
      t' := Min(t', members[i].xid);
    }
    assert members[..|members|] == members;
  }

  /** The second pass: which members must be kept? */
  method SecondPass(members: seq<Member>, c: Cutoffs, w: World)
    returns (error: Option<Corruption>, kept: seq<Member>, hasLockers: bool, updateXid: nat, updateCommitted: bool)
    requires NormalMembers(members)
    ensures error.Some? ==>
      (exists m :: m in members && Survives(m, w) && m.xid < c.oldestXmin) || !AtMostOneUpdater(members)
    ensures error.None? ==>
      && kept == Survivors(members, w) && NoneBefore(kept, c.oldestXmin) && (hasLockers <==> HasLocker(kept))
      && (updateXid == INVALID_XID <==> forall m :: m in kept ==> !m.status.IsUpdate())
      && (forall m :: m in kept && m.status.IsUpdate() ==>
          m.xid == updateXid && (updateCommitted <==> w.state(m.xid) == Committed))
  {
    error, kept, hasLockers, updateXid, updateCommitted := None, [], false, INVALID_XID, false;
    for i := 0 to |members|
      invariant kept == Survivors(members[..i], w) && NoneBefore(kept, c.oldestXmin) &&
        (hasLockers <==> HasLocker(kept))
      invariant updateXid == INVALID_XID <==> forall m :: m in kept ==> !m.status.IsUpdate()
      invariant forall m :: m in kept && m.status.IsUpdate() ==>
        m.xid == updateXid && (updateCommitted <==> w.state(m.xid) == Committed)
      invariant error.None? && (updateXid == INVALID_XID ==> !updateCommitted)
      invariant updateXid != INVALID_XID ==> exists j :: 0 <= j < i && members[j].status.IsUpdate()
    {
      assert members[..i+1][..i] == members[..i];
      var m := members[i];
      if !m.status.IsUpdate() {
        if w.state(m.xid) == InProgress {
          if m.xid < c.oldestXmin {
            error := Some(RunningLockerBeforeCutoff);
            return;
          }
          kept, hasLockers := kept + [m], true;
        }
        continue;
      }
      if updateXid != INVALID_XID {
        error := Some(TwoUpdaters);
        return;
      }
      if w.state(m.xid) == InProgress {
        updateXid := m.xid;
      } else if w.state(m.xid) == Committed {
        updateCommitted, updateXid := true, m.xid;
      } else {
        continue;
      }
      if m.xid < c.oldestXmin {
        error := Some(CommittedUpdateBeforeCutoff);
        return;
      }
      kept := kept + [m];
    }
    assert members[..|members|] == members;
  }

  /** HeapPageFreeze: the trackers for one page, in case it is frozen and in case it is not. */
  datatype Trackers = Trackers(required: bool, frzXid: nat, frzMxid: nat, noXid: nat, noMxid: nat)

  class HeapPageFreeze {
    var t: Trackers

    constructor (xid: nat, mxid: nat)
      ensures t == Trackers(false, xid, mxid, xid, mxid)
    {
      t := Trackers(false, xid, mxid, xid, mxid);
    }
  }

  ghost predicate NoSurvivors(members: seq<Member>, w: World) {
    forall m :: m in members ==> !Survives(m, w)
  }

  /** The store once `multi` has been added. */
  function WithMulti(store: MultiStore, multi: nat, members: seq<Member>): MultiStore {
    store.(members := store.members[multi := members])
  }

  /** A multixact that cannot be left as it is: it is no more than a memory of lockers, or something in it is
      older than the cutoffs allow. */
  predicate MultiMustGo(h: Header, c: Cutoffs, store: MultiStore) {
    || h.xmax == INVALID_MULTI || h.mask.LockedUpgraded() || h.xmax < c.oldestMxact || h.xmax < c.multiXactCutoff
    || MembersOf(h, store) == [] || AnyBefore(MembersOf(h, store), c.freezeLimit)
  }

  /** The tuple leaves no choice but to freeze its page. */
  ghost predicate MustFreeze(h: Header, c: Cutoffs, store: MultiStore) {
    Overdue(h, c, store) || (h.mask.isMulti && MultiMustGo(h, c, store))
  }

  /** What a plan for a multixact must be: nothing too old stays, and everyone who matters is kept. */
  ghost predicate MultiPlanFits(plan: MultiPlan, h: Header, c: Cutoffs, w: World, store: MultiStore, store': MultiStore,
                                t: Trackers, t': Trackers) {
    var members := MembersOf(h, store);
    (plan.Noop? <==> !MultiMustGo(h, c, store)) &&
    match plan
    case Noop =>
      && store' == store
      && t' == t.(frzXid := Oldest(t.frzXid, members), frzMxid := Min(t.frzMxid, h.xmax))
    case Invalidate =>
      store' == store && t' == t.(required := true) && NoSurvivors(members, w)
    case ReturnXid(xid, committed) =>
      && store' == store && t' == t.(required := true) && !h.mask.LockedOnly()
      && c.oldestXmin <= xid && UpdaterOf(members) == Some(xid) && (committed ==> w.state(xid) == Committed)
      && (forall m :: m in members && Survives(m, w) ==> m.status.IsUpdate() && m.xid == xid)
    case ReturnMulti(multi) =>
      && multi !in store.members && multi != INVALID_MULTI && c.oldestMxact <= multi && store.oldestVisible <= multi
      && store' == WithMulti(store, multi, Survivors(members, w)) && t' == t.(required := true)
      && NoneBefore(Survivors(members, w), c.oldestXmin) && HasLocker(Survivors(members, w))
  }

  /** The members of a multixact are as the cutoffs promise. */
  ghost predicate Healthy(h: Header, c: Cutoffs, w: World, store: MultiStore) {
    && c.relminmxid <= h.xmax
    && (h.xmax < c.oldestMxact ==> !MultiRunning(store, h.xmax, h.mask.LockedOnly(), w))
    && NoneBefore(store.Get(h.xmax, false), c.relfrozenxid)
    && (forall m :: m in store.Get(h.xmax, false) && Survives(m, w) ==> c.oldestXmin <= m.xid)
  }

  /** A tuple is as pg_class and the cutoffs promise: nothing in it is older than they allow. */
  ghost predicate Uncorrupted(h: Header, c: Cutoffs, w: World, store: MultiStore) {
    && (Normal(h.Xmin()) ==> c.relfrozenxid <= h.Xmin())
    && (if h.mask.isMulti then h.xmax != INVALID_MULTI && !h.mask.LockedUpgraded() ==> Healthy(h, c, w, store)
        else h.xmax == INVALID_XID || (Normal(h.xmax) && c.relfrozenxid <= h.xmax))
  }

  /** FreezeMultiXactId, for a multixact that nobody can be running in any more. */
  method FreezeOldMulti(h: Header, c: Cutoffs, w: World, mx: MultiXacts, pf: HeapPageFreeze)
    returns (r: Result<MultiPlan>)
    requires mx.store.Valid() && w.Valid() && NamesUpdater(h, mx.store) && LocksOnly(h, mx.store)
    requires h.mask.isMulti && h.xmax != INVALID_MULTI && !h.mask.LockedUpgraded() &&
      c.relminmxid <= h.xmax < c.oldestMxact
    modifies pf
    ensures r.Ok? ==> MultiPlanFits(r.value, h, c, w, mx.store, mx.store, old(pf.t), pf.t)
    ensures r.Err? ==> !Healthy(h, c, w, mx.store)
  {
    if MultiRunning(mx.store, h.xmax, h.mask.LockedOnly(), w) {
      return Err(MultiStillRunning);
    }
    if h.mask.LockedOnly() {
      pf.t := pf.t.(required := true);
      return Ok(Invalidate);
    }
    var members := mx.store.Get(h.xmax, false);
    UpdaterInMembers(members);
    var x := UpdaterOf(members).value;
    assert AtMostOneUpdater(members);
    forall m | m in members && m.status.IsUpdate() ensures m.xid == x {
      var i :| 0 <= i < |members| && members[i] == m;
      UpdaterIsMember(members, i);
    }
    if x < c.relfrozenxid {
      return Err(UpdateBeforeRelfrozenxid);
    } else if x < c.oldestXmin {
      if w.state(x) == Committed {
        return Err(CommittedUpdateBeforeCutoff);
      }
      pf.t := pf.t.(required := true);
      return Ok(Invalidate);
    }
    pf.t := pf.t.(required := true);
    return Ok(ReturnXid(x, false));
  }

  /** FreezeMultiXactId, when members must be looked at one by one to decide which to keep. */
  method ReplaceMulti(h: Header, members: seq<Member>, c: Cutoffs, w: World, mx: MultiXacts, pf: HeapPageFreeze)
    returns (r: Result<MultiPlan>)
    requires mx.Valid() && mx.store.Valid() && c.oldestMxact <= mx.next && members == MembersOf(h, mx.store)
    requires MultiMustGo(h, c, mx.store)
    requires NormalMembers(members) && AtMostOneUpdater(members) &&
      (h.mask.LockedOnly() ==> forall m :: m in members ==> !m.status.IsUpdate())
    modifies mx, pf
    ensures mx.Valid() && old(mx.next) <= mx.next && mx.store.Valid() && Grown(old(mx.store), mx.store, old(mx.next))
    ensures r.Ok? ==> MultiPlanFits(r.value, h, c, w, old(mx.store), mx.store, old(pf.t), pf.t)
    ensures r.Err? ==> exists m :: m in members && Survives(m, w) && m.xid < c.oldestXmin
  {
    var error, kept, hasLockers, updateXid, updateCommitted := SecondPass(members, c, w);
    if error.Some? {
      return Err(error.value);
    }
    SurvivorsAreMembers(members, w);
    if |kept| == 0 {
      r := Ok(Invalidate);
    } else if updateXid != INVALID_XID && !hasLockers {
      OnlyUpdater(members, w, updateXid);
      r := Ok(ReturnXid(updateXid, updateCommitted));
    } else {
      assert hasLockers by {
        assert kept[0] in kept;
      }
      SurvivorsAtMostOne(members, w);
      NormalSurvivors(members, w);
      var multi := mx.CreateFromMembers(kept);
      r := Ok(ReturnMulti(multi));
    }
    pf.t := pf.t.(required := true);
  }

  lemma NormalSurvivors(members: seq<Member>, w: World)
    requires NormalMembers(members)
    ensures NormalMembers(Survivors(members, w))
  {
  }

  lemma OnlyUpdater(members: seq<Member>, w: World, x: nat)
    requires AtMostOneUpdater(members) && !HasLocker(Survivors(members, w)) && x != INVALID_XID
    requires forall m :: m in Survivors(members, w) && m.status.IsUpdate() ==> m.xid == x
    requires exists m :: m in Survivors(members, w) && m.status.IsUpdate()
    ensures UpdaterOf(members) == Some(x)
    ensures forall m :: m in members && Survives(m, w) ==> m.status.IsUpdate() && m.xid == x
  {
    SurvivorsAreMembers(members, w);
    var m :| m in Survivors(members, w) && m.status.IsUpdate();
    var i :| 0 <= i < |members| && members[i] == m;
    UpdaterIsMember(members, i);
  }

  /** FreezeMultiXactId */
  method FreezeMultiXactId(h: Header, c: Cutoffs, w: World, mx: MultiXacts, pf: HeapPageFreeze)
    returns (r: Result<MultiPlan>)
    requires mx.Valid() && c.oldestMxact <= mx.next && mx.store.Valid() && w.Valid()
    requires h.mask.isMulti && NamesUpdater(h, mx.store) && LocksOnly(h, mx.store)
    modifies mx, pf
    ensures mx.Valid() && old(mx.next) <= mx.next && mx.store.Valid() && Grown(old(mx.store), mx.store, old(mx.next))
    ensures r.Ok? ==> MultiPlanFits(r.value, h, c, w, old(mx.store), mx.store, old(pf.t), pf.t)
    ensures r.Err? ==> h.xmax != INVALID_MULTI && !h.mask.LockedUpgraded() && !Healthy(h, c, w, old(mx.store))
  {
    if h.xmax == INVALID_MULTI || h.mask.LockedUpgraded() {
      pf.t := pf.t.(required := true);
      return Ok(Invalidate);
    } else if h.xmax < c.relminmxid {
      return Err(MultiBeforeRelminmxid);
    } else if h.xmax < c.oldestMxact {
      r := FreezeOldMulti(h, c, w, mx, pf);
      return;
    }
    var members := mx.store.Get(h.xmax, h.mask.LockedOnly());
    if |members| == 0 {
      pf.t := pf.t.(required := true);
      return Ok(Invalidate);
    }
    assert NormalMembers(members) && AtMostOneUpdater(members);
    var needReplace, frzXid := FirstPass(members, c, pf.t.frzXid);
    if !needReplace {
      needReplace := h.xmax < c.multiXactCutoff;
    }
    if !needReplace {
      pf.t := pf.t.(frzXid := frzXid, frzMxid := Min(pf.t.frzMxid, h.xmax));
      return Ok(Noop);
    }
    r := ReplaceMulti(h, members, c, w, mx, pf);
  }

  // ---- Freeze plans ----

  datatype XvacChange = KeepXvac | FreezeXvac | InvalidateXvac

  /** HeapTupleFreeze; the checks are made when the plan is executed. */
  datatype FreezePlan = FreezePlan(xmax: nat, mask: Infomask, xvac: XvacChange, checkXmin: bool, checkXmax: bool)

  /** pg_tde_execute_freeze_tuple */
  function Execute(h: Header, p: FreezePlan): Header {
    h.(xmax := p.xmax, mask := p.mask,
       xvac := match p.xvac case KeepXvac => h.xvac case FreezeXvac => FROZEN_XID case InvalidateXvac => INVALID_XID)
  }

  function After(h: Header, plan: Option<FreezePlan>): Header {
    if plan.Some? then Execute(h, plan.value) else h
  }

  /** The checks made before any plan for a page is executed. */
  predicate ChecksPass(h: Header, plan: Option<FreezePlan>, w: World) {
    plan.Some? ==>
      (plan.value.checkXmin ==> w.state(h.xmin) == Committed) && (plan.value.checkXmax ==> w.state(h.xmax) != Committed)
  }

  /** What becomes of xmax. */
  datatype XmaxAction = KeepXmax(frozen: bool) | RemoveXmax(check: bool) | NewXid(xid: nat, committed: bool)
    | NewMulti(multi: nat, bits: HintBits)

  function MaskAfter(mask: Infomask, a: XmaxAction): Infomask {
    match a
    case KeepXmax(_) => mask
    case RemoveXmax(_) =>
      mask.(xmaxHint := XmaxInvalid, isMulti := false, lockOnly := false, lock := NoLock, hotUpdated := false,
            keysUpdated := false)
    case NewXid(_, committed) =>
      mask.(xmaxHint := if committed then XmaxCommitted else XmaxUnknown, isMulti := false, lockOnly := false,
            lock := NoLock)
    case NewMulti(_, bits) =>
      mask.(xmaxHint := XmaxUnknown, isMulti := true, lockOnly := bits.lockOnly, lock := bits.lock,
            keysUpdated := bits.keysUpdated)
  }

  function XmaxAfter(xmax: nat, a: XmaxAction): nat {
    match a
    case KeepXmax(_) => xmax
    case RemoveXmax(_) => INVALID_XID
    case NewXid(xid, _) => xid
    case NewMulti(multi, _) => multi
  }

  predicate FreezesXmin(h: Header, c: Cutoffs) {
    Normal(h.Xmin()) && h.Xmin() < c.oldestXmin
  }

  /** The plan that goes with what becomes of xmax; none if nothing changes. */
  function PlanOf(h: Header, c: Cutoffs, a: XmaxAction): Option<FreezePlan> {
    if !FreezesXmin(h, c) && !Normal(h.Xvac()) && a.KeepXmax? then None
    else
      var mask := MaskAfter(h.mask, a);
      Some(FreezePlan(XmaxAfter(h.xmax, a), if FreezesXmin(h, c) then mask.(xminHint := XminFrozen) else mask,
                      if !Normal(h.Xvac()) then KeepXvac else if h.mask.moved.MovedOff? then InvalidateXvac
                        else FreezeXvac,
                      FreezesXmin(h, c), a.RemoveXmax? && a.check))
  }

  /** When an action is the right one for the tuple's xmax. */
  ghost predicate XmaxFits(a: XmaxAction, h: Header, c: Cutoffs, w: World, store: MultiStore, store': MultiStore,
                           t: Trackers, t': Trackers) {
    if h.mask.isMulti then
      match a
      case KeepXmax(frozen) => !frozen && MultiPlanFits(Noop, h, c, w, store, store', t, t')
      case RemoveXmax(check) => !check && MultiPlanFits(Invalidate, h, c, w, store, store', t, t')
      case NewXid(xid, committed) => MultiPlanFits(ReturnXid(xid, committed), h, c, w, store, store', t, t')
      case NewMulti(multi, bits) =>
        MultiPlanFits(ReturnMulti(multi), h, c, w, store, store', t, t') && BitsFor(bits, store'.Get(multi, false))
    else
      && store' == store && t' == t
      && (if Normal(h.xmax) then a == (if h.xmax < c.oldestXmin then RemoveXmax(!h.mask.LockedOnly())
                                       else KeepXmax(false))
          else h.xmax == INVALID_XID && a == KeepXmax(true))
  }

  predicate TotallyFrozen(h: Header, c: Cutoffs, a: XmaxAction) {
    (FreezesXmin(h, c) || !Normal(h.Xmin())) && (a.RemoveXmax? || a == KeepXmax(true))
  }

  // ---- What a plan achieves ----

  /** A tuple reported totally frozen needs no freezing ever again, and only such a tuple. */
  lemma TotallyFrozenIff(h: Header, c: Cutoffs, w: World, store: MultiStore, store': MultiStore, t: Trackers,
                         t': Trackers, a: XmaxAction)
    requires c.Valid() && XmaxFits(a, h, c, w, store, store', t, t')
    ensures TotallyFrozen(h, c, a) <==> !NeedsEventualFreeze(After(h, PlanOf(h, c, a)))
  {
  }

  /** Once the plan is carried out, no XID or multixact older than the "freeze" trackers is left. */
  lemma FrozenPageIsTracked(h: Header, c: Cutoffs, w: World, store: MultiStore, store': MultiStore, t: Trackers,
                            t': Trackers, a: XmaxAction)
    requires c.Valid() && store.Valid() && XmaxFits(a, h, c, w, store, store', t, t')
    requires t.frzXid <= c.oldestXmin && t.frzMxid <= c.oldestMxact
    ensures XidsFrom(t'.frzXid, After(h, PlanOf(h, c, a)), store') && MxidsFrom(t'.frzMxid, After(h, PlanOf(h, c, a)))
    ensures t'.frzXid <= t.frzXid && t'.frzMxid <= t.frzMxid
    ensures c.freezeLimit <= t.frzXid ==> c.freezeLimit <= t'.frzXid
    ensures c.multiXactCutoff <= t.frzMxid ==> c.multiXactCutoff <= t'.frzMxid
  {
    TrackersFall(h, c, w, store, store', t, t', a);
  }

  lemma TrackersFall(h: Header, c: Cutoffs, w: World, store: MultiStore, store': MultiStore, t: Trackers, t': Trackers,
                     a: XmaxAction)
    requires c.Valid() && XmaxFits(a, h, c, w, store, store', t, t')
    ensures t'.frzXid <= t.frzXid && t'.frzMxid <= t.frzMxid
    ensures c.freezeLimit <= t.frzXid ==> c.freezeLimit <= t'.frzXid
    ensures c.multiXactCutoff <= t.frzMxid ==> c.multiXactCutoff <= t'.frzMxid
  {
  }

  // ---- What freezing keeps ----

  /** No transaction below the removal horizon is still running. */
  ghost predicate HorizonHolds(c: Cutoffs, w: World) {
    forall x: nat :: x < c.oldestXmin ==> w.state(x) != InProgress
  }

  lemma UpdaterSurvives(members: seq<Member>, w: World)
    requires AtMostOneUpdater(members)
    ensures UpdaterOf(Survivors(members, w)) ==
      match UpdaterOf(members) case None => None case Some(x) => if w.state(x) != Aborted then Some(x) else None
    ensures AtMostOneUpdater(Survivors(members, w))
  {
    var kept := Survivors(members, w);
    SurvivorsAreMembers(members, w);
    SurvivorsAtMostOne(members, w);
    UpdaterInMembers(members);
    UpdaterInMembers(kept);
    if UpdaterOf(members).Some? {
      var i :| 0 <= i < |members| && members[i].status.IsUpdate() && members[i].xid == UpdaterOf(members).value;
      if w.state(members[i].xid) != Aborted {
        assert members[i] in kept;
        var j :| 0 <= j < |kept| && kept[j] == members[i];
        UpdaterIsMember(kept, j);
      }
    }
    if UpdaterOf(kept).Some? {
      var j :| 0 <= j < |kept| && kept[j].status.IsUpdate() && kept[j].xid == UpdaterOf(kept).value;
      assert kept[j] in kept;
      var i :| 0 <= i < |members| && members[i] == kept[j];
      UpdaterIsMember(members, i);
    }
  }

  lemma {:induction false} SurvivorsAtMostOne(members: seq<Member>, w: World)
    requires AtMostOneUpdater(members)
    ensures AtMostOneUpdater(Survivors(members, w))
  {
    if members != [] {
      var init := members[..|members|-1];
      SurvivorsAtMostOne(init, w);
      SurvivorsAreMembers(init, w);
      if members[|members|-1].status.IsUpdate() {
        forall m | m in Survivors(init, w) ensures !m.status.IsUpdate() {
          assert m in init;
          var i :| 0 <= i < |init| && init[i] == m;
          assert members[i] == m;
        }
      }
    }
  }

  lemma LockOnlyIff(bits: HintBits, members: seq<Member>)
    requires BitsFor(bits, members)
    ensures bits.lockOnly <==> UpdaterOf(members).None?
  {
    UpdaterInMembers(members);
    if UpdaterOf(members).None? {
      forall i | 0 <= i < |members| ensures !members[i].status.IsUpdate() {
        NoUpdaterAt(members, i);
      }
    }
  }

  lemma {:induction false} NoUpdaterAt(members: seq<Member>, i: nat)
    requires i < |members| && UpdaterOf(members).None?
    ensures !members[i].status.IsUpdate()
  {
    if i > 0 {
      NoUpdaterAt(members[1..], i - 1);
    }
  }

  /** The updater after freezing is the one before, unless that one has aborted. */
  lemma UpdaterAfter(h: Header, c: Cutoffs, w: World, store: MultiStore, store': MultiStore, t: Trackers, t': Trackers,
                     a: XmaxAction)
    requires c.Valid() && w.Valid() && store.Valid() && WellFormed(h, w, store) && HorizonHolds(c, w)
    requires XmaxFits(a, h, c, w, store, store', t, t') && ChecksPass(h, PlanOf(h, c, a), w)
    ensures var before, after := h.Updater(store), After(h, PlanOf(h, c, a)).Updater(store');
      after == before ||
      ((after.None? || w.state(after.value) == Aborted) && (before.None? || w.state(before.value) == Aborted))
  {
    if h.mask.isMulti && !a.KeepXmax? {
      if a.NewMulti? {
        UpdaterReplaced(h, w, store, store', a.multi, a.bits, After(h, PlanOf(h, c, a)));
      } else {
        UpdaterGoesOrStays(h, w, store);
      }
    }
  }

  /** A new multixact has the same updater, if it has not aborted. */
  lemma UpdaterReplaced(h: Header, w: World, store: MultiStore, store': MultiStore, multi: nat, bits: HintBits,
                        after: Header)
    requires store.Valid() && WellFormed(h, w, store) && h.mask.isMulti
    requires multi != INVALID_MULTI && store.oldestVisible <= multi && HasLocker(Survivors(MembersOf(h, store), w))
    requires store' == WithMulti(store, multi, Survivors(MembersOf(h, store), w)) &&
      BitsFor(bits, store'.Get(multi, false))
    requires after.xmax == multi && after.mask.isMulti && after.mask.xmaxHint == XmaxUnknown &&
      after.mask.lockOnly == bits.lockOnly && after.mask.lock == bits.lock
    ensures var x := h.Updater(store);
      after.Updater(store') == if x.Some? && w.state(x.value) == Aborted then None else x
  {
    var members := MembersOf(h, store);
    var kept := Survivors(members, w);
    UpdaterSurvives(members, w);
    assert store'.Get(multi, false) == kept;
    LockOnlyIff(bits, kept);
    assert forall i :: 0 <= i < |members| ==> members[i] in members;
    UpdaterInMembers(members);
    assert h.mask.LockedOnly() ==> UpdaterOf(members).None?;
  }

  /** What is removed had no updater that counts, and an updater that is kept alone is the one. */
  lemma UpdaterGoesOrStays(h: Header, w: World, store: MultiStore)
    requires store.Valid() && WellFormed(h, w, store) && h.mask.isMulti
    ensures var members, x := MembersOf(h, store), h.RawUpdater(store);
      && (NoSurvivors(members, w) && x.Some? ==> w.state(x.value) == Aborted)
      && (!h.mask.LockedOnly() ==> x == UpdaterOf(members))
  {
    var members := MembersOf(h, store);
    UpdaterInMembers(members);
    assert forall i :: 0 <= i < |members| ==> members[i] in members;
  }

  /** Freezing changes what no snapshot sees, now or later, and leaves a well-formed tuple. */
  lemma FreezingKeepsVisibility(h: Header, c: Cutoffs, w: World, store: MultiStore, store': MultiStore, t: Trackers,
                                t': Trackers, a: XmaxAction, w': World, s: Snapshot)
    requires c.Valid() && w.Valid() && store.Valid() && WellFormed(h, w, store) && HorizonHolds(c, w)
    requires XmaxFits(a, h, c, w, store, store', t, t') && ChecksPass(h, PlanOf(h, c, a), w)
    requires Later(w, w') && s.Admissible(c.oldestXmin)
    ensures Visible(After(h, PlanOf(h, c, a)), s, w', store') == Visible(h, s, w', store)
  {
    UpdaterAfter(h, c, w, store, store', t, t', a);
  }

  lemma FreezingKeepsFate(h: Header, c: Cutoffs, w: World, store: MultiStore, store': MultiStore, t: Trackers,
                          t': Trackers, a: XmaxAction)
    requires c.Valid() && w.Valid() && store.Valid() && WellFormed(h, w, store) && HorizonHolds(c, w)
    requires XmaxFits(a, h, c, w, store, store', t, t') && ChecksPass(h, PlanOf(h, c, a), w)
    ensures Fate(After(h, PlanOf(h, c, a)), w, store') == Fate(h, w, store)
  {
    UpdaterAfter(h, c, w, store, store', t, t', a);
  }

  lemma FreezingKeepsWellFormed(h: Header, c: Cutoffs, w: World, store: MultiStore, store': MultiStore, t: Trackers,
                                t': Trackers, a: XmaxAction)
    requires c.Valid() && w.Valid() && store.Valid() && WellFormed(h, w, store) && HorizonHolds(c, w)
    requires XmaxFits(a, h, c, w, store, store', t, t') && ChecksPass(h, PlanOf(h, c, a), w)
    ensures WellFormed(After(h, PlanOf(h, c, a)), w, store')
  {
    UpdaterAfter(h, c, w, store, store', t, t', a);
    if a.NewMulti? {
      var kept := store'.Get(a.multi, false);
      LockOnlyIff(a.bits, kept);
      forall m | m in store'.Get(a.multi, true) && a.bits.lockOnly ensures !m.status.IsUpdate() {
        var i :| 0 <= i < |store'.Get(a.multi, true)| && store'.Get(a.multi, true)[i] == m;
        assert kept[i] == m;
      }
    }
  }

  /** No running transaction that locks or updates the tuple is forgotten. */
  lemma FreezingKeepsRunning(h: Header, c: Cutoffs, w: World, store: MultiStore, store': MultiStore, t: Trackers,
                             t': Trackers, a: XmaxAction, x: nat)
    requires c.Valid() && w.Valid() && store.Valid() && HorizonHolds(c, w) && h.mask.moved.NotMoved?
    requires XmaxFits(a, h, c, w, store, store', t, t')
    requires HasXid(h, store, x) && w.state(x) == InProgress
    ensures HasXid(After(h, PlanOf(h, c, a)), store', x)
  {
    var members := MembersOf(h, store);
    if IsMember(x, members) {
      SurvivorsAreMembers(members, w);
      var i :| 0 <= i < |members| && members[i].xid == x;
      assert members[i] in members && Survives(members[i], w);
      if a.NewMulti? {
        IsMemberOfNew(After(h, PlanOf(h, c, a)), store, store', Survivors(members, w), members[i]);
      }
    }
  }

  /** The members of a new multixact are found through it. */
  lemma IsMemberOfNew(h: Header, store: MultiStore, store': MultiStore, kept: seq<Member>, m: Member)
    requires h.mask.isMulti && !h.mask.LockedUpgraded() && store.oldestVisible <= h.xmax
    requires h.xmax != INVALID_MULTI && store' == WithMulti(store, h.xmax, kept) && m in kept
    ensures IsMember(m.xid, MembersOf(h, store'))
  {
    var j :| 0 <= j < |kept| && kept[j] == m;
    assert MembersOf(h, store') == kept;
  }

  // ---- Preparing a plan ----

  /** The part of pg_tde_prepare_freeze_tuple that deals with xmax. */
  method PrepareXmax(h: Header, c: Cutoffs, w: World, mx: MultiXacts, pf: HeapPageFreeze)
    returns (r: Result<XmaxAction>)
    requires mx.Valid() && c.oldestMxact <= mx.next && mx.store.Valid() && w.Valid()
    requires NamesUpdater(h, mx.store) && LocksOnly(h, mx.store)
    modifies mx, pf
    ensures mx.Valid() && old(mx.next) <= mx.next && mx.store.Valid() && Grown(old(mx.store), mx.store, old(mx.next))
    ensures r.Ok? ==> XmaxFits(r.value, h, c, w, old(mx.store), mx.store, old(pf.t), pf.t)
    ensures r.Ok? && r.value.NewMulti? ==> r.value.multi < mx.next
    ensures r.Err? ==> !Uncorrupted(h, c, w, old(mx.store))
  {
    if h.mask.isMulti {
      var plan := FreezeMultiXactId(h, c, w, mx, pf);
      if plan.Err? {
        return Err(plan.error);
      }
      match plan.value
      case Noop => return Ok(KeepXmax(false));
      case Invalidate => return Ok(RemoveXmax(false));
      case ReturnXid(xid, committed) => return Ok(NewXid(xid, committed));
      case ReturnMulti(multi) =>
        var bits := mx.GetHintBits(multi);
        return Ok(NewMulti(multi, bits));
    } else if Normal(h.xmax) {
      if h.xmax < c.relfrozenxid {
        return Err(XmaxBeforeRelfrozenxid);
      }
      return Ok(if h.xmax < c.oldestXmin then RemoveXmax(!h.mask.LockedOnly()) else KeepXmax(false));
    } else if h.xmax == INVALID_XID {
      return Ok(KeepXmax(true));
    } else {
      return Err(RawXmaxNotInvalid);
    }
  }

  /** xmax has been taken out. */
  predicate Removed(h: Header, h': Header) {
    && h'.xmax == INVALID_XID && !h'.mask.isMulti && h'.mask.xmaxHint.Invalid()
    && (h.xmax != INVALID_XID || h.mask.isMulti)
  }

  /** Freezing and hint bits leave alone what is not their business: the link to the next row version in
      particular is kept unless xmax goes, and then it is cleared. */
  predicate FlagsKept(h: Header, h': Header) {
    && h'.xmin == h.xmin && h'.cmin == h.cmin && h'.cmax == h.cmax && h'.mask.moved == h.mask.moved
    && (h.mask.moved.NotMoved? ==> h'.xvac == h.xvac)
    && (h'.mask.hotUpdated <==> h.mask.hotUpdated && !Removed(h, h'))
    && (h'.mask.isMulti ==> h.mask.isMulti)
    && (h.mask.isMulti && !h'.mask.isMulti && !Removed(h, h') ==>
        Normal(h'.xmax) && !h'.mask.lockOnly && h'.mask.lock == NoLock)
    && (Removed(h, h') ==> !h'.mask.lockOnly && h'.mask.lock == NoLock && !h'.mask.keysUpdated)
    && (!h.mask.isMulti && !Removed(h, h') ==>
        && h'.xmax == h.xmax && h'.mask.lockOnly == h.mask.lockOnly && h'.mask.lock == h.mask.lock
        && h'.mask.keysUpdated == h.mask.keysUpdated && (h.mask.xmaxHint.Invalid() ==> h'.mask.xmaxHint.Invalid()))
  }

  lemma FlagsKeptTwice(h: Header, h1: Header, h2: Header)
    requires FlagsKept(h, h1) && FlagsKept(h1, h2)
    ensures FlagsKept(h, h2)
  {
  }

  /** Whoever was running and held the tuple is still on record. */
  ghost predicate RunningKept(h: Header, store: MultiStore, h': Header, store': MultiStore, w: World) {
    h.mask.moved.NotMoved? ==>
      forall x: nat :: HasXid(h, store, x) && w.state(x) == InProgress ==> HasXid(h', store', x)
  }

  /** No snapshot, now or later, can tell the two headers apart, nor can vacuum, a running transaction that
      holds the tuple, or whoever follows its link. */
  ghost predicate SameToAll(h: Header, store: MultiStore, h': Header, store': MultiStore, c: Cutoffs, w: World) {
    && (WellFormed(h, w, store) ==> WellFormed(h', w, store'))
    && Fate(h', w, store') == Fate(h, w, store)
    && FlagsKept(h, h') && RunningKept(h, store, h', store', w)
    && forall w', s: Snapshot :: Later(w, w') && s.Admissible(c.oldestXmin) ==>
         Visible(h', s, w', store') == Visible(h, s, w', store)
  }

  /** A new multixact's bits are those of its members; one that stays has the bits it had, and so has an
      updater that is kept without the rest of its multixact. */
  ghost predicate MultiBitsFit(h: Header, store: MultiStore, h': Header, store': MultiStore) {
    if !h'.mask.isMulti then h.mask.isMulti && !Removed(h, h') ==> h'.mask.keysUpdated == h.mask.keysUpdated
    else if h'.xmax in store.members then h'.xmax == h.xmax && h'.mask == h.mask.(xminHint := h'.mask.xminHint)
    else BitsFor(HintBits(h'.mask.lock, h'.mask.lockOnly, h'.mask.keysUpdated), store'.Get(h'.xmax, false))
  }

  /** What preparing a tuple does for its page: whether the page is frozen or not, the trackers for
      that case are safe, and freezing is forced when the cutoffs leave no choice. */
  ghost predicate Prepared(h: Header, c: Cutoffs, w: World, store: MultiStore, store': MultiStore, t: Trackers,
                           t': Trackers, plan: Option<FreezePlan>, totallyFrozen: bool) {
    && (t'.required <==> t.required || MustFreeze(h, c, store))
    && FlagsKept(h, After(h, plan)) && MultiBitsFit(h, store, After(h, plan), store')
    && TrackersTight(h, After(h, plan), store, store', t, t')
    && t'.frzXid <= t.frzXid && t'.frzMxid <= t.frzMxid && t'.noXid <= t.noXid && t'.noMxid <= t.noMxid
    && XidsFrom(t'.frzXid, After(h, plan), store') && MxidsFrom(t'.frzMxid, After(h, plan))
    && (c.freezeLimit <= t.frzXid ==> c.freezeLimit <= t'.frzXid)
    && (c.multiXactCutoff <= t.frzMxid ==> c.multiXactCutoff <= t'.frzMxid)
    && (!t'.required ==>
        store' == store && !Overdue(h, c, store) && XidsFrom(t'.noXid, h, store) && MxidsFrom(t'.noMxid, h))
    && (!t'.required && c.freezeLimit <= t.noXid ==> c.freezeLimit <= t'.noXid)
    && (!t'.required && c.multiXactCutoff <= t.noMxid ==> c.multiXactCutoff <= t'.noMxid)
    && (totallyFrozen <==> !NeedsEventualFreeze(After(h, plan)))
    && (!t'.required && plan.Some? ==> NeedsEventualFreeze(h))
    && After(h, plan).xmin == h.xmin &&
         After(h, plan).mask.xminHint == (if FreezesXmin(h, c) then XminFrozen else h.mask.xminHint)
  }

  /** The trackers go back no further than to something that is there. */
  ghost predicate TrackersTight(h: Header, frozen: Header, store: MultiStore, store': MultiStore, t: Trackers,
                                t': Trackers) {
    && (t'.frzXid == t.frzXid || HasXid(frozen, store', t'.frzXid))
    && (t'.frzMxid == t.frzMxid || HasMxid(frozen, t'.frzMxid))
    && (t'.noXid == t.noXid || HasXid(h, store, t'.noXid))
    && (t'.noMxid == t.noMxid || HasMxid(h, t'.noMxid))
  }

  /** The trackers for the case that the page is not frozen. */
  ghost predicate NoFreezeTracked(h: Header, c: Cutoffs, store: MultiStore, t: Trackers, t': Trackers) {
    && t'.frzXid == t.frzXid && t'.frzMxid == t.frzMxid && t'.noXid <= t.noXid && t'.noMxid <= t.noMxid
    && (t'.required <==> t.required || Overdue(h, c, store))
    && (t'.noXid == t.noXid || (!t.required && HasXid(h, store, t'.noXid)))
    && (t'.noMxid == t.noMxid || (!t.required && HasMxid(h, t'.noMxid)))
    && (!t'.required ==> XidsFrom(t'.noXid, h, store) && MxidsFrom(t'.noMxid, h))
    && (!t'.required && c.freezeLimit <= t.noXid ==> c.freezeLimit <= t'.noXid)
    && (!t'.required && c.multiXactCutoff <= t.noMxid ==> c.multiXactCutoff <= t'.noMxid)
  }

  lemma PreparedBy(h: Header, c: Cutoffs, w: World, store: MultiStore, store': MultiStore, t: Trackers, t': Trackers,
                   t'': Trackers, a: XmaxAction)
    requires c.Valid() && store.Valid() && t'.frzXid <= c.oldestXmin && t.frzXid <= c.oldestXmin &&
      t.frzMxid <= c.oldestMxact
    requires XmaxFits(a, h, c, w, store, store', t, t') && NoFreezeTracked(h, c, store', t', t'')
    ensures Prepared(h, c, w, store, store', t, t'', PlanOf(h, c, a), TotallyFrozen(h, c, a))
  {
    FrozenPageIsTracked(h, c, w, store, store', t, t', a);
    TotallyFrozenIff(h, c, w, store, store', t, t', a);
    FreezingKeepsFlags(h, c, w, store, store', t, t', a);
    FreezingKeepsTrackersTight(h, c, w, store, store', t, t', a);
    XvacForced(c, h, w, store, store', t, t', a);
  }

  /** The checks made before a plan is executed pass for every tuple that vacuum does not call dead. */
  lemma ChecksNeverFail(h: Header, c: Cutoffs, w: World, store: MultiStore, store': MultiStore, t: Trackers,
                        t': Trackers, a: XmaxAction)
    requires w.Valid() && WellFormed(h, w, store) && HorizonHolds(c, w) && !FateAt(h, c.oldestXmin, w, store).Dead?
    requires XmaxFits(a, h, c, w, store, store', t, t')
    ensures ChecksPass(h, PlanOf(h, c, a), w)
  {
  }

  lemma FreezingKeepsFlags(h: Header, c: Cutoffs, w: World, store: MultiStore, store': MultiStore, t: Trackers,
                           t': Trackers, a: XmaxAction)
    requires c.Valid() && store.Valid() && XmaxFits(a, h, c, w, store, store', t, t')
    ensures FlagsKept(h, After(h, PlanOf(h, c, a))) && MultiBitsFit(h, store, After(h, PlanOf(h, c, a)), store')
  {
    FlagsOfAction(h, c, a);
    BitsOfAction(h, c, a, store, store');
  }

  lemma FlagsOfAction(h: Header, c: Cutoffs, a: XmaxAction)
    requires a.RemoveXmax? ==> h.mask.isMulti || h.xmax != INVALID_XID
    requires a.NewXid? || a.NewMulti? ==> h.mask.isMulti
    requires a.NewXid? ==> Normal(a.xid)
    ensures FlagsKept(h, After(h, PlanOf(h, c, a)))
  {
  }

  lemma BitsOfAction(h: Header, c: Cutoffs, a: XmaxAction, store: MultiStore, store': MultiStore)
    requires a.KeepXmax? ==> h.mask.isMulti ==> h.xmax in store.members
    requires a.NewMulti? ==> a.multi !in store.members && BitsFor(a.bits, store'.Get(a.multi, false))
    ensures MultiBitsFit(h, store, After(h, PlanOf(h, c, a)), store')
  {
  }

  lemma FreezingKeepsTrackersTight(h: Header, c: Cutoffs, w: World, store: MultiStore, store': MultiStore, t: Trackers,
                                   t': Trackers, a: XmaxAction)
    requires c.Valid() && store.Valid() && XmaxFits(a, h, c, w, store, store', t, t')
    ensures t'.frzXid == t.frzXid || HasXid(After(h, PlanOf(h, c, a)), store', t'.frzXid)
    ensures t'.frzMxid == t.frzMxid || HasMxid(After(h, PlanOf(h, c, a)), t'.frzMxid)
    ensures t'.noXid == t.noXid && t'.noMxid == t.noMxid
    ensures t'.required <==> t.required || (h.mask.isMulti && MultiMustGo(h, c, store))
  {
  }

  lemma PlanIsSameToAll(h: Header, c: Cutoffs, w: World, store: MultiStore, store': MultiStore, t: Trackers,
                        t': Trackers, a: XmaxAction)
    requires c.Valid() && w.Valid() && store.Valid() && WellFormed(h, w, store) && HorizonHolds(c, w)
    requires XmaxFits(a, h, c, w, store, store', t, t') && ChecksPass(h, PlanOf(h, c, a), w)
    ensures SameToAll(h, store, After(h, PlanOf(h, c, a)), store', c, w)
  {
    FreezingKeepsFate(h, c, w, store, store', t, t', a);
    FreezingKeepsWellFormed(h, c, w, store, store', t, t', a);
    FreezingKeepsFlags(h, c, w, store, store', t, t', a);
    forall x: nat | h.mask.moved.NotMoved? && HasXid(h, store, x) && w.state(x) == InProgress
      ensures HasXid(After(h, PlanOf(h, c, a)), store', x)
    {
      FreezingKeepsRunning(h, c, w, store, store', t, t', a, x);
    }
    forall w', s: Snapshot | Later(w, w') && s.Admissible(c.oldestXmin)
      ensures Visible(After(h, PlanOf(h, c, a)), s, w', store') == Visible(h, s, w', store)
    {
      FreezingKeepsVisibility(h, c, w, store, store', t, t', a, w', s);
    }
  }

  lemma PlanIsSafe(h: Header, c: Cutoffs, w: World, store: MultiStore, store': MultiStore, t: Trackers, t': Trackers,
                   a: XmaxAction)
    requires c.Valid() && w.Valid() && store.Valid() && XmaxFits(a, h, c, w, store, store', t, t')
    ensures WellFormed(h, w, store) && HorizonHolds(c, w) && !FateAt(h, c.oldestXmin, w, store).Dead? ==>
      ChecksPass(h, PlanOf(h, c, a), w) && SameToAll(h, store, After(h, PlanOf(h, c, a)), store', c, w)
  {
    if WellFormed(h, w, store) && HorizonHolds(c, w) && !FateAt(h, c.oldestXmin, w, store).Dead? {
      ChecksNeverFail(h, c, w, store, store', t, t', a);
      PlanIsSameToAll(h, c, w, store, store', t, t', a);
    }
  }

  /** Keep the "no freeze" trackers, as long as freezing is not forced. */
  method TrackNoFreeze(h: Header, c: Cutoffs, store: MultiStore, a: XmaxAction, pf: HeapPageFreeze)
    requires store.Valid() || pf.t.required
    requires Normal(h.Xvac()) ==> pf.t.required
    requires a == KeepXmax(true) ==> !h.mask.isMulti && !Normal(h.xmax)
    modifies pf
    ensures NoFreezeTracked(h, c, store, old(pf.t), pf.t)
  {
    if !pf.t.required && !(!Normal(h.Xmin()) && a == KeepXmax(true)) {
      var required, noXid, noMxid := ShouldFreeze(h, c, store, pf.t.noXid, pf.t.noMxid);
      pf.t := pf.t.(required := required, noXid := noXid, noMxid := noMxid);
    }
  }

  lemma XvacForced(c: Cutoffs, h: Header, w: World, store: MultiStore, store': MultiStore, t: Trackers, t': Trackers,
                   a: XmaxAction)
    requires XmaxFits(a, h, c, w, store, store', t, t')
    ensures (t.required ==> t'.required) && (store' != store ==> t'.required)
  {
  }

  /** Decide what becomes of xmax; whatever the "no freeze" trackers will be, the plan is then right. */
  method PlanXmax(h: Header, c: Cutoffs, w: World, mx: MultiXacts, pf: HeapPageFreeze)
    returns (r: Result<XmaxAction>)
    requires mx.Valid() && c.Valid() && c.oldestMxact <= mx.next && mx.store.Valid() && w.Valid()
    requires NamesUpdater(h, mx.store) && LocksOnly(h, mx.store)
    requires pf.t.frzXid <= c.oldestXmin && pf.t.frzMxid <= c.oldestMxact
    modifies mx, pf
    ensures mx.Valid() && old(mx.next) <= mx.next && mx.store.Valid() && Grown(old(mx.store), mx.store, old(mx.next))
    ensures r.Ok? ==>
      (r.value == KeepXmax(true) ==> !h.mask.isMulti && !Normal(h.xmax)) && (old(pf.t).required ==> pf.t.required)
    ensures r.Ok? ==> forall t {:trigger NoFreezeTracked(h, c, mx.store, pf.t, t)} ::
      NoFreezeTracked(h, c, mx.store, pf.t, t) ==>
      Prepared(h, c, w, old(mx.store), mx.store, old(pf.t), t, PlanOf(h, c, r.value), TotallyFrozen(h, c, r.value))
    ensures r.Err? ==> !Uncorrupted(h, c, w, old(mx.store))
    ensures r.Ok? && WellFormed(h, w, old(mx.store)) && HorizonHolds(c, w) &&
            !FateAt(h, c.oldestXmin, w, old(mx.store)).Dead? ==>
      ChecksPass(h, PlanOf(h, c, r.value), w) &&
      SameToAll(h, old(mx.store), After(h, PlanOf(h, c, r.value)), mx.store, c, w)
    ensures r.Ok? && KnownMulti(h, old(mx.next)) ==> KnownMulti(After(h, PlanOf(h, c, r.value)), mx.next)
  {
    ghost var t, store := pf.t, mx.store;
    r := PrepareXmax(h, c, w, mx, pf);
    if r.Ok? {
      ghost var t' := pf.t;
      XvacForced(c, h, w, store, mx.store, t, t', r.value);
      forall t'' | NoFreezeTracked(h, c, mx.store, t', t'')
        ensures Prepared(h, c, w, store, mx.store, t, t'', PlanOf(h, c, r.value), TotallyFrozen(h, c, r.value))
      {
        PreparedBy(h, c, w, store, mx.store, t, t', t'', r.value);
      }
      PlanIsSafe(h, c, w, store, mx.store, t, t', r.value);
    }
  }

  /** pg_tde_prepare_freeze_tuple, once xmin is known not to be too old. */
  method PrepareChecked(h: Header, c: Cutoffs, w: World, mx: MultiXacts, pf: HeapPageFreeze)
    returns (r: Result<Option<FreezePlan>>, totallyFrozen: bool)
    requires mx.Valid() && c.Valid() && c.oldestMxact <= mx.next && mx.store.Valid() && w.Valid()
    requires NamesUpdater(h, mx.store) && LocksOnly(h, mx.store)
    requires pf.t.frzXid <= c.oldestXmin && pf.t.frzMxid <= c.oldestMxact && (Normal(h.Xvac()) ==> pf.t.required)
    modifies mx, pf
    ensures mx.Valid() && old(mx.next) <= mx.next && mx.store.Valid() && Grown(old(mx.store), mx.store, old(mx.next))
    ensures r.Ok? ==> Prepared(h, c, w, old(mx.store), mx.store, old(pf.t), pf.t, r.value, totallyFrozen)
    ensures r.Err? ==> !Uncorrupted(h, c, w, old(mx.store))
    ensures r.Ok? && WellFormed(h, w, old(mx.store)) && HorizonHolds(c, w) &&
            !FateAt(h, c.oldestXmin, w, old(mx.store)).Dead? ==>
      ChecksPass(h, r.value, w) && SameToAll(h, old(mx.store), After(h, r.value), mx.store, c, w)
    ensures r.Ok? && KnownMulti(h, old(mx.next)) ==> KnownMulti(After(h, r.value), mx.next)
  {
    var a := PlanXmax(h, c, w, mx, pf);
    if a.Err? {
      return Err(a.error), false;
    }
    TrackNoFreeze(h, c, mx.store, a.value, pf);
    return Ok(PlanOf(h, c, a.value)), TotallyFrozen(h, c, a.value);
  }

  /** pg_tde_prepare_freeze_tuple */
  method PrepareFreezeTuple(h: Header, c: Cutoffs, w: World, mx: MultiXacts, pf: HeapPageFreeze)
    returns (r: Result<Option<FreezePlan>>, totallyFrozen: bool)
    requires mx.Valid() && c.Valid() && c.oldestMxact <= mx.next && mx.store.Valid() && w.Valid()
    requires NamesUpdater(h, mx.store) && LocksOnly(h, mx.store)
    requires pf.t.frzXid <= c.oldestXmin && pf.t.frzMxid <= c.oldestMxact
    modifies mx, pf
    ensures mx.Valid() && old(mx.next) <= mx.next && mx.store.Valid() && Grown(old(mx.store), mx.store, old(mx.next))
    ensures r.Ok? ==> Prepared(h, c, w, old(mx.store), mx.store, old(pf.t), pf.t, r.value, totallyFrozen)
    ensures r.Err? ==> !Uncorrupted(h, c, w, old(mx.store))
    ensures r.Ok? && WellFormed(h, w, old(mx.store)) && HorizonHolds(c, w) &&
            !FateAt(h, c.oldestXmin, w, old(mx.store)).Dead? ==>
      ChecksPass(h, r.value, w) && SameToAll(h, old(mx.store), After(h, r.value), mx.store, c, w)
    ensures r.Ok? && KnownMulti(h, old(mx.next)) ==> KnownMulti(After(h, r.value), mx.next)
  {
    if Normal(h.Xmin()) && h.Xmin() < c.relfrozenxid {
      return Err(XminBeforeRelfrozenxid), false;
    }
    if Normal(h.Xvac()) {
      pf.t := pf.t.(required := true);
    }
    r, totallyFrozen := PrepareChecked(h, c, w, mx, pf);
  }
}
