/** Merging a new lock or update into a tuple's xmax: who holds the tuple afterwards, and what the
    infomask says about it. */
module LockMerge {
  import opened Base
  import opened TupleHeader
  import opened MultiXact
  import opened Visibility
  import opened Freeze

  /** An infomask with no bit set, as new ones start out. */
  const NO_BITS := Infomask(XminUnknown, XmaxUnknown, false, false, NoLock, NotMoved, false, false)

  /** get_mxact_status_for_lock; only the two stronger modes are for updates. */
  function StatusForLock(mode: LockMode, isUpdate: bool): MultiStatus
    requires isUpdate ==> mode.NoKeyExclusive? || mode.Exclusive?
  {
    match mode
    case KeyShare => ForKeyShare
    case Share => ForShare
    case NoKeyExclusive => if isUpdate then NoKeyUpdate else ForNoKeyUpdate
    case Exclusive => if isUpdate then Update else ForUpdate
  }

  /** The update that an infomask tells of, if it tells of one. */
  function UpdateOf(m: Infomask): MultiStatus { if m.keysUpdated then Update else NoKeyUpdate }

  /** What a plain XID in xmax does to the tuple; nothing if it is marked as a lock of no kind. */
  function StatusOf(m: Infomask): Option<MultiStatus> {
    if m.LockedOnly() then
      match m.lock
      case KeyshrLock => Some(ForKeyShare)
      case ShrLock => Some(ForShare)
      case ExclLock => Some(if m.keysUpdated then ForUpdate else ForNoKeyUpdate)
      case NoLock => None
    else Some(UpdateOf(m))
  }

  /** Who holds a tuple, according to its xmax. */
  function Holders(xmax: nat, m: Infomask, store: MultiStore): seq<Member> {
    if m.xmaxHint.Invalid() then []
    else if m.isMulti then (if m.LockedUpgraded() then [] else store.Get(xmax, m.LockedOnly()))
    else if StatusOf(m).Some? then [Member(xmax, StatusOf(m).value)] else []
  }

  /** The updater that visibility goes by is the one among the holders. */
  lemma UpdaterIsHolder(h: Header, store: MultiStore, u: nat)
    requires store.Valid() && LocksOnly(h, store)
    ensures h.Updater(store) == Some(u) <==>
      exists m :: m in Holders(h.xmax, h.mask, store) && m.status.IsUpdate() && m.xid == u
  {
    var holders := Holders(h.xmax, h.mask, store);
    if !h.mask.xmaxHint.Invalid() && h.mask.isMulti && !h.mask.LockedOnly() {
      UpdaterInMembers(holders);
      forall i | 0 <= i < |holders| && holders[i].status.IsUpdate() ensures UpdaterOf(holders) == Some(holders[i].xid) {
        UpdaterIsMember(holders, i);
      }
    } else if h.Updater(store).Some? {
      assert Member(h.xmax, UpdateOf(h.mask)) in holders;
    }
  }

  /** What a stored xmax satisfies when transaction `add` is about to lock or update the tuple. */
  ghost predicate XmaxSound(xmax: nat, m: Infomask, store: MultiStore, w: World, add: nat) {
    && (m.xmaxHint.Committed() && !m.xmaxHint.Invalid() && !m.isMulti ==> w.state(xmax) == Committed)
    && (m.isMulti && m.LockedOnly() && !m.LockedUpgraded() ==> forall x :: x in store.Get(xmax, true) ==>
        !x.status.IsUpdate())
    && (!m.isMulti && xmax == add && !m.xmaxHint.Invalid() ==> m.LockedOnly())
    && (m.isMulti && !m.LockedOnly() ==> UpdaterOf(store.Get(xmax, false)).Some?)
    && (!m.isMulti && !m.xmaxHint.Invalid() && w.state(xmax) != Aborted ==> Normal(xmax))
  }

  /** A multixact with a running member is never out of sight. */
  ghost predicate RunningVisible(store: MultiStore, w: World) {
    forall multi, x :: multi in store.members && x in store.members[multi] && w.state(x.xid) == InProgress ==>
      store.oldestVisible <= multi
  }

  /** An updater may only come when there is none that counts. */
  ghost predicate NoRival(holders: seq<Member>, w: World) {
    forall m :: m in holders && Survives(m, w) ==> !m.status.IsUpdate()
  }

  predicate AtLeast(m: Member, add: nat, mode: LockMode, isUpdate: bool) {
    m.xid == add && m.status.IsUpdate() == isUpdate && ModeOf(m.status).Rank() >= mode.Rank()
  }

  /** The holders that count: running transactions, and one that has updated the tuple. */
  predicate Running(m: Member, w: World) {
    w.state(m.xid) == InProgress
  }

  predicate Updated(m: Member, w: World) {
    m.status.IsUpdate() && w.state(m.xid) == Committed
  }

  /** The mode asked for; or that of an old lock of the same transaction which is stronger. */
  ghost predicate Wanted(mode': LockMode, before: seq<Member>, add: nat, mode: LockMode) {
    || mode' == mode
    || (mode.Rank() < mode'.Rank() && exists x :: x in before && x.xid == add && ModeOf(x.status) == mode')
  }

  /** The new holder. */
  ghost predicate Asked(m: Member, before: seq<Member>, add: nat, mode: LockMode, isUpdate: bool) {
    m.xid == add && m.status.IsUpdate() == isUpdate && Wanted(ModeOf(m.status), before, add, mode)
  }

  /** The new holders include the new one, in the mode asked for or that of an old lock of the same transaction, and
      all old ones that count; only such an old lock may be absorbed, if it is no stronger. */
  ghost predicate Merged(before: seq<Member>, after: seq<Member>, add: nat, mode: LockMode, isUpdate: bool, w: World) {
    && (exists m :: m in after && Asked(m, before, add, mode, isUpdate))
    && forall m :: m in before && (Running(m, w) || Updated(m, w)) ==>
         m in after || (m.xid == add && exists n :: n in after && AtLeast(n, add, ModeOf(m.status), isUpdate))
  }

  /** Nobody holds the tuple who did not before, but for the new holder. */
  ghost predicate NoneInvented(before: seq<Member>, after: seq<Member>, add: nat, mode: LockMode, isUpdate: bool) {
    forall m :: m in after ==> m in before || Asked(m, before, add, mode, isUpdate)
  }

  /** The infomask tells the strongest mode, whether there is an updater, and whether keys are safe. */
  ghost predicate TellsHolders(m: Infomask, holders: seq<Member>) {
    && m.xmaxHint == XmaxUnknown && (m.LockedOnly() <==> forall x :: x in holders ==> !x.status.IsUpdate())
    && (m.keysUpdated <==> exists x :: x in holders && TouchesKeys(x.status))
    && (m.isMulti || m.LockedOnly() ==> exists mode :: Strongest(mode, holders) && m.lock == LockBitsFor(mode))
  }

  /** xmax had no holder that counts: the new one is the only one. */
  method SingleHolder(add: nat, mode: LockMode, isUpdate: bool) returns (m: Infomask)
    requires isUpdate ==> mode.NoKeyExclusive? || mode.Exclusive?
    ensures Holders(add, m, MultiStore(map[], 0)) == [Member(add, StatusForLock(mode, isUpdate))]
    ensures !m.isMulti && TellsHolders(m, [Member(add, StatusForLock(mode, isUpdate))])
  {
    m := NO_BITS;
    if isUpdate {
      if mode.Exclusive? {
        m := m.(keysUpdated := true);
      }
    } else {
      m := m.(lockOnly := true);
      match mode
      case KeyShare => m := m.(lock := KeyshrLock);
      case Share => m := m.(lock := ShrLock);
      case NoKeyExclusive => m := m.(lock := ExclLock);
      case Exclusive => m := m.(lock := ExclLock, keysUpdated := true);
    }
    ghost var holder := Member(add, StatusForLock(mode, isUpdate));
    assert holder in [holder];
    assert Strongest(ModeOf(holder.status), [holder]) by {
      assert ModeOf([holder][0].status) == ModeOf(holder.status);
    }
  }

  lemma SurvivorsPlus(members: seq<Member>, x: Member, w: World)
    requires AtMostOneUpdater(members) && NormalMembers(members) && Normal(x.xid) &&
      (x.status.IsUpdate() ==> NoRival(members, w))
    ensures AtMostOneUpdater(Survivors(members, w) + [x]) && NormalMembers(Survivors(members, w) + [x])
  {
    SurvivorsAreMembers(members, w);
    SurvivorsAtMostOne(members, w);
    NormalSurvivors(members, w);
    var kept := Survivors(members, w);
    forall i | 0 <= i < |kept| && x.status.IsUpdate() ensures !kept[i].status.IsUpdate() {
      assert kept[i] in kept;
    }
  }

  /** MultiXactIdExpand: a new multixact with the members that still count and the new one, unless the
      new one is a member already. */
  method Expand(mx: MultiXacts, multi: nat, x: Member, w: World) returns (multi': nat)
    requires mx.Valid() && mx.store.Valid() && Normal(x.xid) &&
      (x.status.IsUpdate() ==> NoRival(mx.store.Get(multi, false), w))
    modifies mx
    ensures mx.Valid() && mx.store.Valid() && Grown(old(mx.store), mx.store, old(mx.next)) && old(mx.next) <= mx.next
    ensures var members := old(mx.store).Get(multi, false);
      if x in members then multi' == multi && mx.store == old(mx.store)
      else multi' == old(mx.next) && mx.store.Get(multi', false) == Survivors(members, w) + [x]
  {
    var members := mx.store.Get(multi, false);
    if x in members {
      return multi;
    }
    SurvivorsPlus(members, x, w);
    multi' := mx.CreateFromMembers(Survivors(members, w) + [x]);
  }

  /** MultiXactIdCreate */
  method Create(mx: MultiXacts, x: Member, y: Member) returns (multi: nat)
    requires mx.Valid() && mx.store.Valid() && Normal(x.xid) && Normal(y.xid) &&
      !(x.status.IsUpdate() && y.status.IsUpdate())
    modifies mx
    ensures mx.Valid() && mx.store.Valid() && Grown(old(mx.store), mx.store, old(mx.next)) && old(mx.next) <= mx.next
    ensures multi == old(mx.next) && mx.store.Get(multi, false) == [x, y]
  {
    multi := mx.CreateFromMembers([x, y]);
  }

  /** The mask that goes with a multixact, and what it tells. */
  method MultiMask(mx: MultiXacts, multi: nat) returns (m: Infomask)
    requires mx.store.oldestVisible <= multi && mx.store.Get(multi, false) != []
    ensures m.isMulti && Holders(multi, m, mx.store) == mx.store.Get(multi, false) &&
      TellsHolders(m, mx.store.Get(multi, false))
  {
    var b := mx.GetHintBits(multi);
    m := NO_BITS.(isMulti := true, lockOnly := b.lockOnly, lock := b.lock, keysUpdated := b.keysUpdated);
    ghost var members := mx.store.Get(multi, false);
    assert m.LockedOnly() <==> forall x :: x in members ==> !x.status.IsUpdate();
    assert members[0] in members;
    assert b.keysUpdated <==> exists x :: x in members && TouchesKeys(x.status);
  }

  /** Of the old holders, none counts but perhaps the same transaction, and it held no more. */
  ghost predicate Dismissed(before: seq<Member>, add: nat, mode: LockMode, w: World) {
    forall x :: x in before && Survives(x, w) ==> x.xid == add && ModeOf(x.status).Rank() <= mode.Rank()
  }

  lemma MergedAlone(before: seq<Member>, add: nat, mode0: LockMode, mode: LockMode, isUpdate: bool, w: World)
    requires isUpdate ==> mode.NoKeyExclusive? || mode.Exclusive?
    requires Dismissed(before, add, mode, w) && Wanted(mode, before, add, mode0)
    ensures NoneInvented(before, [Member(add, StatusForLock(mode, isUpdate))], add, mode0, isUpdate)
    ensures Merged(before, [Member(add, StatusForLock(mode, isUpdate))], add, mode0, isUpdate, w)
  {
    var n := Member(add, StatusForLock(mode, isUpdate));
    assert n in [n];
  }

  /** The old xmax is a multixact, and some member still counts. */
  method MergeMulti(xmax: nat, m: Infomask, add: nat, mode: LockMode, isUpdate: bool, mx: MultiXacts, w: World)
    returns (newXmax: nat, newMask: Infomask)
    requires isUpdate ==> (mode.NoKeyExclusive? || mode.Exclusive?) && NoRival(mx.store.Get(xmax, false), w)
    requires mx.Valid() && mx.store.Valid() && w.Valid() && w.state(add) == InProgress && RunningVisible(mx.store, w)
    modifies mx
    ensures mx.Valid() && mx.store.Valid() && Grown(old(mx.store), mx.store, old(mx.next)) && old(mx.next) <= mx.next
    ensures Merged(old(mx.store).Get(xmax, false), Holders(newXmax, newMask, mx.store), add, mode, isUpdate, w)
    ensures NoneInvented(old(mx.store).Get(xmax, false), Holders(newXmax, newMask, mx.store), add, mode, isUpdate)
    ensures TellsHolders(newMask, Holders(newXmax, newMask, mx.store))
  {
    var x := Member(add, StatusForLock(mode, isUpdate));
    ghost var members := mx.store.Get(xmax, false);
    newXmax := Expand(mx, xmax, x, w);
    ghost var after := mx.store.Get(newXmax, false);
    MergedInto(members, after, add, mode, isUpdate, w);
    assert x in members ==> xmax in old(mx.store).members && old(mx.store).oldestVisible <= xmax;
    newMask := MultiMask(mx, newXmax);
  }

  lemma MergedInto(members: seq<Member>, after: seq<Member>, add: nat, mode: LockMode, isUpdate: bool, w: World)
    requires isUpdate ==> mode.NoKeyExclusive? || mode.Exclusive?
    requires var x := Member(add, StatusForLock(mode, isUpdate));
      after == if x in members then members else Survivors(members, w) + [x]
    ensures Merged(members, after, add, mode, isUpdate, w) && NoneInvented(members, after, add, mode, isUpdate)
    ensures after != []
  {
    SurvivorsAreMembers(members, w);
    assert Member(add, StatusForLock(mode, isUpdate)) in after;
  }

  /** The old xmax is a plain XID that still counts. */
  method MergeXid(xmax: nat, status: MultiStatus, add: nat, mode: LockMode, isUpdate: bool, mx: MultiXacts, w: World)
    returns (newXmax: nat, newMask: Infomask)
    requires isUpdate ==> (mode.NoKeyExclusive? || mode.Exclusive?) && !status.IsUpdate()
    requires mx.Valid() && mx.store.Valid() && Normal(xmax) && Normal(add)
    modifies mx
    ensures mx.Valid() && mx.store.Valid() && Grown(old(mx.store), mx.store, old(mx.next)) && old(mx.next) <= mx.next
    ensures var after := Holders(newXmax, newMask, mx.store);
      Merged([Member(xmax, status)], after, add, mode, isUpdate, w) && Member(xmax, status) in after &&
      NoneInvented([Member(xmax, status)], after, add, mode, isUpdate)
    ensures TellsHolders(newMask, Holders(newXmax, newMask, mx.store))
  {
    var x := Member(add, StatusForLock(mode, isUpdate));
    newXmax := Create(mx, Member(xmax, status), x);
    MergedPair(Member(xmax, status), add, mode, isUpdate, w);
    newMask := MultiMask(mx, newXmax);
  }

  lemma MergedPair(m: Member, add: nat, mode: LockMode, isUpdate: bool, w: World)
    requires isUpdate ==> mode.NoKeyExclusive? || mode.Exclusive?
    ensures var after := [m, Member(add, StatusForLock(mode, isUpdate))];
      Merged([m], after, add, mode, isUpdate, w) && m in after && NoneInvented([m], after, add, mode, isUpdate)
  {
    var x := Member(add, StatusForLock(mode, isUpdate));
    assert x in [m, x];
  }

  /** A hint that a mere lock has committed, which nothing sets, is taken for a committed update. */
  predicate LockHintedCommitted(m: Infomask) {
    !m.isMulti && m.LockedOnly() && m.xmaxHint == XmaxCommitted
  }

  /** The conditions on a stored xmax do not rule such a hint out: a lock by a committed transaction. */
  lemma HintedLockIsSound(w: World)
    requires w.state(3) == Committed
    ensures var m := NO_BITS.(lockOnly := true, lock := ShrLock, xmaxHint := XmaxCommitted);
      LockHintedCommitted(m) && Holders(3, m, MultiStore(map[], 0)) == [Member(3, ForShare)] &&
      forall add :: add != 3 ==> XmaxSound(3, m, MultiStore(map[], 0), w, add)
  {
  }

  /** Such a lock no longer counts, so it does not matter that it becomes an update. */
  lemma LockIsOver(xmax: nat, m: Infomask, store: MultiStore, after: seq<Member>, s: MultiStatus, add: nat,
                   mode: LockMode, isUpdate: bool, w: World)
    requires LockHintedCommitted(m) && w.state(xmax) == Committed && xmax != add
    requires Merged([Member(xmax, s)], after, add, mode, isUpdate, w)
    ensures Merged(Holders(xmax, m, store), after, add, mode, isUpdate, w)
  {
  }

  /** The case of a multixact. */
  method MergeOldMulti(xmax: nat, m: Infomask, add: nat, mode: LockMode, isUpdate: bool, mx: MultiXacts, w: World)
    returns (again: bool, newXmax: nat, newMask: Infomask)
    requires mx.Valid() && mx.store.Valid() && w.Valid() && RunningVisible(mx.store, w) &&
      XmaxSound(xmax, m, mx.store, w, add)
    requires w.state(add) == InProgress && m.isMulti && !m.xmaxHint.Invalid()
    requires isUpdate ==> (mode.NoKeyExclusive? || mode.Exclusive?) && NoRival(Holders(xmax, m, mx.store), w)
    modifies mx
    ensures mx.Valid() && mx.store.Valid() && Grown(old(mx.store), mx.store, old(mx.next))
    ensures again ==>
      mx.store == old(mx.store) && mx.next == old(mx.next) && NoSurvivors(Holders(xmax, m, old(mx.store)), w)
    ensures !again ==>
      var before, after := Holders(xmax, m, old(mx.store)), Holders(newXmax, newMask, mx.store);
      Merged(before, after, add, mode, isUpdate, w) && NoneInvented(before, after, add, mode, isUpdate) &&
      TellsHolders(newMask, after)
  {
    if m.LockedUpgraded() {
      return true, xmax, m;
    }
    var counts := MultiCounts(xmax, m, mx.store, w, add);
    if !counts {
      return true, xmax, m;
    }
    newXmax, newMask := MergeMulti(xmax, m, add, mode, isUpdate, mx, w);
    return false, newXmax, newMask;
  }

  /** compute_new_xmax_infomask for an xmax that is not marked invalid: merge with it, or find that it does not
      count, mark it invalid and start `again`. */
  method MergeOld(xmax: nat, m: Infomask, add: nat, mode: LockMode, isUpdate: bool, mx: MultiXacts, w: World)
    returns (again: bool, m': Infomask, mode': LockMode, newXmax: nat, newMask: Infomask)
    requires mx.Valid() && mx.store.Valid() && w.Valid() && RunningVisible(mx.store, w) &&
      XmaxSound(xmax, m, mx.store, w, add)
    requires w.state(add) == InProgress && Normal(add) && !m.xmaxHint.Invalid()
    requires isUpdate ==> (mode.NoKeyExclusive? || mode.Exclusive?) && NoRival(Holders(xmax, m, mx.store), w)
    requires !(isUpdate && LockHintedCommitted(m))
    modifies mx
    ensures mx.Valid() && mx.store.Valid() && Grown(old(mx.store), mx.store, old(mx.next))
    ensures again ==> mx.store == old(mx.store) && mx.next == old(mx.next)
    ensures again ==>
      m'.xmaxHint.Invalid() && Wanted(mode', Holders(xmax, m, old(mx.store)), add, mode) && !LockHintedCommitted(m) &&
      Dismissed(Holders(xmax, m, old(mx.store)), add, mode', w)
    ensures !again ==>
      Merged(Holders(xmax, m, old(mx.store)), Holders(newXmax, newMask, mx.store), add, mode, isUpdate, w)
    ensures !again && !LockHintedCommitted(m) ==>
      NoneInvented(Holders(xmax, m, old(mx.store)), Holders(newXmax, newMask, mx.store), add, mode, isUpdate)
    ensures !again && LockHintedCommitted(m) ==>
      Member(xmax, UpdateOf(m)) in Holders(newXmax, newMask, mx.store) &&
      NoneInvented([Member(xmax, UpdateOf(m))], Holders(newXmax, newMask, mx.store), add, mode, isUpdate)
    ensures !again ==> TellsHolders(newMask, Holders(newXmax, newMask, mx.store))
  {
    again, m', mode', newXmax, newMask := false, m, mode, xmax, m;
    if m.isMulti {
      again, newXmax, newMask := MergeOldMulti(xmax, m, add, mode, isUpdate, mx, w);
      m' := m.(isMulti := false, xmaxHint := XmaxInvalid);
    } else if m.xmaxHint.Committed() {
      newXmax, newMask := MergeXid(xmax, UpdateOf(m), add, mode, isUpdate, mx, w);
      if LockHintedCommitted(m) {
        LockIsOver(xmax, m, old(mx.store), Holders(newXmax, newMask, mx.store), UpdateOf(m), add, mode, isUpdate, w);
      }
    } else if w.state(xmax) == InProgress {
      var status := StatusOf(m);
      if status.None? {
        again, m' := true, m.(lockOnly := false, xmaxHint := XmaxInvalid);
        return;
      }
      if xmax == add {
        if mode.Rank() < ModeOf(status.value).Rank() {
          mode' := ModeOf(status.value);
        }
        again, m' := true, m.(xmaxHint := XmaxInvalid);
        return;
      }
      newXmax, newMask := MergeXid(xmax, status.value, add, mode, isUpdate, mx, w);
    } else if !m.LockedOnly() && w.state(xmax) == Committed {
      newXmax, newMask := MergeXid(xmax, UpdateOf(m), add, mode, isUpdate, mx, w);
    } else {
      again, m' := true, m.(xmaxHint := XmaxInvalid);
    }
  }

  /** compute_new_xmax_infomask. A jump back to the start makes xmax invalid first, so there is at
      most one. It fails, in MultiXactIdCreate, where it would make a second updater. */
  method ComputeNewXmax(xmax: nat, mask: Infomask, add: nat, mode: LockMode, isUpdate: bool, mx: MultiXacts, w: World)
    returns (tooMany: bool, newXmax: nat, newMask: Infomask, ghost restarts: nat)
    requires mx.Valid() && mx.store.Valid() && w.Valid() && RunningVisible(mx.store, w) &&
      XmaxSound(xmax, mask, mx.store, w, add)
    requires w.state(add) == InProgress && Normal(add)
    requires isUpdate ==> (mode.NoKeyExclusive? || mode.Exclusive?) && NoRival(Holders(xmax, mask, mx.store), w)
    modifies mx
    ensures mx.Valid() && mx.store.Valid() && Grown(old(mx.store), mx.store, old(mx.next))
    ensures tooMany <==> isUpdate && LockHintedCommitted(mask)
    ensures !tooMany ==>
      Merged(Holders(xmax, mask, old(mx.store)), Holders(newXmax, newMask, mx.store), add, mode, isUpdate, w)
    ensures !tooMany && !LockHintedCommitted(mask) ==>
      NoneInvented(Holders(xmax, mask, old(mx.store)), Holders(newXmax, newMask, mx.store), add, mode, isUpdate)
    ensures !tooMany && LockHintedCommitted(mask) ==>
      Member(xmax, UpdateOf(mask)) in Holders(newXmax, newMask, mx.store) &&
      NoneInvented([Member(xmax, UpdateOf(mask))], Holders(newXmax, newMask, mx.store), add, mode, isUpdate)
    ensures !tooMany ==> TellsHolders(newMask, Holders(newXmax, newMask, mx.store))
    ensures restarts <= 1
  {
    var m, mode' := mask, mode;
    ghost var before := Holders(xmax, mask, mx.store);
    tooMany, newXmax, newMask, restarts := isUpdate && LockHintedCommitted(mask), xmax, mask, 0;
    if tooMany {
      return;
    }
    while !m.xmaxHint.Invalid()
      invariant mx.store == old(mx.store) && mx.next == old(mx.next) && mx.Valid()
      invariant (m == mask && mode' == mode && restarts == 0) ||
                (m.xmaxHint.Invalid() && restarts == 1 && !LockHintedCommitted(mask))
      invariant m.xmaxHint.Invalid() ==> Dismissed(before, add, mode', w)
      invariant Wanted(mode', before, add, mode)
      decreases if m.xmaxHint.Invalid() then 0 else 1
    {
      var again;
      again, m, mode', newXmax, newMask := MergeOld(xmax, m, add, mode, isUpdate, mx, w);
      if !again {
        return;
      }
      restarts := restarts + 1;
    }
    newXmax := add;
    newMask := SingleHolder(add, mode', isUpdate);
    MergedAlone(before, add, mode, mode', isUpdate, w);
  }

  /** Whether the old multixact has a member that must be kept. */
  method MultiCounts(xmax: nat, m: Infomask, store: MultiStore, w: World, ghost add: nat) returns (counts: bool)
    requires store.Valid() && XmaxSound(xmax, m, store, w, add) && m.isMulti && !m.LockedUpgraded()
    requires !m.xmaxHint.Invalid()
    ensures !counts ==> NoSurvivors(Holders(xmax, m, store), w)
    ensures counts ==> Holders(xmax, m, store) == store.Get(xmax, false)
  {
    counts := true;
    if !MultiRunning(store, xmax, m.LockedOnly(), w) {
      if m.LockedOnly() || w.state(UpdaterOf(store.Get(xmax, false)).value) != Committed {
        NobodyCounts(xmax, m, store, w, add);
        counts := false;
      }
    }
  }

  /** A multixact without running members and without a committed updater. */
  lemma NobodyCounts(xmax: nat, m: Infomask, store: MultiStore, w: World, add: nat)
    requires store.Valid() && XmaxSound(xmax, m, store, w, add) && m.isMulti && !m.LockedUpgraded()
    requires !MultiRunning(store, xmax, m.LockedOnly(), w)
    requires !m.LockedOnly() ==>
      UpdaterOf(store.Get(xmax, false)).Some? && w.state(UpdaterOf(store.Get(xmax, false)).value) != Committed
    ensures NoSurvivors(Holders(xmax, m, store), w)
  {
    var members := Holders(xmax, m, store);
    forall x | x in members ensures !Survives(x, w) {
      var i :| 0 <= i < |members| && members[i] == x;
      if x.status.IsUpdate() {
        assert AtMostOneUpdater(members);
        UpdaterIsMember(members, i);
      }
    }
  }
}
