/** Tuple headers, the transactions they name, and the members of a multixact. */
module TupleHeader {
  import opened Base

  datatype MultiStatus = ForKeyShare | ForShare | ForNoKeyUpdate | ForUpdate | NoKeyUpdate | Update
  {
    /** ISUPDATE_from_mxstatus */
    predicate IsUpdate() {
      NoKeyUpdate? || Update?
    }
  }

  datatype Member = Member(xid: nat, status: MultiStatus)

  datatype XactState = InProgress | Committed | Aborted

  /** Transactions as one backend sees them: XIDs in a linear order, and its own running ones. */
  datatype World = World(state: nat -> XactState, current: set<nat>)
  {
    ghost predicate Valid() {
      && state(INVALID_XID) == Aborted && state(1) == Committed && state(FROZEN_XID) == Committed
      && forall x :: x in current ==> state(x) == InProgress
    }
  }

  /** `w'` may come after `w`, in this backend or another: what is decided stays decided. */
  ghost predicate Later(w: World, w': World) {
    w'.Valid() && forall x: nat :: w.state(x) != InProgress ==> w'.state(x) == w.state(x)
  }

  /** The members of each multixact. Those known to be lockers only and older than `oldestVisible`
      are not looked up. */
  datatype MultiStore = MultiStore(members: map<nat, seq<Member>>, oldestVisible: nat)
  {
    /** GetMultiXactIdMembers; no members where the original returns -1. */
    function Get(multi: nat, onlyLock: bool): seq<Member> {
      if multi == INVALID_MULTI || multi !in members || (onlyLock && multi < oldestVisible) then [] else members[multi]
    }

    ghost predicate Valid() {
      forall m :: m in members ==> AtMostOneUpdater(members[m]) && NormalMembers(members[m])
    }
  }

  ghost predicate AtMostOneUpdater(s: seq<Member>) {
    forall i, j :: 0 <= i < j < |s| ==> !(s[i].status.IsUpdate() && s[j].status.IsUpdate())
  }

  ghost predicate NormalMembers(s: seq<Member>) {
    forall i :: 0 <= i < |s| ==> FIRST_NORMAL_XID <= s[i].xid
  }

  /** The updating member, if any. */
  function UpdaterOf(s: seq<Member>): Option<nat> {
    if s == [] then None
    else if s[0].status.IsUpdate() then Some(s[0].xid)
    else UpdaterOf(s[1..])
  }

  lemma {:induction false} UpdaterIsMember(s: seq<Member>, i: nat)
    requires AtMostOneUpdater(s) && i < |s|
    ensures s[i].status.IsUpdate() ==> UpdaterOf(s) == Some(s[i].xid)
    ensures UpdaterOf(s).None? ==> !s[i].status.IsUpdate()
  {
    if i > 0 {
      UpdaterIsMember(s[1..], i - 1);
    }
  }

  lemma {:induction false} UpdaterInMembers(s: seq<Member>)
    ensures UpdaterOf(s).Some? ==> exists i :: 0 <= i < |s| && s[i].status.IsUpdate() && s[i].xid == UpdaterOf(s).value
  {
    if s != [] && !s[0].status.IsUpdate() {
      UpdaterInMembers(s[1..]);
      if UpdaterOf(s).Some? {
        var i :| 0 <= i < |s[1..]| && s[1..][i].status.IsUpdate() && s[1..][i].xid == UpdaterOf(s).value;
        assert s[i+1] == s[1..][i];
      }
    }
  }

  /** HEAP_XMIN_COMMITTED and HEAP_XMIN_INVALID; both together mean frozen. */
  datatype XminHint = XminUnknown | XminCommitted | XminInvalid | XminFrozen

  /** HEAP_XMAX_COMMITTED and HEAP_XMAX_INVALID. */
  datatype XmaxHint = XmaxUnknown | XmaxCommitted | XmaxInvalid | XmaxBoth
  {
    predicate Committed() {
      XmaxCommitted? || XmaxBoth?
    }

    predicate Invalid() {
      XmaxInvalid? || XmaxBoth?
    }
  }

  /** HEAP_XMAX_KEYSHR_LOCK and HEAP_XMAX_EXCL_LOCK; both together are HEAP_XMAX_SHR_LOCK. */
  datatype LockBits = NoLock | KeyshrLock | ExclLock | ShrLock

  datatype Moved = NotMoved | MovedOff | MovedIn

  /** The infomask bits that concern transactions. */
  datatype Infomask = Infomask(xminHint: XminHint, xmaxHint: XmaxHint, isMulti: bool, lockOnly: bool, lock: LockBits,
                               moved: Moved,
                               keysUpdated: bool, hotUpdated: bool)
  {
    /** HEAP_XMAX_IS_LOCKED_ONLY */
    predicate LockedOnly() {
      lockOnly || (!isMulti && lock.ExclLock?)
    }

    /** HEAP_LOCKED_UPGRADED */
    predicate LockedUpgraded() {
      isMulti && lockOnly && lock.NoLock?
    }
  }

  /** HeapTupleHeaderData: raw XID fields and the infomask. */
  datatype Header = Header(xmin: nat, xmax: nat, cmin: nat, cmax: nat, xvac: nat, mask: Infomask)
  {
    /** HeapTupleHeaderXminFrozen */
    predicate Frozen() {
      mask.xminHint.XminFrozen?
    }

    /** HeapTupleHeaderXminCommitted */
    predicate XminIsCommitted() {
      mask.xminHint.XminCommitted? || mask.xminHint.XminFrozen?
    }

    /** HeapTupleHeaderGetXmin */
    function Xmin(): nat {
      if Frozen() then FROZEN_XID else xmin
    }

    /** HeapTupleHeaderGetXvac */
    function Xvac(): nat {
      if mask.moved.NotMoved? then INVALID_XID else xvac
    }

    /** The transaction that updated or deleted the tuple, whatever became of it. */
    function RawUpdater(store: MultiStore): Option<nat> {
      if mask.LockedOnly() then None
      else if mask.isMulti then UpdaterOf(store.Get(xmax, false))
      else Some(xmax)
    }

    function Updater(store: MultiStore): Option<nat> {
      if mask.xmaxHint.Invalid() then None else RawUpdater(store)
    }
  }

  /** The hint bits of a header tell the truth. */
  ghost predicate SoundHints(h: Header, w: World, store: MultiStore) {
    && (h.mask.xminHint.XminCommitted? ==> w.state(h.xmin) == Committed)
    && (h.mask.xminHint.XminInvalid? ==> w.state(h.xmin) == Aborted)
    && (h.mask.xmaxHint.XmaxCommitted? && !h.mask.isMulti && !h.mask.LockedOnly() ==> w.state(h.xmax) == Committed)
    && (h.mask.xmaxHint.Invalid() && h.RawUpdater(store).Some? ==> w.state(h.RawUpdater(store).value) == Aborted)
  }

  predicate NamesUpdater(h: Header, store: MultiStore) {
    h.mask.isMulti && !h.mask.LockedOnly() ==> h.RawUpdater(store).Some?
  }

  /** A multixact marked as locks only has no updater among its members. */
  predicate LocksOnly(h: Header, store: MultiStore) {
    h.mask.isMulti && h.mask.LockedOnly() && !h.mask.LockedUpgraded() ==>
      forall m :: m in store.Get(h.xmax, true) ==> !m.status.IsUpdate()
  }

  /** What every stored header satisfies: a multixact names its updater unless it is marked as locks
      only, and only the inserter can delete a tuple whose insertion has not committed. */
  ghost predicate WellFormed(h: Header, w: World, store: MultiStore) {
    && SoundHints(h, w, store) && NamesUpdater(h, store) && LocksOnly(h, store)
    && (!h.Frozen() && w.state(h.xmin) == InProgress && h.Updater(store).Some? ==>
         var x := h.Updater(store).value;
         w.state(x) != Committed && (h.xmin in w.current && w.state(x) == InProgress ==> x in w.current))
  }
}
