/** The multixact log, and the infomask bits that a multixact calls for. */
module MultiXact {
  import opened Base
  import opened TupleHeader

  datatype LockMode = KeyShare | Share | NoKeyExclusive | Exclusive
  {
    function Rank(): nat {
      match this case KeyShare => 0 case Share => 1 case NoKeyExclusive => 2 case Exclusive => 3
    }
  }

  /** TUPLOCK_from_mxstatus */
  function ModeOf(s: MultiStatus): LockMode {
    match s
    case ForKeyShare => KeyShare
    case ForShare => Share
    case ForNoKeyUpdate => NoKeyExclusive
    case NoKeyUpdate => NoKeyExclusive
    case ForUpdate => Exclusive
    case Update => Exclusive
  }

  /** DoLockModesConflict, for the heavyweight lock modes that stand for these in tupleLockExtraInfo. */
  predicate Conflicts(m: LockMode, n: LockMode) {
    match m
    case KeyShare => n.Exclusive?
    case Share => n.NoKeyExclusive? || n.Exclusive?
    case NoKeyExclusive => !n.KeyShare?
    case Exclusive => true
  }

  /** A mode of higher rank is one that keeps out all that the other does. */
  lemma RankIsStrength(m: LockMode, n: LockMode)
    ensures m.Rank() <= n.Rank() <==> forall k :: Conflicts(m, k) ==> Conflicts(n, k)
    ensures Conflicts(m, n) <==> Conflicts(n, m)
  {
    if m.Rank() > n.Rank() {
      var k := match m case Exclusive => KeyShare case NoKeyExclusive => Share case _ => NoKeyExclusive;
      assert Conflicts(m, k) && !Conflicts(n, k);
    }
  }

  /** Bits for the lock mode of a locker or updater. */
  function LockBitsFor(mode: LockMode): LockBits {
    match mode
    case KeyShare => KeyshrLock
    case Share => ShrLock
    case NoKeyExclusive => ExclLock
    case Exclusive => ExclLock
  }

  predicate TouchesKeys(s: MultiStatus) {
    s.ForUpdate? || s.Update?
  }

  /** The bits GetMultiXactIdHintBits computes, besides HEAP_XMAX_IS_MULTI. */
  datatype HintBits = HintBits(lock: LockBits, lockOnly: bool, keysUpdated: bool)

  /** No member holds a stronger mode, and one holds this one unless it is the weakest. */
  ghost predicate Strongest(mode: LockMode, members: seq<Member>) {
    && (forall i :: 0 <= i < |members| ==> ModeOf(members[i].status).Rank() <= mode.Rank())
    && (mode == KeyShare || exists i :: 0 <= i < |members| && ModeOf(members[i].status) == mode)
  }

  /** The bits tell the strongest mode, whether there is an updater, and whether a key may change. */
  ghost predicate BitsFor(b: HintBits, members: seq<Member>) {
    && (exists mode :: Strongest(mode, members) && b.lock == LockBitsFor(mode))
    && (b.lockOnly <==> forall i :: 0 <= i < |members| ==> !members[i].status.IsUpdate())
    && (b.keysUpdated <==> exists i :: 0 <= i < |members| && TouchesKeys(members[i].status))
  }

  /** `store'` has what `store` has below `n`, and maybe more above. */
  ghost predicate Grown(store: MultiStore, store': MultiStore, n: nat) {
    store'.oldestVisible == store.oldestVisible && forall m {:trigger Same(store, store', m)} :: m < n ==>
      Same(store, store', m)
  }

  predicate Same(store: MultiStore, store': MultiStore, m: int) {
    (m in store'.members <==> m in store.members) && (m in store.members ==> store'.members[m] == store.members[m])
  }

  /** The tuple's multixact, if any, is in use. */
  predicate KnownMulti(h: Header, n: nat) {
    h.mask.isMulti ==> h.xmax < n
  }

  class MultiXacts {
    var store: MultiStore
    var next: nat

    /** Multixacts are numbered from 1 on; those from `next` on are not used yet. */
    ghost predicate Valid()
      reads this
    {
      0 < next && store.oldestVisible <= next && forall m :: m in store.members ==> m < next
    }

    /** MultiXactIdCreateFromMembers */
    method CreateFromMembers(members: seq<Member>) returns (multi: nat)
      requires Valid()
      modifies this
      ensures Valid() && multi == old(next) && next == multi + 1
      ensures store == old(store).(members := old(store).members[multi := members])
    {
      multi := next;
      store := store.(members := store.members[multi := members]);
      next := next + 1;
    }

    /** GetMultiXactIdHintBits */
    method GetHintBits(multi: nat) returns (b: HintBits)
      ensures BitsFor(b, store.Get(multi, false))
    {
      var members := store.Get(multi, false);
      var strongest, hasUpdate, keysUpdated := KeyShare, false, false;
      for i := 0 to |members|
        invariant Strongest(strongest, members[..i])
        invariant hasUpdate <==> exists j :: 0 <= j < i && members[j].status.IsUpdate()
        invariant keysUpdated <==> exists j :: 0 <= j < i && TouchesKeys(members[j].status)
      {
        assert members[..i+1] == members[..i] + [members[i]];
        var mode := ModeOf(members[i].status);
        if mode.Rank() > strongest.Rank() {
          assert ModeOf(members[..i+1][i].status) == mode;
          strongest := mode;
        } else {
          StillStrongest(strongest, members[..i], members[i]);
        }
        match members[i].status
        case ForKeyShare => {}
        case ForShare => {}
        case ForNoKeyUpdate => {}
        case ForUpdate => { keysUpdated := true; }
        case NoKeyUpdate => { hasUpdate := true; }
        case Update => { keysUpdated := true; hasUpdate := true; }
      }
      assert members[..|members|] == members;
      b := HintBits(LockBitsFor(strongest), !hasUpdate, keysUpdated);
    }
  }

  lemma StillStrongest(mode: LockMode, members: seq<Member>, m: Member)
    requires Strongest(mode, members) && ModeOf(m.status).Rank() <= mode.Rank()
    ensures Strongest(mode, members + [m])
  {
    if mode != KeyShare {
      var i :| 0 <= i < |members| && ModeOf(members[i].status) == mode;
      assert (members + [m])[i] == members[i];
    }
  }
}
