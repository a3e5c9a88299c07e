/** Tuple visibility: what a snapshot sees, and what vacuum may remove. Tuples moved by a VACUUM FULL
    from before release 9.0 are not part of this model. */
module Visibility {
  import opened Base
  import opened TupleHeader

  datatype Snapshot = Snapshot(xmin: nat, xmax: nat, xip: set<nat>, curcid: nat)
  {
    /** XidInMVCCSnapshot: the transaction was running when the snapshot was taken. */
    predicate Running(x: nat) {
      xmin <= x && (xmax <= x || x in xip)
    }

    /** Every XID below the horizon was finished when the snapshot was taken. */
    ghost predicate Admissible(oldestXmin: nat) {
      forall x: nat :: x < oldestXmin ==> !Running(x)
    }
  }

  /** A snapshot taken by this backend: what runs now, was running then. */
  ghost predicate TakenIn(s: Snapshot, w: World) {
    forall x: nat :: w.state(x) == InProgress && x !in w.current ==> s.Running(x)
  }

  // ---- The reference ----

  /** The effect of transaction `x`, in command `cid`, is visible. */
  ghost predicate Happened(x: nat, cid: nat, s: Snapshot, w: World) {
    if x in w.current then cid < s.curcid else !s.Running(x) && w.state(x) == Committed
  }

  /** A tuple is visible if its insertion is and its deletion is not. */
  ghost predicate Visible(h: Header, s: Snapshot, w: World, store: MultiStore) {
    && (h.Frozen() || Happened(h.xmin, h.cmin, s, w))
    && !(h.Updater(store).Some? && Happened(h.Updater(store).value, h.cmax, s, w))
  }

  datatype Status = Dead | Live | RecentlyDead(deadAfter: nat) | InsertInProgress | DeleteInProgress

  /** What has become of a tuple. */
  function Fate(h: Header, w: World, store: MultiStore): Status {
    var inserted := if h.Frozen() then Committed else w.state(h.xmin);
    var updater := h.Updater(store);
    match inserted
    case Aborted => Dead
    case InProgress => if h.xmin in w.current && updater.Some? && updater.value in w.current then DeleteInProgress
         else InsertInProgress
    case Committed =>
      if updater.None? then Live
      else match w.state(updater.value) {
        case InProgress => DeleteInProgress
        case Aborted => Live
        case Committed => RecentlyDead(updater.value)
      }
  }

  /** HeapTupleSatisfiesVacuum: with a horizon, recently dead tuples may be dead. */
  function FateAt(h: Header, oldestXmin: nat, w: World, store: MultiStore): Status {
    var f := Fate(h, w, store);
    if f.RecentlyDead? && f.deadAfter < oldestXmin then Dead else f
  }

  // ---- Hint bits ----

  /** `h'` is `h` with hint bits set, none of which freezes it. */
  predicate MoreHints(h: Header, h': Header) {
    && h' == h.(mask := h.mask.(xminHint := h'.mask.xminHint, xmaxHint := h'.mask.xmaxHint))
    && (h'.mask.xminHint == h.mask.xminHint || (h.mask.xminHint.XminUnknown? && !h'.mask.xminHint.XminFrozen?))
    && (h.mask.xmaxHint.Committed() ==> h'.mask.xmaxHint.Committed()) &&
         (h.mask.xmaxHint.Invalid() ==> h'.mask.xmaxHint.Invalid())
  }

  /** What setting truthful hint bits can make of a header. */
  ghost function Hinted(h: Header, w: World, store: MultiStore): iset<Header> {
    iset h' | MoreHints(h, h') && SoundHints(h', w, store)
  }

  /** The inserter's hint bit was set, if at all. */
  ghost predicate XminHinted(h: Header, h': Header, w: World) {
    && h' == h.(mask := h.mask.(xminHint := h'.mask.xminHint))
    && (h'.mask.xminHint == h.mask.xminHint || (h.mask.xminHint.XminUnknown? && w.state(h.xmin) != InProgress &&
         h'.mask.xminHint == if w.state(h.xmin) == Committed then XminCommitted else XminInvalid))
  }

  lemma XminHintIsHint(h: Header, h': Header, w: World, store: MultiStore)
    requires SoundHints(h, w, store) && XminHinted(h, h', w)
    ensures h' in Hinted(h, w, store)
    ensures h'.Updater(store) == h.Updater(store) && h'.cmax == h.cmax
    ensures NamesUpdater(h, store) ==> NamesUpdater(h', store)
  {
  }

  lemma HintsAddUp(h: Header, h': Header, h2: Header, w: World, store: MultiStore)
    requires h' in Hinted(h, w, store) && h2 in Hinted(h', w, store)
    ensures h2 in Hinted(h, w, store)
  {
  }

  /** Hint bits, as long as they tell the truth, change no answer. */
  lemma HintsChangeNothing(h: Header, h': Header, s: Snapshot, w: World, store: MultiStore)
    requires w.Valid() && MoreHints(h, h') && SoundHints(h', w, store)
    ensures Visible(h', s, w, store) == Visible(h, s, w, store)
    ensures Fate(h', w, store) == Fate(h, w, store)
  {
  }

  /** One transaction both inserted and deleted the tuple, and nobody ever sees it: it has committed, or the
      deletion came no later than the insertion. */
  predicate ComesAndGoes(h: Header, w: World, store: MultiStore) {
    !h.Frozen() && h.Updater(store) == Some(h.xmin) &&
    (w.state(h.xmin) == Committed || (w.state(h.xmin) == InProgress && h.cmax <= h.cmin))
  }

  /** Vacuum removes nothing that any snapshot might see: a tuple found dead for a horizon stays
      invisible, in every later state of every backend, to each snapshot that takes all XIDs below
      the horizon as finished. Nor does it keep more than it must: any other tuple is visible to some
      such snapshot, unless it comes and goes with one transaction. */
  lemma DeadIffNeverSeen(h: Header, oldestXmin: nat, w: World, store: MultiStore)
    requires w.Valid() && WellFormed(h, w, store)
    ensures FateAt(h, oldestXmin, w, store) == Dead || ComesAndGoes(h, w, store) <==>
      forall w', s :: Later(w, w') && TakenIn(s, w') && s.Admissible(oldestXmin) ==> !Visible(h, s, w', store)
  {
    if FateAt(h, oldestXmin, w, store) == Dead {
      forall w', s | Later(w, w') && TakenIn(s, w') && s.Admissible(oldestXmin) ensures !Visible(h, s, w', store) {
        DeadIsNeverSeen(h, oldestXmin, w, store, s, w');
      }
    } else if !ComesAndGoes(h, w, store) {
      var w', s := NotDeadIsSeen(h, oldestXmin, w, store);
    }
  }

  lemma DeadIsNeverSeen(h: Header, oldestXmin: nat, w: World, store: MultiStore, s: Snapshot, w': World)
    requires w.Valid() && WellFormed(h, w, store) && FateAt(h, oldestXmin, w, store) == Dead
    requires Later(w, w') && s.Admissible(oldestXmin)
    ensures !Visible(h, s, w', store)
  {
  }

  /** A later world in which nothing runs any more: `x` has committed if it was running, all others
      that were have aborted. */
  ghost function Settled(w: World, x: nat): World {
    World((y: nat) => if w.state(y) != InProgress then w.state(y) else if y == x then Committed else Aborted, {})
  }

  /** The world of `x` itself, when all others that were running have aborted. */
  ghost function Alone(w: World, x: nat): World {
    World((y: nat) => if w.state(y) != InProgress then w.state(y) else if y == x then InProgress else Aborted, {x})
  }

  lemma NotDeadIsSeen(h: Header, oldestXmin: nat, w: World, store: MultiStore) returns (w': World, s: Snapshot)
    requires w.Valid() && WellFormed(h, w, store)
    requires FateAt(h, oldestXmin, w, store) != Dead && !ComesAndGoes(h, w, store)
    ensures Later(w, w') && TakenIn(s, w') && s.Admissible(oldestXmin) && Visible(h, s, w', store)
  {
    var f := Fate(h, w, store);
    var top := if oldestXmin < h.xmin then h.xmin else oldestXmin;
    if f.RecentlyDead? {
      w' := Settled(w, h.xmin);
      s := Snapshot(f.deadAfter, if f.deadAfter < h.xmin then h.xmin + 1 else f.deadAfter + 1, {f.deadAfter}, 0);
    } else if !h.Frozen() && h.Updater(store) == Some(h.xmin) {
      // only the transaction itself sees it, between the two commands
      w' := Alone(w, h.xmin);
      assert w'.Valid() && Later(w, w');
      s := Snapshot(top + 1, top + 1, {}, h.cmax);
    } else {
      w' := Settled(w, if h.Frozen() then INVALID_XID else h.xmin);
      s := Snapshot(top + 1, top + 1, {}, 0);
    }
  }

  /** In every later state of every backend, each snapshot that takes all XIDs below the horizon as finished
      sees the tuple. */
  ghost predicate SeenByEverybody(h: Header, oldestXmin: nat, w: World, store: MultiStore) {
    forall w', s {:trigger Visible(h, s, w', store)} :: Later(w, w') && TakenIn(s, w') && s.Admissible(oldestXmin) ==>
      Visible(h, s, w', store)
  }

  /** That is what being live and inserted before the horizon comes to. */
  lemma SeenByEverybodyIff(h: Header, oldestXmin: nat, w: World, store: MultiStore)
    requires w.Valid() && WellFormed(h, w, store)
    ensures SeenByEverybody(h, oldestXmin, w, store) <==>
      FateAt(h, oldestXmin, w, store) == Live && (h.Frozen() || h.xmin < oldestXmin)
  {
    if Fate(h, w, store) == Live && (h.Frozen() || h.xmin < oldestXmin) {
      forall w', s | Later(w, w') && TakenIn(s, w') && s.Admissible(oldestXmin) ensures Visible(h, s, w', store) {
        FateTells(h, w, store, s, w');
      }
    } else {
      var w', s := SomebodyMisses(h, oldestXmin, w, store);
    }
  }

  lemma SomebodyMisses(h: Header, oldestXmin: nat, w: World, store: MultiStore) returns (w': World, s: Snapshot)
    requires w.Valid() && WellFormed(h, w, store)
    requires Fate(h, w, store) != Live || !(h.Frozen() || h.xmin < oldestXmin)
    ensures Later(w, w') && TakenIn(s, w') && s.Admissible(oldestXmin) && !Visible(h, s, w', store)
  {
    var f, x := Fate(h, w, store), h.Updater(store);
    if f.Live? {
      w', s := Settled(w, INVALID_XID), Snapshot(h.xmin, h.xmin + 1, {h.xmin}, 0);
    } else {
      // all that is undecided aborts, but for the deletion of a tuple whose insertion has committed
      var deleted := f.RecentlyDead? || (f.DeleteInProgress? && (h.Frozen() || w.state(h.xmin) == Committed));
      w' := Settled(w, if deleted then x.value else INVALID_XID);
      var top := oldestXmin + h.xmin + (if x.Some? then x.value else 0) + 1;
      s := Snapshot(top, top, {}, 0);
    }
  }

  /** What each verdict means to the snapshots of this and every later moment. */
  lemma FateTells(h: Header, w: World, store: MultiStore, s: Snapshot, w': World)
    requires w.Valid() && WellFormed(h, w, store) && Later(w, w') && TakenIn(s, w')
    ensures var inserted := h.Frozen() || !s.Running(h.xmin);
      match Fate(h, w, store)
      case Dead => !Visible(h, s, w', store)
      case Live => Visible(h, s, w', store) <==> inserted
      case RecentlyDead(x) => Visible(h, s, w', store) <==> inserted && s.Running(x)
      case InsertInProgress =>
        w'.state(h.xmin) != Committed && h.xmin !in w'.current ==> !Visible(h, s, w', store)
      case DeleteInProgress =>
        h.Updater(store).Some? &&
        (w'.state(h.xmin) != InProgress && w'.state(h.Updater(store).value) == InProgress &&
         h.Updater(store).value !in w'.current ==>
          (Visible(h, s, w', store) <==> inserted && (h.Frozen() || w'.state(h.xmin) == Committed)))
  {
  }

  /** A verdict is final if and only if it is not one of the two that say "in progress". */
  lemma FateIsFinalIff(h: Header, w: World, store: MultiStore)
    requires w.Valid() && WellFormed(h, w, store)
    ensures (forall w' :: Later(w, w') ==> Fate(h, w', store) == Fate(h, w, store)) <==>
      !Fate(h, w, store).InsertInProgress? && !Fate(h, w, store).DeleteInProgress?
  {
    if Fate(h, w, store).InsertInProgress? || Fate(h, w, store).DeleteInProgress? {
      var w' := Settled(w, INVALID_XID);
      assert Later(w, w') && !Fate(h, w', store).InsertInProgress? && !Fate(h, w', store).DeleteInProgress?;
    }
  }

  /** A command sees what earlier commands of its transaction inserted and not what it inserts itself, and no
      longer what earlier ones deleted, but still what it deletes itself. */
  lemma CommandsDoNotSeeThemselves(h: Header, s: Snapshot, w: World, store: MultiStore)
    requires w.Valid() && !h.Frozen() && h.xmin in w.current
    ensures h.cmin == s.curcid ==> !Visible(h, s, w, store)
    ensures h.cmin + 1 == s.curcid && h.Updater(store).None? ==> Visible(h, s, w, store)
    ensures h.cmin < s.curcid && h.Updater(store) == Some(h.xmin) && h.cmax == s.curcid ==> Visible(h, s, w, store)
    ensures h.Updater(store) == Some(h.xmin) && h.cmax + 1 == s.curcid ==> !Visible(h, s, w, store)
  {
  }

  /** Of the two halves of an update, whoever sees the insertion of the older sees exactly one. */
  lemma UpdateShowsOneVersion(v: Header, v': Header, s: Snapshot, w: World, store: MultiStore)
    requires !v'.Frozen() && v.Updater(store) == Some(v'.xmin) && v.cmax == v'.cmin && v'.Updater(store).None?
    requires v.Frozen() || Happened(v.xmin, v.cmin, s, w)
    ensures Visible(v, s, w, store) != Visible(v', s, w, store)
  {
  }

  /** A snapshot shows the same for as long as it is used, whatever becomes of other transactions. */
  lemma SnapshotIsStable(h: Header, s: Snapshot, w: World, w': World, store: MultiStore)
    requires w.Valid() && TakenIn(s, w) && Later(w, w') && w'.current == w.current
    ensures Visible(h, s, w', store) <==> Visible(h, s, w, store)
  {
  }

  /** It shows what others had inserted that had committed when it was taken, and nothing of those that came later or
      were running then. */
  lemma SnapshotShows(h: Header, s: Snapshot, w: World, store: MultiStore)
    requires !h.Frozen() && h.xmin !in w.current && s.xmin <= s.xmax && forall x :: x in s.xip ==> s.xmin <= x
    ensures s.xmax <= h.xmin || h.xmin in s.xip ==> !Visible(h, s, w, store)
    ensures h.xmin < s.xmax && h.xmin !in s.xip && h.Updater(store).None? ==>
      (Visible(h, s, w, store) <==> w.state(h.xmin) == Committed)
  {
  }

  /** HeapTupleIsSurelyDead: look at the hint bits only. */
  predicate SurelyDead(h: Header, removable: nat -> bool) {
    if !h.XminIsCommitted() then h.mask.xminHint.XminInvalid?
    else !h.mask.xmaxHint.Invalid() && !h.mask.LockedOnly() && !h.mask.isMulti && h.mask.xmaxHint.Committed() &&
         removable(h.xmax)
  }

  /** It only ever says so of tuples that vacuum calls dead. */
  lemma SurelyDeadIsDead(h: Header, removable: nat -> bool, oldestXmin: nat, w: World, store: MultiStore)
    requires w.Valid() && WellFormed(h, w, store)
    requires forall x: nat :: removable(x) ==> x < oldestXmin
    ensures SurelyDead(h, removable) ==> FateAt(h, oldestXmin, w, store) == Dead
  {
  }

  /** MultiXactIdIsRunning */
  predicate MultiRunning(store: MultiStore, multi: nat, onlyLock: bool, w: World) {
    exists i :: 0 <= i < |store.Get(multi, onlyLock)| && w.state(store.Get(multi, onlyLock)[i].xid) == InProgress
  }

  /** Nobody has updated the tuple, or whoever did has aborted. */
  predicate NotUpdated(h: Header, w: World, store: MultiStore) {
    h.Updater(store).None? || w.state(h.Updater(store).value) == Aborted
  }

  /** What HeapTupleHeaderIsOnlyLocked answers: for a plain xmax it goes by the flags alone. */
  predicate TakenForLocked(h: Header, w: World, store: MultiStore) {
    if h.mask.xmaxHint.Invalid() || h.mask.lockOnly || h.xmax == INVALID_XID then true
    else h.mask.isMulti && NotUpdated(h, w, store)
  }

  /** The answer is right if and only if the tuple has no plain xmax without HEAP_XMAX_LOCK_ONLY and the hint
      that it is invalid, unless that is an update that has not aborted.  What goes wrong is an update that has
      aborted without the hint, and an exclusive lock from before release 9.3, which has no such flag. */
  lemma TakenForLockedIff(h: Header, w: World, store: MultiStore)
    requires w.Valid() && NamesUpdater(h, store)
    ensures (TakenForLocked(h, w, store) <==> NotUpdated(h, w, store)) <==>
      h.mask.isMulti || h.mask.lockOnly || h.mask.xmaxHint.Invalid() || h.xmax == INVALID_XID ||
      (!h.mask.LockedOnly() && w.state(h.xmax) != Aborted)
  {
  }

  /** A tuple that transaction 7 has locked exclusively, as releases before 9.3 wrote it. */
  lemma OldLockIsTakenForUpdate(w: World, store: MultiStore) returns (h: Header)
    requires w.Valid() && w.state(5) == Committed
    ensures h == Header(5, 7, 0, 0, 0,
                        Infomask(XminUnknown, XmaxUnknown, false, false, ExclLock, NotMoved, false, false))
    ensures WellFormed(h, w, store) && NotUpdated(h, w, store) && !TakenForLocked(h, w, store)
  {
    h := Header(5, 7, 0, 0, 0, Infomask(XminUnknown, XmaxUnknown, false, false, ExclLock, NotMoved, false, false));
  }

  class HeapTuple {
    var h: Header

    constructor (h: Header)
      ensures this.h == h
    {
      this.h := h;
    }

    /** SetHintBits: bits that tell of a commit are held back while that commit is not flushed. */
    method SetHintBits(h': Header, xid: nat)
      modifies this
      ensures h == h' || (xid != INVALID_XID && h == old(h))
    {
      var flushed: bool := *;
      if xid != INVALID_XID && !flushed {
        return;
      }
      h := h';
    }

    /** HeapTupleSatisfiesMVCC, for a tuple that this transaction inserted. */
    method OwnSatisfiesMVCC(s: Snapshot, w: World, store: MultiStore) returns (r: bool)
      requires w.Valid() && WellFormed(h, w, store) && h.mask.xminHint.XminUnknown? && h.xmin in w.current
      modifies this
      ensures r <==> Visible(old(h), s, w, store)
      ensures h in Hinted(old(h), w, store)
    {
      if h.cmin >= s.curcid {
        return false;
      }
      if h.mask.xmaxHint.Invalid() || h.mask.LockedOnly() {
        return true;
      }
      if h.mask.isMulti {
        var xmax := UpdaterOf(store.Get(h.xmax, false)).value;
        return xmax !in w.current || h.cmax >= s.curcid;
      }
      if h.xmax !in w.current {
        SetHintBits(h.(mask := h.mask.(xmaxHint := XmaxInvalid)), INVALID_XID);
        return true;
      }
      return h.cmax >= s.curcid;
    }

    /** The first half of HeapTupleSatisfiesMVCC, for a tuple that another transaction inserted. */
    method InsertionSeen(s: Snapshot, w: World, store: MultiStore) returns (r: bool)
      requires w.Valid() && TakenIn(s, w) && (h.xmin in w.current ==> !h.mask.xminHint.XminUnknown?)
      requires SoundHints(h, w, store)
      modifies this
      ensures r <==> old(h).Frozen() || Happened(old(h).xmin, old(h).cmin, s, w)
      ensures XminHinted(old(h), h, w)
    {
      if !h.XminIsCommitted() {
        if h.mask.xminHint.XminInvalid? || s.Running(h.xmin) {
          return false;
        } else if w.state(h.xmin) == Committed {
          SetHintBits(h.(mask := h.mask.(xminHint := XminCommitted)), h.xmin);
        } else {
          SetHintBits(h.(mask := h.mask.(xminHint := XminInvalid)), INVALID_XID);
          return false;
        }
      } else if !h.Frozen() && s.Running(h.xmin) {
        return false;
      }
      return true;
    }

    /** HeapTupleSatisfiesMVCC */
    method SatisfiesMVCC(s: Snapshot, w: World, store: MultiStore) returns (r: bool)
      requires w.Valid() && WellFormed(h, w, store) && TakenIn(s, w) && h.mask.moved.NotMoved?
      modifies this
      ensures r <==> Visible(old(h), s, w, store)
      ensures h in Hinted(old(h), w, store)
    {
      if h.mask.xminHint.XminUnknown? && h.xmin in w.current {
        r := OwnSatisfiesMVCC(s, w, store);
      } else {
        r := InsertionSeen(s, w, store);
        XminHintIsHint(old(h), h, w, store);
        if r {
          ghost var mid := h;
          r := DeletionUnseen(s, w, store);
          HintsAddUp(old(h), mid, h, w, store);
        }
      }
    }

    /** The second half of HeapTupleSatisfiesMVCC: the insertion is visible; is the deletion? */
    method DeletionUnseen(s: Snapshot, w: World, store: MultiStore) returns (r: bool)
      requires w.Valid() && SoundHints(h, w, store) && TakenIn(s, w) && NamesUpdater(h, store)
      modifies this
      ensures r <==> !(old(h).Updater(store).Some? && Happened(old(h).Updater(store).value, old(h).cmax, s, w))
      ensures h in Hinted(old(h), w, store)
    {
      if h.mask.xmaxHint.Invalid() || h.mask.LockedOnly() {
        return true;
      }
      if h.mask.isMulti {
        var xmax := UpdaterOf(store.Get(h.xmax, false)).value;
        if xmax in w.current {
          return h.cmax >= s.curcid;
        }
        return s.Running(xmax) || w.state(xmax) != Committed;
      }
      if !h.mask.xmaxHint.Committed() {
        if h.xmax in w.current {
          return h.cmax >= s.curcid;
        }
        if s.Running(h.xmax) {
          return true;
        }
        if w.state(h.xmax) != Committed {
          SetHintBits(h.(mask := h.mask.(xmaxHint := XmaxInvalid)), INVALID_XID);
          return true;
        }
        SetHintBits(h.(mask := h.mask.(xmaxHint := XmaxCommitted)), h.xmax);
        return false;
      }
      return s.Running(h.xmax);
    }

    /** HeapTupleHeaderIsOnlyLocked */
    method IsOnlyLocked(w: World, store: MultiStore) returns (r: bool)
      requires w.Valid() && WellFormed(h, w, store)
      ensures r <==> TakenForLocked(h, w, store)
      ensures r ==> NotUpdated(h, w, store)
    {
      if h.mask.xmaxHint.Invalid() || h.mask.lockOnly || h.xmax == INVALID_XID {
        return true;
      }
      if !h.mask.isMulti {
        return false;
      }
      var xmax := UpdaterOf(store.Get(h.xmax, false)).value;
      return w.state(xmax) == Aborted;
    }

    /** HeapTupleSatisfiesVacuumHorizon */
    method SatisfiesVacuumHorizon(w: World, store: MultiStore) returns (r: Status)
      requires w.Valid() && WellFormed(h, w, store) && h.mask.moved.NotMoved?
      modifies this
      ensures r == Fate(old(h), w, store)
      ensures h in Hinted(old(h), w, store)
    {
      ghost var h0 := h;
      if !h.XminIsCommitted() {
        if h.mask.xminHint.XminInvalid? {
          return Dead;
        } else if h.xmin in w.current {
          r := OwnInsertion(w, store);
          return;
        } else if w.state(h.xmin) == InProgress {
          return InsertInProgress;
        } else if w.state(h.xmin) == Committed {
          SetHintBits(h.(mask := h.mask.(xminHint := XminCommitted)), h.xmin);
        } else {
          SetHintBits(h.(mask := h.mask.(xminHint := XminInvalid)), INVALID_XID);
          return Dead;
        }
      }
      XminHintIsHint(h0, h, w, store);
      ghost var mid := h;
      r := DeletionFate(w, store);
      HintsAddUp(h0, mid, h, w, store);
    }

    /** A tuple inserted by this transaction. */
    method OwnInsertion(w: World, store: MultiStore) returns (r: Status)
      requires w.Valid() && WellFormed(h, w, store) && h.mask.xminHint.XminUnknown? && h.xmin in w.current
      ensures r == Fate(h, w, store)
    {
      if h.mask.xmaxHint.Invalid() || h.mask.LockedOnly() {
        return InsertInProgress;
      }
      var locked := IsOnlyLocked(w, store);
      if locked {
        return InsertInProgress;
      }
      var xmax := if h.mask.isMulti then UpdaterOf(store.Get(h.xmax, false)).value else h.xmax;
      return if xmax in w.current then DeleteInProgress else InsertInProgress;
    }

    /** The insertion has committed: what about the deletion? */
    method DeletionFate(w: World, store: MultiStore) returns (r: Status)
      requires w.Valid() && SoundHints(h, w, store) && NamesUpdater(h, store)
      modifies this
      ensures r == match old(h).Updater(store)
        case None => Live
        case Some(x) =>
          match w.state(x) case InProgress => DeleteInProgress case Aborted => Live case Committed => RecentlyDead(x)
      ensures h in Hinted(old(h), w, store)
    {
      if h.mask.xmaxHint.Invalid() {
        return Live;
      }
      if h.mask.LockedOnly() {
        if !h.mask.xmaxHint.Committed() {
          var running := if h.mask.isMulti then !h.mask.LockedUpgraded() && MultiRunning(store, h.xmax, true, w)
            else w.state(h.xmax) == InProgress;
          if running {
            return Live;
          }
          SetHintBits(h.(mask := h.mask.(xmaxHint := XmaxInvalid)), INVALID_XID);
        }
        return Live;
      }
      if h.mask.isMulti {
        var xmax := UpdaterOf(store.Get(h.xmax, false)).value;
        if w.state(xmax) == InProgress {
          return DeleteInProgress;
        } else if w.state(xmax) == Committed {
          return RecentlyDead(xmax);
        } else if !MultiRunning(store, h.xmax, false, w) {
          SetHintBits(h.(mask := h.mask.(xmaxHint := if h.mask.xmaxHint.Committed() then XmaxBoth else XmaxInvalid)),
                      INVALID_XID);
        }
        return Live;
      }
      if !h.mask.xmaxHint.Committed() {
        if w.state(h.xmax) == InProgress {
          return DeleteInProgress;
        } else if w.state(h.xmax) == Committed {
          SetHintBits(h.(mask := h.mask.(xmaxHint := XmaxCommitted)), h.xmax);
        } else {
          SetHintBits(h.(mask := h.mask.(xmaxHint := XmaxInvalid)), INVALID_XID);
          return Live;
        }
      }
      return RecentlyDead(h.xmax);
    }

    /** HeapTupleSatisfiesVacuum */
    method SatisfiesVacuum(oldestXmin: nat, w: World, store: MultiStore) returns (r: Status)
      requires w.Valid() && WellFormed(h, w, store) && h.mask.moved.NotMoved?
      modifies this
      ensures r == FateAt(old(h), oldestXmin, w, store)
      ensures h in Hinted(old(h), w, store)
    {
      r := SatisfiesVacuumHorizon(w, store);
      if r.RecentlyDead? && r.deadAfter < oldestXmin {
        r := Dead;
      }
    }
  }
}
