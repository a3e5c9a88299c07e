/** pg_tde_get_root_tuples: the map from every tuple of a page to the root of its HOT chain,
    which index builds store in place of heap-only tuples' own TIDs. */
module RootMap {
  import opened Base
  import opened HotChain
  import opened PrunePlan
  import PruneSafety
  import Prune

  /** What PageGetItemId finds at offsets that are not in the line pointer array.  The chain walk of the
      source checks the range of the root, not of the offset it is about to read, so it may go there. */
  type Beyond = OffsetNumber -> ItemId

  /** Following item `k`, the walk stays inside the line pointer array. */
  predicate PointsInside(p: Items, k: int)
    requires InRange(p, k)
  {
    match p[k]
    case Redirect(t) => InRange(p, t)
    case Normal(t) => t.hotUpdated ==> InRange(p, t.ctidOffset)
    case _ => true
  }

  /** What is read outside passes for the next member of a chain. */
  predicate Succeeds(lp: ItemId, priorXmax: Xid) {
    lp.Normal? && (priorXmax != INVALID_XID ==> lp.tup.xmin == priorXmax)
  }

  predicate Misled(p: Items, beyond: Beyond, off: OffsetNumber, priorXmax: Xid) {
    !InRange(p, off) && Succeeds(beyond(off), priorXmax)
  }

  /** Following item `k`, the walk leaves the array and takes what it finds for a chain member. */
  predicate Stale(p: Items, beyond: Beyond, k: int)
    requires InRange(p, k)
  {
    match p[k]
    case Redirect(t) => Misled(p, beyond, t, INVALID_XID)
    case Normal(t) => t.hotUpdated && Misled(p, beyond, t.ctidOffset, t.updateXid)
    case _ => false
  }

  /** Item `k` is root `r` or a member of its chain. */
  ghost predicate Reached(p: Items, rank: seq<nat>, r: int, k: int)
    requires Ranked(p, rank)
  {
    InRange(p, k) && (k == r || OnChain(p, rank, r, k))
  }

  ghost predicate Before(p: Items, rank: seq<nat>, cur: int, r: int, k: int)
    requires Ranked(p, rank)
  {
    IsRoot(p, r) && r < cur && Reached(p, rank, r, k)
  }

  /** The walk reads line pointers of the array only. */
  ghost predicate WalksInside(p: Items, rank: seq<nat>)
    requires Ranked(p, rank)
  {
    forall r, k :: Before(p, rank, |p|, r, k) ==> PointsInside(p, k)
  }

  /** The walk takes something outside the array for a chain member. */
  ghost predicate WalkMisled(p: Items, rank: seq<nat>, beyond: Beyond)
    requires Ranked(p, rank)
  {
    exists r, k :: Before(p, rank, |p|, r, k) && Stale(p, beyond, k)
  }

  /** The map entry of offset `k`. */
  function Entry(m: seq<OffsetNumber>, k: int): OffsetNumber
    requires 1 <= k <= |m|
  {
    m[k-1]
  }

  lemma {:induction false} ChainLastStep(p: Items, rank: seq<nat>, r: int, k: int) returns (y: int)
    requires WellFormed(p, rank) && OnChain(p, rank, r, k) && r != k
    ensures Link(p, y, k) && (y == r || OnChain(p, rank, r, y)) && rank[k] < rank[r]
    decreases rank[r]
  {
    assert Link(p, r, Next(p, r));
    if Next(p, r) == k {
      y := r;
    } else {
      y := ChainLastStep(p, rank, Next(p, r), k);
    }
  }

  /** Chains from different roots share no tuple. */
  lemma {:induction false} ChainsAreDisjoint(p: Items, rank: seq<nat>, r: int, r': int, k: int)
    requires WellFormed(p, rank) && IsRoot(p, r) && IsRoot(p, r')
    requires (r == k || OnChain(p, rank, r, k)) && (r' == k || OnChain(p, rank, r', k))
    ensures r == r'
    decreases rank[r] as int - rank[k] as int
  {
    if r != k && r' != k {
      var y := ChainLastStep(p, rank, r, k);
      var y' := ChainLastStep(p, rank, r', k);
      if y != r {
        var z := ChainLastStep(p, rank, r, y);
      }
      ChainsAreDisjoint(p, rank, r, r', y);
    } else if r != k {
      var y := ChainLastStep(p, rank, r, k);
    } else if r' != k {
      var y := ChainLastStep(p, rank, r', k);
    }
  }

  /** The entries are right for the chains of all roots below `cur`, and no others are set. */
  ghost predicate Mapped(p: Items, rank: seq<nat>, m: seq<OffsetNumber>, cur: int)
    requires Ranked(p, rank) && |m| >= |p| - 1
  {
    && (forall k :: InRange(p, k) && Entry(m, k) != INVALID_OFFSET ==>
          IsRoot(p, Entry(m, k)) && Entry(m, k) < cur && OnChain(p, rank, Entry(m, k), k))
    && (forall r, k :: IsRoot(p, r) && r < cur && OnChain(p, rank, r, k) ==> Entry(m, k) == r)
  }

  /** In the middle of the chain of `root`: only what lies from `off` on is still missing. */
  ghost predicate Mapping(p: Items, rank: seq<nat>, m: seq<OffsetNumber>, root: int, off: int, priorXmax: Xid)
    requires Ranked(p, rank) && |m| >= |p| - 1 && IsRoot(p, root)
  {
    && (forall k :: InRange(p, k) && Entry(m, k) != INVALID_OFFSET ==>
          IsRoot(p, Entry(m, k)) && Entry(m, k) <= root && OnChain(p, rank, Entry(m, k), k))
    && (forall r, k :: IsRoot(p, r) && r < root && OnChain(p, rank, r, k) ==> Entry(m, k) == r)
    && (forall k :: OnChain(p, rank, root, k) ==>
          Entry(m, k) == root || (Continues(p, off, priorXmax) && OnChain(p, rank, off, k)))
    && (Continues(p, off, priorXmax) ==> forall k :: OnChain(p, rank, off, k) ==> OnChain(p, rank, root, k))
  }

  /** Entering one more tuple of the chain. */
  lemma MapOne(p: Items, rank: seq<nat>, m: seq<OffsetNumber>, root: int, off: int, priorXmax: Xid)
    requires WellFormed(p, rank) && |m| >= |p| - 1 && IsRoot(p, root)
    requires Mapping(p, rank, m, root, off, priorXmax) && Continues(p, off, priorXmax)
    ensures var t := p[off].tup;
      var m' := m[off - 1 := root];
      && (t.hotUpdated ==> Mapping(p, rank, m', root, t.ctidOffset, t.updateXid))
      && (!t.hotUpdated ==> Mapped(p, rank, m', root + 1))
  {
    var t := p[off].tup;
    var m' := m[off - 1 := root];
    assert OnChain(p, rank, off, off);
    assert Entry(m', off) == root;
    assert forall k :: InRange(p, k) && k != off ==> Entry(m', k) == Entry(m, k);
    assert Link(p, off, t.ctidOffset) <==> t.hotUpdated && Continues(p, t.ctidOffset, t.updateXid);
    forall r | IsRoot(p, r) && r < root && OnChain(p, rank, r, off) ensures false {
      ChainsAreDisjoint(p, rank, r, root, off);
    }
  }

  // --------------------------------------------------------------- what the walk has read

  /** The roots below `cur` and the members of their chains. */
  ghost function Finished(p: Items, rank: seq<nat>, cur: int): iset<int>
    requires Ranked(p, rank)
  {
    iset k: int | Done(p, rank, cur, k)
  }

  ghost predicate Done(p: Items, rank: seq<nat>, cur: int, k: int)
    requires Ranked(p, rank)
  {
    exists r :: Before(p, rank, cur, r, k)
  }

  /** Those, and what the chain of `root` has up to item `at`. */
  ghost function Seen(p: Items, rank: seq<nat>, root: int, at: int): iset<int>
    requires Ranked(p, rank)
  {
    Finished(p, rank, root) + iset k: int | Reached(p, rank, root, k) && !(k != at && Reached(p, rank, at, k))
  }

  /** `inside` tells whether following these items has kept to the array, and only `at` may be stale. */
  ghost predicate Watched(p: Items, beyond: Beyond, seen: iset<int>, inside: bool, at: int) {
    && (inside <==> forall k :: k in seen && InRange(p, k) ==> PointsInside(p, k))
    && (forall k :: k in seen && InRange(p, k) && k != at ==> !Stale(p, beyond, k))
  }

  /** Following item `at` leads to `off`. */
  ghost predicate LeadsTo(p: Items, beyond: Beyond, at: int, off: int, priorXmax: Xid) {
    && InRange(p, at) && (PointsInside(p, at) <==> InRange(p, off)) &&
         (Stale(p, beyond, at) <==> Misled(p, beyond, off, priorXmax))
    && (forall u :: Link(p, at, u) <==> u == off && Continues(p, off, priorXmax))
  }

  lemma WatchMore(p: Items, beyond: Beyond, seen: iset<int>, inside: bool, at: int, k: int)
    requires Watched(p, beyond, seen, inside, at) && InRange(p, k) && (InRange(p, at) ==> !Stale(p, beyond, at))
    ensures Watched(p, beyond, seen + iset{k}, inside && PointsInside(p, k), k)
  {
  }

  /** A chain is its head and the rest. */
  lemma HeadAndRest(p: Items, rank: seq<nat>, at: int, next: int, k: int)
    requires WellFormed(p, rank) && Link(p, at, next)
    ensures Reached(p, rank, at, k) && k != at <==> OnChain(p, rank, next, k)
  {
    assert forall u :: Link(p, at, u) ==> u == next;
    if OnChain(p, rank, next, at) && at != next {
      var y := ChainLastStep(p, rank, next, at);
    }
  }

  lemma {:induction false} ReachedNext(p: Items, rank: seq<nat>, root: int, at: int, next: int)
    requires WellFormed(p, rank) && Reached(p, rank, root, at) && Link(p, at, next) && InRange(p, root)
    ensures OnChain(p, rank, root, next)
    decreases rank[root]
  {
    assert OnChain(p, rank, next, next);
    if root == at {
      HeadAndRest(p, rank, at, next, next);
    } else {
      assert Link(p, root, Next(p, root));
      ReachedNext(p, rank, Next(p, root), at, next);
    }
  }

  lemma SeenStart(p: Items, rank: seq<nat>, root: int)
    requires Ranked(p, rank) && InRange(p, root)
    ensures Seen(p, rank, root, root) == Finished(p, rank, root) + iset{root}
  {
  }

  lemma SeenStep(p: Items, rank: seq<nat>, root: int, at: int, next: int)
    requires WellFormed(p, rank) && IsRoot(p, root) && Reached(p, rank, root, at) && Link(p, at, next)
    ensures Reached(p, rank, root, next) && Seen(p, rank, root, next) == Seen(p, rank, root, at) + iset{next}
  {
    ReachedNext(p, rank, root, at, next);
    forall k ensures Reached(p, rank, at, k) && k != at <==> Reached(p, rank, next, k) {
      HeadAndRest(p, rank, at, next, k);
    }
  }

  lemma SeenEnd(p: Items, rank: seq<nat>, root: int, at: int)
    requires Ranked(p, rank) && IsRoot(p, root) && Reached(p, rank, root, at) && forall u :: !Link(p, at, u)
    ensures Seen(p, rank, root, at) == Finished(p, rank, root + 1)
  {
    var cur := root + 1;
    forall k ensures k in Seen(p, rank, root, at) <==> k in Finished(p, rank, cur) {
      assert Reached(p, rank, at, k) ==> k == at;
      if Done(p, rank, root, k) {
        var r :| Before(p, rank, root, r, k);
        assert Before(p, rank, cur, r, k);
      } else if Reached(p, rank, root, k) {
        assert Before(p, rank, cur, root, k);
      } else if Done(p, rank, cur, k) {
        var r :| Before(p, rank, cur, r, k);
        assert r == root || Before(p, rank, root, r, k);
      }
    }
  }

  lemma FinishedSkip(p: Items, rank: seq<nat>, k: int)
    requires Ranked(p, rank) && !IsRoot(p, k)
    ensures Finished(p, rank, k + 1) == Finished(p, rank, k)
  {
    var cur := k + 1;
    forall x ensures Done(p, rank, cur, x) <==> Done(p, rank, k, x) {
      forall r ensures Before(p, rank, cur, r, x) <==> Before(p, rank, k, r, x) {
      }
    }
  }

  /** What has been seen tells what the whole walk does. */
  lemma SeenTells(p: Items, rank: seq<nat>, beyond: Beyond, root: int, at: int, inside: bool)
    requires Ranked(p, rank) && IsRoot(p, root) && Reached(p, rank, root, at)
    requires Watched(p, beyond, Seen(p, rank, root, at), inside, at) && Stale(p, beyond, at)
    ensures WalkMisled(p, rank, beyond) && !WalksInside(p, rank)
  {
    assert Before(p, rank, |p|, root, at);
    assert !PointsInside(p, at);
  }

  lemma AllSeen(p: Items, rank: seq<nat>, beyond: Beyond, inside: bool)
    requires Ranked(p, rank) && Watched(p, beyond, Finished(p, rank, |p|), inside, INVALID_OFFSET)
    ensures (inside <==> WalksInside(p, rank)) && !WalkMisled(p, rank, beyond)
  {
    forall r, k | Before(p, rank, |p|, r, k) ensures k in Finished(p, rank, |p|) {
      assert Done(p, rank, |p|, k);
    }
  }

  // --------------------------------------------------------------- the loops

  /** The inner loop: follow one chain and enter its tuples.  `inside` tells whether it has kept to the
      line pointer array; the model stops where it is `misled`. */
  method MapChain(p: Items, beyond: Beyond, root_offsets: array<OffsetNumber>, offnum: OffsetNumber, next: OffsetNumber,
                  xmax: Xid, wasInside: bool, ghost rank: seq<nat>)
    returns (inside: bool, misled: bool)
    requires WellFormed(p, rank) && root_offsets.Length >= |p| - 1 && IsRoot(p, offnum)
    requires Mapping(p, rank, root_offsets[..], offnum, next, xmax) && LeadsTo(p, beyond, offnum, next, xmax)
    requires Watched(p, beyond, Seen(p, rank, offnum, offnum), wasInside, offnum)
    modifies root_offsets
    ensures !misled ==> Mapped(p, rank, root_offsets[..], offnum + 1)
    ensures !misled ==> Watched(p, beyond, Finished(p, rank, offnum + 1), inside, INVALID_OFFSET)
    ensures misled ==> WalkMisled(p, rank, beyond) && !WalksInside(p, rank) && !inside
    ensures forall i :: |p| - 1 <= i < root_offsets.Length ==> root_offsets[i] == old(root_offsets[i])
  {
    var nextoffnum, priorXmax := next, xmax;
    inside, misled := wasInside, false;
    ghost var at := offnum;
    while true
      invariant Mapping(p, rank, root_offsets[..], offnum, nextoffnum, priorXmax) && !misled
      invariant Reached(p, rank, offnum, at) && LeadsTo(p, beyond, at, nextoffnum, priorXmax)
      invariant Watched(p, beyond, Seen(p, rank, offnum, at), inside, at)
      invariant forall i :: |p| - 1 <= i < root_offsets.Length ==> root_offsets[i] == old(root_offsets[i])
      decreases if Continues(p, nextoffnum, priorXmax) then rank[nextoffnum] + 1 else 0
    {
      var lp := if InRange(p, nextoffnum) then p[nextoffnum] else beyond(nextoffnum);
      if !Succeeds(lp, priorXmax) {
        WatchEnd(p, rank, beyond, offnum, at, nextoffnum, priorXmax, inside);
        break;
      }
      if !InRange(p, nextoffnum) {
        SeenTells(p, rank, beyond, offnum, at, inside);
        return false, true;
      }
      var htup := lp.tup;
      ghost var m := root_offsets[..];
      MapOne(p, rank, m, offnum, nextoffnum, priorXmax);
      WatchOne(p, rank, beyond, offnum, at, nextoffnum, priorXmax, inside);
      root_offsets[nextoffnum - 1] := offnum;
      assert root_offsets[..] == m[nextoffnum - 1 := offnum];
      if !htup.hotUpdated {
        return;
      }
      at := nextoffnum;
      nextoffnum := htup.ctidOffset;
      priorXmax := htup.updateXid;
      inside := inside && InRange(p, nextoffnum);
    }
  }

  lemma WatchEnd(p: Items, rank: seq<nat>, beyond: Beyond, root: int, at: int, off: int, priorXmax: Xid, inside: bool)
    requires WellFormed(p, rank) && IsRoot(p, root) && Reached(p, rank, root, at) &&
      LeadsTo(p, beyond, at, off, priorXmax)
    requires !Succeeds(if InRange(p, off) then p[off] else beyond(off), priorXmax)
    requires Watched(p, beyond, Seen(p, rank, root, at), inside, at)
    ensures Watched(p, beyond, Finished(p, rank, root + 1), inside, INVALID_OFFSET)
  {
    SeenEnd(p, rank, root, at);
  }

  lemma WatchOne(p: Items, rank: seq<nat>, beyond: Beyond, root: int, at: int, off: int, priorXmax: Xid, inside: bool)
    requires WellFormed(p, rank) && IsRoot(p, root) && Reached(p, rank, root, at) &&
      LeadsTo(p, beyond, at, off, priorXmax)
    requires Continues(p, off, priorXmax) && Watched(p, beyond, Seen(p, rank, root, at), inside, at)
    ensures Reached(p, rank, root, off)
    ensures var t := p[off].tup;
      && (t.hotUpdated ==> Watched(p, beyond, Seen(p, rank, root, off), inside && InRange(p, t.ctidOffset), off)
                           && LeadsTo(p, beyond, off, t.ctidOffset, t.updateXid))
      && (!t.hotUpdated ==> Watched(p, beyond, Finished(p, rank, root + 1), inside, INVALID_OFFSET))
      && (Link(p, off, t.ctidOffset) <==> t.hotUpdated && Continues(p, t.ctidOffset, t.updateXid))
  {
    assert Link(p, at, off);
    SeenStep(p, rank, root, at, off);
    WatchMore(p, beyond, Seen(p, rank, root, at), inside, at, off);
    if !p[off].tup.hotUpdated {
      SeenEnd(p, rank, root, off);
    }
  }

  /** The chain behind a root is about to be entered. */
  lemma StartMapping(p: Items, rank: seq<nat>, m: seq<OffsetNumber>, root: int)
    requires WellFormed(p, rank) && |m| >= |p| - 1 && IsRoot(p, root) && Mapped(p, rank, m, root)
    ensures p[root].Redirect? ==> Mapping(p, rank, m, root, p[root].target, INVALID_XID)
    ensures p[root].Normal? ==> Mapping(p, rank, m, root, root, INVALID_XID)
  {
    if p[root].Redirect? {
      assert Link(p, root, p[root].target) <==> IsNormal(p, p[root].target);
    }
  }

  lemma StartWatching(p: Items, rank: seq<nat>, beyond: Beyond, root: int, inside: bool)
    requires WellFormed(p, rank) && IsRoot(p, root) &&
      Watched(p, beyond, Finished(p, rank, root), inside, INVALID_OFFSET)
    ensures Watched(p, beyond, Seen(p, rank, root, root), inside && PointsInside(p, root), root)
    ensures p[root].Redirect? ==> LeadsTo(p, beyond, root, p[root].target, INVALID_XID)
    ensures p[root].Normal? && p[root].tup.hotUpdated ==>
      LeadsTo(p, beyond, root, p[root].tup.ctidOffset, p[root].tup.updateXid)
    ensures p[root].Normal? && !p[root].tup.hotUpdated ==>
      Watched(p, beyond, Finished(p, rank, root + 1), inside, INVALID_OFFSET)
  {
    SeenStart(p, rank, root);
    WatchMore(p, beyond, Finished(p, rank, root), inside, INVALID_OFFSET, root);
    if p[root].Normal? && !p[root].tup.hotUpdated {
      SeenEnd(p, rank, root, root);
    }
  }

  /** A root is entered, and then its chain. */
  method MapRoot(p: Items, beyond: Beyond, root_offsets: array<OffsetNumber>, offnum: OffsetNumber, wasInside: bool,
                 ghost rank: seq<nat>)
    returns (inside: bool, misled: bool)
    requires WellFormed(p, rank) && root_offsets.Length >= |p| - 1 && IsRoot(p, offnum)
    requires Mapped(p, rank, root_offsets[..], offnum) &&
      Watched(p, beyond, Finished(p, rank, offnum), wasInside, INVALID_OFFSET)
    modifies root_offsets
    ensures !misled ==> Mapped(p, rank, root_offsets[..], offnum + 1)
    ensures !misled ==> Watched(p, beyond, Finished(p, rank, offnum + 1), inside, INVALID_OFFSET)
    ensures misled ==> WalkMisled(p, rank, beyond) && !WalksInside(p, rank) && !inside
    ensures forall i :: |p| - 1 <= i < root_offsets.Length ==> root_offsets[i] == old(root_offsets[i])
  {
    var lp := p[offnum];
    inside, misled := wasInside && PointsInside(p, offnum), false;
    StartMapping(p, rank, root_offsets[..], offnum);
    StartWatching(p, rank, beyond, offnum, wasInside);
    if lp.Normal? {
      MapOne(p, rank, root_offsets[..], offnum, offnum, INVALID_XID);
      root_offsets[offnum - 1] := offnum;
      if !lp.tup.hotUpdated {
        return;
      }
      inside, misled := MapChain(p, beyond, root_offsets, offnum, lp.tup.ctidOffset, lp.tup.updateXid, inside, rank);
    } else {
      inside, misled := MapChain(p, beyond, root_offsets, offnum, lp.target, INVALID_XID, inside, rank);
    }
  }

  /** An item that is no root leaves everything as it is. */
  lemma SkipItem(p: Items, rank: seq<nat>, beyond: Beyond, m: seq<OffsetNumber>, k: int, inside: bool)
    requires Ranked(p, rank) && |m| >= |p| - 1 && InRange(p, k) && !IsRoot(p, k)
    requires Mapped(p, rank, m, k) && Watched(p, beyond, Finished(p, rank, k), inside, INVALID_OFFSET)
    ensures Mapped(p, rank, m, k + 1) && Watched(p, beyond, Finished(p, rank, k + 1), inside, INVALID_OFFSET)
  {
    FinishedSkip(p, rank, k);
    MappedSkip(p, rank, m, k);
  }

  lemma MappedSkip(p: Items, rank: seq<nat>, m: seq<OffsetNumber>, cur: int)
    requires Ranked(p, rank) && |m| >= |p| - 1 && !IsRoot(p, cur) && Mapped(p, rank, m, cur)
    ensures Mapped(p, rank, m, cur + 1)
  {
  }

  /** The outer loop's body. */
  method MapItem(p: Items, beyond: Beyond, root_offsets: array<OffsetNumber>, offnum: OffsetNumber, wasInside: bool,
                 ghost rank: seq<nat>)
    returns (inside: bool, misled: bool)
    requires WellFormed(p, rank) && root_offsets.Length >= |p| - 1 && InRange(p, offnum)
    requires Mapped(p, rank, root_offsets[..], offnum) &&
      Watched(p, beyond, Finished(p, rank, offnum), wasInside, INVALID_OFFSET)
    modifies root_offsets
    ensures !misled ==> Mapped(p, rank, root_offsets[..], offnum + 1)
    ensures !misled ==> Watched(p, beyond, Finished(p, rank, offnum + 1), inside, INVALID_OFFSET)
    ensures misled ==> WalkMisled(p, rank, beyond) && !WalksInside(p, rank) && !inside
    ensures forall i :: |p| - 1 <= i < root_offsets.Length ==> root_offsets[i] == old(root_offsets[i])
  {
    var lp := p[offnum];
    if lp.Unused? || lp.Dead? || (lp.Normal? && lp.tup.heapOnly) {
      SkipItem(p, rank, beyond, root_offsets[..], offnum, wasInside);
      inside, misled := wasInside, false;
    } else {
      inside, misled := MapRoot(p, beyond, root_offsets, offnum, wasInside, rank);
    }
  }

  method ClearOffsets(root_offsets: array<OffsetNumber>)
    modifies root_offsets
    ensures forall i :: 0 <= i < root_offsets.Length ==> root_offsets[i] == INVALID_OFFSET
  {
    for i := 0 to root_offsets.Length
      invariant forall j :: 0 <= j < i ==> root_offsets[j] == INVALID_OFFSET
    {
      root_offsets[i] := INVALID_OFFSET;
    }
  }

  lemma NothingMapped(p: Items, rank: seq<nat>, beyond: Beyond, m: seq<OffsetNumber>)
    requires WellFormed(p, rank) && |m| >= |p| - 1 && forall i :: 0 <= i < |m| ==> m[i] == INVALID_OFFSET
    ensures Mapped(p, rank, m, 1) && Watched(p, beyond, Finished(p, rank, 1), true, INVALID_OFFSET)
  {
  }

  /** pg_tde_get_root_tuples.  `inside` tells whether the walk has read the line pointer array only, and
      `misled` whether it took something outside for a chain member; the model stops there. */
  method GetRootTuples(p: Items, beyond: Beyond, root_offsets: array<OffsetNumber>, ghost rank: seq<nat>)
    returns (inside: bool, misled: bool)
    requires WellFormed(p, rank)
    requires root_offsets.Length == MAX_TUPLES_PER_PAGE && |p| <= MAX_TUPLES_PER_PAGE + 1
    modifies root_offsets
    ensures inside <==> WalksInside(p, rank)
    ensures misled <==> WalkMisled(p, rank, beyond)
    ensures !misled ==> Mapped(p, rank, root_offsets[..], |p|)
    ensures forall i :: |p| - 1 <= i < root_offsets.Length ==> root_offsets[i] == INVALID_OFFSET
  {
    ClearOffsets(root_offsets);
    NothingMapped(p, rank, beyond, root_offsets[..]);
    inside, misled := true, false;
    for offnum := 1 to |p|
      invariant Mapped(p, rank, root_offsets[..], offnum) && !misled
      invariant Watched(p, beyond, Finished(p, rank, offnum), inside, INVALID_OFFSET)
      invariant forall i :: |p| - 1 <= i < root_offsets.Length ==> root_offsets[i] == INVALID_OFFSET
    {
      inside, misled := MapItem(p, beyond, root_offsets, offnum, inside, rank);
      if misled {
        return;
      }
    }
    AllSeen(p, rank, beyond, inside);
  }

  /** A page whose links stay inside misleads nobody, and neither does free space that reads as unused. */
  lemma MisledOnlyOutside(p: Items, rank: seq<nat>, beyond: Beyond)
    requires Ranked(p, rank)
    ensures WalksInside(p, rank) ==> !WalkMisled(p, rank, beyond)
    ensures (forall o :: !InRange(p, o) ==> !beyond(o).Normal?) ==> !WalkMisled(p, rank, beyond)
  {
  }

  /** MAIN: the map names root `j` for tuple `k` exactly when a search that starts at `j` and
      accepts `k` alone ends at `k`. */
  lemma RootMapAgreesWithSearch(p: Items, rank: seq<nat>, m: seq<OffsetNumber>, j: int, k: int, sees: Snapshot)
    requires WellFormed(p, rank) && |m| >= |p| - 1 && Mapped(p, rank, m, |p|)
    requires IsNormal(p, k) && forall x :: IsNormal(p, x) ==> (sees(p[x].tup) <==> x == k)
    requires j != INVALID_OFFSET
    ensures Entry(m, k) == j <==> HotSearch(p, rank, j, sees) == k
  {
    if IsRoot(p, j) {
      SearchFindsFirst(p, rank, j, sees);
    }
  }

  /** A tuple without an entry is one no search can return, whatever its snapshot. */
  lemma UnmappedAreUnreachable(p: Items, rank: seq<nat>, m: seq<OffsetNumber>, k: int)
    requires WellFormed(p, rank) && |m| >= |p| - 1 && Mapped(p, rank, m, |p|) && IsNormal(p, k)
    ensures Entry(m, k) == INVALID_OFFSET ==> forall j, sees :: HotSearch(p, rank, j, sees) != k
    ensures !p[k].tup.heapOnly ==> Entry(m, k) == k
  {
    if Entry(m, k) == INVALID_OFFSET {
      forall j, sees ensures HotSearch(p, rank, j, sees) != k {
        if IsRoot(p, j) {
          SearchFindsFirst(p, rank, j, sees);
        }
      }
    }
    if !p[k].tup.heapOnly {
      assert OnChain(p, rank, k, k);
    }
  }

  /** Pruning itself leaves such pages: a tuple whose update was rolled back still points to the dead tuple of
      that update, which is reclaimed, and with it the end of the array.  If the free space behind then reads
      like the successor, the walk is misled.  The tuple still counts as HOT-updated then only if its xmax is a
      multixact with a locker that is running: after the rollback of a plain XID, judging the tuple marks its
      xmax as invalid. */
  lemma TruncationLeavesStaleLinks(t: HeapTuple, u: HeapTuple)
    returns (p: Items, rank: seq<nat>, htsv: seq<HTSV>, view: Items)
    requires !t.heapOnly && t.hotUpdated && t.ctidOffset == 2 && t.updateXid == u.xmin && u.heapOnly && !u.hotUpdated
    ensures p == [Unused, Normal(t), Normal(u)] && view == [Unused, Normal(t), Unused]
    ensures WellFormed(p, rank) && htsv == [NotComputed, Live, DeadTuple] && Judged(p, htsv)
    ensures PruneSafety.Finished(p, rank, htsv, Plan([], [], [2]), [false, false, true], view)
    ensures var q := Prune.WithoutTrailingUnused(view);
      Ranked(q, rank[..|q|]) && !WalksInside(q, rank[..|q|]) && WalkMisled(q, rank[..|q|], o => Normal(u))
  {
    p, view := [Unused, Normal(t), Normal(u)], [Unused, Normal(t), Unused];
    rank, htsv := [0, 1, 0], [NotComputed, Live, DeadTuple];
    PlannedExample(p, rank, htsv, view);
    var q: Items := Prune.WithoutTrailingUnused(view);
    assert view[..2][..2] == [Unused, Normal(t)];
    assert q == [Unused, Normal(t)];
    assert forall a, b :: !Link(q, a, b);
    assert Before(q, rank[..|q|], |q|, 1, 1);
    assert !PointsInside(q, 1) && Stale(q, o => Normal(u), 1);
  }

  lemma PlannedExample(p: Items, rank: seq<nat>, htsv: seq<HTSV>, view: Items)
    requires |p| == 3 && p[1].Normal? && p[2].Normal? && p[0] == Unused && view == p[2 := Unused]
    requires !p[1].tup.heapOnly && p[1].tup.hotUpdated && p[1].tup.ctidOffset == 2 &&
      p[1].tup.updateXid == p[2].tup.xmin
    requires p[2].tup.heapOnly && !p[2].tup.hotUpdated
    requires rank == [0, 1, 0] && htsv == [NotComputed, Live, DeadTuple]
    ensures WellFormed(p, rank) && Judged(p, htsv)
    ensures PruneSafety.Finished(p, rank, htsv, Plan([], [], [2]), [false, false, true], view)
  {
    assert forall a, b :: Link(p, a, b) <==> a == 1 && b == 2;
    var plan, marks := Plan([], [], [2]), [false, false, true];
    assert Listed(plan, 2);
    assert Consistent(p, plan, marks, view);
  }
}
