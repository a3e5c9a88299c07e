/** Heap pages as arrays of line pointers, the HOT chains threaded through them, and
    the index-scan search that follows one chain.

    Offset numbers start at 1, as in the source; entry 0 of every line pointer array is a
    placeholder that nothing reads. */
module HotChain {
  import opened Base

  type Xid = nat

  type OffsetNumber = int

  const INVALID_OFFSET: OffsetNumber := 0

  /** The header fields HOT chains are made of.  `updateXid` is the updating transaction
      (0 when there is none), `ctidOffset` the offset half of t_ctid. */
  datatype HeapTuple = HeapTuple(
    xmin: Xid,
    updateXid: Xid,
    heapOnly: bool,
    hotUpdated: bool,
    ctidOffset: OffsetNumber,
    data: seq<bv8>)

  datatype ItemId = Unused | Redirect(target: OffsetNumber) | Dead | Normal(tup: HeapTuple)

  type Items = p: seq<ItemId> | |p| > 0 witness [Unused]

  type Snapshot = HeapTuple -> bool

  predicate InRange(p: Items, k: int) {
    1 <= k < |p|
  }

  predicate IsNormal(p: Items, k: int) {
    InRange(p, k) && p[k].Normal?
  }

  /** Only these line pointers may be named by index entries. */
  predicate IsRoot(p: Items, k: int) {
    InRange(p, k) && (p[k].Redirect? || (p[k].Normal? && !p[k].tup.heapOnly))
  }

  /** `b` is the next chain member after `a`: a redirect names any normal item, a
      HOT-updated tuple names a normal item whose xmin is its own update xid. */
  predicate Link(p: Items, a: int, b: int) {
    && InRange(p, a)
    && IsNormal(p, b)
    && match p[a]
       case Redirect(t) => t == b
       case Normal(t) =>
         t.hotUpdated && t.ctidOffset == b && (t.updateXid != INVALID_XID ==> p[b].tup.xmin == t.updateXid)
       case _ => false
  }

  /** The next chain member, or INVALID_OFFSET at the end of the chain. */
  function Next(p: Items, a: int): (b: int)
    ensures b != INVALID_OFFSET <==> exists u :: Link(p, a, u)
    ensures forall u :: Link(p, a, u) <==> u == b && b != INVALID_OFFSET
  {
    if !InRange(p, a) then INVALID_OFFSET
    else match p[a]
      case Redirect(t) => assert IsNormal(p, t) ==> Link(p, a, t); if IsNormal(p, t) then t else INVALID_OFFSET
      case Normal(t) => if Link(p, a, t.ctidOffset) then t.ctidOffset else INVALID_OFFSET
      case _ => INVALID_OFFSET
  }

  /** A ranking that falls along every link, so that chains are acyclic. */
  ghost predicate Ranked(p: Items, rank: seq<nat>) {
    |rank| == |p| && forall a, b :: Link(p, a, b) ==> rank[b] < rank[a]
  }

  /** A page whose chains are acyclic, lead only to heap-only tuples and never merge. */
  ghost predicate WellFormed(p: Items, rank: seq<nat>) {
    && Ranked(p, rank)
    && (forall a, b :: Link(p, a, b) ==> p[b].tup.heapOnly)
    && (forall a, a', b :: Link(p, a, b) && Link(p, a', b) ==> a == a')
  }

  // --------------------------------------------------------------- the search, as a function

  /** The first tuple from `k` on along the chain that the snapshot sees, or INVALID_OFFSET. */
  ghost function SearchFrom(p: Items, rank: seq<nat>, k: int, sees: Snapshot): (r: int)
    requires Ranked(p, rank) && IsNormal(p, k)
    ensures r != INVALID_OFFSET ==> IsNormal(p, r) && sees(p[r].tup)
    decreases rank[k]
  {
    if sees(p[k].tup) then k else SearchAfter(p, rank, k, sees)
  }

  /** The same, looking only at the members after `k`. */
  ghost function SearchAfter(p: Items, rank: seq<nat>, k: int, sees: Snapshot): (r: int)
    requires Ranked(p, rank) && InRange(p, k)
    ensures r != INVALID_OFFSET ==> IsNormal(p, r) && sees(p[r].tup)
    decreases rank[k], 0
  {
    if Next(p, k) == INVALID_OFFSET then INVALID_OFFSET
    else assert Link(p, k, Next(p, k)); SearchFrom(p, rank, Next(p, k), sees)
  }

  /** What an index scan that holds the TID `k` finds. */
  ghost function HotSearch(p: Items, rank: seq<nat>, k: int, sees: Snapshot): (r: int)
    requires Ranked(p, rank)
  {
    if !IsRoot(p, k) then INVALID_OFFSET
    else if p[k].Redirect? then SearchAfter(p, rank, k, sees)
    else SearchFrom(p, rank, k, sees)
  }

  /** `m` is one of the tuples that a search starting at `k` can reach. */
  ghost predicate OnChain(p: Items, rank: seq<nat>, k: int, m: int): (r: bool)
    requires Ranked(p, rank)
    ensures r ==> IsNormal(p, m)
    decreases if InRange(p, k) then rank[k] else 0
  {
    if !InRange(p, k) then false
    else if p[k].Normal? && k == m then true
    else if Next(p, k) == INVALID_OFFSET then false
    else assert Link(p, k, Next(p, k)); OnChain(p, rank, Next(p, k), m)
  }

  /** The search is exactly "the first visible member of the chain": it finds something iff
      some member is visible, what it finds is a visible member, and every visible member
      comes at or after it. */
  lemma {:induction false} SearchFindsFirst(p: Items, rank: seq<nat>, k: int, sees: Snapshot)
    requires Ranked(p, rank) && InRange(p, k)
    ensures
      var r := if p[k].Normal? then SearchFrom(p, rank, k, sees) else SearchAfter(p, rank, k, sees);
      if r == INVALID_OFFSET then forall m :: OnChain(p, rank, k, m) ==> !sees(p[m].tup)
      else
        && OnChain(p, rank, k, r)
        && forall m :: OnChain(p, rank, k, m) && sees(p[m].tup) ==> OnChain(p, rank, r, m)
    decreases rank[k]
  {
    var n := Next(p, k);
    if n != INVALID_OFFSET {
      assert Link(p, k, n);
      SearchFindsFirst(p, rank, n, sees);
    }
  }

  /** The result does not depend on which ranking witnesses acyclicity. */
  lemma {:induction false} SearchIgnoresRank(p: Items, r1: seq<nat>, r2: seq<nat>, k: int, sees: Snapshot)
    requires Ranked(p, r1) && Ranked(p, r2) && InRange(p, k)
    ensures SearchAfter(p, r1, k, sees) == SearchAfter(p, r2, k, sees)
    ensures p[k].Normal? ==> SearchFrom(p, r1, k, sees) == SearchFrom(p, r2, k, sees)
    decreases r1[k]
  {
    if Next(p, k) != INVALID_OFFSET {
      assert Link(p, k, Next(p, k));
      SearchIgnoresRank(p, r1, r2, Next(p, k), sees);
    }
  }

  // --------------------------------------------------------------- the search, as it runs

  /** A walk that arrives at `off` after a tuple with update xid `prevXmax` stays on the chain. */
  predicate Continues(p: Items, off: int, prevXmax: Xid) {
    IsNormal(p, off) && (prevXmax != INVALID_XID ==> p[off].tup.xmin == prevXmax)
  }

  ghost function Rest(p: Items, rank: seq<nat>, off: int, prevXmax: Xid, sees: Snapshot): int
    requires Ranked(p, rank)
  {
    if Continues(p, off, prevXmax) then SearchFrom(p, rank, off, sees) else INVALID_OFFSET
  }

  /** pg_tde_hot_search_buffer: follow the chain from `tid` and stop at the first tuple the
      snapshot sees.  On a later call (`!firstCall`) `tid` is the tuple returned last time
      and is skipped.  `allDead` reports whether every member looked at is dead to all. */
  method HotSearchBuffer(p: Items, ghost rank: seq<nat>, tid: OffsetNumber, sees: Snapshot,
                         surelyDead: HeapTuple -> bool, firstCall: bool)
    returns (found: OffsetNumber, allDead: bool)
    requires Ranked(p, rank)
    ensures firstCall ==> found == HotSearch(p, rank, tid, sees)
    ensures !firstCall && IsNormal(p, tid) ==> found == SearchAfter(p, rank, tid, sees)
    ensures !firstCall && !IsNormal(p, tid) ==> found == INVALID_OFFSET
    ensures allDead <==>
      firstCall && found == INVALID_OFFSET &&
      (IsRoot(p, tid) ==> forall m :: OnChain(p, rank, tid, m) ==> surelyDead(p[m].tup))
  {
    allDead := firstCall;
    found := INVALID_OFFSET;
    var prevXmax := INVALID_XID;
    var off := tid;
    var atChainStart := firstCall;
    var skip := !firstCall;
    while true
      invariant atChainStart ==> off == tid && firstCall && prevXmax == INVALID_XID && !skip
      invariant skip ==> off == tid && !firstCall && prevXmax == INVALID_XID && !atChainStart
      invariant found == INVALID_OFFSET
      invariant allDead ==> firstCall
      invariant atChainStart ==> allDead
      invariant firstCall && !allDead ==>
        IsRoot(p, tid) && exists m :: OnChain(p, rank, tid, m) && !surelyDead(p[m].tup)
      invariant !atChainStart && firstCall && Continues(p, off, prevXmax) ==>
        forall m :: OnChain(p, rank, off, m) ==> OnChain(p, rank, tid, m)
      invariant !atChainStart && !skip && firstCall ==>
        IsRoot(p, tid) && HotSearch(p, rank, tid, sees) == Rest(p, rank, off, prevXmax, sees)
      invariant !atChainStart && !skip && !firstCall ==>
        IsNormal(p, tid) && SearchAfter(p, rank, tid, sees) == Rest(p, rank, off, prevXmax, sees)
      invariant !atChainStart && allDead ==> forall m :: OnChain(p, rank, tid, m) ==>
        surelyDead(p[m].tup) || (Continues(p, off, prevXmax) && OnChain(p, rank, off, m))
      decreases atChainStart || skip,
                if Continues(p, off, prevXmax) then rank[off] + 1 else 0
    {
      if off < 1 || off >= |p| {
        break;
      }
      if !p[off].Normal? {
        if p[off].Redirect? && atChainStart {
          off := p[off].target;
          atChainStart := false;
          continue;
        }
        break;
      }
      var tup := p[off].tup;
      if atChainStart && tup.heapOnly {
        break;
      }
      if prevXmax != INVALID_XID && prevXmax != tup.xmin {
        break;
      }
      if !skip {
        if sees(tup) {
          found := off;
          allDead := false;
          return;
        }
      }
      skip := false;
      if allDead && !surelyDead(tup) {
        assert OnChain(p, rank, off, off);
        allDead := false;
      }
      assert SearchAfter(p, rank, off, sees) ==
        if tup.hotUpdated then Rest(p, rank, tup.ctidOffset, tup.updateXid, sees) else INVALID_OFFSET by {
        assert Link(p, off, tup.ctidOffset) <==> tup.hotUpdated && Continues(p, tup.ctidOffset, tup.updateXid);
      }
      if tup.hotUpdated {
        assert Link(p, off, tup.ctidOffset) <==> Continues(p, tup.ctidOffset, tup.updateXid);
        off := tup.ctidOffset;
        atChainStart := false;
        prevXmax := tup.updateXid;
      } else {
        break;
      }
    }
  }
}
