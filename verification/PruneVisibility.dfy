/** Why index scans may be pruned under: snapshots that vacuum's horizon respects see no tuple that pruning
    takes for dead, not even a recently dead one that a dead one follows. */
module PruneVisibility {
  import opened Base
  import opened HotChain
  import opened PrunePlan
  import opened PruneSafety
  import Prune
  import Headers = TupleHeader
  import Visibility

  /** How the header of a tuple is read. */
  type Decode = HeapTuple -> Headers.Header

  /** heap_prune_satisfies_vacuum, for a tuple whose fate is known. */
  function VerdictOf(f: Visibility.Status): HTSV {
    match f
    case Dead => DeadTuple
    case RecentlyDead(_) => RecentlyDead
    case InsertInProgress => InsertInProgress
    case DeleteInProgress => DeleteInProgress
    case Live => Live
  }

  /** The fields that HOT chains are made of are those of the headers. */
  ghost predicate Agree(p: Items, hdr: Decode, store: Headers.MultiStore) {
    forall k :: IsNormal(p, k) ==> TupleAgrees(p[k].tup, hdr(p[k].tup), store)
  }

  predicate TupleAgrees(t: HeapTuple, h: Headers.Header, store: Headers.MultiStore) {
    t.xmin == h.Xmin() && (h.Updater(store).Some? ==> t.updateXid == h.Updater(store).value)
  }

  ghost predicate Verdicts(p: Items, htsv: seq<HTSV>, hdr: Decode, oldestXmin: nat, w: Headers.World,
                           store: Headers.MultiStore)
    requires Judged(p, htsv)
  {
    forall k :: IsNormal(p, k) ==>
      Headers.WellFormed(hdr(p[k].tup), w, store) &&
        htsv[k] == VerdictOf(Visibility.FateAt(hdr(p[k].tup), oldestXmin, w, store))
  }

  /** A snapshot that sees a transaction's update of a tuple sees the tuple's insertion too: the one had to be
      committed before the other could be made, unless one transaction did both. */
  ghost predicate SeesCauses(p: Items, hdr: Decode, s: Visibility.Snapshot, w: Headers.World,
                             store: Headers.MultiStore) {
    forall k :: IsNormal(p, k) ==> TupleSeesCause(hdr(p[k].tup), s, w, store)
  }

  ghost predicate TupleSeesCause(h: Headers.Header, s: Visibility.Snapshot, w: Headers.World,
                                 store: Headers.MultiStore) {
    !h.Frozen() && h.Updater(store).Some? && Over(h.Updater(store).value, s, w) &&
    w.state(h.xmin) == Headers.Committed ==>
      Over(h.xmin, s, w)
  }

  /** The transaction has committed, and the snapshot knows. */
  ghost predicate Over(x: nat, s: Visibility.Snapshot, w: Headers.World) {
    w.state(x) == Headers.Committed && !s.Running(x)
  }

  /** The tuples that an MVCC snapshot sees. */
  ghost function Sees(hdr: Decode, s: Visibility.Snapshot, w: Headers.World,
                      store: Headers.MultiStore): HeapTuple -> bool {
    t => Visibility.Visible(hdr(t), s, w, store)
  }

  /** The deletion of a doomed tuple whose insertion has committed is over for every such snapshot. */
  lemma {:induction false} DoomedIsOver(p: Items, rank: seq<nat>, htsv: seq<HTSV>, hdr: Decode, oldestXmin: nat,
                                        w: Headers.World, store: Headers.MultiStore, s: Visibility.Snapshot,
                                        w': Headers.World, k: int)
    requires Ranked(p, rank) && Judged(p, htsv) && Agree(p, hdr, store) && w.Valid() && Headers.Later(w, w')
    requires FROZEN_XID < oldestXmin && Verdicts(p, htsv, hdr, oldestXmin, w, store) && s.Admissible(oldestXmin)
    requires SeesCauses(p, hdr, s, w', store) && IsNormal(p, k) && Doomed(p, rank, htsv, k)
    ensures var h := hdr(p[k].tup);
      (!h.Frozen() && w.state(h.xmin) == Headers.Aborted) ||
      ((h.Frozen() || w.state(h.xmin) == Headers.Committed) && h.Updater(store).Some? &&
       Over(h.Updater(store).value, s, w'))
    decreases rank[k]
  {
    var h := hdr(p[k].tup);
    if htsv[k] == RecentlyDead {
      var u := Next(p, k);
      assert Link(p, k, u);
      DoomedIsOver(p, rank, htsv, hdr, oldestXmin, w, store, s, w', u);
      var x := h.Updater(store).value;
      assert p[u].tup.xmin == x;
    }
  }

  /** MAIN: vacuum's horizon makes every MVCC snapshot, now and later, one that pruning respects. */
  lemma HorizonIsAdmissible(p: Items, rank: seq<nat>, htsv: seq<HTSV>, hdr: Decode, oldestXmin: nat, w: Headers.World,
                            store: Headers.MultiStore, s: Visibility.Snapshot, w': Headers.World)
    requires Ranked(p, rank) && Judged(p, htsv) && Agree(p, hdr, store) && w.Valid() && Headers.Later(w, w')
    requires FROZEN_XID < oldestXmin && Verdicts(p, htsv, hdr, oldestXmin, w, store) && s.Admissible(oldestXmin)
    requires SeesCauses(p, hdr, s, w', store)
    ensures Admissible(p, rank, htsv, Sees(hdr, s, w', store))
  {
    forall k | IsNormal(p, k) && Doomed(p, rank, htsv, k) ensures !Sees(hdr, s, w', store)(p[k].tup) {
      DoomedIsOver(p, rank, htsv, hdr, oldestXmin, w, store, s, w', k);
    }
  }

  /** MAIN: so an index scan under such a snapshot finds on the pruned page the very tuple it found before. */
  lemma PruningIsInvisible(p: Items, rank: seq<nat>, htsv: seq<HTSV>, q: Items, hdr: Decode, oldestXmin: nat,
                           w: Headers.World, store: Headers.MultiStore, s: Visibility.Snapshot, w': Headers.World,
                           tid: int)
    requires WellFormed(p, rank) && Judged(p, htsv) && Prune.ScansAlike(p, rank, htsv, q)
    requires Agree(p, hdr, store) && w.Valid() && Headers.Later(w, w')
    requires FROZEN_XID < oldestXmin && Verdicts(p, htsv, hdr, oldestXmin, w, store) && s.Admissible(oldestXmin)
    requires SeesCauses(p, hdr, s, w', store)
    ensures Prune.SameTuple(p, rank, q, Sees(hdr, s, w', store), tid)
  {
    HorizonIsAdmissible(p, rank, htsv, hdr, oldestXmin, w, store, s, w');
  }
}
