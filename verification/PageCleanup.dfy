/** Pruning and defragmentation together: what an index scan finds on the cleaned page, and what it reads there. */
module PageCleanup {
  import opened Base
  import opened HotChain
  import opened PrunePlan
  import Prune
  import opened Crypt
  import opened Compactify
  import opened CompactSafety
  import opened RepairPage

  /** The line pointers of a page image are those of a page: offset k is at index k-1, and only tuples have a
      length. */
  ghost predicate Pictures(view: Items, states: seq<LpState>, lens: seq<nat>) {
    && |view| - 1 <= |states| == |lens|
    && forall k :: InRange(view, k) ==>
        match view[k]
        case Unused => states[k-1] == LpUnused
        case Dead => states[k-1] == LpDead && lens[k-1] == 0
        case Redirect(_) => states[k-1] == LpRedirect && lens[k-1] == 0
        case Normal(_) => states[k-1] == LpNormal && lens[k-1] > 0
  }

  lemma {:induction false} IsCollected(states: seq<LpState>, offs: seq<nat>, lens: seq<nat>, n: nat, i: nat)
    returns (j: nat)
    requires i < n <= |states| && |states| == |offs| == |lens| && states[i] != LpUnused && lens[i] > 0
    ensures var all := Collected(states, offs, lens, n);
      j < |all| && all[j].offsetindex == i && all[j].itemoff == offs[i] && all[j].len == lens[i]
  {
    if i == n - 1 {
      j := |Collected(states, offs, lens, n)| - 1;
    } else {
      j := IsCollected(states, offs, lens, n - 1, i);
    }
  }

  /** What cleaning leaves alone: the states of the line pointers, and the lengths of tuples and headers. */
  datatype Lengths = Lengths(states: seq<LpState>, lens: seq<nat>, hoffs: seq<nat>)
  {
    ghost predicate Valid() {
      |states| == |lens| == |hoffs|
    }

    /** The header lengths of items, in their order. */
    function ItemHoffs(items: seq<ItemIdCompact>): (r: seq<nat>)
      requires forall j :: 0 <= j < |items| ==> items[j].offsetindex < |hoffs|
      ensures |r| == |items|
    {
      seq(|items|, j requires 0 <= j < |items| => hoffs[items[j].offsetindex])
    }
  }

  /** The bytes of a page, and where its line pointers lead. */
  datatype Image = Image(bytes: Bytes, offs: seq<nat>)
  {
    ghost predicate Holds(ls: Lengths, i: nat)
      requires ls.Valid()
    {
      i < |offs| == |ls.lens| && ls.hoffs[i] <= ls.lens[i] && offs[i] + ls.lens[i] <= |bytes|
    }

    /** The row that a line pointer leads to, as it is read. */
    function RowAt(e: Cipher, bn: nat, ls: Lengths, i: nat): Bytes
      requires IsBlockCipher(e) && ls.Valid() && Holds(ls, i)
    {
      OnPage(e, bn, offs[i], Slot(bytes, offs[i], ls.lens[i]), ls.hoffs[i])
    }
  }

  /** The first `n` line pointers lead to the items of the layout, which compaction has moved without losing a
      row. */
  ghost predicate MovedIntact(e: Cipher, bn: nat, lay: Layout, ls: Lengths, n: nat, was: Image, now: Image)
    requires IsBlockCipher(e)
  {
    && ls.Valid() && n <= |ls.states| == |was.offs| && lay.items == Collected(ls.states, was.offs, ls.lens, n)
    && Compacted(e, bn, lay, was.bytes, now.bytes, was.offs, now.offs)
    && Intact(lay.items, lay.special, lay.path, ls.ItemHoffs(lay.items))
  }

  /** A line pointer with a tuple leads to the same row before and after compaction. */
  lemma SameRow(e: Cipher, bn: nat, lay: Layout, ls: Lengths, n: nat, was: Image, now: Image, i: nat)
    requires IsBlockCipher(e) && MovedIntact(e, bn, lay, ls, n, was, now)
    requires i < n && ls.states[i] != LpUnused && 0 < ls.lens[i] && ls.hoffs[i] <= ls.lens[i]
    ensures was.Holds(ls, i) && now.Holds(ls, i) && now.RowAt(e, bn, ls, i) == was.RowAt(e, bn, ls, i)
  {
    var j := IsCollected(ls.states, was.offs, ls.lens, n, i);
    assert ls.ItemHoffs(lay.items)[j] == ls.hoffs[i];
    assert RowIntact(lay.items, lay.special, lay.path, ls.ItemHoffs(lay.items)[j], j);
    IntactIsKept(e, bn, lay, ls.hoffs[i], was.bytes, j);
    RowIsThere(JobFor(e, bn, lay), was.bytes, now.bytes, j);
  }

  /** So does a tuple of the pruned page. */
  lemma SameRowOf(q: Items, e: Cipher, bn: nat, lay: Layout, ls: Lengths, n: nat, was: Image, now: Image, k: int)
    requires IsNormal(q, k) && |q| - 1 <= n && ls.Valid() && Pictures(q, ls.states, ls.lens)
    requires forall i :: 0 <= i < |q| - 1 && ls.lens[i] > 0 ==> ls.hoffs[i] <= ls.lens[i]
    requires IsBlockCipher(e) && MovedIntact(e, bn, lay, ls, n, was, now)
    ensures 1 <= k && was.Holds(ls, k - 1) && now.Holds(ls, k - 1)
    ensures now.RowAt(e, bn, ls, k - 1) == was.RowAt(e, bn, ls, k - 1)
  {
    SameRow(e, bn, lay, ls, n, was, now, k - 1);
  }

  /** What an index scan finds is a tuple of the page. */
  lemma FoundIsTuple(p: Items, rank: seq<nat>, htsv: seq<HTSV>, q: Items, sees: Snapshot, tid: int)
    requires WellFormed(p, rank) && Judged(p, htsv) && Prune.ScansAlike(p, rank, htsv, q)
    requires Admissible(p, rank, htsv, sees)
    ensures Prune.SameTuple(p, rank, q, sees, tid)
    ensures var k := HotSearch(p, rank, tid, sees);
      k != INVALID_OFFSET ==> IsNormal(q, k)
  {
    assert Prune.SameTuple(p, rank, q, sees, tid);
  }

  /** MAIN: on a page whose layout is intact, pruning and defragmentation together change nothing for an index
      scan: it finds the same tuple, and the line pointer leads to the same row.  `q` is the page as
      `PagePrune` leaves it, with at most the `n` line pointers that it had when its tuples were moved. */
  lemma CleanupIsInvisible(p: Items, rank: seq<nat>, htsv: seq<HTSV>, q: Items, e: Cipher, bn: nat, lay: Layout,
                           ls: Lengths, n: nat, was: Image, now: Image, sees: Snapshot, tid: int)
    requires WellFormed(p, rank) && Judged(p, htsv) && Prune.ScansAlike(p, rank, htsv, q)
    requires Admissible(p, rank, htsv, sees) && |q| - 1 <= n && ls.Valid() && Pictures(q, ls.states, ls.lens)
    requires forall i :: 0 <= i < |q| - 1 && ls.lens[i] > 0 ==> ls.hoffs[i] <= ls.lens[i]
    requires IsBlockCipher(e) && MovedIntact(e, bn, lay, ls, n, was, now)
    ensures Prune.SameTuple(p, rank, q, sees, tid)
    ensures var k := HotSearch(p, rank, tid, sees);
      k != INVALID_OFFSET ==>
        && 1 <= k && was.Holds(ls, k - 1) && now.Holds(ls, k - 1)
        && now.RowAt(e, bn, ls, k - 1) == was.RowAt(e, bn, ls, k - 1)
  {
    FoundIsTuple(p, rank, htsv, q, sees, tid);
    var k := HotSearch(p, rank, tid, sees);
    if k != INVALID_OFFSET {
      SameRowOf(q, e, bn, lay, ls, n, was, now, k);
    }
  }
}
