/** The second phase of CREATE INDEX CONCURRENTLY: merge the visible tuples of the heap, under the TIDs of
    their chains' roots, with the sorted TIDs of the index, and insert what is missing. Heap tuples
    come in TID order but their roots need not, so the merge looks back within a page. */
module IndexValidate {
  import opened Base
  import opened HotChain
  import opened PrunePlan
  import opened RootMap

  predicate Sorted(index: seq<Tid>) {
    forall i, j :: 0 <= i < j < |index| ==> !index[j].Before(index[i])
  }

  /** A tuple that the reference snapshot sees; `wanted` if it satisfies the index predicate. */
  datatype Visit = Visit(tid: Tid, wanted: bool)

  ghost predicate SoundPage(p: Items, rank: seq<nat>) {
    WellFormed(p, rank) && |p| <= MAX_TUPLES_PER_PAGE + 1
  }

  /** Tuples come in TID order. */
  ghost predicate SoundVisits(pages: seq<Items>, visits: seq<Visit>) {
    && (forall i :: 0 <= i < |visits| ==>
        visits[i].tid.block < |pages| && IsNormal(pages[visits[i].tid.block], visits[i].tid.off))
    && (forall i, j :: 0 <= i < j < |visits| ==> visits[i].tid.Before(visits[j].tid))
  }

  predicate SoundIndex(index: seq<Tid>) {
    Sorted(index) && forall i :: 0 <= i < |index| ==> 1 <= index[i].off <= MAX_TUPLES_PER_PAGE
  }

  /** The TID under which a tuple is indexed. */
  ghost predicate IsRootTid(p: Items, rank: seq<nat>, tid: Tid, root: Tid)
    requires Ranked(p, rank)
  {
    root.block == tid.block && IsRoot(p, root.off) && OnChain(p, rank, root.off, tid.off)
  }

  /** The TIDs of the roots, in the order of the tuples. */
  ghost predicate AreRoots(pages: seq<Items>, ranks: seq<seq<nat>>, visits: seq<Visit>, roots: seq<Tid>) {
    && |roots| == |visits|
    && forall i :: 0 <= i < |visits| ==> var b := visits[i].tid.block;
        b < |pages| && b < |ranks| && Ranked(pages[b], ranks[b]) &&
          IsRootTid(pages[b], ranks[b], visits[i].tid, roots[i])
  }

  /** The roots to insert: those of wanted tuples that the index lacks, in the order of the tuples. */
  function Missing(visits: seq<Visit>, roots: seq<Tid>, index: seq<Tid>): seq<Tid>
    requires |roots| == |visits|
  {
    if visits == [] then []
    else
      var n := |visits| - 1;
      Missing(visits[..n], roots[..n], index) + if visits[n].wanted && roots[n] !in index then [roots[n]] else []
  }

  /** One of the first `n` index TIDs is (b, o). */
  predicate Among(index: seq<Tid>, n: nat, b: int, o: int)
    requires n <= |index|
  {
    exists i :: 0 <= i < n && index[i].block == b && index[i].off == o
  }

  /** The marks tell which offsets of block `b` the first `n` index TIDs name. */
  ghost predicate Marks(marks: seq<bool>, index: seq<Tid>, n: nat, b: int)
    requires n <= |index|
  {
    |marks| == MAX_TUPLES_PER_PAGE &&
    forall o :: 1 <= o <= MAX_TUPLES_PER_PAGE ==> (marks[o-1] <==> Among(index, n, b, o))
  }

  lemma MarkNext(marks: seq<bool>, index: seq<Tid>, n: nat, b: int)
    requires n < |index| && Marks(marks, index, n, b) && 1 <= index[n].off <= MAX_TUPLES_PER_PAGE
    ensures Marks(if index[n].block == b then marks[index[n].off - 1 := true] else marks, index, n + 1, b)
  {
    var m := n + 1;
    forall o ensures Among(index, m, b, o) <==> Among(index, n, b, o) || (index[n].block == b && index[n].off == o) {
      if Among(index, n, b, o) {
        var i :| 0 <= i < n && index[i].block == b && index[i].off == o;
        assert 0 <= i < m;
      }
    }
  }

  /** The state of the merge. */
  class Merge {
    const index: seq<Tid>
    const inIndex: array<bool>
    var fetched: nat
    var empty: bool
    var rootBlkno: int

    constructor (index: seq<Tid>)
      requires SoundIndex(index)
      ensures this.index == index && Valid(-1) && fresh(inIndex) && rootBlkno == -1
    {
      this.index := index;
      inIndex := new bool[MAX_TUPLES_PER_PAGE](i => false);
      fetched, empty, rootBlkno := 0, false, -1;
    }

    /** How many index TIDs have been passed over; the cursor is on the next one. */
    function Passed(): nat
      reads this
    {
      if empty || fetched == 0 then fetched else fetched - 1
    }

    /** What has been passed over lies no further than block `b`, and what of it lies on the current
        heap page is remembered. */
    ghost predicate Valid(b: int)
      reads this, inIndex
    {
      && SoundIndex(index) && inIndex.Length == MAX_TUPLES_PER_PAGE && fetched <= |index| &&
           (empty ==> fetched == |index|)
      && (forall i :: 0 <= i < Passed() ==> index[i].block <= b)
      && Marks(inIndex[..], index, Passed(), rootBlkno)
    }

    /** A new heap page: forget what was remembered of the previous one. */
    method NewPage(b: nat)
      requires Valid(rootBlkno) && rootBlkno < b
      modifies this, inIndex
      ensures Valid(b) && rootBlkno == b
    {
      for i := 0 to inIndex.Length
        invariant forall j :: 0 <= j < i ==> !inIndex[j]
        invariant unchanged(this)
      {
        inIndex[i] := false;
      }
      rootBlkno := b;
    }

    /** Skip through the index until the cursor is at or past `root`. */
    method Advance(root: Tid)
      requires Valid(rootBlkno) && rootBlkno == root.block
      modifies `fetched, `empty, inIndex
      ensures Valid(rootBlkno)
      ensures empty || (fetched > 0 && !index[fetched-1].Before(root))
    {
      while !empty && (fetched == 0 || index[fetched-1].Before(root))
        invariant Valid(rootBlkno)
        decreases |index| - fetched + if empty then 0 else 1
      {
        if fetched > 0 {
          MarkNext(inIndex[..], index, fetched - 1, rootBlkno);
          if index[fetched-1].block == rootBlkno {
            inIndex[index[fetched-1].off - 1] := true;
          }
        }
        if fetched == |index| {
          empty := true;
        } else {
          fetched := fetched + 1;
        }
      }
    }

    /** The test for a missing root. */
    method IsMissing(root: Tid) returns (r: bool)
      requires Valid(rootBlkno) && rootBlkno == root.block && 1 <= root.off <= MAX_TUPLES_PER_PAGE
      requires empty || (fetched > 0 && !index[fetched-1].Before(root))
      ensures r <==> root !in index
    {
      r := (empty || root.Before(index[fetched-1])) && !inIndex[root.off - 1];
      if root in index {
        var i :| 0 <= i < |index| && index[i] == root;
        assert i < Passed() ==> Among(index, Passed(), rootBlkno, root.off);
      }
      if inIndex[root.off - 1] {
        assert Among(index, Passed(), rootBlkno, root.off);
      }
    }
  }

  /** One visible tuple: find its root, and see whether the index lacks it.  `beyond` is what lies
      behind the page's line pointer array. */
  method MergeOne(merge: Merge, rootOffsets: array<OffsetNumber>, p: Items, beyond: Beyond, ghost rank: seq<nat>,
                  tid: Tid)
    returns (root: Tid, missing: bool, misled: bool)
    requires SoundPage(p, rank) && IsNormal(p, tid.off) && rootOffsets.Length == MAX_TUPLES_PER_PAGE
    requires merge.Valid(merge.rootBlkno) && merge.rootBlkno <= tid.block
    requires merge.rootBlkno == tid.block ==> Mapped(p, rank, rootOffsets[..], |p|)
    requires rootOffsets as object != merge.inIndex as object
    modifies merge, merge.inIndex, rootOffsets
    ensures misled ==> WalkMisled(p, rank, beyond)
    ensures !misled ==>
      merge.Valid(merge.rootBlkno) && merge.rootBlkno == tid.block && Mapped(p, rank, rootOffsets[..], |p|)
    ensures !misled ==>
      if root.off == INVALID_OFFSET then forall r :: !IsRootTid(p, rank, tid, r)
      else IsRootTid(p, rank, tid, root) && (missing <==> root !in merge.index)
  {
    root, missing, misled := tid, false, false;
    if merge.rootBlkno != tid.block {
      var inside;
      inside, misled := GetRootTuples(p, beyond, rootOffsets, rank);
      if misled {
        return;
      }
      merge.NewPage(tid.block);
    }
    root := RootOf(rootOffsets, p, rank, tid);
    if root.off != INVALID_OFFSET {
      merge.Advance(root);
      missing := merge.IsMissing(root);
    }
  }

  method RootOf(rootOffsets: array<OffsetNumber>, p: Items, ghost rank: seq<nat>, tid: Tid) returns (root: Tid)
    requires SoundPage(p, rank) && IsNormal(p, tid.off) && rootOffsets.Length == MAX_TUPLES_PER_PAGE
    requires Mapped(p, rank, rootOffsets[..], |p|)
    ensures root.block == tid.block && (root.off != INVALID_OFFSET ==> 1 <= root.off <= MAX_TUPLES_PER_PAGE)
    ensures if root.off == INVALID_OFFSET then forall r :: !IsRootTid(p, rank, tid, r)
      else IsRootTid(p, rank, tid, root)
  {
    root := tid;
    if p[tid.off].tup.heapOnly {
      root := Tid(tid.block, rootOffsets[tid.off - 1]);
      assert Entry(rootOffsets[..], tid.off) == root.off;
    } else {
      assert OnChain(p, rank, tid.off, tid.off);
    }
  }

  lemma MissingOneMore(visits: seq<Visit>, roots: seq<Tid>, index: seq<Tid>, v: Visit, root: Tid)
    requires |roots| == |visits|
    ensures Missing(visits + [v], roots + [root], index) ==
      Missing(visits, roots, index) + if v.wanted && root !in index then [root] else []
  {
  }

  /** How far the scan has got. */
  ghost predicate ScannedTo(pages: seq<Items>, ranks: seq<seq<nat>>, visits: seq<Visit>, index: seq<Tid>, n: nat,
                            roots: seq<Tid>, inserted: seq<Tid>) {
    n <= |visits| && AreRoots(pages, ranks, visits[..n], roots) && inserted == Missing(visits[..n], roots, index)
  }

  lemma ScanOneMore(pages: seq<Items>, ranks: seq<seq<nat>>, visits: seq<Visit>, index: seq<Tid>, n: nat,
                    roots: seq<Tid>, inserted: seq<Tid>, root: Tid)
    requires ScannedTo(pages, ranks, visits, index, n, roots, inserted) && n < |visits|
    requires var b := visits[n].tid.block;
      b < |pages| && b < |ranks| && Ranked(pages[b], ranks[b]) && IsRootTid(pages[b], ranks[b], visits[n].tid, root)
    ensures ScannedTo(pages, ranks, visits, index, n + 1, roots + [root],
                      inserted + if visits[n].wanted && root !in index then [root] else [])
  {
    assert visits[..n+1] == visits[..n] + [visits[n]];
    MissingOneMore(visits[..n], roots, index, visits[n], root);
  }

  /** The map and the cursor are those of the page of the last visit. */
  ghost predicate AtPage(merge: Merge, rootOffsets: seq<OffsetNumber>, pages: seq<Items>, ranks: seq<seq<nat>>,
                         visits: seq<Visit>, n: nat)
    requires n <= |visits|
    reads merge, merge.inIndex
  {
    && merge.Valid(merge.rootBlkno)
    && if n == 0 then merge.rootBlkno == -1 else
         var b := visits[n-1].tid.block;
         && merge.rootBlkno == b < |pages| == |ranks| && SoundPage(pages[b], ranks[b]) &&
              |rootOffsets| == MAX_TUPLES_PER_PAGE
         && Mapped(pages[b], ranks[b], rootOffsets, |pages[b]|)
  }

  /** Visit `n` has `root`, which the index lacks if `missing`. */
  ghost predicate Found(pages: seq<Items>, ranks: seq<seq<nat>>, visits: seq<Visit>, index: seq<Tid>, n: nat, root: Tid,
                        missing: bool)
    requires n < |visits|
  {
    var b := visits[n].tid.block;
    && b < |pages| && b < |ranks| && Ranked(pages[b], ranks[b]) && IsRootTid(pages[b], ranks[b], visits[n].tid, root)
    && (missing <==> root !in index)
  }

  ghost predicate PageMisleads(pages: seq<Items>, ranks: seq<seq<nat>>, beyond: seq<Beyond>, b: nat) {
    b < |pages| && b < |ranks| && b < |beyond| && Ranked(pages[b], ranks[b]) &&
      WalkMisled(pages[b], ranks[b], beyond[b])
  }

  /** One iteration, up to the insertion. */
  method VisitOne(merge: Merge, rootOffsets: array<OffsetNumber>, pages: seq<Items>, beyond: seq<Beyond>,
                  ghost ranks: seq<seq<nat>>, visits: seq<Visit>, n: nat)
    returns (root: Tid, missing: bool, misled: bool)
    requires |pages| == |ranks| == |beyond| && (forall b :: 0 <= b < |pages| ==> SoundPage(pages[b], ranks[b]))
    requires SoundVisits(pages, visits) && n < |visits| && rootOffsets.Length == MAX_TUPLES_PER_PAGE
    requires AtPage(merge, rootOffsets[..], pages, ranks, visits, n) && rootOffsets as object != merge.inIndex as object
    modifies merge, merge.inIndex, rootOffsets
    ensures misled ==> PageMisleads(pages, ranks, beyond, visits[n].tid.block)
    ensures !misled ==> AtPage(merge, rootOffsets[..], pages, ranks, visits, n + 1)
    ensures !misled && root.off == INVALID_OFFSET ==> RootLess(pages, ranks, visits[n].tid)
    ensures !misled && root.off != INVALID_OFFSET ==> Found(pages, ranks, visits, merge.index, n, root, missing)
  {
    var tid := visits[n].tid;
    assert n > 0 ==> visits[n-1].tid.Before(tid);
    root, missing, misled := MergeOne(merge, rootOffsets, pages[tid.block], beyond[tid.block], ranks[tid.block], tid);
  }

  /** The merge loop of pg_tdeam_index_validate_scan. */
  method ValidateScan(pages: seq<Items>, beyond: seq<Beyond>, ghost ranks: seq<seq<nat>>, visits: seq<Visit>,
                      index: seq<Tid>)
    returns (noParent: bool, misled: bool, inserted: seq<Tid>, ghost roots: seq<Tid>)
    requires |pages| == |ranks| == |beyond| && (forall b :: 0 <= b < |pages| ==> SoundPage(pages[b], ranks[b]))
    requires SoundVisits(pages, visits) && SoundIndex(index)
    ensures !noParent && !misled ==> AreRoots(pages, ranks, visits, roots) && inserted == Missing(visits, roots, index)
    ensures noParent ==> exists i :: 0 <= i < |visits| && RootLess(pages, ranks, visits[i].tid)
    ensures misled ==> exists b :: PageMisleads(pages, ranks, beyond, b)
  {
    var merge := new Merge(index);
    var rootOffsets := new OffsetNumber[MAX_TUPLES_PER_PAGE];
    noParent, misled, inserted, roots := false, false, [], [];
    for n := 0 to |visits|
      invariant merge.index == index && fresh(merge.inIndex) && fresh(merge) && !noParent && !misled
      invariant AtPage(merge, rootOffsets[..], pages, ranks, visits, n)
      invariant ScannedTo(pages, ranks, visits, index, n, roots, inserted)
    {
      var root, missing;
      root, missing, misled := VisitOne(merge, rootOffsets, pages, beyond, ranks, visits, n);
      noParent := !misled && root.off == INVALID_OFFSET;
      if misled || noParent {
        return;
      }
      ScanOneMore(pages, ranks, visits, index, n, roots, inserted, root);
      if missing && visits[n].wanted {
        inserted := inserted + [root];
      }
      roots := roots + [root];
    }
    assert visits[..|visits|] == visits;
  }

  /** No chain of the page leads to the tuple. */
  ghost predicate RootLess(pages: seq<Items>, ranks: seq<seq<nat>>, tid: Tid) {
    && tid.block < |pages| && tid.block < |ranks| && Ranked(pages[tid.block], ranks[tid.block])
    && forall r :: !IsRootTid(pages[tid.block], ranks[tid.block], tid, r)
  }

  /** What is inserted is exactly what the index lacks of the wanted tuples' roots. */
  lemma {:induction false} MissingIff(visits: seq<Visit>, roots: seq<Tid>, index: seq<Tid>, t: Tid)
    requires |roots| == |visits|
    ensures t in Missing(visits, roots, index) <==>
      t !in index && exists i :: 0 <= i < |visits| && visits[i].wanted && roots[i] == t
  {
    if visits != [] {
      var n := |visits| - 1;
      MissingIff(visits[..n], roots[..n], index, t);
      if exists i :: 0 <= i < n && visits[..n][i].wanted && roots[..n][i] == t {
        var i :| 0 <= i < n && visits[..n][i].wanted && roots[..n][i] == t;
        assert visits[i].wanted && roots[i] == t;
      }
      if exists i :: 0 <= i < |visits| && visits[i].wanted && roots[i] == t {
        var i :| 0 <= i < |visits| && visits[i].wanted && roots[i] == t;
        assert i < n ==> visits[..n][i].wanted && roots[..n][i] == t;
      }
    }
  }

  /** If no two visible tuples are of one chain, then no root is inserted twice. */
  lemma {:induction false} InsertedOnce(visits: seq<Visit>, roots: seq<Tid>, index: seq<Tid>)
    requires |roots| == |visits| && forall i, j :: 0 <= i < j < |roots| ==> roots[i] != roots[j]
    ensures forall i, j :: 0 <= i < j < |Missing(visits, roots, index)| ==>
      Missing(visits, roots, index)[i] != Missing(visits, roots, index)[j]
  {
    if visits != [] {
      var n := |visits| - 1;
      InsertedOnce(visits[..n], roots[..n], index);
      MissingIff(visits[..n], roots[..n], index, roots[n]);
    }
  }
}
