/** What a finished pruning pass guarantees: index scans see the same tuples, redirects lead
    to live storage, no dead tuple keeps its storage, and no index-visible line pointer is
    recycled. */
module PruneSafety {
  import opened Base
  import opened HotChain
  import opened PrunePlan

  /** The invariant with every offset processed. */
  ghost predicate Finished(p: Items, rank: seq<nat>, htsv: seq<HTSV>, plan: Plan, marks: seq<bool>, view: Items)
    requires WellFormed(p, rank) && Judged(p, htsv)
  {
    Planned(p, rank, htsv, plan, marks, view, |p|)
  }

  // --------------------------------------------------------------- searches in the old page

  /** What a search finds from `k` on, whether `k` is a redirect or a tuple. */
  ghost function Find(p: Items, rank: seq<nat>, k: int, sees: Snapshot): int
    requires Ranked(p, rank) && InRange(p, k)
  {
    if p[k].Normal? then SearchFrom(p, rank, k, sees) else SearchAfter(p, rank, k, sees)
  }

  lemma {:induction false} FindSkips(p: Items, rank: seq<nat>, htsv: seq<HTSV>, sees: Snapshot, k: int, t: int)
    requires WellFormed(p, rank) && Judged(p, htsv) && Admissible(p, rank, htsv, sees)
    requires InRange(p, k) && IsNormal(p, t) && SkipsTo(p, rank, htsv, k, t)
    ensures Find(p, rank, k, sees) == SearchFrom(p, rank, t, sees)
    ensures k != t ==> rank[t] < rank[k]
    decreases rank[k]
  {
    if k != t {
      assert Link(p, k, Next(p, k));
      assert p[k].Normal? ==> !sees(p[k].tup);
      assert Find(p, rank, k, sees) == SearchAfter(p, rank, k, sees) == SearchFrom(p, rank, Next(p, k), sees);
      FindSkips(p, rank, htsv, sees, Next(p, k), t);
    }
  }

  lemma {:induction false} FindDoomed(p: Items, rank: seq<nat>, htsv: seq<HTSV>, sees: Snapshot, k: int)
    requires WellFormed(p, rank) && Judged(p, htsv) && Admissible(p, rank, htsv, sees)
    requires InRange(p, k) && AllDoomed(p, rank, htsv, k)
    ensures Find(p, rank, k, sees) == INVALID_OFFSET
    decreases rank[k]
  {
    assert p[k].Normal? ==> !sees(p[k].tup);
    assert Find(p, rank, k, sees) == SearchAfter(p, rank, k, sees);
    if Next(p, k) != INVALID_OFFSET {
      assert Link(p, k, Next(p, k));
      assert SearchAfter(p, rank, k, sees) == SearchFrom(p, rank, Next(p, k), sees);
      FindDoomed(p, rank, htsv, sees, Next(p, k));
    }
  }

  // --------------------------------------------------------------- the shape of the pruned page

  /** Whatever still has storage is unchanged. */
  lemma StorageUntouched(p: Items, rank: seq<nat>, htsv: seq<HTSV>, plan: Plan, marks: seq<bool>, view: Items)
    requires WellFormed(p, rank) && Judged(p, htsv) && Finished(p, rank, htsv, plan, marks, view)
    ensures forall k :: IsNormal(view, k) ==> view[k] == p[k]
  {
  }

  lemma {:induction false} SkipFalls(p: Items, rank: seq<nat>, htsv: seq<HTSV>, k: int, t: int)
    requires WellFormed(p, rank) && Judged(p, htsv) && InRange(p, k) && SkipsTo(p, rank, htsv, k, t) && k != t
    ensures InRange(p, t) && rank[t] < rank[k]
    decreases rank[k]
  {
    assert Link(p, k, Next(p, k));
    if Next(p, k) != t {
      SkipFalls(p, rank, htsv, Next(p, k), t);
    }
  }

  lemma {:induction false} SkipLastStep(p: Items, rank: seq<nat>, htsv: seq<HTSV>, k: int, t: int) returns (y: int)
    requires WellFormed(p, rank) && Judged(p, htsv) && InRange(p, k) && SkipsTo(p, rank, htsv, k, t) && k != t
    ensures InRange(p, y) && SkipsTo(p, rank, htsv, k, y) && Link(p, y, t)
    decreases rank[k]
  {
    assert Link(p, k, Next(p, k));
    if Next(p, k) == t {
      y := k;
    } else {
      y := SkipLastStep(p, rank, htsv, Next(p, k), t);
    }
  }

  /** Chains do not merge, so only one root skips to any tuple. */
  lemma {:induction false} OneRootPerTuple(p: Items, rank: seq<nat>, htsv: seq<HTSV>, r: int, r': int, t: int)
    requires WellFormed(p, rank) && Judged(p, htsv) && IsRoot(p, r) && IsRoot(p, r') && InRange(p, t)
    requires SkipsTo(p, rank, htsv, r, t) && SkipsTo(p, rank, htsv, r', t)
    ensures r == r'
    decreases rank[r] as int - rank[t] as int
  {
    if r != t && r' != t {
      var y := SkipLastStep(p, rank, htsv, r, t);
      var y' := SkipLastStep(p, rank, htsv, r', t);
      if y != r {
        SkipFalls(p, rank, htsv, r, y);
      }
      OneRootPerTuple(p, rank, htsv, r, r', y);
    } else if r != t {
      var y := SkipLastStep(p, rank, htsv, r, t);
    } else if r' != t {
      var y := SkipLastStep(p, rank, htsv, r', t);
    }
  }

  lemma PrunedLinks(p: Items, rank: seq<nat>, htsv: seq<HTSV>, plan: Plan, marks: seq<bool>, view: Items, a: int,
                    b: int)
    requires WellFormed(p, rank) && Judged(p, htsv) && Finished(p, rank, htsv, plan, marks, view)
    requires Link(view, a, b)
    ensures view[b] == p[b]
    ensures if view[a] == p[a] then Link(p, a, b)
            else IsRoot(p, a) && view[a] == Redirect(b) && SkipsTo(p, rank, htsv, a, b) && marks[b]
    ensures rank[b] < rank[a] && p[b].tup.heapOnly
  {
    StorageUntouched(p, rank, htsv, plan, marks, view);
    if view[a] != p[a] {
      assert Justified(p, rank, htsv, view, a);
      RedirectTargetsMarked(p, plan, marks, view, a);
      SkipFalls(p, rank, htsv, a, b);
      assert Survives(p, htsv, view, a, b);
    } else {
      assert Link(p, a, b);
    }
  }

  /** Pruning leaves a well-formed page, so it can be pruned again. */
  lemma PrunedIsWellFormed(p: Items, rank: seq<nat>, htsv: seq<HTSV>, plan: Plan, marks: seq<bool>, view: Items)
    requires WellFormed(p, rank) && Judged(p, htsv) && Finished(p, rank, htsv, plan, marks, view)
    ensures WellFormed(view, rank)
  {
    forall a, b | Link(view, a, b) ensures rank[b] < rank[a] && view[b].tup.heapOnly {
      PrunedLinks(p, rank, htsv, plan, marks, view, a, b);
    }
    forall a, a', b | Link(view, a, b) && Link(view, a', b) ensures a == a' {
      PrunedLinks(p, rank, htsv, plan, marks, view, a, b);
      PrunedLinks(p, rank, htsv, plan, marks, view, a', b);
      if view[a] != p[a] && view[a'] != p[a'] {
        OneRootPerTuple(p, rank, htsv, a, a', b);
      }
    }
  }

  /** Searching the pruned page from a tuple that is still there gives what it gave before. */
  lemma {:induction false} SurvivorsSearchAlike(p: Items, rank: seq<nat>, htsv: seq<HTSV>, plan: Plan, marks: seq<bool>,
                                                view: Items, sees: Snapshot, k: int)
    requires WellFormed(p, rank) && Judged(p, htsv) && Finished(p, rank, htsv, plan, marks, view)
    requires WellFormed(view, rank) && Admissible(p, rank, htsv, sees)
    requires InRange(p, k) && view[k] == p[k]
    ensures SearchAfter(view, rank, k, sees) == SearchAfter(p, rank, k, sees)
    ensures p[k].Normal? ==> SearchFrom(view, rank, k, sees) == SearchFrom(p, rank, k, sees)
    decreases rank[k]
  {
    var u := Next(p, k);
    if u == INVALID_OFFSET {
      assert Next(view, k) == INVALID_OFFSET by {
        if x :| Link(view, k, x) {
          PrunedLinks(p, rank, htsv, plan, marks, view, k, x);
        }
      }
    } else {
      assert Link(p, k, u);
      if view[u] == p[u] {
        assert Link(view, k, u);
        assert Next(view, k) == u;
        SurvivorsSearchAlike(p, rank, htsv, plan, marks, view, sees, u);
      } else {
        assert Reaped(p, htsv, view, u);
        assert Next(p, u) == INVALID_OFFSET by {
          assert forall x :: !Link(p, u, x);
        }
        assert AllDoomed(p, rank, htsv, u);
        FindDoomed(p, rank, htsv, sees, u);
        assert Next(view, k) == INVALID_OFFSET by {
          if x :| Link(view, k, x) {
            PrunedLinks(p, rank, htsv, plan, marks, view, k, x);
          }
        }
      }
    }
  }

  /** MAIN: every index scan finds the same tuple version before and after pruning, for
      every TID and every snapshot the horizon respects. */
  lemma PruningPreservesSearch(p: Items, rank: seq<nat>, htsv: seq<HTSV>, plan: Plan, marks: seq<bool>, view: Items,
                               sees: Snapshot, tid: int)
    requires WellFormed(p, rank) && Judged(p, htsv) && Finished(p, rank, htsv, plan, marks, view)
    requires Admissible(p, rank, htsv, sees)
    ensures WellFormed(view, rank)
    ensures HotSearch(view, rank, tid, sees) == HotSearch(p, rank, tid, sees)
    ensures var k := HotSearch(p, rank, tid, sees); k != INVALID_OFFSET ==> view[k] == p[k]
  {
    PrunedIsWellFormed(p, rank, htsv, plan, marks, view);
    if InRange(p, tid) {
      if view[tid] == p[tid] {
        SurvivorsSearchAlike(p, rank, htsv, plan, marks, view, sees, tid);
      } else {
        assert Justified(p, rank, htsv, view, tid);
        match view[tid] {
          case Unused =>
          case Dead =>
            FindDoomed(p, rank, htsv, sees, tid);
          case Redirect(t) =>
            FindSkips(p, rank, htsv, sees, tid, t);
            assert Link(view, tid, t);
            assert Next(view, tid) == t;
            SurvivorsSearchAlike(p, rank, htsv, plan, marks, view, sees, t);
        }
      }
      var k := HotSearch(view, rank, tid, sees);
      StorageUntouched(p, rank, htsv, plan, marks, view);
    }
  }

  /** A scan that resumes from the tuple it returned last finds the same next tuple. */
  lemma PruningPreservesResumedSearch(p: Items, rank: seq<nat>, htsv: seq<HTSV>, plan: Plan, marks: seq<bool>,
                                      view: Items, sees: Snapshot, tid: int)
    requires WellFormed(p, rank) && Judged(p, htsv) && Finished(p, rank, htsv, plan, marks, view)
    requires Admissible(p, rank, htsv, sees) && IsNormal(p, tid) && sees(p[tid].tup)
    requires exists root :: HotSearch(p, rank, root, sees) == tid
    ensures WellFormed(view, rank) && IsNormal(view, tid)
    ensures SearchAfter(view, rank, tid, sees) == SearchAfter(p, rank, tid, sees)
  {
    var root :| HotSearch(p, rank, root, sees) == tid;
    PruningPreservesSearch(p, rank, htsv, plan, marks, view, sees, root);
    SurvivorsSearchAlike(p, rank, htsv, plan, marks, view, sees, tid);
  }

  /** After pruning every redirect names a heap-only tuple that has storage and is not dead
      (page_verify_redirects). */
  lemma RedirectsLeadToTuples(p: Items, rank: seq<nat>, htsv: seq<HTSV>, plan: Plan, marks: seq<bool>, view: Items,
                              r: int)
    requires WellFormed(p, rank) && Judged(p, htsv) && Finished(p, rank, htsv, plan, marks, view)
    requires InRange(view, r) && view[r].Redirect?
    ensures IsNormal(view, view[r].target) && view[view[r].target].tup.heapOnly && htsv[view[r].target] != DeadTuple
  {
  }

  /** Every dead heap-only tuple that was HOT-updated hangs off some root by dead and
      recently dead tuples only. */
  ghost predicate DeadAreReachable(p: Items, rank: seq<nat>, htsv: seq<HTSV>)
    requires WellFormed(p, rank) && Judged(p, htsv)
  {
    forall d :: IsNormal(p, d) && htsv[d] == DeadTuple && p[d].tup.heapOnly && p[d].tup.hotUpdated ==>
      exists r :: IsRoot(p, r) && InRun(p, rank, htsv, r, d)
  }

  /** After pruning no dead tuple keeps its storage if and only if the dead HOT-updated
      heap-only tuples were reachable from a root. */
  lemma NoDeadTupleKeepsStorage(p: Items, rank: seq<nat>, htsv: seq<HTSV>, plan: Plan, marks: seq<bool>, view: Items)
    requires WellFormed(p, rank) && Judged(p, htsv) && Finished(p, rank, htsv, plan, marks, view)
    ensures DeadAreReachable(p, rank, htsv) <==> forall d :: IsNormal(view, d) ==> htsv[d] != DeadTuple
  {
    forall d | IsNormal(p, d) && htsv[d] == DeadTuple
      ensures IsNormal(view, d) <==>
        p[d].tup.heapOnly && p[d].tup.hotUpdated && !exists r :: IsRoot(p, r) && InRun(p, rank, htsv, r, d)
    {
      assert view[d] != p[d] ==> Justified(p, rank, htsv, view, d);
      assert !p[d].tup.heapOnly ==> InRun(p, rank, htsv, d, d);
    }
    StorageUntouched(p, rank, htsv, plan, marks, view);
  }

  /** Pruning frees only heap-only tuples; whatever an index entry can name keeps a line
      pointer, and dead line pointers stay dead. */
  lemma IndexableItemsKeepLinePointers(p: Items, rank: seq<nat>, htsv: seq<HTSV>, plan: Plan, marks: seq<bool>,
                                       view: Items, k: int)
    requires WellFormed(p, rank) && Judged(p, htsv) && Finished(p, rank, htsv, plan, marks, view)
    requires InRange(p, k)
    ensures view[k].Unused? ==> p[k].Unused? || (p[k].Normal? && p[k].tup.heapOnly)
    ensures IsRoot(p, k) ==> IsRoot(view, k) || view[k].Dead?
    ensures p[k].Dead? ==> view[k].Dead?
    ensures view[k].Normal? ==> view[k] == p[k]
  {
  }

  /** That is not so on every well-formed page: a dead, HOT-updated heap-only tuple to which nothing leads. */
  lemma DeadMayBeUnreachable(t: HeapTuple) returns (p: Items, rank: seq<nat>, htsv: seq<HTSV>)
    requires t.heapOnly && t.hotUpdated && t.ctidOffset == INVALID_OFFSET
    ensures p == [Unused, Normal(t)] && WellFormed(p, rank) && htsv == [NotComputed, DeadTuple] && Judged(p, htsv)
    ensures !DeadAreReachable(p, rank, htsv)
  {
    p, rank, htsv := [Unused, Normal(t)], [0, 0], [NotComputed, DeadTuple];
    assert forall a, b :: !Link(p, a, b);
    assert IsNormal(p, 1) && forall r :: !IsRoot(p, r);
  }
}
