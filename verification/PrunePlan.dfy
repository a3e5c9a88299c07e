/** What one pruning pass plans for a page, and why the plan is safe.

    A plan lists the line pointers to redirect, to mark dead and to mark unused; `view` is the
    page with the plan applied.  `Planned` is the invariant the pass keeps while it works
    through the page; the lemmas at the end read the promises of pruning off it. */
module PrunePlan {
  import opened Base
  import opened HotChain

  datatype HTSV = NotComputed | DeadTuple | RecentlyDead | DeleteInProgress | InsertInProgress | Live

  datatype Redirection = Redirection(from: OffsetNumber, to: OffsetNumber)

  datatype Plan = Plan(redirected: seq<Redirection>, nowdead: seq<OffsetNumber>, nowunused: seq<OffsetNumber>)

  /** The two verdicts a chain walk may advance past. */
  predicate Passable(h: HTSV) {
    h == DeadTuple || h == RecentlyDead
  }

  ghost predicate Judged(p: Items, htsv: seq<HTSV>) {
    |htsv| == |p| && forall k :: IsNormal(p, k) ==> htsv[k] != NotComputed
  }

  /** Dead, or recently dead with nothing but recently dead tuples up to a dead one: a
      recently dead tuple ahead of a dead one is really dead. */
  ghost predicate Doomed(p: Items, rank: seq<nat>, htsv: seq<HTSV>, k: int)
    requires Ranked(p, rank) && Judged(p, htsv) && IsNormal(p, k)
    decreases rank[k]
  {
    htsv[k] == DeadTuple ||
    (htsv[k] == RecentlyDead && Next(p, k) != INVALID_OFFSET &&
     (assert Link(p, k, Next(p, k)); Doomed(p, rank, htsv, Next(p, k))))
  }

  /** A snapshot that vacuum's horizon respects: it sees no doomed tuple. */
  ghost predicate Admissible(p: Items, rank: seq<nat>, htsv: seq<HTSV>, sees: Snapshot)
    requires Ranked(p, rank) && Judged(p, htsv)
  {
    forall k :: IsNormal(p, k) && Doomed(p, rank, htsv, k) ==> !sees(p[k].tup)
  }

  ghost predicate Invisible(p: Items, rank: seq<nat>, htsv: seq<HTSV>, k: int)
    requires Ranked(p, rank) && Judged(p, htsv) && InRange(p, k)
  {
    p[k].Redirect? || (p[k].Normal? && Doomed(p, rank, htsv, k))
  }

  /** Every tuple from `k` to the end of its chain is doomed. */
  ghost predicate AllDoomed(p: Items, rank: seq<nat>, htsv: seq<HTSV>, k: int)
    requires Ranked(p, rank) && Judged(p, htsv) && InRange(p, k)
    decreases rank[k]
  {
    && Invisible(p, rank, htsv, k)
    && (Next(p, k) != INVALID_OFFSET ==> (assert Link(p, k, Next(p, k)); AllDoomed(p, rank, htsv, Next(p, k))))
  }

  /** The chain from `k` reaches `t`, and every tuple before `t` is doomed. */
  ghost predicate SkipsTo(p: Items, rank: seq<nat>, htsv: seq<HTSV>, k: int, t: int)
    requires Ranked(p, rank) && Judged(p, htsv) && InRange(p, k)
    decreases rank[k]
  {
    k == t ||
    (Invisible(p, rank, htsv, k) && Next(p, k) != INVALID_OFFSET &&
     (assert Link(p, k, Next(p, k)); SkipsTo(p, rank, htsv, Next(p, k), t)))
  }

  /** `d` is reached from `k` by passing only dead and recently dead tuples. */
  ghost predicate InRun(p: Items, rank: seq<nat>, htsv: seq<HTSV>, k: int, d: int)
    requires Ranked(p, rank) && Judged(p, htsv) && InRange(p, k)
    decreases rank[k]
  {
    (k == d && p[k].Normal?) ||
    ((p[k].Redirect? || (p[k].Normal? && Passable(htsv[k]))) && Next(p, k) != INVALID_OFFSET &&
     (assert Link(p, k, Next(p, k)); InRun(p, rank, htsv, Next(p, k), d)))
  }

  // --------------------------------------------------------------- plans

  predicate NoDup(s: seq<int>) {
    forall i, j :: 0 <= i < j < |s| ==> s[i] != s[j]
  }

  ghost predicate RedirectionsFit(p: Items, rs: seq<Redirection>, marks: seq<bool>, view: Items)
    requires |view| == |p| && |marks| >= |p|
  {
    && (forall i :: 0 <= i < |rs| ==>
          && IsRoot(p, rs[i].from) && IsNormal(p, rs[i].to) && p[rs[i].to].tup.heapOnly
          && p[rs[i].from] != Redirect(rs[i].to)
          && marks[rs[i].from] && marks[rs[i].to]
          && view[rs[i].from] == Redirect(rs[i].to) && view[rs[i].to] == p[rs[i].to])
    && (forall i, j :: 0 <= i < j < |rs| ==> rs[i].from != rs[j].from)
  }

  ghost predicate DeadFit(p: Items, ks: seq<OffsetNumber>, marks: seq<bool>, view: Items)
    requires |view| == |p| && |marks| >= |p|
  {
    NoDup(ks) && forall i :: 0 <= i < |ks| ==> IsRoot(p, ks[i]) && marks[ks[i]] && view[ks[i]] == Dead
  }

  ghost predicate UnusedFit(p: Items, ks: seq<OffsetNumber>, marks: seq<bool>, view: Items)
    requires |view| == |p| && |marks| >= |p|
  {
    && NoDup(ks)
    && forall i :: 0 <= i < |ks| ==>
         IsNormal(p, ks[i]) && p[ks[i]].tup.heapOnly && marks[ks[i]] && view[ks[i]] == Unused
  }

  /** The lists, the marks and the planned page agree, and every entry is one that
      pg_tde_page_prune_execute accepts. */
  ghost predicate Consistent(p: Items, plan: Plan, marks: seq<bool>, view: Items) {
    && |view| == |p| && |marks| >= |p| && view[0] == p[0]
    && RedirectionsFit(p, plan.redirected, marks, view)
    && DeadFit(p, plan.nowdead, marks, view)
    && UnusedFit(p, plan.nowunused, marks, view)
    && (forall k :: InRange(p, k) && view[k] != p[k] ==> marks[k] && Listed(plan, k))
  }

  predicate Listed(plan: Plan, k: int) {
    k in plan.nowdead || k in plan.nowunused ||
    exists i :: 0 <= i < |plan.redirected| && plan.redirected[i].from == k
  }

  /** The invariant of the pass over the page, with all offsets below `cur` processed. */
  ghost predicate Planned(p: Items, rank: seq<nat>, htsv: seq<HTSV>, plan: Plan, marks: seq<bool>, view: Items,
                          cur: int)
    requires WellFormed(p, rank) && Judged(p, htsv)
  {
    && Consistent(p, plan, marks, view)
    && (forall k :: InRange(p, k) && view[k] != p[k] ==> Justified(p, rank, htsv, view, k))
    && (forall a, u :: Link(p, a, u) && marks[u] && view[a] == p[a] ==> Reaped(p, htsv, view, u))
    && (forall r :: InRange(p, r) && r < cur && view[r].Redirect? ==> Survives(p, htsv, view, r, view[r].target))
    && (forall r, d :: IsRoot(p, r) && r < cur && InRange(p, d) && htsv[d] == DeadTuple && InRun(p, rank, htsv, r, d)
          ==> view[d] != p[d])
    && (forall d :: IsNormal(p, d) && d < cur && p[d].tup.heapOnly && !p[d].tup.hotUpdated && htsv[d] == DeadTuple
          ==> view[d] != p[d])
    && (forall r :: IsRoot(p, r) && cur <= r ==> !marks[r])
    && (forall k :: InRange(p, k) && marks[k] && htsv[k] == DeadTuple ==> view[k] != p[k])
  }

  /** A changed line pointer was changed for a reason index scans cannot notice. */
  ghost predicate Justified(p: Items, rank: seq<nat>, htsv: seq<HTSV>, view: Items, k: int)
    requires WellFormed(p, rank) && Judged(p, htsv) && InRange(p, k) && |view| == |p|
  {
    match view[k]
    case Unused =>
      && IsNormal(p, k) && p[k].tup.heapOnly
      && ((htsv[k] == DeadTuple && !p[k].tup.hotUpdated) || exists r :: IsRoot(p, r) && InRun(p, rank, htsv, r, k))
    case Dead => IsRoot(p, k) && AllDoomed(p, rank, htsv, k)
    case Redirect(t) => IsRoot(p, k) && t != k && IsNormal(p, t) && view[t] == p[t] && SkipsTo(p, rank, htsv, k, t)
    case Normal(_) => false
  }

  /** A dead heap-only tuple at the end of its chain that was marked unused on its own. */
  predicate Reaped(p: Items, htsv: seq<HTSV>, view: Items, u: int)
    requires IsNormal(p, u) && |htsv| == |p| && |view| == |p|
  {
    view[u] != p[u] && htsv[u] == DeadTuple && !p[u].tup.hotUpdated
  }

  predicate Survives(p: Items, htsv: seq<HTSV>, view: Items, r: int, t: int)
    requires |htsv| == |p| && |view| == |p|
  {
    IsNormal(p, t) && p[t].tup.heapOnly && view[t] == p[t] && htsv[t] != DeadTuple
  }

  // --------------------------------------------------------------- one chain

  /** `c` walks down the chain from `c[0]`. */
  ghost predicate IsWalk(p: Items, c: seq<int>) {
    && |c| > 0
    && (forall i :: 0 <= i < |c| ==> InRange(p, c[i]))
    && (forall i :: 0 < i < |c| ==> Link(p, c[i-1], c[i]))
  }

  ghost predicate Unmarked(p: Items, marks: seq<bool>, c: seq<int>)
    requires |marks| >= |p|
  {
    forall i :: 0 <= i < |c| ==> InRange(p, c[i]) && !marks[c[i]]
  }

  /** The first `n` members of `c` are ones a walk may advance past. */
  ghost predicate PassedBy(p: Items, htsv: seq<HTSV>, c: seq<int>, n: int)
    requires |htsv| == |p| && n <= |c|
  {
    forall i :: 0 <= i < n && IsNormal(p, c[i]) ==> Passable(htsv[c[i]])
  }

  /** `m` is the index of the last dead tuple on `c`, -1 for none. */
  ghost predicate LatestDead(p: Items, htsv: seq<HTSV>, c: seq<int>, m: int)
    requires |htsv| == |p|
  {
    && -1 <= m < |c|
    && (m >= 0 ==> IsNormal(p, c[m]) && htsv[c[m]] == DeadTuple)
    && (forall i :: m < i < |c| && IsNormal(p, c[i]) ==> htsv[c[i]] != DeadTuple)
  }

  /** The walk cannot go on past `l`. */
  ghost predicate Stops(p: Items, htsv: seq<HTSV>, marks: seq<bool>, l: int)
    requires |htsv| == |p| && |marks| >= |p|
  {
    (IsNormal(p, l) && !Passable(htsv[l])) || Next(p, l) == INVALID_OFFSET || marks[Next(p, l)]
  }

  /** The walk heap_prune_chain makes from the root `c[0]`: `c` is the chain as far as it was
      followed and `m` the index of the latest dead tuple on it. */
  ghost predicate PruneWalk(p: Items, htsv: seq<HTSV>, marks: seq<bool>, c: seq<int>, m: int)
    requires |htsv| == |p| && |marks| >= |p|
  {
    && IsWalk(p, c) && IsRoot(p, c[0])
    && Unmarked(p, marks, c)
    && PassedBy(p, htsv, c, |c| - 1)
    && LatestDead(p, htsv, c, m)
    && Stops(p, htsv, marks, c[|c|-1])
  }

  /** The plan after pruning the chain `c` with latest dead member `m`. */
  function PlanAfter(p: Items, plan: Plan, c: seq<int>, m: int): Plan
    requires 0 < |c| && -1 <= m < |c| && InRange(p, c[0])
  {
    if m >= 0 then
      var plan1 := plan.(nowunused := plan.nowunused + c[1..m+1]);
      if m + 1 >= |c| then plan1.(nowdead := plan1.nowdead + [c[0]])
      else plan1.(redirected := plan1.redirected + [Redirection(c[0], c[m+1])])
    else if |c| < 2 && p[c[0]].Redirect? then plan.(nowdead := plan.nowdead + [c[0]])
    else plan
  }

  /** `k` is a chain member that pruning `c` marks unused. */
  ghost predicate Unlinked(c: seq<int>, m: int, k: int)
    requires m < |c|
  {
    exists i :: 0 < i <= m && c[i] == k
  }

  ghost predicate MarkAfter(p: Items, c: seq<int>, m: int, k: int)
    requires 0 < |c| && -1 <= m < |c| && InRange(p, c[0])
  {
    if m >= 0 then k == c[0] || Unlinked(c, m, k) || (m + 1 < |c| && k == c[m+1])
    else |c| < 2 && p[c[0]].Redirect? && k == c[0]
  }

  ghost function ItemAfter(p: Items, view: Items, c: seq<int>, m: int, k: int): ItemId
    requires 0 < |c| && -1 <= m < |c| && InRange(p, c[0]) && InRange(view, k)
  {
    if m >= 0 then
      if k == c[0] then (if m + 1 < |c| then Redirect(c[m+1]) else Dead)
      else if Unlinked(c, m, k) then Unused
      else view[k]
    else if |c| < 2 && p[c[0]].Redirect? && k == c[0] then Dead
    else view[k]
  }

  /** Marks and view move on as pruning the chain `c` says. */
  ghost predicate ChainStep(p: Items, c: seq<int>, m: int, marks: seq<bool>, view: Items, marks': seq<bool>,
                            view': Items)
    requires 0 < |c| && -1 <= m < |c| && InRange(p, c[0])
  {
    && |marks| == |marks'| >= |p| == |view| == |view'| && view'[0] == view[0]
    && (forall k :: InRange(p, k) ==> (marks'[k] <==> marks[k] || MarkAfter(p, c, m, k)))
    && (forall k :: InRange(p, k) ==> view'[k] == ItemAfter(p, view, c, m, k))
  }

  lemma {:induction false} WalkFalls(p: Items, rank: seq<nat>, c: seq<int>, i: int, j: int)
    requires Ranked(p, rank) && IsWalk(p, c) && 0 <= i < j < |c|
    ensures InRange(p, c[i]) && InRange(p, c[j]) && rank[c[j]] < rank[c[i]]
    decreases j
  {
    assert Link(p, c[j-1], c[j]);
    if i < j - 1 {
      WalkFalls(p, rank, c, i, j - 1);
    }
  }

  lemma WalkFacts(p: Items, rank: seq<nat>, c: seq<int>)
    requires WellFormed(p, rank) && IsWalk(p, c)
    ensures forall i :: 0 <= i < |c| ==> InRange(p, c[i])
    ensures forall i :: 0 < i < |c| ==> IsNormal(p, c[i]) && p[c[i]].tup.heapOnly
    ensures NoDup(c)
  {
    forall i | 0 < i < |c| ensures IsNormal(p, c[i]) && p[c[i]].tup.heapOnly {
      assert Link(p, c[i-1], c[i]);
    }
    forall i, j | 0 <= i < j < |c| ensures c[i] != c[j] {
      WalkFalls(p, rank, c, i, j);
    }
  }

  lemma OnlyPredecessors(p: Items, rank: seq<nat>, c: seq<int>)
    requires WellFormed(p, rank) && IsWalk(p, c)
    ensures forall a, i :: 0 < i < |c| && Link(p, a, c[i]) ==> a == c[i-1]
  {
  }

  /** Everything on the walk up to the latest dead tuple is doomed, so the walk skips to any
      later member. */
  lemma {:induction false} WalkSkips(p: Items, rank: seq<nat>, htsv: seq<HTSV>, marks: seq<bool>, c: seq<int>, m: int,
                                     i: int)
    requires WellFormed(p, rank) && Judged(p, htsv) && |marks| >= |p| && PruneWalk(p, htsv, marks, c, m)
    requires 0 <= i <= m
    ensures InRange(p, c[i]) && Invisible(p, rank, htsv, c[i])
    ensures SkipsTo(p, rank, htsv, c[i], c[m])
    ensures m + 1 < |c| ==> SkipsTo(p, rank, htsv, c[i], c[m+1])
    decreases m - i
  {
    WalkFacts(p, rank, c);
    if i < m {
      WalkSkips(p, rank, htsv, marks, c, m, i + 1);
      assert Link(p, c[i], c[i+1]);
      assert Next(p, c[i]) == c[i+1];
      assert IsNormal(p, c[i+1]) && Doomed(p, rank, htsv, c[i+1]);
    } else if m + 1 < |c| {
      assert Link(p, c[m], c[m+1]);
      assert Next(p, c[m]) == c[m+1];
    }
  }

  lemma {:induction false} SkipsToDoomed(p: Items, rank: seq<nat>, htsv: seq<HTSV>, k: int, t: int)
    requires Ranked(p, rank) && Judged(p, htsv) && InRange(p, k) && InRange(p, t)
    requires SkipsTo(p, rank, htsv, k, t) && AllDoomed(p, rank, htsv, t)
    ensures AllDoomed(p, rank, htsv, k)
    decreases rank[k]
  {
    if k != t {
      assert Link(p, k, Next(p, k));
      SkipsToDoomed(p, rank, htsv, Next(p, k), t);
    }
  }

  lemma {:induction false} WalkInRun(p: Items, rank: seq<nat>, htsv: seq<HTSV>, marks: seq<bool>, c: seq<int>, m: int,
                                     i: int, j: int)
    requires WellFormed(p, rank) && Judged(p, htsv) && |marks| >= |p| && PruneWalk(p, htsv, marks, c, m)
    requires 0 <= i <= j < |c| && p[c[j]].Normal?
    ensures InRun(p, rank, htsv, c[i], c[j])
    decreases j - i
  {
    WalkFacts(p, rank, c);
    if i < j {
      assert Link(p, c[i], c[i+1]);
      assert Next(p, c[i]) == c[i+1];
      WalkInRun(p, rank, htsv, marks, c, m, i + 1, j);
    }
  }

  /** A run from `c[i]` either meets `d` on the walk or goes on past its end. */
  lemma {:induction false} RunOnWalk(p: Items, rank: seq<nat>, htsv: seq<HTSV>, c: seq<int>, i: int, d: int)
    requires WellFormed(p, rank) && Judged(p, htsv) && IsWalk(p, c) && 0 <= i < |c|
    requires InRange(p, c[i]) && InRun(p, rank, htsv, c[i], d)
    ensures
      || (exists j :: i <= j < |c| && c[j] == d && IsNormal(p, d))
      || (var l := c[|c|-1];
          InRange(p, l) && (p[l].Redirect? || (p[l].Normal? && Passable(htsv[l]))) && Next(p, l) != INVALID_OFFSET &&
          IsNormal(p, Next(p, l)) && InRun(p, rank, htsv, Next(p, l), d))
    decreases |c| - i
  {
    if !(c[i] == d && p[c[i]].Normal?) {
      assert Link(p, c[i], Next(p, c[i]));
      if i < |c| - 1 {
        assert Link(p, c[i], c[i+1]);
        RunOnWalk(p, rank, htsv, c, i + 1, d);
      }
    }
  }

  /** Every dead tuple in the run below the root lies on the walk up to `m`, or was reaped. */
  lemma DeadOnWalk(p: Items, rank: seq<nat>, htsv: seq<HTSV>, plan: Plan, marks: seq<bool>, view: Items, c: seq<int>,
                   m: int, d: int)
    requires WellFormed(p, rank) && Judged(p, htsv) && |marks| >= |p|
    requires PruneWalk(p, htsv, marks, c, m) && Planned(p, rank, htsv, plan, marks, view, c[0])
    requires InRange(p, d) && htsv[d] == DeadTuple && InRun(p, rank, htsv, c[0], d)
    ensures d == c[0] || Unlinked(c, m, d) || view[d] != p[d]
    ensures d == c[0] ==> m >= 0
  {
    RunOnWalk(p, rank, htsv, c, 0, d);
    WalkFacts(p, rank, c);
    if j :| 0 <= j < |c| && c[j] == d && IsNormal(p, d) {
      assert j <= m;
    } else {
      var l := c[|c|-1];
      var u := Next(p, l);
      assert Link(p, l, u);
      assert marks[u];
      assert view[l] == p[l];
      assert Reaped(p, htsv, view, u);
      assert Next(p, u) == INVALID_OFFSET by {
        assert forall x :: !Link(p, u, x);
      }
      assert u == d;
    }
  }

  /** When the walk ends at the latest dead tuple, or never leaves a redirect, nothing on the
      chain can be seen. */
  lemma WalkAllDoomed(p: Items, rank: seq<nat>, htsv: seq<HTSV>, plan: Plan, marks: seq<bool>, view: Items, c: seq<int>,
                      m: int)
    requires WellFormed(p, rank) && Judged(p, htsv) && |marks| >= |p|
    requires PruneWalk(p, htsv, marks, c, m) && Planned(p, rank, htsv, plan, marks, view, c[0])
    requires (m >= 0 && m + 1 == |c|) || (|c| == 1 && p[c[0]].Redirect?)
    ensures AllDoomed(p, rank, htsv, c[0])
  {
    WalkFacts(p, rank, c);
    var l := c[|c|-1];
    var u := Next(p, l);
    assert Invisible(p, rank, htsv, l);
    if u != INVALID_OFFSET {
      assert Link(p, l, u);
      assert marks[u];
      assert view[l] == p[l];
      assert Reaped(p, htsv, view, u);
      assert Next(p, u) == INVALID_OFFSET by {
        assert forall x :: !Link(p, u, x);
      }
      assert AllDoomed(p, rank, htsv, u);
    }
    assert AllDoomed(p, rank, htsv, l);
    if m >= 0 {
      WalkSkips(p, rank, htsv, marks, c, m, 0);
      SkipsToDoomed(p, rank, htsv, c[0], l);
    }
  }

  // --------------------------------------------------------------- one step keeps the invariant

  /** The situation in which a chain has been walked but its changes not yet been recorded. */
  ghost predicate Walked(p: Items, rank: seq<nat>, htsv: seq<HTSV>, plan: Plan, marks: seq<bool>, view: Items,
                         c: seq<int>, m: int)
    requires WellFormed(p, rank) && Judged(p, htsv)
  {
    |marks| >= |p| && PruneWalk(p, htsv, marks, c, m) && Planned(p, rank, htsv, plan, marks, view, c[0])
  }

  /** A chain step touches only unmarked items, never repeats an old entry, and changes
      exactly the members before its new head. */
  lemma StepTouches(p: Items, rank: seq<nat>, htsv: seq<HTSV>, plan: Plan, marks: seq<bool>, view: Items, c: seq<int>,
                    m: int, marks': seq<bool>, view': Items)
    requires WellFormed(p, rank) && Judged(p, htsv) && Walked(p, rank, htsv, plan, marks, view, c, m)
    requires ChainStep(p, c, m, marks, view, marks', view')
    ensures forall k :: InRange(p, k) && MarkAfter(p, c, m, k) ==> !marks[k] && view[k] == p[k]
    ensures forall k :: InRange(p, k) && view[k] != p[k] ==> view'[k] == view[k]
    ensures forall k :: InRange(p, k) && marks[k] ==> marks'[k] && view'[k] == view[k]
    ensures forall k :: InRange(p, k) && view'[k] != view[k] ==> MarkAfter(p, c, m, k)
    ensures m >= 0 ==> view'[c[0]] != p[c[0]] && forall i :: 0 < i <= m ==> view'[c[i]] == Unused
    ensures 0 <= m && m + 1 < |c| ==> view'[c[m+1]] == p[c[m+1]]
    ensures 0 <= m && m + 1 < |c| ==> p[c[0]] != Redirect(c[m+1])
  {
    WalkFacts(p, rank, c);
    if 0 <= m && m + 1 < |c| {
      if m > 0 {
        WalkFalls(p, rank, c, 1, m + 1);
        assert Link(p, c[0], c[1]);
      }
      assert !Unlinked(c, m, c[m+1]);
    }
    forall i | 0 < i <= m ensures view'[c[i]] == Unused {
      assert Unlinked(c, m, c[i]);
    }
  }

  /** Whatever was marked stays marked, and as planned. */
  ghost predicate MarkedStay(p: Items, marks: seq<bool>, view: Items, marks': seq<bool>, view': Items)
    requires |marks| >= |p| && |marks'| >= |p| && |view| == |p| == |view'|
  {
    forall k :: InRange(p, k) && marks[k] ==> marks'[k] && view'[k] == view[k]
  }

  /** So the lists still fit, */
  lemma FitsStay(p: Items, plan: Plan, marks: seq<bool>, view: Items, marks': seq<bool>, view': Items)
    requires |marks| >= |p| && |marks'| >= |p| && |view| == |p| == |view'| && MarkedStay(p, marks, view, marks', view')
    requires RedirectionsFit(p, plan.redirected, marks, view) && DeadFit(p, plan.nowdead, marks, view)
    requires UnusedFit(p, plan.nowunused, marks, view)
    ensures RedirectionsFit(p, plan.redirected, marks', view') && DeadFit(p, plan.nowdead, marks', view')
    ensures UnusedFit(p, plan.nowunused, marks', view')
  {
    forall i | 0 <= i < |plan.redirected|
      ensures marks'[plan.redirected[i].from] && marks'[plan.redirected[i].to]
      ensures view'[plan.redirected[i].from] == Redirect(plan.redirected[i].to)
      ensures view'[plan.redirected[i].to] == p[plan.redirected[i].to]
    {
    }
  }

  /** and new entries may be added for what was not marked before. */
  lemma UnusedExtends(p: Items, listed: seq<OffsetNumber>, added: seq<OffsetNumber>, marks: seq<bool>,
                      marks': seq<bool>, view': Items)
    requires |marks| >= |p| && |marks'| >= |p| && |view'| == |p| && UnusedFit(p, listed, marks', view') && NoDup(added)
    requires forall i :: 0 <= i < |listed| ==> marks[listed[i]]
    requires forall i :: 0 <= i < |added| ==>
      IsNormal(p, added[i]) && p[added[i]].tup.heapOnly && !marks[added[i]] && marks'[added[i]] &&
      view'[added[i]] == Unused
    ensures UnusedFit(p, listed + added, marks', view')
  {
  }

  lemma DeadExtends(p: Items, listed: seq<OffsetNumber>, k: OffsetNumber, marks: seq<bool>, marks': seq<bool>,
                    view': Items)
    requires |marks| >= |p| && |marks'| >= |p| && |view'| == |p| && DeadFit(p, listed, marks', view')
    requires forall i :: 0 <= i < |listed| ==> marks[listed[i]]
    requires IsRoot(p, k) && !marks[k] && marks'[k] && view'[k] == Dead
    ensures DeadFit(p, listed + [k], marks', view')
  {
  }

  lemma RedirectionsExtend(p: Items, listed: seq<Redirection>, x: Redirection, marks: seq<bool>, marks': seq<bool>,
                           view': Items)
    requires |marks| >= |p| && |marks'| >= |p| && |view'| == |p| && RedirectionsFit(p, listed, marks', view')
    requires forall i :: 0 <= i < |listed| ==> marks[listed[i].from]
    requires IsRoot(p, x.from) && IsNormal(p, x.to) && p[x.to].tup.heapOnly && p[x.from] != Redirect(x.to)
    requires !marks[x.from] && marks'[x.from] && marks'[x.to] && view'[x.from] == Redirect(x.to)
    requires view'[x.to] == p[x.to]
    ensures RedirectionsFit(p, listed + [x], marks', view')
  {
  }

  lemma StepUnusedFit(p: Items, rank: seq<nat>, htsv: seq<HTSV>, plan: Plan, marks: seq<bool>, view: Items, c: seq<int>,
                      m: int, marks': seq<bool>, view': Items)
    requires WellFormed(p, rank) && Judged(p, htsv) && Walked(p, rank, htsv, plan, marks, view, c, m)
    requires ChainStep(p, c, m, marks, view, marks', view') && m >= 0
    requires UnusedFit(p, plan.nowunused, marks', view')
    ensures UnusedFit(p, plan.nowunused + c[1..m+1], marks', view')
  {
    WalkFacts(p, rank, c);
    var added := c[1..m+1];
    forall i | 0 <= i < |added| ensures IsNormal(p, added[i]) && p[added[i]].tup.heapOnly && !marks[added[i]]
      ensures marks'[added[i]] && view'[added[i]] == Unused
    {
      assert added[i] == c[i+1] && Unlinked(c, m, c[i+1]) && c[i+1] != c[0];
    }
    UnusedExtends(p, plan.nowunused, added, marks, marks', view');
  }

  lemma UnlinkedAreListed(listed: seq<OffsetNumber>, c: seq<int>, m: int, k: int)
    requires 0 <= m < |c| && Unlinked(c, m, k)
    ensures k in listed + c[1..m+1]
  {
    var i :| 0 < i <= m && c[i] == k;
    assert (listed + c[1..m+1])[|listed| + i - 1] == k;
  }

  lemma StepListed(p: Items, rank: seq<nat>, htsv: seq<HTSV>, plan: Plan, marks: seq<bool>, view: Items, c: seq<int>,
                   m: int, marks': seq<bool>, view': Items, k: int)
    requires WellFormed(p, rank) && Judged(p, htsv) && Walked(p, rank, htsv, plan, marks, view, c, m)
    requires ChainStep(p, c, m, marks, view, marks', view')
    requires InRange(p, k) && view'[k] != p[k]
    ensures marks'[k] && Listed(PlanAfter(p, plan, c, m), k)
  {
    var plan' := PlanAfter(p, plan, c, m);
    if view[k] != p[k] {
      assert Listed(plan, k);
      if i :| 0 <= i < |plan.redirected| && plan.redirected[i].from == k {
        assert plan'.redirected[i].from == k;
      }
    } else if k == c[0] && m >= 0 && m + 1 < |c| {
      assert plan'.redirected[|plan.redirected|].from == k;
    } else if k == c[0] {
      assert plan'.nowdead[|plan.nowdead|] == k;
    } else {
      UnlinkedAreListed(plan.nowunused, c, m, k);
    }
  }

  lemma StepFits(p: Items, rank: seq<nat>, htsv: seq<HTSV>, plan: Plan, marks: seq<bool>, view: Items, c: seq<int>,
                 m: int, marks': seq<bool>, view': Items)
    requires WellFormed(p, rank) && Judged(p, htsv) && Walked(p, rank, htsv, plan, marks, view, c, m)
    requires ChainStep(p, c, m, marks, view, marks', view')
    ensures var plan' := PlanAfter(p, plan, c, m);
      && RedirectionsFit(p, plan'.redirected, marks', view') && DeadFit(p, plan'.nowdead, marks', view')
      && UnusedFit(p, plan'.nowunused, marks', view')
  {
    StepTouches(p, rank, htsv, plan, marks, view, c, m, marks', view');
    WalkFacts(p, rank, c);
    FitsStay(p, plan, marks, view, marks', view');
    if m >= 0 {
      StepUnusedFit(p, rank, htsv, plan, marks, view, c, m, marks', view');
    }
    if m >= 0 && m + 1 < |c| {
      RedirectionsExtend(p, plan.redirected, Redirection(c[0], c[m+1]), marks, marks', view');
    } else if m >= 0 || (|c| < 2 && p[c[0]].Redirect?) {
      DeadExtends(p, plan.nowdead, c[0], marks, marks', view');
    }
  }

  lemma StepConsistent(p: Items, rank: seq<nat>, htsv: seq<HTSV>, plan: Plan, marks: seq<bool>, view: Items,
                       c: seq<int>, m: int, marks': seq<bool>, view': Items)
    requires WellFormed(p, rank) && Judged(p, htsv) && Walked(p, rank, htsv, plan, marks, view, c, m)
    requires ChainStep(p, c, m, marks, view, marks', view')
    ensures Consistent(p, PlanAfter(p, plan, c, m), marks', view')
  {
    var plan' := PlanAfter(p, plan, c, m);
    StepFits(p, rank, htsv, plan, marks, view, c, m, marks', view');
    forall k | InRange(p, k) && view'[k] != p[k] ensures marks'[k] && Listed(plan', k) {
      StepListed(p, rank, htsv, plan, marks, view, c, m, marks', view', k);
    }
  }

  lemma StepJustified(p: Items, rank: seq<nat>, htsv: seq<HTSV>, plan: Plan, marks: seq<bool>, view: Items, c: seq<int>,
                      m: int, marks': seq<bool>, view': Items)
    requires WellFormed(p, rank) && Judged(p, htsv) && Walked(p, rank, htsv, plan, marks, view, c, m)
    requires ChainStep(p, c, m, marks, view, marks', view')
    ensures forall k :: InRange(p, k) && view'[k] != p[k] ==> Justified(p, rank, htsv, view', k)
  {
    StepTouches(p, rank, htsv, plan, marks, view, c, m, marks', view');
    WalkFacts(p, rank, c);
    forall k | InRange(p, k) && view'[k] != p[k] ensures Justified(p, rank, htsv, view', k) {
      if view[k] != p[k] {
        assert Justified(p, rank, htsv, view, k);
        if view[k].Redirect? {
          RedirectTargetsMarked(p, plan, marks, view, k);
        }
      } else if k == c[0] {
        if m >= 0 && m + 1 < |c| {
          WalkSkips(p, rank, htsv, marks, c, m, 0);
        } else {
          WalkAllDoomed(p, rank, htsv, plan, marks, view, c, m);
        }
      } else {
        var i :| 0 < i <= m && c[i] == k;
        WalkInRun(p, rank, htsv, marks, c, m, 0, i);
      }
    }
  }

  lemma RedirectTargetsMarked(p: Items, plan: Plan, marks: seq<bool>, view: Items, k: int)
    requires Consistent(p, plan, marks, view) && InRange(p, k) && view[k] != p[k] && view[k].Redirect?
    ensures InRange(p, view[k].target) && marks[view[k].target]
  {
  }

  lemma StepReaped(p: Items, rank: seq<nat>, htsv: seq<HTSV>, plan: Plan, marks: seq<bool>, view: Items, c: seq<int>,
                   m: int, marks': seq<bool>, view': Items)
    requires WellFormed(p, rank) && Judged(p, htsv) && Walked(p, rank, htsv, plan, marks, view, c, m)
    requires ChainStep(p, c, m, marks, view, marks', view')
    ensures forall a, u :: Link(p, a, u) && marks'[u] && view'[a] == p[a] ==> Reaped(p, htsv, view', u)
  {
    StepTouches(p, rank, htsv, plan, marks, view, c, m, marks', view');
    OnlyPredecessors(p, rank, c);
    WalkFacts(p, rank, c);
    forall a, u | Link(p, a, u) && marks'[u] && view'[a] == p[a] ensures Reaped(p, htsv, view', u) {
      if !marks[u] {
        // newly marked: its only predecessor is on the walk, and was changed
        assert false;
      }
    }
  }

  lemma StepSurvives(p: Items, rank: seq<nat>, htsv: seq<HTSV>, plan: Plan, marks: seq<bool>, view: Items, c: seq<int>,
                     m: int, marks': seq<bool>, view': Items)
    requires WellFormed(p, rank) && Judged(p, htsv) && Walked(p, rank, htsv, plan, marks, view, c, m)
    requires ChainStep(p, c, m, marks, view, marks', view')
    ensures forall r :: InRange(p, r) && r < c[0] + 1 && view'[r].Redirect? ==>
      Survives(p, htsv, view', r, view'[r].target)
  {
    StepTouches(p, rank, htsv, plan, marks, view, c, m, marks', view');
    OnlyPredecessors(p, rank, c);
    WalkFacts(p, rank, c);
    forall r | InRange(p, r) && r < c[0] + 1 && view'[r].Redirect?
      ensures Survives(p, htsv, view', r, view'[r].target)
    {
      var t := view'[r].target;
      if r < c[0] {
        assert view'[r] == view[r];
        assert Survives(p, htsv, view, r, t);
        if view'[t] != p[t] {
          // t was unlinked, so its predecessor r is on the walk, behind the root
          if view[r] == p[r] {
            assert Link(p, r, t);
          } else {
            RedirectTargetsMarked(p, plan, marks, view, r);
          }
          assert false;
        }
      } else if m < 0 {
        // an unchanged redirect: the walk went on to its target, which is not dead
        assert Link(p, c[0], c[1]);
      }
    }
  }

  lemma StepDead(p: Items, rank: seq<nat>, htsv: seq<HTSV>, plan: Plan, marks: seq<bool>, view: Items, c: seq<int>,
                 m: int, marks': seq<bool>, view': Items)
    requires WellFormed(p, rank) && Judged(p, htsv) && Walked(p, rank, htsv, plan, marks, view, c, m)
    requires ChainStep(p, c, m, marks, view, marks', view')
    ensures forall r, d ::
      IsRoot(p, r) && r < c[0] + 1 && InRange(p, d) && htsv[d] == DeadTuple && InRun(p, rank, htsv, r, d) ==>
      view'[d] != p[d]
    ensures forall d ::
      IsNormal(p, d) && d < c[0] + 1 && p[d].tup.heapOnly && !p[d].tup.hotUpdated && htsv[d] == DeadTuple ==>
      view'[d] != p[d]
    ensures forall k :: InRange(p, k) && marks'[k] && htsv[k] == DeadTuple ==> view'[k] != p[k]
  {
    StepTouches(p, rank, htsv, plan, marks, view, c, m, marks', view');
    WalkFacts(p, rank, c);
    forall d | InRange(p, d) && htsv[d] == DeadTuple && InRun(p, rank, htsv, c[0], d) ensures view'[d] != p[d] {
      DeadOnWalk(p, rank, htsv, plan, marks, view, c, m, d);
    }
  }

  /** Pruning one chain keeps the invariant. */
  lemma ChainStepKeepsPlanned(p: Items, rank: seq<nat>, htsv: seq<HTSV>, plan: Plan, marks: seq<bool>, view: Items,
                              c: seq<int>, m: int, marks': seq<bool>, view': Items)
    requires WellFormed(p, rank) && Judged(p, htsv) && Walked(p, rank, htsv, plan, marks, view, c, m)
    requires ChainStep(p, c, m, marks, view, marks', view')
    ensures Planned(p, rank, htsv, PlanAfter(p, plan, c, m), marks', view', c[0] + 1)
  {
    StepConsistent(p, rank, htsv, plan, marks, view, c, m, marks', view');
    StepJustified(p, rank, htsv, plan, marks, view, c, m, marks', view');
    StepReaped(p, rank, htsv, plan, marks, view, c, m, marks', view');
    StepSurvives(p, rank, htsv, plan, marks, view, c, m, marks', view');
    StepDead(p, rank, htsv, plan, marks, view, c, m, marks', view');
    WalkFacts(p, rank, c);
  }

  lemma ReapKeepsConsistent(p: Items, plan: Plan, marks: seq<bool>, view: Items, k: int)
    requires Consistent(p, plan, marks, view) && IsNormal(p, k) && p[k].tup.heapOnly && !marks[k]
    ensures Consistent(p, plan.(nowunused := plan.nowunused + [k]), marks[k := true], view[k := Unused])
  {
    var plan', marks', view' := plan.(nowunused := plan.nowunused + [k]), marks[k := true], view[k := Unused];
    FitsStay(p, plan, marks, view, marks', view');
    UnusedExtends(p, plan.nowunused, [k], marks, marks', view');
    forall j | InRange(p, j) && view'[j] != p[j] ensures Listed(plan', j) {
      if j == k {
        assert plan'.nowunused[|plan.nowunused|] == k;
      } else {
        assert Listed(plan, j);
      }
    }
  }

  /** So does reaping a dead heap-only tuple that chains to nothing. */
  lemma ReapKeepsPlanned(p: Items, rank: seq<nat>, htsv: seq<HTSV>, plan: Plan, marks: seq<bool>, view: Items, k: int)
    requires WellFormed(p, rank) && Judged(p, htsv) && Planned(p, rank, htsv, plan, marks, view, k)
    requires IsNormal(p, k) && p[k].tup.heapOnly && !p[k].tup.hotUpdated && htsv[k] == DeadTuple && !marks[k]
    ensures Planned(p, rank, htsv, plan.(nowunused := plan.nowunused + [k]), marks[k := true], view[k := Unused], k + 1)
  {
    var plan' := plan.(nowunused := plan.nowunused + [k]);
    var marks' := marks[k := true];
    var view' := view[k := Unused];
    assert view[k] == p[k];
    ReapKeepsConsistent(p, plan, marks, view, k);
    forall j | InRange(p, j) && view'[j] != p[j] ensures Justified(p, rank, htsv, view', j) {
      if j != k {
        assert Justified(p, rank, htsv, view, j);
        if view[j].Redirect? {
          RedirectTargetsMarked(p, plan, marks, view, j);
        }
      }
    }
  }

  /** And so does passing over an item that needs nothing. */
  lemma SkipKeepsPlanned(p: Items, rank: seq<nat>, htsv: seq<HTSV>, plan: Plan, marks: seq<bool>, view: Items, k: int)
    requires WellFormed(p, rank) && Judged(p, htsv) && Planned(p, rank, htsv, plan, marks, view, k)
    requires InRange(p, k) && !IsRoot(p, k)
    requires IsNormal(p, k) && !p[k].tup.hotUpdated && htsv[k] == DeadTuple ==> marks[k]
    ensures Planned(p, rank, htsv, plan, marks, view, k + 1)
  {
  }

  lemma NothingPlanned(p: Items, rank: seq<nat>, htsv: seq<HTSV>, marks: seq<bool>)
    requires WellFormed(p, rank) && Judged(p, htsv)
    requires |marks| >= |p| && forall k :: 0 <= k < |p| ==> !marks[k]
    ensures Planned(p, rank, htsv, Plan([], [], []), marks, p, 1)
  {
  }
}
