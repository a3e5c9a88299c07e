/** Freeze records in the write-ahead log: equal plans are stored once, with the offsets they apply
    to, and replay applies to each tuple the plan it had. */
module FreezeWal {
  /** What a freeze plan changes. */
  datatype Plan = Plan(xmax: nat, infomask2: nat, infomask: nat, frzflags: nat)

  /** HeapTupleFreeze */
  datatype TuplePlan = TuplePlan(plan: Plan, offset: nat)

  /** xl_heap_freeze_plan */
  datatype WalPlan = WalPlan(plan: Plan, ntuples: nat)

  predicate PlanLess(a: Plan, b: Plan) {
    if a.xmax != b.xmax then a.xmax < b.xmax
    else if a.infomask2 != b.infomask2 then a.infomask2 < b.infomask2
    else if a.infomask != b.infomask then a.infomask < b.infomask
    else a.frzflags < b.frzflags
  }

  /** pg_tde_log_freeze_cmp(a, b) < 0 */
  predicate Less(a: TuplePlan, b: TuplePlan) {
    PlanLess(a.plan, b.plan) || (a.plan == b.plan && a.offset < b.offset)
  }

  predicate IsSorted(s: seq<TuplePlan>) {
    forall i, j {:trigger Ordered(s[i], s[j])} :: 0 <= i < j < |s| ==> Ordered(s[i], s[j])
  }

  predicate Ordered(a: TuplePlan, b: TuplePlan) {
    !Less(b, a)
  }

  /** What qsort makes of the plans. */
  function Sort(s: seq<TuplePlan>): seq<TuplePlan> {
    if s == [] then [] else Insert(Sort(s[1..]), s[0])
  }

  function Insert(s: seq<TuplePlan>, x: TuplePlan): seq<TuplePlan> {
    if s == [] || Less(x, s[0]) then [x] + s else [s[0]] + Insert(s[1..], x)
  }

  lemma {:induction false} InsertKeeps(s: seq<TuplePlan>, x: TuplePlan)
    ensures multiset(Insert(s, x)) == multiset(s) + multiset{x} && |Insert(s, x)| == |s| + 1
    ensures forall y :: y in Insert(s, x) ==> y == x || y in s
  {
    if s != [] && !Less(x, s[0]) {
      InsertKeeps(s[1..], x);
      assert s == [s[0]] + s[1..];
    }
  }

  lemma TailSorted(s: seq<TuplePlan>)
    requires IsSorted(s) && s != []
    ensures IsSorted(s[1..]) && forall y :: y in s[1..] ==> Ordered(s[0], y)
  {
  }

  lemma ConsSorted(x: TuplePlan, s: seq<TuplePlan>)
    requires IsSorted(s) && forall y :: y in s ==> Ordered(x, y)
    ensures IsSorted([x] + s)
  {
  }

  lemma {:induction false} InsertSorts(s: seq<TuplePlan>, x: TuplePlan)
    requires IsSorted(s)
    ensures IsSorted(Insert(s, x))
  {
    if s == [] {
      assert Insert(s, x) == [x];
    } else {
      TailSorted(s);
      if Less(x, s[0]) {
        forall y | y in s ensures Ordered(x, y) {
          assert y == s[0] || y in s[1..];
        }
        ConsSorted(x, s);
      } else {
        InsertSorts(s[1..], x);
        InsertKeeps(s[1..], x);
        ConsSorted(s[0], Insert(s[1..], x));
      }
    }
  }

  lemma {:induction false} SortSorts(s: seq<TuplePlan>)
    ensures IsSorted(Sort(s)) && multiset(Sort(s)) == multiset(s) && |Sort(s)| == |s|
  {
    if s != [] {
      SortSorts(s[1..]);
      InsertSorts(Sort(s[1..]), s[0]);
      InsertKeeps(Sort(s[1..]), s[0]);
      assert s == [s[0]] + s[1..];
    }
  }

  // ---- The record ----

  function Count(plans: seq<WalPlan>): nat {
    if plans == [] then 0 else Count(plans[..|plans|-1]) + plans[|plans|-1].ntuples
  }

  /** The tuple plans that a record stands for: each plan with its share of the offsets. */
  function Expand(plans: seq<WalPlan>, offsets: seq<nat>): (r: seq<TuplePlan>)
    requires Count(plans) == |offsets|
    ensures |r| == |offsets| && forall i :: 0 <= i < |r| ==> r[i].offset == offsets[i]
  {
    if plans == [] then []
    else
      var last := plans[|plans|-1];
      var n := |offsets| - last.ntuples;
      Expand(plans[..|plans|-1], offsets[..n]) +
        seq(last.ntuples, i requires 0 <= i < last.ntuples => TuplePlan(last.plan, offsets[n+i]))
  }

  predicate Increasing(plans: seq<WalPlan>) {
    forall i, j {:trigger PlanLess(plans[i].plan, plans[j].plan)} :: 0 <= i < j < |plans| ==>
      PlanLess(plans[i].plan, plans[j].plan)
  }

  lemma ExpandMore(plans: seq<WalPlan>, offsets: seq<nat>, o: nat)
    requires plans != [] && Count(plans) == |offsets|
    ensures var last := plans[|plans|-1]; var more := plans[..|plans|-1] + [last.(ntuples := last.ntuples + 1)];
      Count(more) == |offsets| + 1 && Expand(more, offsets + [o]) == Expand(plans, offsets) + [TuplePlan(last.plan, o)]
  {
    var last := plans[|plans|-1];
    var more := plans[..|plans|-1] + [last.(ntuples := last.ntuples + 1)];
    assert more[..|more|-1] == plans[..|plans|-1];
    var n := |offsets| - last.ntuples;
    assert (offsets + [o])[..n] == offsets[..n];
  }

  lemma ExpandNew(plans: seq<WalPlan>, offsets: seq<nat>, p: Plan, o: nat)
    requires Count(plans) == |offsets|
    ensures Count(plans + [WalPlan(p, 1)]) == |offsets| + 1
    ensures Expand(plans + [WalPlan(p, 1)], offsets + [o]) == Expand(plans, offsets) + [TuplePlan(p, o)]
  {
  }

  lemma IncreasingMore(plans: seq<WalPlan>, p: Plan)
    requires Increasing(plans) && (plans == [] || PlanLess(plans[|plans|-1].plan, p))
    ensures Increasing(plans + [WalPlan(p, 1)])
  {
    forall i | 0 <= i < |plans| ensures PlanLess(plans[i].plan, p) {
      assert i < |plans| - 1 ==> PlanLess(plans[i].plan, plans[|plans|-1].plan);
    }
  }

  lemma IncreasingSame(plans: seq<WalPlan>, n: nat)
    requires Increasing(plans) && plans != []
    ensures Increasing(plans[..|plans|-1] + [plans[|plans|-1].(ntuples := n)])
  {
  }

  /** The groups so far stand for the first `i` plans. */
  predicate Grouped(plans: seq<WalPlan>, offsets: seq<nat>, sorted: seq<TuplePlan>, i: nat)
    requires i <= |sorted|
  {
    && Count(plans) == |offsets| == i && Expand(plans, offsets) == sorted[..i]
    && Increasing(plans) && (forall j :: 0 <= j < |plans| ==> plans[j].ntuples > 0)
    && (i == 0 <==> plans == []) && (i > 0 ==> plans[|plans|-1].plan == sorted[i-1].plan)
  }

  lemma JoinGroup(plans: seq<WalPlan>, offsets: seq<nat>, sorted: seq<TuplePlan>, i: nat)
    requires i < |sorted| && Grouped(plans, offsets, sorted, i) && i > 0 && plans[|plans|-1].plan == sorted[i].plan
    ensures var last := plans[|plans|-1];
      Grouped(plans[..|plans|-1] + [last.(ntuples := last.ntuples + 1)], offsets + [sorted[i].offset], sorted, i + 1)
  {
    assert sorted[..i+1] == sorted[..i] + [sorted[i]];
    ExpandMore(plans, offsets, sorted[i].offset);
    IncreasingSame(plans, plans[|plans|-1].ntuples + 1);
  }

  lemma OpenGroup(plans: seq<WalPlan>, offsets: seq<nat>, sorted: seq<TuplePlan>, i: nat)
    requires IsSorted(sorted) && i < |sorted| && Grouped(plans, offsets, sorted, i) &&
      (i > 0 ==> plans[|plans|-1].plan != sorted[i].plan)
    ensures Grouped(plans + [WalPlan(sorted[i].plan, 1)], offsets + [sorted[i].offset], sorted, i + 1)
  {
    assert sorted[..i+1] == sorted[..i] + [sorted[i]];
    ExpandNew(plans, offsets, sorted[i].plan, sorted[i].offset);
    assert i > 0 ==> Ordered(sorted[i-1], sorted[i]);
    IncreasingMore(plans, sorted[i].plan);
  }

  /** pg_tde_log_freeze_plan: sort the plans, and open a new group whenever the plan changes. No plan
      is stored twice, and the record stands for exactly the plans given. */
  method LogFreezePlan(tuples: seq<TuplePlan>) returns (plans: seq<WalPlan>, offsets: seq<nat>)
    ensures Increasing(plans) && Count(plans) == |offsets| == |tuples|
    ensures Expand(plans, offsets) == Sort(tuples)
    ensures forall i :: 0 <= i < |plans| ==> plans[i].ntuples > 0
  {
    SortSorts(tuples);
    var sorted := Sort(tuples);
    plans, offsets := [], [];
    for i := 0 to |sorted|
      invariant Grouped(plans, offsets, sorted, i)
    {
      var frz := sorted[i];
      if i > 0 && plans[|plans|-1].plan == frz.plan {
        JoinGroup(plans, offsets, sorted, i);
        plans := plans[..|plans|-1] + [plans[|plans|-1].(ntuples := plans[|plans|-1].ntuples + 1)];
      } else {
        OpenGroup(plans, offsets, sorted, i);
        plans := plans + [WalPlan(frz.plan, 1)];
      }
      offsets := offsets + [frz.offset];
    }
    assert sorted[..|sorted|] == sorted;
  }

  // ---- Replay ----

  /** Carry out plans one after the other. `exec` is what a plan does to a tuple. */
  function ApplyAll<T>(page: seq<T>, tuples: seq<TuplePlan>, exec: (T, Plan) -> T): (r: seq<T>)
    requires forall i :: 0 <= i < |tuples| ==> tuples[i].offset < |page|
    ensures |r| == |page|
  {
    if tuples == [] then page
    else
      var x, before := tuples[|tuples|-1], ApplyAll(page, tuples[..|tuples|-1], exec);
      before[x.offset := exec(before[x.offset], x.plan)]
  }

  predicate DistinctOffsets(tuples: seq<TuplePlan>) {
    forall i, j :: 0 <= i < j < |tuples| ==> tuples[i].offset != tuples[j].offset
  }

  /** With distinct offsets, every tuple gets its own plan and nothing else changes. */
  lemma {:induction false} AppliedAt<T>(page: seq<T>, tuples: seq<TuplePlan>, exec: (T, Plan) -> T, o: nat)
    requires (forall i :: 0 <= i < |tuples| ==> tuples[i].offset < |page|) && DistinctOffsets(tuples) && o < |page|
    ensures forall i :: 0 <= i < |tuples| && tuples[i].offset == o ==>
      ApplyAll(page, tuples, exec)[o] == exec(page[o], tuples[i].plan)
    ensures (forall i :: 0 <= i < |tuples| ==> tuples[i].offset != o) ==> ApplyAll(page, tuples, exec)[o] == page[o]
  {
    if tuples != [] {
      AppliedAt(page, tuples[..|tuples|-1], exec, o);
    }
  }

  lemma {:induction false} CountPrefix(plans: seq<WalPlan>, p: nat)
    requires p < |plans|
    ensures Count(plans[..p]) + plans[p].ntuples == Count(plans[..p+1]) <= Count(plans)
  {
    assert plans[..p+1][..p] == plans[..p];
    if p + 1 < |plans| {
      CountPrefix(plans[..|plans|-1], p);
      assert plans[..|plans|-1][..p] == plans[..p] && plans[..|plans|-1][..p+1] == plans[..p+1];
    } else {
      assert plans[..p+1] == plans;
    }
  }

  /** The offsets of a group go with its plan. */
  lemma {:induction false} ExpandAt(plans: seq<WalPlan>, offsets: seq<nat>, p: nat)
    requires Count(plans) == |offsets| && p < |plans|
    ensures Count(plans[..p]) + plans[p].ntuples <= |offsets|
    ensures forall k :: Count(plans[..p]) <= k < Count(plans[..p]) + plans[p].ntuples ==>
      Expand(plans, offsets)[k].plan == plans[p].plan
  {
    CountPrefix(plans, p);
    var init, last := plans[..|plans|-1], plans[|plans|-1];
    var n := |offsets| - last.ntuples;
    var all := Expand(init, offsets[..n]) +
      seq(last.ntuples, i requires 0 <= i < last.ntuples => TuplePlan(last.plan, offsets[n+i]));
    assert Expand(plans, offsets) == all;
    if p + 1 < |plans| {
      assert init[..p] == plans[..p];
      ExpandAt(init, offsets[..n], p);
    }
  }

  /** Carrying out one plan more. */
  lemma ApplyNext<T>(page: seq<T>, all: seq<TuplePlan>, exec: (T, Plan) -> T, k: nat)
    requires k < |all| && forall i :: 0 <= i < |all| ==> all[i].offset < |page|
    ensures var before := ApplyAll(page, all[..k], exec);
      ApplyAll(page, all[..k+1], exec) == before[all[k].offset := exec(before[all[k].offset], all[k].plan)]
  {
    assert all[..k+1][..k] == all[..k];
  }

  /** The inner loop: one plan for the next `plan.ntuples` offsets. */
  method ReplayGroup<T>(page: seq<T>, plan: WalPlan, offsets: seq<nat>, curoff: nat, exec: (T, Plan) -> T,
                        ghost was: seq<T>, ghost all: seq<TuplePlan>) returns (page': seq<T>)
    requires |all| == |offsets| && forall i :: 0 <= i < |all| ==> all[i].offset == offsets[i] < |was|
    requires curoff + plan.ntuples <= |all| && page == ApplyAll(was, all[..curoff], exec)
    requires forall k :: curoff <= k < curoff + plan.ntuples ==> all[k].plan == plan.plan
    ensures page' == ApplyAll(was, all[..curoff + plan.ntuples], exec)
  {
    page' := page;
    for i := 0 to plan.ntuples
      invariant page' == ApplyAll(was, all[..curoff + i], exec)
    {
      ApplyNext(was, all, exec, curoff + i);
      var offset := offsets[curoff + i];
      page' := page'[offset := exec(page'[offset], plan.plan)];
    }
  }

  /** pg_tde_xlog_freeze_page: one group after the other, with a cursor into the offsets. */
  method Replay<T>(page: seq<T>, plans: seq<WalPlan>, offsets: seq<nat>, exec: (T, Plan) -> T) returns (page': seq<T>)
    requires Count(plans) == |offsets| && forall i :: 0 <= i < |offsets| ==> offsets[i] < |page|
    ensures page' == ApplyAll(page, Expand(plans, offsets), exec)
  {
    page' := page;
    var curoff := 0;
    ghost var all := Expand(plans, offsets);
    for p := 0 to |plans|
      invariant curoff == Count(plans[..p]) <= |offsets| && page' == ApplyAll(page, all[..curoff], exec)
    {
      CountPrefix(plans, p);
      ExpandAt(plans, offsets, p);
      page' := ReplayGroup(page', plans[p], offsets, curoff, exec, page, all);
      curoff := curoff + plans[p].ntuples;
    }
    assert plans[..|plans|] == plans && all[..|offsets|] == all;
  }

  lemma SameOffsets(s: seq<TuplePlan>, t: seq<TuplePlan>)
    requires multiset(s) == multiset(t) && DistinctOffsets(s)
    ensures DistinctOffsets(t)
  {
    forall i, j | 0 <= i < j < |t| ensures t[i].offset != t[j].offset {
      assert t[i] in multiset(t) && t[j] in multiset(t);
      var a :| 0 <= a < |s| && s[a] == t[i];
      var b :| 0 <= b < |s| && s[b] == t[j];
      if t[i].offset == t[j].offset {
        assert a == b;
        TwiceIn(t, i, j);
        OnceIn(s, a);
      }
    }
  }

  lemma TwiceIn(t: seq<TuplePlan>, i: nat, j: nat)
    requires i < j < |t| && t[i] == t[j]
    ensures multiset(t)[t[i]] >= 2
  {
    assert t == t[..j] + t[j..];
    assert t[i] in multiset(t[..j]) && t[j] in multiset(t[j..]);
  }

  lemma OnceIn(s: seq<TuplePlan>, a: nat)
    requires DistinctOffsets(s) && a < |s|
    ensures multiset(s)[s[a]] == 1
  {
    var rest := s[..a] + s[a+1..];
    assert s == s[..a] + [s[a]] + s[a+1..];
    assert s[a] !in rest;
  }

  /** Writing a freeze record and replaying it gives every tuple of the page exactly the plan it had,
      and leaves the others alone. */
  lemma ReplayUndoesGrouping<T>(page: seq<T>, tuples: seq<TuplePlan>, plans: seq<WalPlan>, offsets: seq<nat>,
                                exec: (T, Plan) -> T)
    requires DistinctOffsets(tuples) && forall i :: 0 <= i < |tuples| ==> tuples[i].offset < |page|
    requires Count(plans) == |offsets| && Expand(plans, offsets) == Sort(tuples)
    ensures forall i :: 0 <= i < |offsets| ==> offsets[i] < |page|
    ensures var after := ApplyAll(page, Expand(plans, offsets), exec);
      && (forall i :: 0 <= i < |tuples| ==> after[tuples[i].offset] == exec(page[tuples[i].offset], tuples[i].plan))
      && (forall o :: 0 <= o < |page| && (forall i :: 0 <= i < |tuples| ==> tuples[i].offset != o) ==>
          after[o] == page[o])
  {
    var sorted := Sort(tuples);
    SortSorts(tuples);
    SameOffsets(tuples, sorted);
    forall i | 0 <= i < |sorted| ensures sorted[i].offset < |page| {
      var j := Found(sorted, tuples, i);
    }
    forall i | 0 <= i < |tuples|
      ensures ApplyAll(page, sorted, exec)[tuples[i].offset] == exec(page[tuples[i].offset], tuples[i].plan)
    {
      var j := Found(tuples, sorted, i);
      AppliedAt(page, sorted, exec, tuples[i].offset);
    }
    forall o | 0 <= o < |page| && (forall i :: 0 <= i < |tuples| ==> tuples[i].offset != o)
      ensures ApplyAll(page, sorted, exec)[o] == page[o]
    {
      forall i | 0 <= i < |sorted| ensures sorted[i].offset != o {
        var j := Found(sorted, tuples, i);
      }
      AppliedAt(page, sorted, exec, o);
    }
  }

  lemma Found(s: seq<TuplePlan>, t: seq<TuplePlan>, i: nat) returns (j: nat)
    requires multiset(s) == multiset(t) && i < |s|
    ensures j < |t| && t[j] == s[i]
  {
    assert s[i] in multiset(s);
    j :| j < |t| && t[j] == s[i];
  }
}
