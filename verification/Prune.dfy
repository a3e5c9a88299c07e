/** pg_tde_page_prune at work: it judges every tuple once, plans the pruning of each HOT chain,
    applies the plan to the line pointers and drops unused line pointers from the end. */
module Prune {
  import opened Base
  import opened HotChain
  import opened PrunePlan
  import opened PruneSafety

  /** The line pointer array of a page; `items[0]` is a placeholder. */
  class Page {
    const items: array<ItemId>
    var maxoff: nat

    ghost predicate Valid()
      reads this
    {
      maxoff < items.Length && maxoff <= MAX_TUPLES_PER_PAGE
    }

    ghost function Items(): Items
      requires Valid()
      reads this, items
    {
      items[..maxoff + 1]
    }
  }

  /** Number of items with storage. */
  ghost function Stored(p: seq<ItemId>): nat {
    if p == [] then 0 else Stored(p[..|p|-1]) + if p[|p|-1].Normal? then 1 else 0
  }

  lemma {:induction false} StoredUpdate(p: seq<ItemId>, k: int, x: ItemId)
    requires 0 <= k < |p| && p[k].Normal? && !x.Normal?
    ensures Stored(p[k := x]) == Stored(p) - 1
  {
    var q := p[k := x];
    if k < |p| - 1 {
      assert q[..|p|-1] == p[..|p|-1][k := x];
      StoredUpdate(p[..|p|-1], k, x);
    } else {
      assert q[..|p|-1] == p[..|p|-1];
    }
  }

  lemma {:induction false} StoredSame(p: seq<ItemId>, k: int, x: ItemId)
    requires 0 <= k < |p| && p[k].Normal? == x.Normal?
    ensures Stored(p[k := x]) == Stored(p)
  {
    var q := p[k := x];
    if k < |p| - 1 {
      assert q[..|p|-1] == p[..|p|-1][k := x];
      StoredSame(p[..|p|-1], k, x);
    } else {
      assert q[..|p|-1] == p[..|p|-1];
    }
  }

  /** Distinct offsets between 1 and n are at most n many. */
  lemma {:induction false} DistinctOffsets(s: seq<int>, n: nat)
    requires NoDup(s) && forall i :: 0 <= i < |s| ==> 1 <= s[i] <= n
    ensures |s| <= n
    decreases n
  {
    assert |s| > 0 ==> 1 <= s[0] <= n;
    if k :| 0 <= k < |s| && s[k] == n {
      DistinctOffsets(s[..k] + s[k+1..], n - 1);
    } else if n > 0 {
      DistinctOffsets(s, n - 1);
    }
  }

  class PruneState {
    var redirected: seq<Redirection>
    var nowdead: seq<OffsetNumber>
    var nowunused: seq<OffsetNumber>
    const marked: array<bool>
    const htsv: array<HTSV>
    ghost var view: Items   // the page with the planned changes applied

    constructor ()
      ensures fresh(marked) && fresh(htsv) && marked.Length == htsv.Length == MAX_TUPLES_PER_PAGE + 1
      ensures Plan() == PrunePlan.Plan([], [], [])
      ensures forall k :: 0 <= k < marked.Length ==> !marked[k]
    {
      redirected, nowdead, nowunused := [], [], [];
      marked := new bool[MAX_TUPLES_PER_PAGE + 1](_ => false);
      htsv := new HTSV[MAX_TUPLES_PER_PAGE + 1](_ => NotComputed);
      view := [Unused];
    }

    ghost function Plan(): PrunePlan.Plan
      reads this
    {
      PrunePlan.Plan(redirected, nowdead, nowunused)
    }

    method RecordRedirect(off: OffsetNumber, rdoff: OffsetNumber)
      requires 0 <= off < marked.Length && 0 <= rdoff < marked.Length && off < |view|
      requires |redirected| < MAX_TUPLES_PER_PAGE && !marked[off] && !marked[rdoff] && off != rdoff
      modifies this, marked
      ensures Plan() == old(Plan()).(redirected := old(redirected) + [Redirection(off, rdoff)])
      ensures marked[..] == old(marked[..])[off := true][rdoff := true]
      ensures view == old(view)[off := Redirect(rdoff)]
    {
      redirected := redirected + [Redirection(off, rdoff)];
      marked[off] := true;
      marked[rdoff] := true;
      view := view[off := Redirect(rdoff)];
    }

    method RecordDead(off: OffsetNumber)
      requires 0 <= off < marked.Length && off < |view|
      requires |nowdead| < MAX_TUPLES_PER_PAGE && !marked[off]
      modifies this, marked
      ensures Plan() == old(Plan()).(nowdead := old(nowdead) + [off])
      ensures marked[..] == old(marked[..])[off := true]
      ensures view == old(view)[off := Dead]
    {
      nowdead := nowdead + [off];
      marked[off] := true;
      view := view[off := Dead];
    }

    method RecordUnused(off: OffsetNumber)
      requires 0 <= off < marked.Length && off < |view|
      requires |nowunused| < MAX_TUPLES_PER_PAGE && !marked[off]
      modifies this, marked
      ensures Plan() == old(Plan()).(nowunused := old(nowunused) + [off])
      ensures marked[..] == old(marked[..])[off := true]
      ensures view == old(view)[off := Unused]
    {
      nowunused := nowunused + [off];
      marked[off] := true;
      view := view[off := Unused];
    }
  }

  /** The pass so far over the page `p` with verdicts `htsv`; `cur` is the next offset to process. */
  ghost predicate InProgress(page: Page, p: Items, rank: seq<nat>, htsv: seq<HTSV>, ps: PruneState, cur: int)
    reads page, page.items, ps, ps.marked, ps.htsv
  {
    && page.Valid() && p == page.Items()
    && ps.marked.Length == ps.htsv.Length == MAX_TUPLES_PER_PAGE + 1 && htsv == ps.htsv[..|p|]
    && WellFormed(p, rank) && Judged(p, htsv)
    && Planned(p, rank, htsv, ps.Plan(), ps.marked[..], ps.view, cur)
  }

  /** There is room in every list for whatever is not marked yet. */
  lemma ListsHaveRoom(p: Items, plan: PrunePlan.Plan, marks: seq<bool>, view: Items, unlisted: OffsetNumber)
    requires Consistent(p, plan, marks, view) && |p| <= MAX_TUPLES_PER_PAGE + 1
    requires InRange(p, unlisted) && !marks[unlisted]
    ensures |plan.redirected| < MAX_TUPLES_PER_PAGE && |plan.nowdead| < MAX_TUPLES_PER_PAGE
    ensures |plan.nowunused| < MAX_TUPLES_PER_PAGE
  {
    DistinctOffsets(plan.nowdead + [unlisted], MAX_TUPLES_PER_PAGE);
    DistinctOffsets(plan.nowunused + [unlisted], MAX_TUPLES_PER_PAGE);
    var froms := seq(|plan.redirected|, i requires 0 <= i < |plan.redirected| => plan.redirected[i].from);
    DistinctOffsets(froms + [unlisted], MAX_TUPLES_PER_PAGE);
  }

  // --------------------------------------------------------------- heap_prune_chain

  /** The chain as far as the loop has followed it; `off` is where it looks next. */
  ghost predicate WalkSoFar(p: Items, htsv: seq<HTSV>, marks: seq<bool>, root: int, c: seq<int>, m: int, off: int,
                            priorXmax: Xid)
    requires |htsv| == |p| <= |marks| && IsRoot(p, root)
  {
    if c == [] then off == root && priorXmax == INVALID_XID && m == -1
    else
      && IsWalk(p, c) && c[0] == root
      && Unmarked(p, marks, c)
      && PassedBy(p, htsv, c, |c|)
      && LatestDead(p, htsv, c, m)
      && Next(p, c[|c|-1]) == if Continues(p, off, priorXmax) then off else INVALID_OFFSET
  }

  lemma Extend(p: Items, htsv: seq<HTSV>, marks: seq<bool>, root: int, c: seq<int>, m: int, off: int, priorXmax: Xid)
    requires |htsv| == |p| <= |marks| && IsRoot(p, root)
    requires WalkSoFar(p, htsv, marks, root, c, m, off, priorXmax)
    requires InRange(p, off) && !marks[off] && (c == [] || Continues(p, off, priorXmax))
    ensures var c' := c + [off];
            && IsWalk(p, c') && c'[0] == root
            && Unmarked(p, marks, c')
            && PassedBy(p, htsv, c', |c'| - 1)
            && ((IsNormal(p, off) ==> Passable(htsv[off])) ==> PassedBy(p, htsv, c', |c'|))
            && LatestDead(p, htsv, c', if p[off].Normal? && htsv[off] == DeadTuple then |c| else m)
  {
  }

  /** The loop of heap_prune_chain: follow the chain from `root` past dead and recently dead
      tuples, remembering the last dead one. */
  method WalkChain(page: Page, root: OffsetNumber, ps: PruneState, ghost p: Items, ghost rank: seq<nat>,
                   ghost htsv: seq<HTSV>, ghost marks: seq<bool>)
    returns (chainitems: seq<OffsetNumber>, latestdead: OffsetNumber, ghost m: int)
    requires page.Valid() && p == page.Items() && |p| <= ps.marked.Length == ps.htsv.Length
    requires htsv == ps.htsv[..|p|] && marks == ps.marked[..]
    requires WellFormed(p, rank) && Judged(p, htsv)
    requires IsRoot(p, root) && !marks[root] && |p| <= MAX_TUPLES_PER_PAGE + 1
    ensures 0 < |chainitems| <= MAX_TUPLES_PER_PAGE && chainitems[0] == root
    ensures PruneWalk(p, htsv, marks, chainitems, m)
    ensures latestdead == if m >= 0 then chainitems[m] else INVALID_OFFSET
  {
    chainitems, latestdead, m := [], INVALID_OFFSET, -1;
    var offnum := root;
    var priorXmax := INVALID_XID;
    while true
      invariant WalkSoFar(p, htsv, marks, root, chainitems, m, offnum, priorXmax)
      invariant latestdead == if m >= 0 then chainitems[m] else INVALID_OFFSET
      decreases chainitems == [], if Continues(p, offnum, priorXmax) then rank[offnum] + 1 else 0
    {
      if offnum < 1 || offnum > page.maxoff {
        break;
      }
      if ps.marked[offnum] {
        break;
      }
      var lp := page.items[offnum];
      assert lp == p[offnum] && !marks[offnum];
      if lp.Unused? {
        break;
      }
      if lp.Redirect? {
        if |chainitems| > 0 {
          break;
        }
        Extend(p, htsv, marks, root, chainitems, m, offnum, priorXmax);
        chainitems := chainitems + [offnum];
        offnum := lp.target;
        continue;
      }
      if lp.Dead? {
        break;
      }
      var htup := lp.tup;
      if priorXmax != INVALID_XID && htup.xmin != priorXmax {
        break;
      }
      Extend(p, htsv, marks, root, chainitems, m, offnum, priorXmax);
      chainitems := chainitems + [offnum];
      if ps.htsv[offnum] == DeadTuple {
        latestdead := offnum;
        m := |chainitems| - 1;
      } else if ps.htsv[offnum] != RecentlyDead {
        break;
      }
      if !htup.hotUpdated {
        break;
      }
      assert Link(p, offnum, htup.ctidOffset) <==> Continues(p, htup.ctidOffset, htup.updateXid);
      offnum := htup.ctidOffset;
      priorXmax := htup.updateXid;
    }
    WalkFits(p, rank, chainitems);
  }

  /** A chain fits the array that collects it. */
  lemma WalkFits(p: Items, rank: seq<nat>, c: seq<int>)
    requires WellFormed(p, rank) && IsWalk(p, c) && |p| <= MAX_TUPLES_PER_PAGE + 1
    ensures |c| <= MAX_TUPLES_PER_PAGE
  {
    WalkFacts(p, rank, c);
    DistinctOffsets(c, MAX_TUPLES_PER_PAGE);
  }

  /** The state after the chain members c[1..i] have been recorded as unused. */
  ghost predicate Unlinking(c: seq<int>, i: int, plan: PrunePlan.Plan, marks: seq<bool>, view: Items,
                            plan': PrunePlan.Plan, marks': seq<bool>, view': Items)
    requires 1 <= i <= |c|
  {
    && plan' == plan.(nowunused := plan.nowunused + c[1..i])
    && |marks'| == |marks| && |view'| == |view| && view'[0] == view[0]
    && (forall k :: 0 <= k < |marks| ==> (marks'[k] <==> marks[k] || Unlinked(c, i - 1, k)))
    && (forall k :: 0 <= k < |view| ==> view'[k] == if Unlinked(c, i - 1, k) then Unused else view[k])
  }

  lemma UnlinkOne(c: seq<int>, i: int, plan: PrunePlan.Plan, marks: seq<bool>, view: Items, plan': PrunePlan.Plan,
                  marks': seq<bool>, view': Items)
    requires 1 <= i < |c| && NoDup(c) && Unlinking(c, i, plan, marks, view, plan', marks', view')
    requires 0 < c[i] < |marks| && c[i] < |view|
    ensures marks'[c[i]] == marks[c[i]] && view'[c[i]] == view[c[i]]
    ensures Unlinking(c, i + 1, plan, marks, view,
                      plan'.(nowunused := plan'.nowunused + [c[i]]), marks'[c[i] := true], view'[c[i] := Unused])
  {
  }

  /** The loop of heap_prune_chain that plans the removal of the members after the root. */
  method UnlinkMembers(ps: PruneState, chainitems: seq<OffsetNumber>, latestdead: OffsetNumber, ghost m: int)
    returns (i: nat, ndeleted: nat)
    requires NoDup(chainitems) && 0 <= m < |chainitems| && latestdead == chainitems[m]
    requires forall j :: 0 <= j < |chainitems| ==> 0 < chainitems[j] < ps.marked.Length && chainitems[j] < |ps.view|
    requires forall j :: 0 < j <= m ==> !ps.marked[chainitems[j]] && ps.view[chainitems[j]].Normal?
    requires |ps.nowunused| + m <= MAX_TUPLES_PER_PAGE
    modifies ps, ps.marked
    ensures i == m + 1 && ndeleted == m
    ensures Unlinking(chainitems, i, old(ps.Plan()), old(ps.marked[..]), old(ps.view), ps.Plan(), ps.marked[..],
                      ps.view)
    ensures ndeleted + Stored(ps.view) == old(Stored(ps.view))
  {
    ghost var plan, marks, view := ps.Plan(), ps.marked[..], ps.view;
    i, ndeleted := 1, 0;
    while i < |chainitems| && chainitems[i-1] != latestdead
      invariant 1 <= i <= m + 1 && ndeleted == i - 1
      invariant Unlinking(chainitems, i, plan, marks, view, ps.Plan(), ps.marked[..], ps.view)
      invariant ndeleted + Stored(ps.view) == Stored(view)
    {
      assert i <= m;
      UnlinkOne(chainitems, i, plan, marks, view, ps.Plan(), ps.marked[..], ps.view);
      assert !marks[chainitems[i]] && ps.marked[..][chainitems[i]] == marks[chainitems[i]];
      StoredUpdate(ps.view, chainitems[i], Unused);
      ps.RecordUnused(chainitems[i]);
      ndeleted := ndeleted + 1;
      i := i + 1;
    }
  }

  lemma FinishChain(p: Items, c: seq<int>, m: int, plan: PrunePlan.Plan, marks: seq<bool>, view: Items,
                    plan': PrunePlan.Plan, marks': seq<bool>, view': Items)
    requires IsWalk(p, c) && NoDup(c) && |p| == |view| <= |marks| && 0 <= m < |c|
    requires Unlinking(c, m + 1, plan, marks, view, plan', marks', view')
    ensures marks'[c[0]] == marks[c[0]] && view'[c[0]] == view[c[0]]
    ensures m + 1 < |c| ==> marks'[c[m+1]] == marks[c[m+1]]
    ensures m + 1 < |c| ==>
      ChainStep(p, c, m, marks, view, marks'[c[0] := true][c[m+1] := true], view'[c[0] := Redirect(c[m+1])])
    ensures m + 1 == |c| ==> ChainStep(p, c, m, marks, view, marks'[c[0] := true], view'[c[0] := Dead])
  {
  }

  /** The second half of heap_prune_chain: plan the removal of everything up to the latest
      dead tuple.  Returns the number of tuples that lose their storage. */
  method RecordChain(page: Page, ps: PruneState, chainitems: seq<OffsetNumber>, latestdead: OffsetNumber,
                     ghost p: Items, ghost m: int)
    returns (ndeleted: nat)
    requires page.Valid() && p == page.Items() && IsWalk(p, chainitems) && NoDup(chainitems)
    requires |p| == |ps.view| <= ps.marked.Length
    requires forall j :: 0 < j < |chainitems| ==> IsNormal(p, chainitems[j])
    requires forall j :: 0 <= j < |chainitems| ==>
      !ps.marked[chainitems[j]] && ps.view[chainitems[j]] == p[chainitems[j]]
    requires |ps.nowunused| + m <= MAX_TUPLES_PER_PAGE
    requires |ps.nowdead| < MAX_TUPLES_PER_PAGE && |ps.redirected| < MAX_TUPLES_PER_PAGE
    requires IsRoot(p, chainitems[0]) && -1 <= m < |chainitems|
    requires latestdead == if m >= 0 then chainitems[m] else INVALID_OFFSET
    modifies ps, ps.marked
    ensures ps.Plan() == PlanAfter(p, old(ps.Plan()), chainitems, m)
    ensures ChainStep(p, chainitems, m, old(ps.marked[..]), old(ps.view), ps.marked[..], ps.view)
    ensures ndeleted + Stored(ps.view) == old(Stored(ps.view))
  {
    ghost var plan, marks, view := ps.Plan(), ps.marked[..], ps.view;
    ndeleted := 0;
    var rootoffnum := chainitems[0];
    var rootlp := page.items[rootoffnum];
    assert rootlp == p[rootoffnum] == view[rootoffnum];
    if latestdead != INVALID_OFFSET {
      var i;
      i, ndeleted := UnlinkMembers(ps, chainitems, latestdead, m);
      FinishChain(p, chainitems, m, plan, marks, view, ps.Plan(), ps.marked[..], ps.view);
      assert !ps.marked[..][rootoffnum] && (m + 1 < |chainitems| ==> !ps.marked[..][chainitems[m+1]]);
      ghost var newRoot := if i >= |chainitems| then Dead else Redirect(chainitems[i]);
      if rootlp.Normal? {
        StoredUpdate(ps.view, rootoffnum, newRoot);
        ndeleted := ndeleted + 1;
      } else {
        StoredSame(ps.view, rootoffnum, newRoot);
      }
      if i >= |chainitems| {
        ps.RecordDead(rootoffnum);
      } else {
        ps.RecordRedirect(rootoffnum, chainitems[i]);
      }
    } else if |chainitems| < 2 && rootlp.Redirect? {
      StoredSame(view, rootoffnum, Dead);
      ps.RecordDead(rootoffnum);
    }
  }

  /** heap_prune_chain for an item that index entries can name. */
  method PruneRootChain(page: Page, rootoffnum: OffsetNumber, ps: PruneState, ghost p: Items, ghost rank: seq<nat>,
                        ghost htsv: seq<HTSV>)
    returns (ndeleted: nat)
    requires InProgress(page, p, rank, htsv, ps, rootoffnum)
    requires IsRoot(p, rootoffnum) && !ps.marked[rootoffnum]
    modifies ps, ps.marked
    ensures InProgress(page, p, rank, htsv, ps, rootoffnum + 1)
    ensures ndeleted + Stored(ps.view) == old(Stored(ps.view))
  {
    ghost var plan, marks, view := ps.Plan(), ps.marked[..], ps.view;
    ghost var m;
    var chainitems, latestdead;
    chainitems, latestdead, m := WalkChain(page, rootoffnum, ps, p, rank, htsv, marks);
    WalkFacts(p, rank, chainitems);
    ChainRoom(p, plan, marks, view, chainitems, m);
    ndeleted := RecordChain(page, ps, chainitems, latestdead, p, m);
    ChainStepKeepsPlanned(p, rank, htsv, plan, marks, view, chainitems, m, ps.marked[..], ps.view);
    assert ps.htsv[..|p|] == htsv;
  }

  /** heap_prune_chain: plan the pruning of the item, or of the chain, that starts at
      `rootoffnum`.  Returns the number of tuples that will lose their storage. */
  method HeapPruneChain(page: Page, rootoffnum: OffsetNumber, ps: PruneState, ghost p: Items, ghost rank: seq<nat>,
                        ghost htsv: seq<HTSV>)
    returns (ndeleted: nat)
    requires InProgress(page, p, rank, htsv, ps, rootoffnum)
    requires InRange(p, rootoffnum) && !ps.marked[rootoffnum]
    requires p[rootoffnum].Normal? || p[rootoffnum].Redirect?
    modifies ps, ps.marked
    ensures InProgress(page, p, rank, htsv, ps, rootoffnum + 1)
    ensures ndeleted + Stored(ps.view) == old(Stored(ps.view))
  {
    ghost var plan, marks, view := ps.Plan(), ps.marked[..], ps.view;
    ndeleted := 0;
    var rootlp := page.items[rootoffnum];
    assert rootlp == p[rootoffnum];
    if rootlp.Normal? && rootlp.tup.heapOnly {
      if ps.htsv[rootoffnum] == DeadTuple && !rootlp.tup.hotUpdated {
        ListsHaveRoom(p, plan, marks, view, rootoffnum);
        StoredUpdate(view, rootoffnum, Unused);
        ReapKeepsPlanned(p, rank, htsv, plan, marks, view, rootoffnum);
        ps.RecordUnused(rootoffnum);
        ndeleted := ndeleted + 1;
        assert ps.htsv[..|p|] == htsv;
      } else {
        SkipKeepsPlanned(p, rank, htsv, plan, marks, view, rootoffnum);
      }
      return;
    }
    ndeleted := PruneRootChain(page, rootoffnum, ps, p, rank, htsv);
  }

  lemma ChainRoom(p: Items, plan: PrunePlan.Plan, marks: seq<bool>, view: Items, c: seq<int>, m: int)
    requires Consistent(p, plan, marks, view) && |p| <= MAX_TUPLES_PER_PAGE + 1
    requires |c| > 0 && NoDup(c) && Unmarked(p, marks, c) && -1 <= m < |c|
    ensures |plan.nowunused| + m <= MAX_TUPLES_PER_PAGE
    ensures |plan.redirected| < MAX_TUPLES_PER_PAGE && |plan.nowdead| < MAX_TUPLES_PER_PAGE
    ensures forall j :: 0 <= j < |c| ==> !marks[c[j]] && view[c[j]] == p[c[j]]
  {
    ListsHaveRoom(p, plan, marks, view, c[0]);
    DistinctOffsets(plan.nowunused + c[..m+1], MAX_TUPLES_PER_PAGE);
  }

  // --------------------------------------------------------------- pg_tde_page_prune

  /** The page without the unused line pointers at its end. */
  function WithoutTrailingUnused(p: Items): (r: Items)
    ensures |r| <= |p| && r == p[..|r|]
    ensures |r| == 1 || !r[|r|-1].Unused?
    ensures forall k :: |r| <= k < |p| ==> p[k].Unused?
  {
    if |p| > 1 && p[|p|-1].Unused? then WithoutTrailingUnused(p[..|p|-1]) else p
  }

  /** The line pointer half of TdePageRepairFragmentation: find the last used line pointer and
      drop the ones behind it. */
  method TruncateLinePointers(page: Page, ghost view: Items)
    requires page.Valid() && page.Items() == view
    modifies page`maxoff
    ensures page.Valid() && page.Items() == WithoutTrailingUnused(view)
  {
    var nline := page.maxoff;
    var finalusedlp := 0;
    for i := 1 to nline + 1
      invariant 0 <= finalusedlp < i && (finalusedlp == 0 || !view[finalusedlp].Unused?)
      invariant forall k :: finalusedlp < k < i ==> view[k].Unused?
    {
      assert page.items[i] == view[i];
      if !page.items[i].Unused? {
        finalusedlp := i;
      }
    }
    if finalusedlp != nline {
      page.maxoff := finalusedlp;
    }
    ghost var r := WithoutTrailingUnused(view);
    assert |r| == finalusedlp + 1 by {
      assert |r| > 1 ==> r[|r|-1] == view[|r|-1];
    }
    assert page.items[..finalusedlp + 1] == view[..finalusedlp + 1];
  }

  method ApplyRedirects(page: Page, redirected: seq<Redirection>, ghost p: Items, ghost marks: seq<bool>,
                        ghost view: Items)
    requires page.Valid() && page.maxoff + 1 == |p| == |view| <= |marks| && RedirectionsFit(p, redirected, marks, view)
    modifies page.items
    ensures forall k :: 0 <= k < |p| ==> page.items[k] == old(page.items[k]) || (k > 0 && page.items[k] == view[k])
    ensures forall i :: 0 <= i < |redirected| ==> page.items[redirected[i].from] == view[redirected[i].from]
  {
    for i := 0 to |redirected|
      invariant forall k :: 0 <= k < |p| ==> page.items[k] == old(page.items[k]) || (k > 0 && page.items[k] == view[k])
      invariant forall j :: 0 <= j < i ==> page.items[redirected[j].from] == view[redirected[j].from]
    {
      page.items[redirected[i].from] := Redirect(redirected[i].to);
    }
  }

  method ApplyDead(page: Page, nowdead: seq<OffsetNumber>, ghost p: Items, ghost marks: seq<bool>, ghost view: Items)
    requires page.Valid() && page.maxoff + 1 == |p| == |view| <= |marks| && DeadFit(p, nowdead, marks, view)
    modifies page.items
    ensures forall k :: 0 <= k < |p| ==> page.items[k] == old(page.items[k]) || (k > 0 && page.items[k] == view[k])
    ensures forall i :: 0 <= i < |nowdead| ==> page.items[nowdead[i]] == view[nowdead[i]]
  {
    for i := 0 to |nowdead|
      invariant forall k :: 0 <= k < |p| ==> page.items[k] == old(page.items[k]) || (k > 0 && page.items[k] == view[k])
      invariant forall j :: 0 <= j < i ==> page.items[nowdead[j]] == view[nowdead[j]]
    {
      page.items[nowdead[i]] := Dead;
    }
  }

  method ApplyUnused(page: Page, nowunused: seq<OffsetNumber>, ghost p: Items, ghost marks: seq<bool>,
                     ghost view: Items)
    requires page.Valid() && page.maxoff + 1 == |p| == |view| <= |marks| && UnusedFit(p, nowunused, marks, view)
    modifies page.items
    ensures forall k :: 0 <= k < |p| ==> page.items[k] == old(page.items[k]) || (k > 0 && page.items[k] == view[k])
    ensures forall i :: 0 <= i < |nowunused| ==> page.items[nowunused[i]] == view[nowunused[i]]
  {
    for i := 0 to |nowunused|
      invariant forall k :: 0 <= k < |p| ==> page.items[k] == old(page.items[k]) || (k > 0 && page.items[k] == view[k])
      invariant forall j :: 0 <= j < i ==> page.items[nowunused[j]] == view[nowunused[j]]
    {
      page.items[nowunused[i]] := Unused;
    }
  }

  /** pg_tde_page_prune_execute: apply a plan to the line pointers.  `Consistent` says of every
      entry what the source asserts of it. */
  method PruneExecute(page: Page, redirected: seq<Redirection>, nowdead: seq<OffsetNumber>,
                      nowunused: seq<OffsetNumber>, ghost p: Items, ghost marks: seq<bool>, ghost view: Items)
    requires page.Valid() && p == page.Items()
    requires Consistent(p, PrunePlan.Plan(redirected, nowdead, nowunused), marks, view)
    modifies page, page.items
    ensures page.Valid() && page.Items() == WithoutTrailingUnused(view)
  {
    assert forall k :: 0 <= k < |p| ==> page.items[k] == p[k];
    ApplyRedirects(page, redirected, p, marks, view);
    ApplyDead(page, nowdead, p, marks, view);
    ApplyUnused(page, nowunused, p, marks, view);
    forall k | 0 <= k < |p| ensures page.items[k] == view[k] {
      if k > 0 && p[k] != view[k] {
        assert Listed(PrunePlan.Plan(redirected, nowdead, nowunused), k);
      }
    }
    assert page.Items() == view;
    TruncateLinePointers(page, view);
  }

  /** Every tuple is judged once, before any chain is walked. */
  method JudgeTuples(page: Page, ps: PruneState, satisfiesVacuum: HeapTuple -> HTSV, ghost p: Items)
    requires page.Valid() && p == page.Items() && ps.htsv.Length == MAX_TUPLES_PER_PAGE + 1
    modifies ps.htsv
    ensures forall k :: IsNormal(p, k) ==> ps.htsv[k] == satisfiesVacuum(p[k].tup)
  {
    var offnum := page.maxoff;
    while offnum >= 1
      invariant 0 <= offnum <= page.maxoff
      invariant forall k :: offnum < k && IsNormal(p, k) ==> ps.htsv[k] == satisfiesVacuum(p[k].tup)
    {
      var itemid := page.items[offnum];
      assert itemid == p[offnum];
      if itemid.Normal? {
        ps.htsv[offnum] := satisfiesVacuum(itemid.tup);
      } else {
        ps.htsv[offnum] := NotComputed;
      }
      offnum := offnum - 1;
    }
  }

  /** Every snapshot that the horizon respects finds on `q`, from every TID, the very tuple it
      found on `p`. */
  ghost predicate ScansAlike(p: Items, rank: seq<nat>, htsv: seq<HTSV>, q: Items)
    requires WellFormed(p, rank) && Judged(p, htsv)
  {
    && |q| <= |p| && WellFormed(q, rank[..|q|])
    && (forall sees, tid | Admissible(p, rank, htsv, sees) :: SameTuple(p, rank, q, sees, tid))
  }

  ghost predicate SameTuple(p: Items, rank: seq<nat>, q: Items, sees: Snapshot, tid: int)
    requires WellFormed(p, rank) && |q| <= |p| && WellFormed(q, rank[..|q|])
  {
    var k := HotSearch(p, rank, tid, sees);
    HotSearch(q, rank[..|q|], tid, sees) == k && (k != INVALID_OFFSET ==> q[k] == p[k])
  }

  /** pg_tde_page_prune: prune every chain of the page.  The ghost results witness the plan that
      was made; `Finished` is what the lemmas of PruneSafety start from. */
  method PagePrune(page: Page, satisfiesVacuum: HeapTuple -> HTSV, ghost rank: seq<nat>)
    returns (ndeleted: nat, nnewlpdead: nat, ghost htsv: seq<HTSV>, ghost plan: PrunePlan.Plan,
             ghost marks: seq<bool>, ghost view: Items)
    requires page.Valid() && WellFormed(page.Items(), rank)
    requires forall t :: satisfiesVacuum(t) != NotComputed
    modifies page, page.items
    ensures page.Valid()
    ensures var p := old(page.Items());
      && Judged(p, htsv) && (forall k :: IsNormal(p, k) ==> htsv[k] == satisfiesVacuum(p[k].tup))
      && Finished(p, rank, htsv, plan, marks, view)
      && page.Items() == (if view == p then p else WithoutTrailingUnused(view))
      && ndeleted == Stored(p) - Stored(view)
    ensures nnewlpdead == |plan.nowdead|
    ensures ScansAlike(old(page.Items()), rank, htsv, page.Items())
  {
    ghost var p := page.Items();
    var ps;
    ps, htsv := StartPruning(page, satisfiesVacuum, p, rank);
    ndeleted := PruneChains(page, ps, p, rank, htsv);
    plan, marks, view := ps.Plan(), ps.marked[..], ps.view;
    nnewlpdead := |ps.nowdead|;
    if |ps.redirected| > 0 || |ps.nowdead| > 0 || |ps.nowunused| > 0 {
      SomethingPlanned(p, rank, htsv, plan, marks, view);
      PruneExecute(page, ps.redirected, ps.nowdead, ps.nowunused, p, marks, view);
    } else {
      NothingChanged(p, plan, marks, view);
    }
    PruneAndTruncateScanAlike(p, rank, htsv, plan, marks, view);
    ScansAlikeItself(p, rank, htsv);
  }

  /** Every tuple is judged, and nothing planned yet. */
  method StartPruning(page: Page, satisfiesVacuum: HeapTuple -> HTSV, ghost p: Items, ghost rank: seq<nat>)
    returns (ps: PruneState, ghost htsv: seq<HTSV>)
    requires page.Valid() && p == page.Items() && WellFormed(p, rank)
    requires forall t :: satisfiesVacuum(t) != NotComputed
    ensures fresh(ps) && fresh(ps.marked) && fresh(ps.htsv) && ps.view == p
    ensures InProgress(page, p, rank, htsv, ps, 1)
    ensures forall k :: IsNormal(p, k) ==> htsv[k] == satisfiesVacuum(p[k].tup)
  {
    ps := new PruneState();
    JudgeTuples(page, ps, satisfiesVacuum, p);
    ps.view := p;
    htsv := ps.htsv[..|p|];
    NothingPlanned(p, rank, htsv, ps.marked[..]);
  }

  lemma NothingChanged(p: Items, plan: PrunePlan.Plan, marks: seq<bool>, view: Items)
    requires Consistent(p, plan, marks, view) && plan == PrunePlan.Plan([], [], [])
    ensures view == p
  {
    assert forall k :: InRange(p, k) && view[k] != p[k] ==> Listed(plan, k);
  }

  lemma ScansAlikeItself(p: Items, rank: seq<nat>, htsv: seq<HTSV>)
    requires WellFormed(p, rank) && Judged(p, htsv)
    ensures ScansAlike(p, rank, htsv, p)
  {
    assert rank[..|p|] == rank;
  }

  lemma SomethingPlanned(p: Items, rank: seq<nat>, htsv: seq<HTSV>, plan: PrunePlan.Plan, marks: seq<bool>, view: Items)
    requires WellFormed(p, rank) && Judged(p, htsv) && Finished(p, rank, htsv, plan, marks, view)
    requires plan != PrunePlan.Plan([], [], [])
    ensures view != p
  {
    if |plan.redirected| > 0 {
      assert view[plan.redirected[0].from] != p[plan.redirected[0].from];
    } else if |plan.nowdead| > 0 {
      assert view[plan.nowdead[0]] != p[plan.nowdead[0]];
    } else {
      assert view[plan.nowunused[0]] != p[plan.nowunused[0]];
    }
  }

  /** The loop of pg_tde_page_prune over the items of the page. */
  method PruneChains(page: Page, ps: PruneState, ghost p: Items, ghost rank: seq<nat>, ghost htsv: seq<HTSV>)
    returns (ndeleted: nat)
    requires InProgress(page, p, rank, htsv, ps, 1) && ps.view == p
    modifies ps, ps.marked
    ensures InProgress(page, p, rank, htsv, ps, |p|)
    ensures ndeleted == Stored(p) - Stored(ps.view)
  {
    ndeleted := 0;
    for offnum := 1 to page.maxoff + 1
      invariant InProgress(page, p, rank, htsv, ps, offnum)
      invariant ndeleted == Stored(p) - Stored(ps.view)
    {
      var itemid := page.items[offnum];
      assert itemid == p[offnum];
      if ps.marked[offnum] || itemid.Unused? || itemid.Dead? {
        SkipKeepsPlanned(p, rank, htsv, ps.Plan(), ps.marked[..], ps.view, offnum);
      } else {
        var n := HeapPruneChain(page, offnum, ps, p, rank, htsv);
        ndeleted := ndeleted + n;
      }
    }
  }

  // --------------------------------------------------------------- dropping unused line pointers

  /** Dropping unused line pointers at the end of the array changes no search. */
  lemma {:induction false} TruncationPreservesSearchFrom(v: Items, rank: seq<nat>, k: int, sees: Snapshot)
    requires WellFormed(v, rank) && InRange(v, k) && (v[k].Redirect? || v[k].Normal?)
    ensures var r := WithoutTrailingUnused(v);
      Ranked(r, rank[..|r|]) && InRange(r, k) && Find(r, rank[..|r|], k, sees) == Find(v, rank, k, sees)
    decreases rank[k]
  {
    var r := WithoutTrailingUnused(v);
    TruncationKeepsLinks(v, rank);
    assert Next(r, k) == Next(v, k) by {
      assert forall u :: Link(r, k, u) <==> Link(v, k, u);
    }
    if Next(v, k) != INVALID_OFFSET {
      assert Link(v, k, Next(v, k));
      TruncationPreservesSearchFrom(v, rank, Next(v, k), sees);
    }
    assert SearchAfter(r, rank[..|r|], k, sees) == SearchAfter(v, rank, k, sees);
  }

  lemma TruncationKeepsLinks(v: Items, rank: seq<nat>)
    requires WellFormed(v, rank)
    ensures var r := WithoutTrailingUnused(v);
      WellFormed(r, rank[..|r|]) && forall a, b :: Link(r, a, b) <==> Link(v, a, b)
  {
    var r := WithoutTrailingUnused(v);
    forall a, b ensures Link(r, a, b) <==> Link(v, a, b) {
    }
    forall a, b | Link(r, a, b) ensures rank[..|r|][b] < rank[..|r|][a] {
      assert Link(v, a, b);
    }
  }

  /** MAIN: after pg_tde_page_prune every index scan finds the tuple it found before. */
  lemma PruneAndTruncatePreserveSearch(p: Items, rank: seq<nat>, htsv: seq<HTSV>, plan: PrunePlan.Plan,
                                       marks: seq<bool>, view: Items, sees: Snapshot, tid: int)
    requires WellFormed(p, rank) && Judged(p, htsv) && Finished(p, rank, htsv, plan, marks, view)
    requires Admissible(p, rank, htsv, sees)
    ensures var r := WithoutTrailingUnused(view);
      WellFormed(r, rank[..|r|]) && HotSearch(r, rank[..|r|], tid, sees) == HotSearch(p, rank, tid, sees)
  {
    PruningPreservesSearch(p, rank, htsv, plan, marks, view, sees, tid);
    TruncationKeepsLinks(view, rank);
    if IsRoot(view, tid) {
      TruncationPreservesSearchFrom(view, rank, tid, sees);
    }
  }

  lemma PruneAndTruncateScanAlike(p: Items, rank: seq<nat>, htsv: seq<HTSV>, plan: PrunePlan.Plan, marks: seq<bool>,
                                  view: Items)
    requires WellFormed(p, rank) && Judged(p, htsv) && Finished(p, rank, htsv, plan, marks, view)
    ensures ScansAlike(p, rank, htsv, WithoutTrailingUnused(view))
  {
    var q := WithoutTrailingUnused(view);
    PrunedIsWellFormed(p, rank, htsv, plan, marks, view);
    TruncationKeepsLinks(view, rank);
    forall sees, tid | Admissible(p, rank, htsv, sees) ensures SameTuple(p, rank, q, sees, tid) {
      PruneAndTruncatePreserveSearch(p, rank, htsv, plan, marks, view, sees, tid);
      PruningPreservesSearch(p, rank, htsv, plan, marks, view, sees, tid);
    }
  }
}
