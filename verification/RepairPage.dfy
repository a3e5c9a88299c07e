/** TdePageRepairFragmentation: check the page, collect the tuples that have storage, compact
    them, and drop unused line pointers from the end of the array. */
module RepairPage {
  import opened Base
  import opened Crypt
  import opened Compactify

  datatype Outcome = Repaired | CorruptedPagePointers | CorruptedLinePointer | CorruptedItemLengths

  /** A page: header fields, the line pointer array (from index 0) and the bytes. */
  class PageImage {
    const data: array<bv8>
    const lpState: array<LpState>
    const lpOff: array<nat>
    const lpLen: array<nat>
    var lower: nat
    var upper: nat
    const special: nat
    var hasFreeLines: bool

    ghost predicate Valid()
      reads this
    {
      && 2 * BLCKSZ <= data.Length
      && lpState.Length == lpOff.Length == lpLen.Length
      && lpOff as object !in {data as object, lpLen as object, lpState as object}
      && data as object !in {lpLen as object, lpState as object}
      && MaxOffset() <= lpState.Length
    }

    /** PageGetMaxOffsetNumber */
    function MaxOffset(): nat
      reads this
    {
      if lower <= SIZE_OF_PAGE_HEADER then 0 else (lower - SIZE_OF_PAGE_HEADER) / SIZE_OF_ITEM_ID
    }
  }

  /** The items with storage among the first `n` line pointers, in line pointer order. */
  function Collected(states: seq<LpState>, offs: seq<nat>, lens: seq<nat>, n: nat): seq<ItemIdCompact>
    requires n <= |states| && |states| == |offs| == |lens|
  {
    if n == 0 then []
    else if states[n-1] != LpUnused && lens[n-1] != 0
    then Collected(states, offs, lens, n - 1) + [ItemIdCompact(n - 1, offs[n-1], lens[n-1], MaxAlign(lens[n-1]))]
    else Collected(states, offs, lens, n - 1)
  }

  lemma {:induction false} CollectedItems(states: seq<LpState>, offs: seq<nat>, lens: seq<nat>, n: nat)
    requires n <= |states| && |states| == |offs| == |lens|
    ensures forall k :: 0 <= k < |Collected(states, offs, lens, n)| ==>
      var it := Collected(states, offs, lens, n)[k];
      it.offsetindex < n && states[it.offsetindex] != LpUnused && it.itemoff == offs[it.offsetindex] &&
      it.len == lens[it.offsetindex] && it.alignedlen == MaxAlign(it.len)
  {
    if n > 0 {
      CollectedItems(states, offs, lens, n - 1);
    }
  }

  predicate PagePointersCorrupt(lower: nat, upper: nat, special: nat) {
    lower < SIZE_OF_PAGE_HEADER || lower > upper || upper > special || special > BLCKSZ || special != MaxAlign(special)
  }

  predicate Misplaced(item: ItemIdCompact, upper: nat, special: nat) {
    item.itemoff < upper || item.itemoff >= special
  }

  /** Number of line pointers up to the last one that is used. */
  function UsedLines(states: seq<LpState>, n: nat): (r: nat)
    requires n <= |states|
    ensures r <= n && (r > 0 ==> !states[r-1].LpUnused?)
    ensures forall i :: r <= i < n ==> states[i].LpUnused?
  {
    if n == 0 then 0 else if states[n-1].LpUnused? then UsedLines(states, n - 1) else n
  }

  /** Number of unused line pointers among the first `n`. */
  function UnusedLines(states: seq<LpState>, n: nat): nat
    requires n <= |states|
  {
    if n == 0 then 0 else UnusedLines(states, n - 1) + if states[n-1].LpUnused? then 1 else 0
  }

  /** Walk the line pointer array: collect the tuples, check each, and find out whether they are
      presorted. */
  method CollectItems(pg: PageImage)
    returns (bad: bool, items: seq<ItemIdCompact>, presorted: bool, totallen: nat, finalused: nat, nunused: nat)
    requires pg.Valid() && pg.special <= BLCKSZ
    ensures var all := Collected(pg.lpState[..], pg.lpOff[..], pg.lpLen[..], pg.MaxOffset());
      && (bad <==> AnyMisplaced(all, pg.upper, pg.special))
      && (!bad ==> items == all && totallen == Fill(items, |items|) && (presorted <==> Descending(items)))
    ensures !bad ==> finalused == UsedLines(pg.lpState[..], pg.MaxOffset()) && pg.MaxOffset() - finalused <= nunused
    ensures !bad ==> (nunused > 0 <==> exists i :: 0 <= i < pg.MaxOffset() && pg.lpState[i].LpUnused?)
    ensures !bad ==>
      (nunused > pg.MaxOffset() - finalused <==> exists i :: 0 <= i < finalused && pg.lpState[i].LpUnused?)
  {
    var nline := pg.MaxOffset();
    ghost var states, offs, lens := pg.lpState[..], pg.lpOff[..], pg.lpLen[..];
    items, presorted, totallen, finalused, nunused, bad := [], true, 0, 0, 0, false;
    var last := pg.special;
    for i := 0 to nline
      invariant items == Collected(states, offs, lens, i) && totallen == Fill(items, |items|)
      invariant presorted <==> Descending(items)
      invariant presorted ==> last == if items == [] then pg.special else items[|items|-1].itemoff
      invariant forall k :: 0 <= k < |items| ==> !Misplaced(items[k], pg.upper, pg.special)
      invariant finalused == UsedLines(states, i)
      invariant nunused == UnusedLines(states, i)
    {
      if pg.lpState[i] != LpUnused {
        if pg.lpLen[i] != 0 {
          var item := ItemIdCompact(i, pg.lpOff[i], pg.lpLen[i], MaxAlign(pg.lpLen[i]));
          if last > item.itemoff {
            last := item.itemoff;
          } else {
            presorted := false;
          }
          ghost var before := items;
          items := items + [item];
          if item.itemoff < pg.upper || item.itemoff >= pg.special {
            bad := true;
            assert Collected(states, offs, lens, i + 1)[|before|] == item && Misplaced(item, pg.upper, pg.special);
            StillBad(states, offs, lens, i + 1, nline, pg.upper, pg.special);
            return;
          }
          FillOfPrefix(before, [item], |before|);
          totallen := totallen + item.alignedlen;
          DescendingMore(before, item);
        }
        finalused := i + 1;
      } else {
        nunused := nunused + 1;
      }
    }
    UnusedBefore(states, nline);
  }

  /** What the number of unused line pointers tells, of all and of those before the last used one. */
  lemma {:induction false} UnusedBefore(states: seq<LpState>, n: nat)
    requires n <= |states|
    ensures UnusedLines(states, n) > 0 <==> exists i :: 0 <= i < n && states[i].LpUnused?
    ensures UnusedLines(states, n) >= n - UsedLines(states, n)
    ensures UnusedLines(states, n) > n - UsedLines(states, n) <==>
      exists i :: 0 <= i < UsedLines(states, n) && states[i].LpUnused?
  {
    if n > 0 {
      UnusedBefore(states, n - 1);
    }
  }

  lemma DescendingMore(items: seq<ItemIdCompact>, item: ItemIdCompact)
    ensures Descending(items + [item]) <==>
      Descending(items) && (items != [] ==> item.itemoff < items[|items|-1].itemoff)
  {
    var more := items + [item];
    assert forall k :: 0 < k < |items| ==> Lower(more, k) == Lower(items, k);
    assert items != [] ==> Lower(more, |items|) == (item.itemoff < items[|items|-1].itemoff);
  }

  lemma {:induction false} FillOfPrefix(a: seq<ItemIdCompact>, b: seq<ItemIdCompact>, n: nat)
    requires n <= |a|
    ensures Fill(a + b, n) == Fill(a, n)
  {
    if n > 0 {
      FillOfPrefix(a, b, n - 1);
      assert (a + b)[n-1] == a[n-1];
    }
  }

  lemma {:induction false} StillBad(states: seq<LpState>, offs: seq<nat>, lens: seq<nat>, i: nat, n: nat, upper: nat,
                                    special: nat)
    requires i <= n <= |states| && |states| == |offs| == |lens|
    requires AnyMisplaced(Collected(states, offs, lens, i), upper, special)
    ensures AnyMisplaced(Collected(states, offs, lens, n), upper, special)
    decreases n
  {
    if i < n {
      StillBad(states, offs, lens, i, n - 1, upper, special);
      var k :| 0 <= k < |Collected(states, offs, lens, n - 1)| &&
        Misplaced(Collected(states, offs, lens, n - 1)[k], upper, special);
      assert Collected(states, offs, lens, n)[k] == Collected(states, offs, lens, n - 1)[k];
    }
  }

  ghost function Items(pg: PageImage): seq<ItemIdCompact>
    requires pg.Valid()
    reads pg, pg.lpState, pg.lpOff, pg.lpLen
  {
    Collected(pg.lpState[..], pg.lpOff[..], pg.lpLen[..], pg.MaxOffset())
  }

  ghost predicate AnyMisplaced(items: seq<ItemIdCompact>, upper: nat, special: nat) {
    exists k :: 0 <= k < |items| && Misplaced(items[k], upper, special)
  }

  /** What the page must satisfy that the code does not check: tuples have at least a header, do
      not overlap and end inside the page. */
  ghost predicate Sound(items: seq<ItemIdCompact>, special: nat) {
    && Apart(items)
    && (forall k :: 0 <= k < |items| ==> HEADER_SIZE <= items[k].len && items[k].End() <= special)
  }

  /** The layout of a page with these items. */
  function LayoutOf(items: seq<ItemIdCompact>, special: nat, nline: nat): Layout {
    Layout(items, special, PathOf(Descending(items), |items|, nline))
  }

  /** The page after compaction: line pointers name the packed places, and every slot and what lies
      behind the tuples hold what the re-encryptions come to. */
  ghost predicate Compacted(e: Cipher, bn: nat, lay: Layout, was: Bytes, now: Bytes, lps: seq<nat>, lpNow: seq<nat>)
    requires IsBlockCipher(e)
  {
    && lay.Valid() && (forall k :: 0 <= k < |lay.items| ==> lay.items[k].offsetindex < |lps|)
    && Repointed(lay.items, lay.special, lps, lpNow, |lay.items|)
    && PageDone(JobFor(e, bn, lay), was, now)
  }

  /** Every tuple begins at a multiple of eight. */
  ghost predicate AllAligned(items: seq<ItemIdCompact>, lps: seq<nat>) {
    forall k :: 0 <= k < |items| ==> items[k].offsetindex < |lps| && lps[items[k].offsetindex] % 8 == 0
  }

  lemma SlotsAreAligned(states: seq<LpState>, offs: seq<nat>, lens: seq<nat>, n: nat, special: nat,
                        items: seq<ItemIdCompact>, lpNow: seq<nat>)
    requires n <= |states| && |states| == |offs| == |lens| && items == Collected(states, offs, lens, n)
    requires forall k :: 0 <= k < |items| ==> items[k].offsetindex < |offs|
    requires special == MaxAlign(special) && Repointed(items, special, offs, lpNow, |items|)
    ensures Upper(items, special, |items|) % 8 == 0 && AllAligned(items, lpNow)
  {
    CollectedItems(states, offs, lens, n);
    forall k | 0 <= k < |items| ensures items[k].alignedlen % 8 == 0 {
      MaxAligned(items[k].len);
    }
    UpperIsAligned(items, special, |items|);
    forall k | 0 <= k < |items| ensures lpNow[items[k].offsetindex] % 8 == 0 {
      UpperIsAligned(items, special, k + 1);
    }
  }

  lemma CollectedAreReady(states: seq<LpState>, offs: seq<nat>, lens: seq<nat>, n: nat, lower: nat, upper: nat,
                          special: nat)
    requires n <= |states| && |states| == |offs| == |lens| && special <= BLCKSZ
    requires Sound(Collected(states, offs, lens, n), special)
    requires !AnyMisplaced(Collected(states, offs, lens, n), upper, special)
    requires Fill(Collected(states, offs, lens, n), |Collected(states, offs, lens, n)|) <= special
    ensures var items := Collected(states, offs, lens, n);
      && Roomy(items, special) && Apart(items)
      && forall k :: 0 <= k < |items| ==>
        items[k].offsetindex < |offs| && offs[items[k].offsetindex] == items[k].itemoff && upper <= items[k].itemoff
  {
    CollectedItems(states, offs, lens, n);
  }

  /** Compact the collected tuples; a page without tuples is reset. */
  method CompactPage(e: Cipher, bn: nat, pg: PageImage, items: seq<ItemIdCompact>, presorted: bool, nline: nat,
                     ghost was: Bytes, ghost lps: seq<nat>)
    requires IsBlockCipher(e) && pg.Valid() && was == pg.data[..] && lps == pg.lpOff[..]
    requires Roomy(items, pg.special) && Apart(items) && (presorted <==> Descending(items))
    requires forall k :: 0 <= k < |items| ==>
      items[k].offsetindex < |lps| && lps[items[k].offsetindex] == items[k].itemoff && pg.upper <= items[k].itemoff
    modifies pg`upper, pg.data, pg.lpOff
    ensures pg.upper == Upper(items, pg.special, |items|)
    ensures Compacted(e, bn, LayoutOf(items, pg.special, nline), was, pg.data[..], lps, pg.lpOff[..])
  {
    if |items| == 0 {
      pg.upper := pg.special;
      NothingToCompact(e, bn, LayoutOf(items, pg.special, nline), was);
    } else {
      SlackSuffices(LayoutOf(items, pg.special, nline), pg.data.Length);
      var u := CompactifyTuples(e, bn, pg.data, pg.lpOff, items, pg.upper, pg.special, nline, presorted);
      pg.upper := u;
    }
  }

  lemma NothingToCompact(e: Cipher, bn: nat, lay: Layout, was: Bytes)
    requires IsBlockCipher(e) && lay.items == [] && lay.special <= BLCKSZ <= |was|
    ensures lay.Valid() && PageDone(JobFor(e, bn, lay), was, was)
  {
    XorIsNeutral(JobFor(e, bn, lay), e, bn);
  }

  /** Cut unused line pointers off the end of the array, and record whether others remain. */
  method DropTrailingUnused(pg: PageImage, nline: nat, finalused: nat, nunused: nat)
    requires nline == pg.MaxOffset() && finalused <= nline
    requires nline - finalused <= nunused
    modifies pg`lower, pg`hasFreeLines
    ensures pg.MaxOffset() == finalused
    ensures pg.hasFreeLines <==> nunused > nline - finalused
  {
    var left := nunused;
    if finalused != nline {
      left := nunused - (nline - finalused);
      pg.lower := pg.lower - SIZE_OF_ITEM_ID * (nline - finalused);
    }
    pg.hasFreeLines := left > 0;
  }

  /** Which check a page fails, if any. */
  ghost function Verdict(items: seq<ItemIdCompact>, lower: nat, upper: nat, special: nat): Outcome {
    if PagePointersCorrupt(lower, upper, special) then CorruptedPagePointers
    else if AnyMisplaced(items, upper, special) then CorruptedLinePointer
    else if items != [] && Fill(items, |items|) > special - lower then CorruptedItemLengths
    else Repaired
  }

  /** The checks, which come before any change. */
  method CheckPage(pg: PageImage)
    returns (r: Outcome, items: seq<ItemIdCompact>, presorted: bool, finalused: nat, nunused: nat)
    requires pg.Valid()
    ensures r == Verdict(Items(pg), pg.lower, pg.upper, pg.special)
    ensures r == Repaired ==>
      && items == Items(pg) && (presorted <==> Descending(items))
      && finalused == UsedLines(pg.lpState[..], pg.MaxOffset()) && pg.MaxOffset() - finalused <= nunused
      && (nunused > pg.MaxOffset() - finalused <==> exists i :: 0 <= i < finalused && pg.lpState[i].LpUnused?)
  {
    items, presorted, finalused, nunused := [], true, 0, 0;
    if pg.lower < SIZE_OF_PAGE_HEADER || pg.lower > pg.upper || pg.upper > pg.special || pg.special > BLCKSZ ||
       pg.special != MaxAlign(pg.special) {
      return CorruptedPagePointers, items, presorted, finalused, nunused;
    }
    var bad, totallen;
    bad, items, presorted, totallen, finalused, nunused := CollectItems(pg);
    r := if bad then CorruptedLinePointer
         else if |items| > 0 && totallen > pg.special - pg.lower then CorruptedItemLengths
         else Repaired;
  }

  /** TdePageRepairFragmentation. */
  method RepairFragmentation(e: Cipher, bn: nat, pg: PageImage) returns (r: Outcome)
    requires IsBlockCipher(e) && pg.Valid()
    requires pg.special <= BLCKSZ ==> Sound(Items(pg), pg.special)
    modifies pg`lower, pg`upper, pg`hasFreeLines, pg.data, pg.lpOff
    ensures r == Verdict(old(Items(pg)), old(pg.lower), old(pg.upper), pg.special)
    ensures r != Repaired ==> unchanged(pg) && unchanged(pg.data) && unchanged(pg.lpOff)
    ensures r == Repaired ==> pg.upper == Upper(old(Items(pg)), pg.special, |old(Items(pg))|)
    ensures r == Repaired ==>
      Compacted(e, bn, LayoutOf(old(Items(pg)), pg.special, old(pg.MaxOffset())),
                old(pg.data[..]), pg.data[..], old(pg.lpOff[..]), pg.lpOff[..])
    ensures r == Repaired ==>
      && pg.MaxOffset() == UsedLines(pg.lpState[..], old(pg.MaxOffset()))
      && (pg.hasFreeLines <==> exists i :: 0 <= i < pg.MaxOffset() && pg.lpState[i].LpUnused?)
    ensures r == Repaired ==> pg.upper % 8 == 0 && AllAligned(old(Items(pg)), pg.lpOff[..])
  {
    ghost var was, lps, states := pg.data[..], pg.lpOff[..], pg.lpState[..];
    var nline := pg.MaxOffset();
    var items, presorted, finalused, nunused;
    r, items, presorted, finalused, nunused := CheckPage(pg);
    if r == Repaired {
      CollectedAreReady(states, lps, pg.lpLen[..], nline, pg.lower, pg.upper, pg.special);
      CompactPage(e, bn, pg, items, presorted, nline, was, lps);
      SlotsAreAligned(states, lps, pg.lpLen[..], nline, pg.special, items, pg.lpOff[..]);
      DropTrailingUnused(pg, nline, finalused, nunused);
    }
  }
}
