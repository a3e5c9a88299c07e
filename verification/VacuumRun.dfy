/** A whole vacuum, as far as line pointers and indexes are concerned: dead line pointers are collected,
    removed from every index, and only then made unused, while other backends keep working. */
module VacuumRun {
  import opened Base

  const FAILSAFE_EVERY_PAGES: nat := 524288

  /** Index vacuuming is bypassed only if fewer than one page in so many has dead line pointers, */
  const BYPASS_FRACTION: nat := 50
  /** and they take less than 32 MB. */
  const BYPASS_MAX_ITEMS: nat := 5592404

  /** What vacuum shares with other backends: the line pointers of each page, and the TIDs in each index. */
  datatype Shared = Shared(pages: seq<seq<LpState>>, indexes: seq<set<Tid>>)
  {
    function At(t: Tid): LpState {
      if t.block < |pages| && t.off < |pages[t.block]| then pages[t.block][t.off] else LpUnused
    }

    predicate IsDead(t: Tid) {
      At(t).LpDead?
    }

    predicate Indexed(t: Tid) {
      exists i :: 0 <= i < |indexes| && t in indexes[i]
    }

    /** What all index access methods rely on: no index entry names an unused line pointer. */
    ghost predicate Safe() {
      forall t :: Indexed(t) ==> !At(t).LpUnused?
    }

    ghost predicate SmallPages() {
      forall b :: 0 <= b < |pages| ==> |pages[b]| <= MAX_TUPLES_PER_PAGE
    }

    ghost predicate Sane() {
      Safe() && SmallPages()
    }
  }

  /** What other backends may do, and pruning too: only vacuum changes a dead line pointer or may leave
      one without its index entries, and nobody makes an index entry for a dead line pointer. */
  ghost predicate Lawful(s: Shared, s': Shared) {
    && |s'.pages| >= |s.pages| && |s'.indexes| == |s.indexes| && (s.SmallPages() ==> s'.SmallPages())
    && (forall t :: s.IsDead(t) ==> s'.IsDead(t))
    && (forall i, t :: 0 <= i < |s.indexes| && t in s'.indexes[i] && t !in s.indexes[i] ==> !s'.IsDead(t))
    && (s.Safe() ==> s'.Safe())
  }

  /** The other backends: what they make of the shared state at each moment. */
  type Others = (nat, Shared) -> Shared

  ghost predicate AllLawful(others: Others) {
    forall k: nat, s: Shared :: Lawful(s, others(k, s))
  }

  /** A step of vacuum that changes no line pointer for anybody, and at most takes dead ones out of indexes. */
  ghost predicate Tidies(s: Shared, s': Shared) {
    && |s'.pages| == |s.pages| && |s'.indexes| == |s.indexes| && (forall t :: s'.At(t) == s.At(t))
    && (forall i, t :: 0 <= i < |s.indexes| && t in s'.indexes[i] ==> t in s.indexes[i])
    && (forall i, t :: 0 <= i < |s.indexes| && t in s.indexes[i] && t !in s'.indexes[i] ==> s.IsDead(t))
  }

  /** A step of vacuum that makes the dead line pointer at `t` unused, and changes no other. */
  ghost predicate Frees(s: Shared, s': Shared, t: Tid) {
    && s.IsDead(t) && !s.Indexed(t) && s'.At(t).LpUnused? && (forall u :: u != t ==> s'.At(u) == s.At(u))
    && |s'.pages| == |s.pages| && s'.indexes == s.indexes
  }

  /** A state that anyone could see, the turns that the others have had by then, the line pointers that vacuum has
      made unused and collected, in that order, and the blocks it has looked at. */
  datatype Moment = Moment(s: Shared, clock: nat, freed: seq<Tid>, collected: seq<Tid>, blocks: seq<nat>)

  /** What brings about the next one: the others have a turn, or vacuum does something. */
  datatype Event = Turn | Freeing(t: Tid) | Tidying | Collecting(b: nat, found: seq<Tid>)

  ghost function Members(tids: seq<Tid>): iset<Tid> {
    iset t | t in tids
  }

  /** The dead line pointers of a block. */
  ghost function DeadOfBlock(s: Shared, b: nat): iset<Tid> {
    iset t: Tid | t.block == b && s.IsDead(t)
  }

  ghost predicate Brings(e: Event, m: Moment, m': Moment, others: Others) {
    match e
    case Turn => m' == m.(s := others(m.clock, m.s), clock := m.clock + 1)
    case Freeing(t) => Frees(m.s, m'.s, t) && m' == m.(s := m'.s, freed := m.freed + [t])
    case Tidying => Tidies(m.s, m'.s) && m' == m.(s := m'.s)
    case Collecting(b, found) =>
      Members(found) == DeadOfBlock(m.s, b) && m' == m.(collected := m.collected + found, blocks := m.blocks + [b])
  }

  datatype Log = Log(h: seq<Moment>, events: seq<Event>)

  /** Step `k` is one that can happen, and no index entry then names an unused line pointer. */
  ghost predicate Step(x: Log, k: nat, others: Others)
    requires k < |x.events| && |x.h| == |x.events| + 1
  {
    Brings(x.events[k], x.h[k], x.h[k+1], others) && x.h[k+1].s.Sane()
  }

  /** All that can happen. */
  ghost function Logs(start: Shared, others: Others): iset<Log> {
    iset x: Log |
      && |x.h| == |x.events| + 1 && x.h[0] == Moment(start, 0, [], [], []) && start.Sane()
      && forall k {:trigger Step(x, k, others)} :: 0 <= k < |x.events| ==> Step(x, k, others)
  }

  lemma Happens(x: Log, e: Event, m: Moment, m': Moment, start: Shared, others: Others)
    requires x in Logs(start, others) && x.h[|x.h|-1] == m && m'.s.Sane() && Brings(e, m, m', others)
    ensures Log(x.h + [m'], x.events + [e]) in Logs(start, others)
  {
    var n, y := |x.events|, Log(x.h + [m'], x.events + [e]);
    forall k | 0 <= k <= n ensures Step(y, k, others) {
      if k < n {
        assert y.events[k] == x.events[k] && y.h[k] == x.h[k] && y.h[k+1] == x.h[k+1];
        assert Step(x, k, others);
      } else {
        assert y.events[n] == e && y.h[n] == m && y.h[n+1] == m';
      }
    }
    assert y.h[0] == x.h[0];
  }

  /** No index entry has ever named an unused line pointer. */
  lemma AllSafe(x: Log, k: nat, start: Shared, others: Others)
    requires x in Logs(start, others) && k < |x.h|
    ensures x.h[k].s.Sane()
  {
    if k > 0 {
      assert Step(x, k - 1, others);
    }
  }

  /** How often the line pointer goes from dead to unused in the first `n` steps. */
  ghost function TimesFreed(h: seq<Moment>, n: nat, t: Tid): nat
    requires n < |h|
  {
    if n == 0 then 0
    else TimesFreed(h, n - 1, t) + if h[n-1].s.IsDead(t) && h[n].s.At(t).LpUnused? then 1 else 0
  }

  lemma OneTurn(e: Event, m: Moment, m': Moment, others: Others, t: Tid)
    requires Brings(e, m, m', others) && AllLawful(others)
    ensures m.s.IsDead(t) && m'.s.At(t).LpUnused? <==> e == Freeing(t)
    ensures m'.freed == m.freed + if e.Freeing? then [e.t] else []
  {
    assert e.Turn? ==> Lawful(m.s, m'.s);
  }

  /** Whatever other backends do, a line pointer goes from dead to unused once if vacuum has freed it, and else
      never. */
  lemma {:induction false} FreedOnce(x: Log, n: nat, start: Shared, others: Others, t: Tid)
    requires x in Logs(start, others) && AllLawful(others) && n <= |x.events| && Ascending(x.h[n].freed)
    ensures TimesFreed(x.h, n, t) == if t in x.h[n].freed then 1 else 0
  {
    if n > 0 {
      var e, m, m' := x.events[n-1], x.h[n-1], x.h[n];
      assert Step(x, n - 1, others);
      OneTurn(e, m, m', others, t);
      assert forall k :: 0 <= k < |m.freed| ==> m'.freed[k] == m.freed[k];
      FreedOnce(x, n - 1, start, others, t);
      assert t in m'.freed <==> t in m.freed || e == Freeing(t);
      assert forall k :: 0 <= k < |m.freed| && e.Freeing? ==> m'.freed[k].Before(m'.freed[|m.freed|]);
    }
  }

  lemma OneLook(e: Event, m: Moment, m': Moment, others: Others, t: Tid)
    requires Brings(e, m, m', others)
    ensures t in m'.collected <==> t in m.collected || (e.Collecting? && e.b == t.block && m.s.IsDead(t))
  {
    if e.Collecting? {
      assert t in e.found <==> t in Members(e.found);
      assert t in Members(e.found) <==> t in DeadOfBlock(m.s, e.b);
    }
  }

  /** In step `k`, vacuum collects line pointer `t`. */
  ghost predicate Collects(x: Log, k: int, t: Tid) {
    0 <= k < |x.events| < |x.h| && x.events[k].Collecting? && x.events[k].b == t.block && x.h[k].s.IsDead(t)
  }

  /** A line pointer has been collected if it was dead when vacuum looked at its block, and only then. */
  lemma {:induction false} CollectedIff(x: Log, n: nat, start: Shared, others: Others, t: Tid)
    requires x in Logs(start, others) && n <= |x.events|
    ensures t in x.h[n].collected <==> exists k :: k < n && Collects(x, k, t)
  {
    if n > 0 {
      assert Step(x, n - 1, others);
      OneLook(x.events[n-1], x.h[n-1], x.h[n], others, t);
      CollectedIff(x, n - 1, start, others, t);
      assert t in x.h[n].collected <==> t in x.h[n-1].collected || Collects(x, n - 1, t);
    }
  }

  /** In block order, and by offset within a block; so without duplicates. */
  predicate Ascending(dead: seq<Tid>) {
    forall j, k :: 0 <= j < k < |dead| ==> dead[j].Before(dead[k])
  }

  ghost predicate AllDead(s: Shared, dead: seq<Tid>) {
    forall k :: 0 <= k < |dead| ==> s.IsDead(dead[k])
  }

  /** No index up to `n` has an entry for any of the TIDs. */
  ghost predicate Cleared(s: Shared, dead: seq<Tid>, n: nat) {
    forall i, k {:trigger dead[k] in s.indexes[i]} :: 0 <= i < n && i < |s.indexes| && 0 <= k < |dead| ==>
      dead[k] !in s.indexes[i]
  }

  /** Number of blocks that the TIDs are on. */
  function Blocks(dead: seq<Tid>): nat {
    if |dead| <= 1 then |dead|
    else Blocks(dead[..|dead|-1]) + if dead[|dead|-1].block == dead[|dead|-2].block then 0 else 1
  }

  ghost function BlockSet(dead: seq<Tid>): set<nat> {
    set t | t in dead :: t.block
  }

  /** Only the last one can be on the same block as another. */
  lemma SameBlockAsLast(dead: seq<Tid>, n: nat)
    requires Ascending(dead) && |dead| == n + 1
    ensures dead[n].block in BlockSet(dead[..n]) <==> n > 0 && dead[n-1].block == dead[n].block
  {
    var before := dead[..n];
    if n > 0 {
      assert before[n-1] in before;
      forall k | 0 <= k < n && before[k].block == dead[n].block ensures dead[n-1].block == dead[n].block {
        assert k < n - 1 ==> dead[k].Before(dead[n-1]);
        assert dead[n-1].Before(dead[n]);
      }
    }
  }

  lemma OneMoreBlock(dead: seq<Tid>, t: Tid)
    ensures |BlockSet(dead + [t])| == |BlockSet(dead)| + if t.block in BlockSet(dead) then 0 else 1
  {
    assert forall u :: u in dead + [t] <==> u in dead || u == t;
    assert BlockSet(dead + [t]) == BlockSet(dead) + {t.block};
  }

  lemma OneMoreCounted(dead: seq<Tid>, t: Tid)
    ensures Blocks(dead + [t]) == Blocks(dead) + if dead != [] && dead[|dead|-1].block == t.block then 0 else 1
  {
    assert (dead + [t])[..|dead|] == dead;
  }

  /** It is the number of different blocks. */
  lemma {:induction false} BlocksCounts(dead: seq<Tid>)
    requires Ascending(dead)
    ensures Blocks(dead) == |BlockSet(dead)|
  {
    if dead != [] {
      var n := |dead| - 1;
      var before, t := dead[..n], dead[n];
      assert dead == before + [t];
      BlocksCounts(before);
      SameBlockAsLast(dead, n);
      OneMoreCounted(before, t);
      OneMoreBlock(before, t);
    } else {
      assert BlockSet(dead) == {};
    }
  }

  /** Collected TIDs that wait to be made unused: in order, all dead, and in none of the first `n` indexes. */
  ghost function Waiting(s: Shared, n: nat): iset<seq<Tid>> {
    iset dead | Ascending(dead) && AllDead(s, dead) && Cleared(s, dead, n)
  }

  lemma OthersKeepDead(s: Shared, s': Shared, dead: seq<Tid>, n: nat)
    requires Lawful(s, s') && dead in Waiting(s, n)
    ensures dead in Waiting(s', n)
  {
  }

  /** PageTruncateLinePointerArray: cut unused line pointers off the end, but leave one. */
  function Truncated(page: seq<LpState>): (r: seq<LpState>)
    ensures |r| <= |page| && r == page[..|r|] && forall i :: |r| <= i < |page| ==> page[i].LpUnused?
    ensures |r| <= 1 || !r[|r|-1].LpUnused?
  {
    if |page| > 1 && page[|page|-1].LpUnused? then Truncated(page[..|page|-1]) else page
  }

  /** That changes no line pointer for anybody. */
  lemma TruncatePage(s: Shared, s': Shared, b: nat)
    requires s.Sane() && b < |s.pages| && s' == s.(pages := s.pages[b := Truncated(s.pages[b])])
    ensures Tidies(s, s') && s'.Sane()
  {
    assert forall t :: s'.At(t) == s.At(t);
    forall t | s'.Indexed(t) ensures !s'.At(t).LpUnused? {
      assert s.Indexed(t);
    }
  }

  /** Making a dead line pointer unused is safe once no index names it. */
  lemma FreeOne(s: Shared, s': Shared, t: Tid)
    requires s.Sane() && s.IsDead(t) && !s.Indexed(t)
    requires s' == s.(pages := s.pages[t.block := s.pages[t.block][t.off := LpUnused]])
    ensures Frees(s, s', t) && s'.Sane()
  {
    forall u | u != t ensures s'.At(u) == s.At(u) {
    }
    forall u | s'.Indexed(u) ensures !s'.At(u).LpUnused? {
      assert s.Indexed(u);
    }
  }

  /** The offsets of the dead line pointers among the first `n` of a page. */
  function DeadOn(page: seq<LpState>, b: nat, n: nat): seq<Tid>
    requires n <= |page|
  {
    if n == 0 then [] else DeadOn(page, b, n - 1) + if page[n-1].LpDead? then [Tid(b, n - 1)] else []
  }

  lemma {:induction false} DeadOnFits(page: seq<LpState>, b: nat, n: nat)
    requires n <= |page|
    ensures |DeadOn(page, b, n)| <= n
    ensures forall k :: 0 <= k < |DeadOn(page, b, n)| ==>
      var t := DeadOn(page, b, n)[k]; t.block == b && t.off < n && page[t.off].LpDead?
  {
    if n > 0 {
      DeadOnFits(page, b, n - 1);
    }
  }

  lemma {:induction false} DeadOnHas(page: seq<LpState>, b: nat, n: nat, off: nat)
    requires n <= |page| && off < n && page[off].LpDead?
    ensures Tid(b, off) in DeadOn(page, b, n)
  {
    if off < n - 1 {
      DeadOnHas(page, b, n - 1, off);
    }
  }

  /** They are all that are dead. */
  lemma DeadOnIsAll(s: Shared, b: nat)
    requires b < |s.pages|
    ensures Members(DeadOn(s.pages[b], b, |s.pages[b]|)) == DeadOfBlock(s, b)
  {
    var found := DeadOn(s.pages[b], b, |s.pages[b]|);
    DeadOnFits(s.pages[b], b, |s.pages[b]|);
    forall t ensures t in Members(found) <==> t in DeadOfBlock(s, b) {
      if t in found {
        var k :| 0 <= k < |found| && found[k] == t;
      }
      if t in DeadOfBlock(s, b) {
        DeadOnHas(s.pages[b], b, |s.pages[b]|, t.off);
      }
    }
  }

  lemma FoundAreDead(s: Shared, b: nat, found: seq<Tid>)
    requires Members(found) == DeadOfBlock(s, b) && OnBlock(found, b)
    ensures AllDead(s, found) && found in Waiting(s, 0)
  {
    forall k | 0 <= k < |found| ensures s.IsDead(found[k]) {
      assert found[k] in Members(found);
    }
  }

  lemma {:induction false} DeadOnAscends(page: seq<LpState>, b: nat, n: nat)
    requires n <= |page|
    ensures Ascending(DeadOn(page, b, n))
  {
    if n > 0 {
      DeadOnAscends(page, b, n - 1);
      DeadOnFits(page, b, n - 1);
    }
  }

  lemma {:induction false} DeadOnOneBlock(page: seq<LpState>, b: nat, n: nat)
    requires n <= |page|
    ensures Blocks(DeadOn(page, b, n)) == if DeadOn(page, b, n) == [] then 0 else 1
  {
    if n > 0 {
      DeadOnOneBlock(page, b, n - 1);
      DeadOnFits(page, b, n - 1);
      var before, d := DeadOn(page, b, n - 1), DeadOn(page, b, n);
      assert if page[n-1].LpDead? then d[..|d|-1] == before else d == before;
    }
  }

  lemma {:induction false} AppendBlocks(dead: seq<Tid>, more: seq<Tid>)
    requires dead != [] && more != [] && dead[|dead|-1].block != more[0].block
    ensures Blocks(dead + more) == Blocks(dead) + Blocks(more)
  {
    var all := dead + more;
    if |more| == 1 {
      assert all[..|all|-1] == dead;
    } else {
      AppendBlocks(dead, more[..|more|-1]);
      assert all[..|all|-1] == dead + more[..|more|-1];
    }
  }

  lemma FreeFirst(s: Shared, s': Shared, dead: seq<Tid>, t: Tid)
    requires dead in Waiting(s, |s.indexes|) && dead != [] && t == dead[0]
    ensures s.IsDead(t) && !s.Indexed(t)
    ensures Frees(s, s', t) ==> dead[1..] in Waiting(s', |s.indexes|)
  {
    forall k | 0 <= k < |dead| - 1 ensures dead[1..][k] == dead[k+1] && dead[k+1] != dead[0] {
      assert dead[0].Before(dead[k+1]);
    }
  }

  /** The states that differ from `s` only in that these line pointers are unused. */
  ghost function Unused(s: Shared, tids: seq<Tid>): iset<Shared> {
    iset s': Shared | s'.indexes == s.indexes && |s'.pages| == |s.pages| &&
              forall t {:trigger t in tids} :: s'.At(t) == if t in tids then LpUnused else s.At(t)
  }

  lemma NoneUnused(s: Shared, tids: seq<Tid>, freed: seq<Tid>, i: nat)
    requires i <= |tids|
    ensures s in Unused(s, tids[i..i]) && freed == freed + tids[i..i]
  {
  }

  lemma OneMoreUnused(s: Shared, tids: seq<Tid>, s': Shared, s'': Shared, t: Tid)
    requires s' in Unused(s, tids) && Frees(s', s'', t)
    ensures s'' in Unused(s, tids + [t])
  {
    assert forall u :: u in tids + [t] <==> u in tids || u == t;
  }

  predicate AllBelow(tids: seq<Tid>, b: nat) {
    forall k :: 0 <= k < |tids| ==> tids[k].block < b
  }

  /** In order, and all on the first `b` blocks. */
  ghost function Ordered(b: nat): iset<seq<Tid>> {
    iset tids | Ascending(tids) && AllBelow(tids, b)
  }

  /** What vacuum keeps books on: all TIDs that it has collected, those of them it has made unused, given up, and has
      still to deal with, and its counters. */
  datatype Books = Books(collected: seq<Tid>, freed: seq<Tid>, lost: seq<Tid>, dead: seq<Tid>, items: nat,
                         pages: nat, scans: nat)

  /** The books are in order after `b` blocks: nothing is collected twice or made unused out of order; as long as
      vacuuming is on, nothing collected is given up; and the counters are right as long as they matter. */
  ghost function Balanced(b: nat, indexed: bool, on: bool, first: bool): iset<Books> {
    iset x: Books |
      && x.collected in Ordered(b) && x.collected == x.freed + x.lost + x.dead
      && (on || !indexed ==> x.lost == []) && (!indexed ==> x.dead == [])
      && (indexed && on && x.scans == 0 ==> x.freed == [] && |x.dead| == x.items && Blocks(x.dead) == x.pages)
      && (first ==> x.scans == 0) && (x.dead != [] ==> x.pages > 0)
  }

  /** The TIDs found on a block come after those of earlier blocks. */
  ghost predicate OnBlock(found: seq<Tid>, b: nat) {
    Ascending(found) && (forall k :: 0 <= k < |found| ==> found[k].block == b) &&
      Blocks(found) == if found == [] then 0 else 1
  }

  lemma Extend(tids: seq<Tid>, found: seq<Tid>, b: nat)
    requires tids in Ordered(b) && OnBlock(found, b)
    ensures tids + found in Ordered(b + 1)
  {
  }

  lemma DeadOrdered(before: seq<Tid>, dead: seq<Tid>, b: nat)
    requires before + dead in Ordered(b)
    ensures dead in Ordered(b)
  {
    var all := before + dead;
    forall k | 0 <= k < |dead| ensures dead[k] == all[|before|+k] {
    }
  }

  lemma BlocksCollected(dead: seq<Tid>, b: nat, found: seq<Tid>)
    requires dead in Ordered(b) && OnBlock(found, b)
    ensures Blocks(dead + found) == Blocks(dead) + if found == [] then 0 else 1
  {
    if found == [] || dead == [] {
      assert dead + found == if found == [] then dead else found;
    } else {
      AppendBlocks(dead, found);
    }
  }

  /** The dead items of a block are collected. */
  lemma BooksCollect(x: Books, x': Books, b: nat, found: seq<Tid>, on: bool, first: bool)
    requires x in Balanced(b, true, on, first) && OnBlock(found, b)
    requires x' == Books(x.collected + found, x.freed, x.lost, x.dead + found, x.items + |found|,
                         x.pages + if found == [] then 0 else 1, x.scans)
    ensures x' in Balanced(b + 1, true, on, first) && x.dead in Ordered(b)
  {
    Extend(x.collected, found, b);
    DeadOrdered(x.freed + x.lost, x.dead, b);
    BlocksCollected(x.dead, b, found);
    Regroup(x.freed + x.lost, x.dead, found);
    assert x'.collected == x'.freed + x'.lost + x'.dead && |x'.dead| == |x.dead| + |found|;
  }

  lemma Regroup(a: seq<Tid>, b: seq<Tid>, c: seq<Tid>)
    ensures a + (b + c) == a + b + c
  {
  }

  /** They are collected, and made unused at once. */
  lemma BooksAtOnce(x: Books, x': Books, b: nat, found: seq<Tid>, on: bool, first: bool)
    requires x in Balanced(b, false, on, first) && OnBlock(found, b)
    requires x' == Books(x.collected + found, x.freed + found, x.lost, [], x'.items, x'.pages, x.scans)
    ensures x' in Balanced(b + 1, false, on, first)
  {
    Extend(x.collected, found, b);
    assert x.freed + [] + [] == x.freed && x'.freed + [] + [] == x'.freed;
  }

  /** Nothing is found on a block. */
  lemma BooksPass(x: Books, b: nat, indexed: bool, on: bool, first: bool)
    requires x in Balanced(b, indexed, on, first)
    ensures x in Balanced(b + 1, indexed, on, first)
  {
  }

  /** All that waits is made unused. */
  lemma BooksClear(x: Books, x': Books, b: nat, first: bool)
    requires x in Balanced(b, true, true, first) && x'.scans > 0
    requires x' == x.(dead := [], freed := x.freed + x.dead, scans := x'.scans)
    ensures x' in Balanced(b, true, true, false)
  {
    assert x.freed + x.lost + x.dead == x.freed + x.dead + [] + [];
  }

  /** Or it is given up; which is when vacuuming is off. */
  lemma BooksForget(x: Books, x': Books, b: nat, on: bool, first: bool)
    requires x in Balanced(b, true, on, first) && x' == x.(dead := [], lost := x.lost + x.dead, scans := x'.scans)
    ensures x' in Balanced(b, true, false, false)
  {
    Regroup(x.freed, x.lost, x.dead);
    assert x.freed + (x.lost + x.dead) + [] == x.freed + (x.lost + x.dead);
  }

  lemma BooksOff(x: Books, b: nat, indexed: bool, on: bool, first: bool)
    requires x in Balanced(b, indexed, on, first)
    ensures x in Balanced(b, indexed, false, first) && x in Balanced(b, indexed, on, false)
  {
  }

  /** What they say when there is something to do. */
  lemma BooksCall(x: Books, b: nat, indexed: bool, on: bool, first: bool)
    requires x in Balanced(b, indexed, on, first) && x.dead != []
    ensures indexed && (first ==> x.scans == 0)
    ensures on && x.scans == 0 ==> |x.dead| == x.items && Blocks(x.dead) == x.pages
  {
  }

  /** What the books say. */
  lemma BooksSay(x: Books, b: nat, indexed: bool, on: bool, first: bool)
    requires x in Balanced(b, indexed, on, first)
    ensures Ascending(x.collected) && x.freed <= x.collected && |x.dead| <= |x.collected|
    ensures (on || !indexed) && x.dead == [] ==> x.freed == x.collected
    ensures indexed && on && x.scans == 0 ==>
      x.dead == x.collected && |x.dead| == x.items && Blocks(x.dead) == x.pages
    ensures (first ==> x.scans == 0) && (!indexed ==> x.dead == [])
  {
    assert x.freed + [] + [] == x.freed && [] + [] + x.dead == x.dead;
  }

  /** Among those that wait, there is room for those of one more block. */
  lemma WaitingMore(s: Shared, dead: seq<Tid>, b: nat, found: seq<Tid>)
    requires dead in Waiting(s, 0) && dead in Ordered(b) && OnBlock(found, b) && AllDead(s, found)
    ensures dead + found in Waiting(s, 0)
  {
    Extend(dead, found, b);
  }

  /** The first `n` blocks, but for those to be skipped; and in a table without indexes, those that cannot be locked
      either. */
  ghost function Scanned(n: nat, skips: nat -> bool, locks: nat -> bool, indexed: bool): seq<nat> {
    if n == 0 then []
    else Scanned(n - 1, skips, locks, indexed) + if !skips(n - 1) && (indexed || locks(n - 1)) then [n - 1] else []
  }

  /** How many of the first `n` blocks are not skipped. */
  ghost function Unskipped(skips: nat -> bool, n: nat): nat {
    if n == 0 then 0 else Unskipped(skips, n - 1) + if skips(n - 1) then 0 else 1
  }

  /** How many checks for the failsafe are due before them: one for every so many. */
  ghost function ChecksDue(skips: nat -> bool, n: nat): nat {
    if n == 0 then 0
    else
      var due := !skips(n - 1) && Unskipped(skips, n) % FAILSAFE_EVERY_PAGES == 0;
      ChecksDue(skips, n - 1) + if due then 1 else 0
  }

  /** One of the first `n` checks finds danger. */
  ghost predicate Alarm(danger: nat -> bool, n: nat) {
    n > 0 && (danger(n - 1) || Alarm(danger, n - 1))
  }

  /** So little is dead that it is not worth the while to go through the indexes. */
  predicate Little(relPages: nat, pages: nat, items: nat) {
    relPages > 0 && pages < relPages / BYPASS_FRACTION && items < BYPASS_MAX_ITEMS
  }

  /** All that was collected fits in at once, and it is little. */
  ghost predicate Bypasses(first: bool, collected: seq<Tid>, relPages: nat) {
    first && collected != [] && Little(relPages, Blocks(collected), |collected|)
  }

  lemma CountersTell(x: Books, b: nat, first: bool, relPages: nat)
    requires x in Balanced(b, true, true, first)
    ensures Bypasses(first, x.collected, relPages) == (first && x.dead != [] && Little(relPages, x.pages, x.items))
  {
    BooksSay(x, b, true, true, first);
  }

  datatype IndexCleanup = Auto | Disabled | Enabled

  class Vacuum {
    const others: Others
    const maxItems: nat
    const relPages: nat
    const nindexes: nat
    /** The blocks to skip, those that a cleanup lock can be had for, and what each failsafe check finds. */
    const skips: nat -> bool
    const locks: nat -> bool
    const danger: nat -> bool
    var s: Shared
    var clock: nat
    var dead: seq<Tid>
    var doIndexVacuuming: bool
    var doIndexCleanup: bool
    var considerBypass: bool
    var failsafe: bool
    var numIndexScans: nat
    var lpdeadItems: nat
    var lpdeadItemPages: nat
    /** How many failsafe checks there have been. */
    var checks: nat
    ghost const start: Shared
    /** What has happened so far; what was made unused, what was collected, and from which blocks. */
    ghost var log: Log
    ghost var freed: seq<Tid>
    ghost var collected: seq<Tid>
    ghost var blocks: seq<nat>
    /** What was collected, and given up when vacuuming was switched off. */
    ghost var lost: seq<Tid>

    /** What pg_tde_vacuum_rel starts with. */
    constructor (others: Others, skips: nat -> bool, locks: nat -> bool, danger: nat -> bool, s: Shared, relPages: nat,
                 maxItems: nat, indexCleanup: IndexCleanup)
      requires s.Sane() && relPages <= |s.pages| && MAX_TUPLES_PER_PAGE <= maxItems
      ensures Starts() && this.s == s == start && this.others == others && this.relPages == relPages
      ensures this.maxItems == maxItems && this.skips == skips && this.locks == locks && this.danger == danger
      ensures doIndexVacuuming == !indexCleanup.Disabled? && considerBypass == !indexCleanup.Enabled?
    {
      this.others, this.skips, this.locks, this.danger := others, skips, locks, danger;
      this.s, start, this.relPages, this.maxItems, nindexes := s, s, relPages, maxItems, |s.indexes|;
      doIndexVacuuming, doIndexCleanup := !indexCleanup.Disabled?, !indexCleanup.Disabled?;
      considerBypass, failsafe := !indexCleanup.Enabled?, false;
      clock, dead, numIndexScans, lpdeadItems, lpdeadItemPages, checks := 0, [], 0, 0, 0, 0;
      log, freed, collected, blocks, lost := Log([Moment(s, 0, [], [], [])], []), [], [], [], [];
    }

    /** Nothing has been done yet. */
    ghost predicate Starts()
      reads this
    {
      Between(0) && clock == 0 && checks == 0 && log.events == [] && collected == [] && blocks == []
    }

    ghost function Now(): Moment
      reads this
    {
      Moment(s, clock, freed, collected, blocks)
    }

    /** All that has happened is in the log. */
    ghost predicate OnRecord()
      reads this
    {
      log in Logs(start, others) && log.h[|log.h|-1] == Now() && |s.indexes| == nindexes && relPages <= |s.pages|
    }

    /** Vacuuming is switched on together with index cleanup, and off by the failsafe; and that is on if and only
        if some check has found danger. */
    ghost predicate Switches()
      reads this
    {
      (doIndexVacuuming ==> doIndexCleanup) && (failsafe ==> !doIndexVacuuming && !doIndexCleanup) &&
        failsafe == Alarm(danger, checks)
    }

    ghost function TheBooks(): Books
      reads this
    {
      Books(collected, freed, lost, dead, lpdeadItems, lpdeadItemPages, numIndexScans)
    }

    /** Between blocks. */
    ghost predicate Between(blkno: nat)
      reads this
    {
      && OnRecord() && Switches() && dead in Waiting(s, 0) && |dead| <= maxItems && MAX_TUPLES_PER_PAGE <= maxItems
      && TheBooks() in Balanced(blkno, nindexes > 0, doIndexVacuuming, considerBypass)
    }

    /** Other backends have a turn. */
    method Interfere(ghost waiting: seq<Tid>, ghost n: nat)
      requires AllLawful(others) && OnRecord() && waiting in Waiting(s, n)
      modifies `s, `clock, `log
      ensures s == others(old(clock), old(s)) && clock == old(clock) + 1
      ensures OnRecord() && waiting in Waiting(s, n)
    {
      ghost var before := Now();
      AllSafe(log, |log.h| - 1, start, others);
      assert Lawful(s, others(clock, s));
      OthersKeepDead(s, others(clock, s), waiting, n);
      s, clock := others(clock, s), clock + 1;
      Happens(log, Turn, before, Now(), start, others);
      log := Log(log.h + [Now()], log.events + [Turn]);
    }

    /** lazy_check_wraparound_failsafe */
    method CheckFailsafe() returns (r: bool)
      requires Switches()
      modifies `failsafe, `doIndexVacuuming, `doIndexCleanup, `checks
      ensures Switches() && r == failsafe == (old(failsafe) || danger(old(checks)))
      ensures checks == if old(failsafe) then old(checks) else old(checks) + 1
      ensures doIndexVacuuming == (old(doIndexVacuuming) && !failsafe)
      ensures doIndexCleanup == (old(doIndexCleanup) && !failsafe)
    {
      if failsafe {
        return true;
      }
      var tooOld := danger(checks);
      checks := checks + 1;
      if tooOld {
        failsafe, doIndexVacuuming, doIndexCleanup := true, false, false;
      }
      return failsafe;
    }

    /** lazy_vacuum_one_index, after which the others have a turn. */
    method VacuumOneIndex(idx: nat)
      requires AllLawful(others) && OnRecord() && idx < nindexes && dead in Waiting(s, idx)
      modifies `s, `clock, `log
      ensures OnRecord() && dead in Waiting(s, idx + 1)
    {
      ghost var before, s0 := Now(), s;
      AllSafe(log, |log.h| - 1, start, others);
      s := s.(indexes := s.indexes[idx := s.indexes[idx] - set t | t in dead]);
      BulkDelete(s0, s, dead, idx);
      Happens(log, Tidying, before, Now(), start, others);
      log := Log(log.h + [Now()], log.events + [Tidying]);
      Interfere(dead, idx + 1);
    }

    /** lazy_vacuum_all_indexes: take the dead TIDs out of every index, unless the failsafe triggers. */
    method VacuumAllIndexes() returns (allIndexes: bool)
      requires AllLawful(others) && OnRecord() && Switches() && doIndexVacuuming && dead in Waiting(s, 0)
      requires numIndexScans == 0 ==> |dead| == lpdeadItems
      modifies `s, `clock, `log, `failsafe, `doIndexVacuuming, `doIndexCleanup, `numIndexScans, `checks
      ensures OnRecord() && Switches() && doIndexVacuuming == allIndexes == !failsafe && old(checks) <= checks
      ensures allIndexes ==> dead in Waiting(s, nindexes) && checks == old(checks) + nindexes + 1
      ensures allIndexes ==> numIndexScans == old(numIndexScans) + 1
    {
      assert numIndexScans > 0 || |dead| == lpdeadItems;
      var emergency := CheckFailsafe();
      if emergency {
        return false;
      }
      allIndexes := true;
      var idx := 0;
      while idx < nindexes && allIndexes
        invariant OnRecord() && Switches() && 0 <= idx <= nindexes && numIndexScans == old(numIndexScans)
        invariant doIndexVacuuming == allIndexes == !failsafe && old(checks) <= checks
        invariant allIndexes ==> dead in Waiting(s, idx) && checks == old(checks) + idx + 1
        decreases nindexes - idx
      {
        VacuumOneIndex(idx);
        emergency := CheckFailsafe();
        if emergency {
          allIndexes := false;
        }
        idx := idx + 1;
      }
      numIndexScans := numIndexScans + 1;
    }

    /** ItemIdSetUnused, for the first line pointer that waits. */
    method SetUnused(t: Tid, ghost waiting: seq<Tid>)
      requires OnRecord() && waiting in Waiting(s, nindexes) && waiting != [] && t == waiting[0]
      modifies `s, `log, `freed
      ensures Frees(old(s), s, t) && freed == old(freed) + [t] && OnRecord() && waiting[1..] in Waiting(s, nindexes)
    {
      ghost var before, s0 := Now(), s;
      AllSafe(log, |log.h| - 1, start, others);
      FreeFirst(s, s, waiting, t);
      s := s.(pages := s.pages[t.block := s.pages[t.block][t.off := LpUnused]]);
      FreeOne(s0, s, t);
      FreeFirst(s0, s, waiting, t);
      freed := freed + [t];
      Happens(log, Freeing(t), before, Now(), start, others);
      log := Log(log.h + [Now()], log.events + [Freeing(t)]);
    }

    /** The loop of lazy_vacuum_pg_tde_page: make one page's collected line pointers unused. */
    method FreeItems(b: nat, index: nat) returns (index': nat)
      requires OnRecord() && index < |dead| && dead[index].block == b && dead[index..] in Waiting(s, nindexes)
      modifies `s, `log, `freed
      ensures OnRecord() && index < index' <= |dead| && dead[index'..] in Waiting(s, nindexes)
      ensures (forall k :: index <= k < index' ==> dead[k].block == b) && (index' < |dead| ==> dead[index'].block != b)
      ensures s in Unused(old(s), dead[index..index']) && freed == old(freed) + dead[index..index']
    {
      index' := index;
      NoneUnused(s, dead, freed, index);
      while index' < |dead| && dead[index'].block == b
        invariant OnRecord() && index <= index' <= |dead| && dead[index'..] in Waiting(s, nindexes)
        invariant forall k :: index <= k < index' ==> dead[k].block == b
        invariant s in Unused(old(s), dead[index..index']) && freed == old(freed) + dead[index..index']
        decreases |dead| - index'
      {
        FreeItem(index, index', old(s), old(freed));
        index' := index' + 1;
      }
    }

    /** One of them. */
    method FreeItem(ghost first: nat, index: nat, ghost s0: Shared, ghost freed0: seq<Tid>)
      requires OnRecord() && first <= index < |dead| && dead[index..] in Waiting(s, nindexes)
      requires s in Unused(s0, dead[first..index]) && freed == freed0 + dead[first..index]
      modifies `s, `log, `freed
      ensures OnRecord() && dead[index+1..] in Waiting(s, nindexes)
      ensures s in Unused(s0, dead[first..index+1]) && freed == freed0 + dead[first..index+1]
    {
      var t := dead[index];
      ghost var s1 := s;
      SetUnused(t, dead[index..]);
      OneMoreUnused(s0, dead[first..index], s1, s, t);
      NextItem(dead, first, index, t);
      Regroup(freed0, dead[first..index], [t]);
    }

    /** lazy_vacuum_pg_tde_page: then cut the line pointer array short. */
    method VacuumPage(b: nat, index: nat) returns (index': nat)
      requires OnRecord() && index < |dead| && dead[index].block == b && dead[index..] in Waiting(s, nindexes)
      modifies `s, `log, `freed
      ensures OnRecord() && index < index' <= |dead| && dead[index'..] in Waiting(s, nindexes)
      ensures (forall k :: index <= k < index' ==> dead[k].block == b) && (index' < |dead| ==> dead[index'].block != b)
      ensures s in Unused(old(s), dead[index..index']) && freed == old(freed) + dead[index..index']
      ensures b < |s.pages| && (|s.pages[b]| <= 1 || !s.pages[b][|s.pages[b]|-1].LpUnused?)
    {
      assert s.IsDead(dead[index..][0]);
      index' := FreeItems(b, index);
      ghost var before, s0 := Now(), s;
      AllSafe(log, |log.h| - 1, start, others);
      s := s.(pages := s.pages[b := Truncated(s.pages[b])]);
      TruncatePage(s0, s, b);
      Happens(log, Tidying, before, Now(), start, others);
      log := Log(log.h + [Now()], log.events + [Tidying]);
    }

    /** lazy_vacuum_pg_tde_rel: the second pass over the heap. */
    method VacuumRel()
      requires AllLawful(others) && OnRecord() && dead in Waiting(s, nindexes) && dead != [] && 0 < numIndexScans
      requires numIndexScans == 1 ==> |dead| == lpdeadItems && Blocks(dead) == lpdeadItemPages
      modifies `s, `clock, `log, `freed
      ensures OnRecord() && freed == old(freed) + dead
    {
      var index, vacuumedPages := 0, 0;
      assert dead[0..] == dead;
      while index < |dead|
        invariant OnRecord() && 0 <= index <= |dead| && dead[index..] in Waiting(s, nindexes)
        invariant freed == old(freed) + dead[..index] && vacuumedPages == Blocks(dead[..index])
        invariant 0 < index < |dead| ==> dead[index-1].block != dead[index].block
        decreases |dead| - index
      {
        Interfere(dead[index..], nindexes);
        ghost var start := index;
        index := VacuumPage(dead[index].block, index);
        BlocksGrow(dead, start, index);
        FreedAddUp(old(freed), dead, start, index);
        vacuumedPages := vacuumedPages + 1;
      }
      assert dead[..index] == dead;
      assert numIndexScans > 1 || (index == lpdeadItems && vacuumedPages == lpdeadItemPages);
    }

    /** lazy_vacuum: a round of index and heap vacuuming, unless it is bypassed, switched off, or
        cut short by the failsafe; then forget the collected TIDs. */
    method LazyVacuum()
      requires AllLawful(others) && OnRecord() && Switches() && dead in Waiting(s, 0) && dead != []
      requires doIndexVacuuming && numIndexScans == 0 ==> |dead| == lpdeadItems && Blocks(dead) == lpdeadItemPages
      requires considerBypass ==> numIndexScans == 0
      modifies `s, `clock, `log, `dead, `freed, `lost, `failsafe, `doIndexVacuuming, `doIndexCleanup,
        `numIndexScans, `checks
      ensures OnRecord() && Switches() && dead == [] && (old(failsafe) ==> failsafe) && old(checks) <= checks
      ensures freed == if doIndexVacuuming then old(freed) + old(dead) else old(freed)
      ensures lost == if doIndexVacuuming then old(lost) else old(lost) + old(dead)
      ensures doIndexVacuuming ==> numIndexScans == old(numIndexScans) + 1
      ensures doIndexVacuuming ==
        (old(doIndexVacuuming) && !(considerBypass && Little(relPages, lpdeadItemPages, lpdeadItems)) && !failsafe)
    {
      if !doIndexVacuuming {
        lost, dead := lost + dead, [];
        return;
      }
      var bypass := false;
      if considerBypass && relPages > 0 {
        assert numIndexScans == 0 && lpdeadItems == |dead| && doIndexCleanup;
        bypass := Little(relPages, lpdeadItemPages, lpdeadItems);
      }
      if bypass {
        doIndexVacuuming := false;
        lost := lost + dead;
      } else {
        OneRound();
      }
      dead := [];
    }

    /** One round of vacuuming. */
    method OneRound()
      requires AllLawful(others) && OnRecord() && Switches() && doIndexVacuuming && dead in Waiting(s, 0) && dead != []
      requires numIndexScans == 0 ==> |dead| == lpdeadItems && Blocks(dead) == lpdeadItemPages
      modifies `s, `clock, `log, `freed, `lost, `failsafe, `doIndexVacuuming, `doIndexCleanup, `numIndexScans, `checks
      ensures OnRecord() && Switches() && doIndexVacuuming == !failsafe && old(checks) <= checks
      ensures freed == if failsafe then old(freed) else old(freed) + dead
      ensures lost == if failsafe then old(lost) + dead else old(lost)
      ensures !failsafe ==> numIndexScans == old(numIndexScans) + 1
    {
      var allIndexes := VacuumAllIndexes();
      if allIndexes {
        VacuumRel();
      } else {
        assert failsafe;
        lost := lost + dead;
      }
    }

    /** Collect the dead line pointers of a page. */
    method CollectDead(b: nat) returns (ghost found: seq<Tid>)
      requires OnRecord() && b < |s.pages|
      modifies `log, `dead, `collected, `blocks, `lpdeadItems, `lpdeadItemPages
      ensures OnRecord() && Members(found) == DeadOfBlock(s, b) && OnBlock(found, b) && |found| <= MAX_TUPLES_PER_PAGE
      ensures dead == old(dead) + found && collected == old(collected) + found && blocks == old(blocks) + [b]
      ensures lpdeadItems == old(lpdeadItems) + |found|
      ensures lpdeadItemPages == old(lpdeadItemPages) + if found == [] then 0 else 1
    {
      var offsets := FindDead(b);
      found := offsets;
      ghost var before := Now();
      if |offsets| > 0 {
        dead := dead + offsets;
        lpdeadItems, lpdeadItemPages := lpdeadItems + |offsets|, lpdeadItemPages + 1;
      }
      AllSafe(log, |log.h| - 1, start, others);
      collected, blocks := collected + found, blocks + [b];
      Happens(log, Collecting(b, found), before, Now(), start, others);
      log := Log(log.h + [Now()], log.events + [Collecting(b, found)]);
    }

    /** The loop over the line pointers. */
    method FindDead(b: nat) returns (found: seq<Tid>)
      requires OnRecord() && b < |s.pages|
      ensures Members(found) == DeadOfBlock(s, b) && OnBlock(found, b) && |found| <= MAX_TUPLES_PER_PAGE
    {
      found := [];
      for off := 0 to |s.pages[b]|
        invariant found == DeadOn(s.pages[b], b, off)
      {
        if s.pages[b][off].LpDead? {
          found := found + [Tid(b, off)];
        }
      }
      DeadOnFits(s.pages[b], b, |s.pages[b]|);
      DeadOnAscends(s.pages[b], b, |s.pages[b]|);
      DeadOnOneBlock(s.pages[b], b, |s.pages[b]|);
      DeadOnIsAll(s, b);
      AllSafe(log, |log.h| - 1, start, others);
    }

    /** Vacuum has looked wherever it should. */
    ghost predicate AllLookedAt(blkno: nat)
      reads this
    {
      blocks == Scanned(blkno, skips, locks, nindexes > 0)
    }

    /** For a table with indexes. */
    method FirstOfTwo(b: nat)
      requires Between(b) && b < relPages && nindexes > 0 && |dead| + MAX_TUPLES_PER_PAGE <= maxItems
      modifies `log, `dead, `collected, `blocks, `lpdeadItems, `lpdeadItemPages
      ensures Between(b + 1) && |collected| >= |old(collected)| && blocks == old(blocks) + [b]
    {
      ghost var found := CollectDead(b);
      BooksCollect(old(TheBooks()), TheBooks(), b, found, doIndexVacuuming, considerBypass);
      FoundAreDead(s, b, found);
      WaitingMore(s, old(dead), b, found);
    }

    /** The same for a table without indexes, which needs no second pass. */
    method OnePass(b: nat)
      requires Between(b) && b < relPages && nindexes == 0
      modifies `s, `log, `dead, `collected, `freed, `blocks, `lpdeadItems, `lpdeadItemPages
      ensures Between(b + 1) && |collected| >= |old(collected)| && blocks == old(blocks) + [b]
    {
      BooksSay(TheBooks(), b, false, doIndexVacuuming, considerBypass);
      ghost var before := TheBooks();
      ghost var found := CollectAndFree(b);
      BooksAtOnce(before, TheBooks(), b, found, doIndexVacuuming, considerBypass);
    }

    /** Collect the dead line pointers of one block, and make them unused. */
    method CollectAndFree(b: nat) returns (ghost found: seq<Tid>)
      requires OnRecord() && b < relPages && nindexes == 0 && dead == []
      modifies `s, `log, `dead, `collected, `freed, `blocks, `lpdeadItems, `lpdeadItemPages
      ensures OnRecord() && OnBlock(found, b) && dead == []
      ensures freed == old(freed) + found && collected == old(collected) + found && blocks == old(blocks) + [b]
    {
      found := CollectDead(b);
      AllOf(found);
      if |dead| > 0 {
        FoundAreDead(s, b, found);
        var index := VacuumPage(b, 0);
        assert index == |dead|;
        dead := [];
      }
    }

    /** The line pointer work of lazy_scan_prune and lazy_scan_noprune on one block. */
    method ScanBlock(b: nat)
      requires AllLawful(others) && Between(b) && AllLookedAt(b) && b < relPages && !skips(b)
      requires |dead| + MAX_TUPLES_PER_PAGE <= maxItems
      modifies `s, `clock, `log, `dead, `collected, `freed, `lpdeadItems, `lpdeadItemPages, `blocks
      ensures Between(b + 1) && AllLookedAt(b + 1) && |collected| >= |old(collected)|
    {
      Interfere(dead, 0);
      if nindexes > 0 {
        FirstOfTwo(b);
      } else if locks(b) {
        OnePass(b);
      } else {
        BooksPass(TheBooks(), b, false, doIndexVacuuming, considerBypass);
      }
    }

    /** Before a block is scanned: check for an emergency now and then, and see that there is room. */
    method MakeRoom(blkno: nat, scanned: nat)
      requires AllLawful(others) && Between(blkno)
      modifies `s, `clock, `log, `dead, `freed, `lost, `failsafe, `doIndexVacuuming, `doIndexCleanup, `numIndexScans,
        `considerBypass, `checks
      ensures Between(blkno) && |dead| + MAX_TUPLES_PER_PAGE <= maxItems && (old(failsafe) ==> failsafe)
      ensures doIndexVacuuming == (old(doIndexVacuuming) && !failsafe)
      ensures failsafe || checks >= old(checks) + if scanned % FAILSAFE_EVERY_PAGES == 0 then 1 else 0
      ensures considerBypass == (old(considerBypass) && |old(dead)| + MAX_TUPLES_PER_PAGE <= maxItems)
    {
      if scanned % FAILSAFE_EVERY_PAGES == 0 {
        BooksOff(TheBooks(), blkno, nindexes > 0, doIndexVacuuming, considerBypass);
        var emergency := CheckFailsafe();
      }
      if maxItems - |dead| < MAX_TUPLES_PER_PAGE {
        EmptyDead(blkno);
      }
    }

    /** A round of vacuuming in the middle of the first pass. */
    method EmptyDead(ghost blkno: nat)
      requires AllLawful(others) && Between(blkno) && dead != []
      modifies `s, `clock, `log, `dead, `freed, `lost, `failsafe, `doIndexVacuuming, `doIndexCleanup, `numIndexScans,
        `considerBypass, `checks
      ensures Between(blkno) && dead == [] && (old(failsafe) ==> failsafe) && !considerBypass
      ensures doIndexVacuuming == (old(doIndexVacuuming) && !failsafe) && old(checks) <= checks
    {
      BooksOff(TheBooks(), blkno, nindexes > 0, doIndexVacuuming, considerBypass);
      considerBypass := false;
      KeepBooks(blkno);
    }

    /** The books are in order after a round of vacuuming. */
    method KeepBooks(ghost blkno: nat)
      requires AllLawful(others) && Between(blkno) && dead != []
      modifies `s, `clock, `log, `dead, `freed, `lost, `failsafe, `doIndexVacuuming, `doIndexCleanup, `numIndexScans,
        `checks
      ensures OnRecord() && Switches() && dead == [] && (old(failsafe) ==> failsafe) && old(checks) <= checks
      ensures TheBooks() in Balanced(blkno, nindexes > 0, doIndexVacuuming, false)
      ensures doIndexVacuuming ==
        (old(doIndexVacuuming) && !(considerBypass && Little(relPages, lpdeadItemPages, lpdeadItems)) && !failsafe)
    {
      BooksCall(TheBooks(), blkno, nindexes > 0, doIndexVacuuming, considerBypass);
      ghost var before, on := TheBooks(), doIndexVacuuming;
      LazyVacuum();
      if doIndexVacuuming {
        BooksClear(before, TheBooks(), blkno, considerBypass);
      } else {
        BooksForget(before, TheBooks(), blkno, on, considerBypass);
      }
    }

    /** The same, and then the block. */
    method NextBlock(b: nat, scanned: nat)
      requires AllLawful(others) && Between(b) && AllLookedAt(b) && b < relPages && !skips(b)
      modifies this
      ensures Between(b + 1) && AllLookedAt(b + 1) && (old(failsafe) ==> failsafe)
      ensures doIndexVacuuming == (old(doIndexVacuuming) && !failsafe) && (considerBypass ==> old(considerBypass))
      ensures old(considerBypass) && !considerBypass ==> maxItems < |collected| + MAX_TUPLES_PER_PAGE
      ensures |collected| >= |old(collected)|
      ensures failsafe || checks >= old(checks) + if scanned % FAILSAFE_EVERY_PAGES == 0 then 1 else 0
    {
      BooksSay(TheBooks(), b, nindexes > 0, doIndexVacuuming, considerBypass);
      MakeRoom(b, scanned);
      ScanBlock(b);
    }

    /** The first pass over the heap. */
    method FirstPass()
      requires AllLawful(others) && Starts()
      modifies this
      ensures Between(relPages) && AllLookedAt(relPages)
      ensures doIndexVacuuming == (old(doIndexVacuuming) && !failsafe)
      ensures considerBypass ==> old(considerBypass)
      ensures old(considerBypass) && !considerBypass ==> maxItems < |collected| + MAX_TUPLES_PER_PAGE
      ensures failsafe || checks >= ChecksDue(skips, relPages)
    {
      var scanned := 0;
      for blkno := 0 to relPages
        invariant Between(blkno) && AllLookedAt(blkno)
        invariant doIndexVacuuming == (old(doIndexVacuuming) && !failsafe)
        invariant considerBypass ==> old(considerBypass)
        invariant old(considerBypass) && !considerBypass ==> maxItems < |collected| + MAX_TUPLES_PER_PAGE
        invariant scanned == Unskipped(skips, blkno) && (failsafe || checks >= ChecksDue(skips, blkno))
      {
        if skips(blkno) {
          BooksPass(TheBooks(), blkno, nindexes > 0, doIndexVacuuming, considerBypass);
        } else {
          scanned := scanned + 1;
          NextBlock(blkno, scanned);
        }
      }
    }

    /** Vacuuming was bypassed: all that was collected fitted in at once, and it was little. */
    ghost predicate Bypassed()
      reads this
    {
      Bypasses(considerBypass, collected, relPages)
    }

    /** lazy_scan_heap: whichever blocks are skipped, whenever the failsafe triggers, whether or not
        index vacuuming is bypassed, and whatever other backends do meanwhile. */
    method ScanHeap()
      requires AllLawful(others) && Starts()
      modifies this
      ensures OnRecord() && AllLookedAt(relPages) && failsafe == Alarm(danger, checks)
      ensures Ascending(collected) && freed <= collected
      ensures doIndexVacuuming || nindexes == 0 ==> freed == collected
      ensures nindexes > 0 ==> doIndexVacuuming == (old(doIndexVacuuming) && !failsafe && !Bypassed())
      ensures considerBypass ==> old(considerBypass)
      ensures old(considerBypass) && !considerBypass ==> maxItems < |collected| + MAX_TUPLES_PER_PAGE
      ensures failsafe || checks >= ChecksDue(skips, relPages)
    {
      FirstPass();
      LastRound();
    }

    /** What is left to do after the first pass. */
    method LastRound()
      requires AllLawful(others) && Between(relPages)
      modifies `s, `clock, `log, `dead, `freed, `lost, `failsafe, `doIndexVacuuming, `doIndexCleanup,
        `numIndexScans, `checks
      ensures OnRecord() && Switches() && Ascending(collected) && freed <= collected
      ensures (old(failsafe) ==> failsafe) && old(checks) <= checks
      ensures doIndexVacuuming || nindexes == 0 ==> freed == collected
      ensures nindexes > 0 ==> doIndexVacuuming == (old(doIndexVacuuming) && !failsafe && !old(Bypassed()))
    {
      BooksOff(TheBooks(), relPages, nindexes > 0, doIndexVacuuming, considerBypass);
      if nindexes > 0 && doIndexVacuuming {
        CountersTell(TheBooks(), relPages, considerBypass, relPages);
      }
      if |dead| > 0 {
        KeepBooks(relPages);
      }
      BooksSay(TheBooks(), relPages, nindexes > 0, doIndexVacuuming, false);
    }
  }

  /** Removing entries from one index. */
  lemma BulkDelete(s: Shared, s': Shared, dead: seq<Tid>, idx: nat)
    requires s.Sane() && idx < |s.indexes| && dead in Waiting(s, idx)
    requires s' == s.(indexes := s.indexes[idx := s.indexes[idx] - set t | t in dead])
    ensures s'.Sane() && Tidies(s, s') && dead in Waiting(s', idx + 1)
  {
    forall t | s'.Indexed(t) ensures !s'.At(t).LpUnused? {
      assert s.Indexed(t);
    }
  }

  lemma NextItem(dead: seq<Tid>, i: nat, j: nat, t: Tid)
    requires i <= j < |dead| && t == dead[j]
    ensures dead[j..][1..] == dead[j+1..] && dead[i..j+1] == dead[i..j] + [t]
  {
  }

  lemma AllOf(tids: seq<Tid>)
    ensures [] + tids == tids[0..] == tids[0..|tids|] == tids
  {
  }

  lemma FreedAddUp(freed: seq<Tid>, dead: seq<Tid>, i: nat, j: nat)
    requires i <= j <= |dead|
    ensures freed + dead[..i] + dead[i..j] == freed + dead[..j]
  {
  }

  /** TIDs on one more block. */
  lemma {:induction false} BlocksGrow(dead: seq<Tid>, i: nat, j: nat)
    requires i < j <= |dead| && (i > 0 ==> dead[i-1].block != dead[i].block)
    requires forall k :: i <= k < j ==> dead[k].block == dead[i].block
    ensures Blocks(dead[..j]) == Blocks(dead[..i]) + 1
    decreases j
  {
    assert dead[..j][..j-1] == dead[..j-1];
    if j > i + 1 {
      BlocksGrow(dead, i, j - 1);
    }
  }
}
