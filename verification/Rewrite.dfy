/** Heap rewrite (VACUUM FULL and CLUSTER): tuples arrive in any order, are copied to a new heap, and
    update chains are relinked on the way with two hash tables. */
module Rewrite {
  import opened Base
  import Compactify

  const MAX_TUPLE_SIZE: nat := 8160

  /** A tuple has at least a header. */
  type Size = n: nat | 23 <= n witness 23

  /** TidHashKey */
  datatype Key = Key(xmin: nat, tid: Tid)

  /** A tuple of the old heap; `len` is its size once toasted. */
  datatype Version = Version(tid: Tid, xmin: nat, updated: bool, xmaxInvalid: bool, onlyLocked: bool,
                             movedPartitions: bool,
                             updateXid: nat, ctid: Tid, len: Size, data: seq<bv8>)
  {
    predicate HasSuccessor() {
      !(xmaxInvalid || onlyLocked) && !movedPartitions && tid != ctid
    }

    function SuccessorKey(): Key {
      Key(updateXid, ctid)
    }

    /** The copy's xmin, after freezing. */
    function NewXmin(c: Cutoffs): nat {
      if FIRST_NORMAL_XID <= xmin < c.freezeXid then FROZEN_XID else xmin
    }

    function OwnKey(c: Cutoffs): Key {
      Key(NewXmin(c), tid)
    }

    /** The newer half of a pair whose older half may still be needed. */
    predicate IsNewer(c: Cutoffs) {
      updated && !(NewXmin(c) < c.oldestXmin)
    }

    function Copy(c: Cutoffs, ctid: Option<Tid>): NewTuple {
      NewTuple(NewXmin(c), updated, ctid, len, data)
    }
  }

  datatype Cutoffs = Cutoffs(oldestXmin: nat, freezeXid: nat)

  /** A tuple of the new heap; no ctid stands for an invalid one. */
  datatype NewTuple = NewTuple(xmin: nat, updated: bool, ctid: Option<Tid>, len: Size, data: seq<bv8>)

  /** UnresolvedTupData */
  datatype Pending = Pending(oldTid: Tid, tuple: NewTuple)

  /** What the caller presents: tuples to copy and tuples known to be dead. */
  datatype Event = Live(v: Version) | Dead(v: Version)

  /** `v` was updated to `w`, and may still be visible to someone. */
  predicate Follows(c: Cutoffs, v: Version, w: Version) {
    v.HasSuccessor() && w.IsNewer(c) && v.SuccessorKey() == w.OwnKey(c)
  }

  /** Freezing hides no pair: it only touches tuples whose predecessor is dead to everyone. */
  lemma FreezingKeepsPairs(c: Cutoffs, v: Version, w: Version)
    requires FROZEN_XID < c.oldestXmin && c.freezeXid <= c.oldestXmin
    ensures Follows(c, v, w) <==>
      v.HasSuccessor() && w.updated && c.oldestXmin <= w.xmin && v.SuccessorKey() == Key(w.xmin, w.tid)
  {
  }

  // ---- The reference: which tuples must be relinked, from the set of live tuples alone ----

  ghost function LiveSet(events: seq<Event>): set<Version> {
    set i | 0 <= i < |events| && events[i].Live? :: events[i].v
  }

  /** The update chain from `v` runs through live tuples to one with no successor, in at most n steps. */
  ghost predicate SettledIn(c: Cutoffs, live: set<Version>, v: Version, n: nat)
    decreases n
  {
    !v.HasSuccessor() || (n > 0 && exists w :: w in live && Follows(c, v, w) && SettledIn(c, live, w, n - 1))
  }

  ghost predicate Settled(c: Cutoffs, live: set<Version>, v: Version) {
    exists n: nat :: SettledIn(c, live, v, n)
  }

  /** A dead tuple that `v` points to was presented after `v`. */
  ghost predicate DeadAfter(events: seq<Event>, v: Version) {
    v.HasSuccessor() && exists i, j :: 0 <= i < j < |events| && events[i] == Live(v) && Kills(events[j], v)
  }

  predicate Kills(e: Event, v: Version) {
    e.Dead? && v.SuccessorKey() == Key(e.v.xmin, e.v.tid)
  }

  /** The live tuples that a dead one drops. */
  ghost function Gone(events: seq<Event>): set<Version> {
    set v | v in LiveSet(events) && DeadAfter(events, v)
  }

  /** What holds of a heap scan: each tuple is presented once, and has at most one predecessor. */
  ghost predicate Sane(events: seq<Event>) {
    && (forall i, j :: 0 <= i < j < |events| ==> events[i].v.tid != events[j].v.tid)
    && Separate(LiveSet(events))
  }

  ghost predicate Separate(live: set<Version>) {
    forall v, w {:trigger Unlike(v, w)} :: v in live && w in live && v != w ==> Unlike(v, w)
  }

  predicate Unlike(v: Version, w: Version) {
    v.tid != w.tid && (v.HasSuccessor() && w.HasSuccessor() ==> v.SuccessorKey() != w.SuccessorKey())
  }

  // ---- The abstract state ----

  /** Where a tuple went, and where its copy points. */
  datatype Place = Place(self: Tid, ctid: Tid)

  datatype Progress = Progress(waiting: map<Key, Version>, seen: map<Key, Version>, placed: map<Version, Place>,
                               dropped: set<Version>)
  {
    predicate Waits(v: Version) {
      v.HasSuccessor() && v.SuccessorKey() in waiting && waiting[v.SuccessorKey()] == v
    }
  }

  /** Each presented tuple is in exactly one place. */
  ghost predicate Accounted(live: set<Version>, p: Progress, hand: set<Version>, v: Version) {
    && (v in live <==> v in p.placed || p.Waits(v) || v in p.dropped || v in hand)
    && !(v in p.placed && (p.Waits(v) || v in p.dropped || v in hand))
    && !(p.Waits(v) && (v in p.dropped || v in hand))
    && !(v in p.dropped && v in hand)
  }

  /** Where the copy of `v` must point: to the copy of its successor, or to itself. */
  ghost predicate PointsTo(c: Cutoffs, p: Progress, v: Version, ctid: Option<Tid>) {
    if v.HasSuccessor()
    then v.SuccessorKey() !in p.seen && exists w :: w in p.placed && Follows(c, v, w) && ctid == Some(p.placed[w].self)
    else ctid == None
  }

  ghost predicate Linked(c: Cutoffs, p: Progress, v: Version)
    requires v in p.placed
  {
    if v.HasSuccessor() then PointsTo(c, p, v, Some(p.placed[v].ctid)) else p.placed[v].ctid == p.placed[v].self
  }

  /** The newer half of a pair is on record until the older half turns up. */
  ghost predicate Recorded(c: Cutoffs, p: Progress, hand: set<Version>, w: Version) {
    && w.OwnKey(c) !in p.waiting
    && (w.OwnKey(c) in p.seen || exists v :: (v in p.placed || v in hand) && Follows(c, v, w))
  }

  predicate SeenFits(c: Cutoffs, p: Progress) {
    forall k :: k in p.seen ==> p.seen[k] in p.placed && p.seen[k].IsNewer(c) && p.seen[k].OwnKey(c) == k
  }

  ghost predicate Inv(c: Cutoffs, live: set<Version>, p: Progress, hand: set<Version>) {
    && (forall v {:trigger Accounted(live, p, hand, v)} :: Accounted(live, p, hand, v))
    && (forall k :: k in p.waiting ==> p.waiting[k].HasSuccessor() && p.waiting[k].SuccessorKey() == k)
    && SeenFits(c, p)
    && (forall v {:trigger Linked(c, p, v)} :: v in p.placed ==> Linked(c, p, v))
    && (forall v {:trigger Recorded(c, p, hand, v)} :: v in p.placed && v.IsNewer(c) ==> Recorded(c, p, hand, v))
    && (forall v {:trigger Settled(c, live, v)} :: v in p.placed || v in hand ==> Settled(c, live, v))
  }

  // ---- The steps ----

  lemma {:induction false} SettledGrows(c: Cutoffs, live: set<Version>, more: set<Version>, v: Version, n: nat)
    requires live <= more && SettledIn(c, live, v, n)
    ensures SettledIn(c, more, v, n)
    decreases n
  {
    if v.HasSuccessor() {
      var w :| w in live && Follows(c, v, w) && SettledIn(c, live, w, n - 1);
      SettledGrows(c, live, more, w, n - 1);
    }
  }

  lemma SettledStays(c: Cutoffs, live: set<Version>, more: set<Version>, v: Version)
    requires live <= more && Settled(c, live, v)
    ensures Settled(c, more, v)
  {
    var n: nat :| SettledIn(c, live, v, n);
    SettledGrows(c, live, more, v, n);
  }

  lemma SettledByNext(c: Cutoffs, live: set<Version>, v: Version, w: Version)
    requires w in live && Follows(c, v, w) && Settled(c, live, w)
    ensures Settled(c, live, v)
  {
    var n: nat :| SettledIn(c, live, w, n);
    assert SettledIn(c, live, v, n + 1);
  }

  /** The tuple about to wait is the first with its successor, and no copied tuple needs it recorded. */
  lemma WaitIsFirst(c: Cutoffs, live: set<Version>, p: Progress, v: Version)
    requires Inv(c, live, p, {}) && v !in live && Separate(live + {v})
    requires v.HasSuccessor() && v.SuccessorKey() !in p.seen
    ensures v.SuccessorKey() !in p.waiting
    ensures forall w :: w in p.placed && w.IsNewer(c) ==> w.OwnKey(c) != v.SuccessorKey()
  {
    var k := v.SuccessorKey();
    assert k in p.waiting ==> Accounted(live, p, {}, p.waiting[k]) && Unlike(p.waiting[k], v);
    forall w | w in p.placed && w.IsNewer(c) ensures w.OwnKey(c) != k {
      assert Recorded(c, p, {}, w);
      assert forall u :: u in p.placed ==> Accounted(live, p, {}, u) && Unlike(u, v);
    }
  }

  /** A tuple whose successor has not been copied yet is put aside. */
  lemma Wait(c: Cutoffs, live: set<Version>, p: Progress, v: Version)
    requires Inv(c, live, p, {}) && v !in live && Separate(live + {v})
    requires v.HasSuccessor() && v.SuccessorKey() !in p.seen
    ensures v.SuccessorKey() !in p.waiting
    ensures Inv(c, live + {v}, p.(waiting := p.waiting[v.SuccessorKey() := v]), {})
  {
    var k := v.SuccessorKey();
    var p' := p.(waiting := p.waiting[k := v]);
    WaitIsFirst(c, live, p, v);
    forall u ensures Accounted(live + {v}, p', {}, u) {
      assert Accounted(live, p, {}, u);
    }
    forall w | w in p.placed ensures Linked(c, p', w) {
      assert Linked(c, p, w);
    }
    forall w | w in p.placed ensures Settled(c, live + {v}, w) {
      SettledStays(c, live, live + {v}, w);
    }
    forall w | w in p.placed && w.IsNewer(c) ensures Recorded(c, p', {}, w) {
      assert Recorded(c, p, {}, w);
    }
    assert SeenFits(c, p');
    assert forall x :: x in p'.waiting ==> p'.waiting[x].HasSuccessor() && p'.waiting[x].SuccessorKey() == x;
    assert forall u {:trigger Recorded(c, p', {}, u)} :: u in p'.placed && u.IsNewer(c) ==> Recorded(c, p', {}, u);
  }

  /** Any other tuple is ready to be written. */
  lemma Take(c: Cutoffs, live: set<Version>, p: Progress, v: Version)
    requires Inv(c, live, p, {}) && v !in live && Separate(live + {v})
    requires v.HasSuccessor() ==> v.SuccessorKey() in p.seen
    ensures var p' := if v.HasSuccessor() then p.(seen := p.seen - {v.SuccessorKey()}) else p;
      && Inv(c, live + {v}, p', {v})
      && PointsTo(c, p', v, if v.HasSuccessor() then Some(p.placed[p.seen[v.SuccessorKey()]].self) else None)
  {
    var p' := if v.HasSuccessor() then p.(seen := p.seen - {v.SuccessorKey()}) else p;
    var all := live + {v};
    forall u ensures Accounted(all, p', {v}, u) {
      assert Accounted(live, p, {}, u);
    }
    forall w | w in p.placed ensures Linked(c, p', w) && Settled(c, all, w) {
      assert Linked(c, p, w);
      SettledStays(c, live, all, w);
    }
    assert Settled(c, all, v) by {
      if v.HasSuccessor() {
        var w := p.seen[v.SuccessorKey()];
        assert Accounted(live, p, {}, w);
        SettledByNext(c, all, v, w);
      } else {
        assert SettledIn(c, all, v, 0);
      }
    }
    forall w | w in p.placed && w.IsNewer(c) ensures Recorded(c, p', {v}, w) {
      assert Recorded(c, p, {}, w);
    }
  }

  /** `v` has been written at `self`. */
  function Write(p: Progress, v: Version, self: Tid, ctid: Option<Tid>): Progress {
    p.(placed := p.placed[v := Place(self, if ctid.Some? then ctid.value else self)])
  }

  /** `v` is on record as a newer half. */
  function Note(c: Cutoffs, p: Progress, v: Version): Progress {
    p.(seen := p.seen[v.OwnKey(c) := v])
  }

  /** What waits under `k` no longer does. */
  function Release(p: Progress, k: Key): Progress {
    p.(waiting := p.waiting - {k})
  }

  lemma WriteKeepsLinks(c: Cutoffs, live: set<Version>, p: Progress, v: Version, self: Tid, ctid: Option<Tid>)
    requires Inv(c, live, p, {v}) && PointsTo(c, p, v, ctid)
    ensures var p' := Write(p, v, self, ctid); v !in p.placed && forall w :: w in p'.placed ==> Linked(c, p', w)
  {
    var p' := Write(p, v, self, ctid);
    assert Accounted(live, p, {v}, v);
    forall w | w in p'.placed ensures Linked(c, p', w) {
      assert w == v || Linked(c, p, w);
      if w.HasSuccessor() {
        var at := Some(p'.placed[w].ctid);
        var x :| x in p.placed && Follows(c, w, x) && at == Some(p.placed[x].self);
        assert x in p'.placed && p'.placed[x] == p.placed[x];
      }
    }
  }

  lemma WriteKeepsRest(c: Cutoffs, live: set<Version>, p: Progress, v: Version, self: Tid, ctid: Option<Tid>)
    requires Inv(c, live, p, {v})
    ensures var p' := Write(p, v, self, ctid);
      && (forall u :: Accounted(live, p', {}, u))
      && (forall w :: w in p.placed && w.IsNewer(c) ==> Recorded(c, p', {}, w))
      && (forall w :: w in p'.placed ==> Settled(c, live, w))
      && SeenFits(c, p')
  {
    var p' := Write(p, v, self, ctid);
    forall u ensures Accounted(live, p', {}, u) {
      assert Accounted(live, p, {v}, u);
    }
    forall w | w in p.placed && w.IsNewer(c) ensures Recorded(c, p', {}, w) {
      assert Recorded(c, p, {v}, w);
    }
    forall w | w in p'.placed ensures Settled(c, live, w) {
    }
  }

  /** A tuple that is not the newer half of a pair needs no record. */
  lemma Settle(c: Cutoffs, live: set<Version>, p: Progress, v: Version, self: Tid, ctid: Option<Tid>)
    requires Inv(c, live, p, {v}) && PointsTo(c, p, v, ctid) && !v.IsNewer(c)
    ensures Inv(c, live, Write(p, v, self, ctid), {})
  {
    WriteKeepsLinks(c, live, p, v, self, ctid);
    WriteKeepsRest(c, live, p, v, self, ctid);
  }

  /** Nothing written so far points to the tuple in hand. */
  lemma NotPointedTo(c: Cutoffs, live: set<Version>, p: Progress, v: Version, w: Version)
    requires Inv(c, live, p, {v}) && Separate(live) && (w in p.placed || w == v) && w.HasSuccessor()
    ensures w.SuccessorKey() != v.OwnKey(c)
  {
    assert Accounted(live, p, {v}, v);
    if w in p.placed {
      assert Linked(c, p, w);
      var x :| x in p.placed && Follows(c, w, x);
      assert Accounted(live, p, {v}, x);
      assert Unlike(x, v);
    }
  }

  lemma AddSeen(c: Cutoffs, p: Progress, v: Version)
    requires SeenFits(c, p) && v in p.placed && v.IsNewer(c)
    ensures SeenFits(c, Note(c, p, v))
  {
  }

  /** A newer half whose older half has not been seen goes on record. */
  lemma Record(c: Cutoffs, live: set<Version>, p: Progress, v: Version, self: Tid, ctid: Option<Tid>)
    requires Inv(c, live, p, {v}) && PointsTo(c, p, v, ctid) && Separate(live)
    requires v.IsNewer(c) && v.OwnKey(c) !in p.waiting
    ensures v.OwnKey(c) !in p.seen
    ensures Inv(c, live, Note(c, Write(p, v, self, ctid), v), {})
  {
    var k, p' := v.OwnKey(c), Write(p, v, self, ctid);
    var p2 := Note(c, p', v);
    WriteKeepsLinks(c, live, p, v, self, ctid);
    WriteKeepsRest(c, live, p, v, self, ctid);
    KeyIsFresh(c, live, p, v);
    forall u ensures Accounted(live, p2, {}, u) {
      assert Accounted(live, p', {}, u);
    }
    forall w | w in p2.placed ensures Linked(c, p2, w) {
      assert Linked(c, p', w);
      if w.HasSuccessor() {
        NotPointedTo(c, live, p, v, w);
      }
    }
    forall w | w in p2.placed && w.IsNewer(c) ensures Recorded(c, p2, {}, w) {
      assert w == v || Recorded(c, p', {}, w);
    }
    AddSeen(c, p', v);
  }

  /** The tuple in hand is not on record yet. */
  lemma KeyIsFresh(c: Cutoffs, live: set<Version>, p: Progress, v: Version)
    requires Inv(c, live, p, {v}) && Separate(live) && v.IsNewer(c)
    ensures v.OwnKey(c) !in p.seen
  {
    var k := v.OwnKey(c);
    assert Accounted(live, p, {v}, v);
    assert k in p.seen ==> Accounted(live, p, {v}, p.seen[k]) && (p.seen[k] == v || Unlike(p.seen[k], v));
  }

  /** What waits is not on record. */
  lemma NotSeenYet(c: Cutoffs, live: set<Version>, p: Progress, v: Version, k: Key)
    requires Inv(c, live, p, {v}) && k in p.waiting
    ensures k !in p.seen
  {
    assert forall w :: w in p.placed && w.IsNewer(c) ==> Recorded(c, p, {v}, w);
  }

  lemma Released(live: set<Version>, p: Progress, k: Key, x: Version)
    requires k in p.waiting && p.waiting[k].HasSuccessor() && p.waiting[k].SuccessorKey() == k
    requires Accounted(live, p, {}, x)
    ensures Accounted(live, Release(p, k), {p.waiting[k]}, x)
  {
  }

  /** A newer half whose older half waits lets that one go on. */
  lemma Resolve(c: Cutoffs, live: set<Version>, p: Progress, v: Version, self: Tid, ctid: Option<Tid>)
    requires Inv(c, live, p, {v}) && PointsTo(c, p, v, ctid) && Separate(live)
    requires v.IsNewer(c) && v.OwnKey(c) in p.waiting
    ensures var p' := Release(Write(p, v, self, ctid), v.OwnKey(c));
      var u := p.waiting[v.OwnKey(c)];
      && Inv(c, live, p', {u}) && PointsTo(c, p', u, Some(self))
  {
    var k, p' := v.OwnKey(c), Write(p, v, self, ctid);
    var u, p2 := p.waiting[k], Release(p', k);
    WriteKeepsLinks(c, live, p, v, self, ctid);
    WriteKeepsRest(c, live, p, v, self, ctid);
    forall x ensures Accounted(live, p2, {u}, x) {
      Released(live, p', k, x);
    }
    forall w | w in p2.placed ensures Linked(c, p2, w) {
      assert Linked(c, p', w);
    }
    assert Follows(c, u, v) && v in p2.placed && p2.placed[v].self == self;
    forall w | w in p2.placed && w.IsNewer(c) ensures Recorded(c, p2, {u}, w) {
      assert w == v || Recorded(c, p', {}, w);
    }
    NotSeenYet(c, live, p, v, k);
    assert Accounted(live, p, {v}, v) && Settled(c, live, v);
    SettledByNext(c, live, u, v);
  }

  lemma OneMore(s: set<Version>, v: Version)
    requires v !in s
    ensures |s + {v}| == |s| + 1
  {
  }

  /** A dead tuple drops the tuple that waits for it. */
  lemma Drop(c: Cutoffs, live: set<Version>, p: Progress, k: Key)
    requires Inv(c, live, p, {}) && k in p.waiting
    ensures p.waiting[k] !in p.dropped
    ensures Inv(c, live, p.(waiting := p.waiting - {k}, dropped := p.dropped + {p.waiting[k]}), {})
  {
    var p' := p.(waiting := p.waiting - {k}, dropped := p.dropped + {p.waiting[k]});
    assert Accounted(live, p, {}, p.waiting[k]);
    forall u ensures Accounted(live, p', {}, u) {
      assert Accounted(live, p, {}, u);
    }
    forall w | w in p.placed ensures Linked(c, p', w) {
      assert Linked(c, p, w);
    }
    forall w | w in p.placed && w.IsNewer(c) ensures Recorded(c, p', {}, w) {
      assert Recorded(c, p, {}, w);
    }
  }

  // ---- The history ----

  /** A tuple whose chain leads to the end through live tuples is never dropped. */
  lemma SettledIsNotGone(c: Cutoffs, events: seq<Event>, v: Version)
    requires Sane(events) && Settled(c, LiveSet(events), v)
    ensures v !in Gone(events)
  {
  }

  /** In every state, the tuples written are exactly those the reference calls settled. */
  lemma PlacedAreSettled(c: Cutoffs, events: seq<Event>, p: Progress, v: Version)
    requires Sane(events) && Inv(c, LiveSet(events), p, {}) && p.dropped == Gone(events)
    ensures v in p.placed <==> v in LiveSet(events) && Settled(c, LiveSet(events), v)
  {
    assert Accounted(LiveSet(events), p, {}, v);
    if v in LiveSet(events) && Settled(c, LiveSet(events), v) {
      var n: nat :| SettledIn(c, LiveSet(events), v, n);
      SettledArePlaced(c, events, p, v, n);
    }
  }

  lemma {:induction false} SettledArePlaced(c: Cutoffs, events: seq<Event>, p: Progress, v: Version, n: nat)
    requires Sane(events) && Inv(c, LiveSet(events), p, {}) && p.dropped == Gone(events)
    requires v in LiveSet(events) && SettledIn(c, LiveSet(events), v, n)
    ensures v in p.placed
    decreases n
  {
    assert Accounted(LiveSet(events), p, {}, v);
    SettledIsNotGone(c, events, v);
    if v.HasSuccessor() {
      var w :| w in LiveSet(events) && Follows(c, v, w) && SettledIn(c, LiveSet(events), w, n - 1);
      SettledArePlaced(c, events, p, w, n - 1);
      assert Recorded(c, p, {}, w);
    }
  }

  lemma HistoryGrows(events: seq<Event>, e: Event)
    requires Sane(events + [e])
    ensures Sane(events) && e.v !in LiveSet(events)
    ensures LiveSet(events + [e]) == if e.Live? then LiveSet(events) + {e.v} else LiveSet(events)
    ensures Gone(events + [e]) == Gone(events) + set u | u in LiveSet(events) && u.HasSuccessor() && Kills(e, u)
  {
    var all := events + [e];
    assert forall i :: 0 <= i < |events| ==> all[i] == events[i];
    assert all[|events|] == e;
    forall v | v in LiveSet(events) ensures v in LiveSet(all) {
      var i :| 0 <= i < |events| && events[i] == Live(v);
      assert all[i] == Live(v);
    }
    forall v | v in LiveSet(events) ensures v in Gone(all) <==> v in Gone(events) || (v.HasSuccessor() && Kills(e, v)) {
      var i :| 0 <= i < |events| && events[i] == Live(v);
      if DeadAfter(events, v) {
        var a, b :| 0 <= a < b < |events| && events[a] == Live(v) && Kills(events[b], v);
        assert all[a] == Live(v) && Kills(all[b], v);
      }
      if v.HasSuccessor() && Kills(e, v) {
        assert all[i] == Live(v) && Kills(all[|events|], v);
      }
    }
  }

  /** What a dead tuple drops is what waits for it. */
  lemma DeadDrops(c: Cutoffs, events: seq<Event>, p: Progress, d: Version)
    requires Sane(events + [Dead(d)]) && Inv(c, LiveSet(events), p, {}) && p.dropped == Gone(events)
    ensures var k := Key(d.xmin, d.tid);
      Gone(events + [Dead(d)]) == if k in p.waiting then p.dropped + {p.waiting[k]} else p.dropped
  {
    var k, all := Key(d.xmin, d.tid), events + [Dead(d)];
    HistoryGrows(events, Dead(d));
    assert k in p.waiting ==> Accounted(LiveSet(events), p, {}, p.waiting[k]);
    forall u | u in LiveSet(events) && u.HasSuccessor() && Kills(Dead(d), u)
      ensures u in p.dropped || (k in p.waiting && p.waiting[k] == u)
    {
      assert Accounted(LiveSet(events), p, {}, u);
      if u in p.placed {
        SettledIsNotGone(c, all, u);
      }
    }
  }

  // ---- The new heap ----

  /** The pages of the new heap: those written out, from block `first` on, and the one being built. */
  datatype Heap = Heap(first: nat, disk: seq<seq<NewTuple>>, page: seq<NewTuple>)
  {
    function Fetch(t: Tid): Option<NewTuple> {
      if t.off == 0 || t.block < first then None
      else if t.block < first + |disk| then At(disk[t.block - first], t.off)
      else if t.block == first + |disk| then At(page, t.off)
      else None
    }

    function Size(): nat {
      Total(disk) + |page|
    }
  }

  function At(page: seq<NewTuple>, off: nat): Option<NewTuple>
    requires off > 0
  {
    if off <= |page| then Some(page[off-1]) else None
  }

  function Total(disk: seq<seq<NewTuple>>): nat {
    if disk == [] then 0 else Total(disk[..|disk|-1]) + |disk[|disk|-1]|
  }

  /** Bytes that the tuples of a page and their line pointers take. */
  function Used(page: seq<NewTuple>): nat {
    if page == [] then 0 else Used(page[..|page|-1]) + SIZE_OF_ITEM_ID + Compactify.MaxAlign(page[|page|-1].len)
  }

  predicate Fits(page: seq<NewTuple>) {
    Used(page) <= BLCKSZ - SIZE_OF_PAGE_HEADER && |page| <= MAX_TUPLES_PER_PAGE
  }

  /** PageGetHeapFreeSpace */
  function HeapFreeSpace(page: seq<NewTuple>): nat
    requires Fits(page)
  {
    var space := BLCKSZ - SIZE_OF_PAGE_HEADER - Used(page);
    if space < SIZE_OF_ITEM_ID || |page| >= MAX_TUPLES_PER_PAGE then 0 else space - SIZE_OF_ITEM_ID
  }

  predicate TooBig(len: Size) {
    Compactify.MaxAlign(len) > MAX_TUPLE_SIZE
  }

  /** One tuple more, at a new place; everything else stays. */
  ghost predicate Inserted(h: Heap, h': Heap, self: Tid, t: NewTuple) {
    && h.Fetch(self) == None && h'.Fetch(self) == Some(t) && h'.Size() == h.Size() + 1
    && forall x :: x != self ==> h'.Fetch(x) == h.Fetch(x)
  }

  /** The new heap holds the copies, each at its own place, and nothing else. */
  ghost predicate Holds(h: Heap, c: Cutoffs, placed: map<Version, Place>) {
    && (forall v {:trigger HeldAt(h, c, placed, v)} :: v in placed ==> HeldAt(h, c, placed, v))
    && (forall v, w {:trigger OwnPlace(placed, v, w)} :: v in placed && w in placed && v != w ==>
        OwnPlace(placed, v, w))
    && h.Size() == |placed|
  }

  predicate HeldAt(h: Heap, c: Cutoffs, placed: map<Version, Place>, v: Version)
    requires v in placed
  {
    h.Fetch(placed[v].self) == Some(v.Copy(c, Some(placed[v].ctid)))
  }

  /** A row is there as it was: only an xmin that is old enough to be frozen has changed, and its link. */
  ghost predicate KeepsRow(h: Heap, c: Cutoffs, v: Version, place: Place) {
    var t := h.Fetch(place.self);
    && t.Some? && t.value.data == v.data && t.value.len == v.len && t.value.updated == v.updated
    && t.value.ctid == Some(place.ctid)
    && t.value.xmin == if FIRST_NORMAL_XID <= v.xmin && v.xmin < c.freezeXid then FROZEN_XID else v.xmin
  }

  lemma RowsAreKept(h: Heap, c: Cutoffs, placed: map<Version, Place>)
    requires Holds(h, c, placed)
    ensures forall v :: v in placed ==> KeepsRow(h, c, v, placed[v])
  {
    forall v | v in placed ensures KeepsRow(h, c, v, placed[v]) {
      assert HeldAt(h, c, placed, v);
    }
  }

  predicate OwnPlace(placed: map<Version, Place>, v: Version, w: Version)
    requires v in placed && w in placed
  {
    placed[v].self != placed[w].self
  }

  ghost predicate SameHeap(h: Heap, h': Heap) {
    h'.Size() == h.Size() && forall x :: h'.Fetch(x) == h.Fetch(x)
  }

  /** Writing a page out changes nothing. */
  lemma FlushedPage(h: Heap)
    ensures SameHeap(h, Heap(h.first, h.disk + [h.page], []))
  {
  }

  lemma GrownPage(h0: Heap, h: Heap, t: NewTuple)
    requires SameHeap(h0, h)
    ensures Inserted(h0, Heap(h.first, h.disk, h.page + [t]), Tid(h.first + |h.disk|, |h.page| + 1), t)
  {
  }

  lemma FitsOneMore(page: seq<NewTuple>, t: NewTuple, save: nat)
    requires Fits(page) && !TooBig(t.len)
    requires page != [] ==> Compactify.MaxAlign(t.len) + save <= HeapFreeSpace(page)
    ensures Fits(page + [t])
  {
  }

  lemma HoldsOneMore(h: Heap, h': Heap, c: Cutoffs, p: Progress, v: Version, self: Tid, ctid: Option<Tid>)
    requires Holds(h, c, p.placed) && v !in p.placed
    requires Inserted(h, h', self, v.Copy(c, Some(if ctid.Some? then ctid.value else self)))
    ensures Holds(h', c, Write(p, v, self, ctid).placed)
  {
    var placed' := Write(p, v, self, ctid).placed;
    forall u | u in p.placed
      ensures p.placed[u].self != self && h'.Fetch(p.placed[u].self) == h.Fetch(p.placed[u].self)
    {
      assert HeldAt(h, c, p.placed, u);
    }
    forall u | u in placed' ensures HeldAt(h', c, placed', u) {
      assert u != v ==> HeldAt(h, c, p.placed, u);
    }
    forall u, w | u in placed' && w in placed' && u != w ensures OwnPlace(placed', u, w) {
      assert u != v && w != v ==> OwnPlace(p.placed, u, w);
    }
    OneMorePlace(p.placed, v, placed'[v]);
  }

  lemma OneMorePlace(placed: map<Version, Place>, v: Version, at: Place)
    requires v !in placed
    ensures |placed[v := at]| == |placed| + 1
  {
  }

  /** The hash tables hold what the progress says. */
  ghost predicate TablesFit(c: Cutoffs, p: Progress, unresolved: map<Key, Pending>, oldNew: map<Key, Tid>) {
    && unresolved.Keys == p.waiting.Keys && oldNew.Keys == p.seen.Keys
    && (forall k :: k in unresolved ==> unresolved[k] == Pending(p.waiting[k].tid, p.waiting[k].Copy(c, None)))
    && (forall k :: k in oldNew ==> p.seen[k] in p.placed && oldNew[k] == p.placed[p.seen[k]].self)
  }

  lemma TablesKeepWrite(c: Cutoffs, p: Progress, unresolved: map<Key, Pending>, oldNew: map<Key, Tid>, v: Version,
                        self: Tid, ctid: Option<Tid>)
    requires TablesFit(c, p, unresolved, oldNew) && v !in p.placed
    ensures TablesFit(c, Write(p, v, self, ctid), unresolved, oldNew)
  {
  }

  lemma TablesKeepNote(c: Cutoffs, p: Progress, unresolved: map<Key, Pending>, oldNew: map<Key, Tid>, v: Version)
    requires TablesFit(c, p, unresolved, oldNew) && v in p.placed
    ensures TablesFit(c, Note(c, p, v), unresolved, oldNew[v.OwnKey(c) := p.placed[v].self])
  {
  }

  lemma TablesKeepRelease(c: Cutoffs, p: Progress, unresolved: map<Key, Pending>, oldNew: map<Key, Tid>, k: Key)
    requires TablesFit(c, p, unresolved, oldNew) && k in p.waiting
    ensures TablesFit(c, Release(p, k), unresolved - {k}, oldNew) && |unresolved - {k}| < |unresolved|
  {
  }

  /** The progress made is right, and the tables and the new heap agree with it. */
  ghost predicate OnTrack(c: Cutoffs, events: seq<Event>, p: Progress, hand: set<Version>,
                          unresolved: map<Key, Pending>, oldNew: map<Key, Tid>, heap: Heap) {
    && Sane(events) && Inv(c, LiveSet(events), p, hand) && p.dropped == Gone(events)
    && TablesFit(c, p, unresolved, oldNew) && Holds(heap, c, p.placed)
  }

  /** What RawInsert stores. */
  function Stored(t: NewTuple, self: Tid): NewTuple {
    if t.ctid.None? then t.(ctid := Some(self)) else t
  }

  lemma SettleStep(c: Cutoffs, events: seq<Event>, p: Progress, v: Version, u: map<Key, Pending>, m: map<Key, Tid>,
                   h: Heap, h': Heap, self: Tid, ctid: Option<Tid>)
    requires OnTrack(c, events, p, {v}, u, m, h) && PointsTo(c, p, v, ctid) &&
      Inserted(h, h', self, Stored(v.Copy(c, ctid), self))
    requires !v.IsNewer(c)
    ensures OnTrack(c, events, Write(p, v, self, ctid), {}, u, m, h')
  {
    InHand(c, LiveSet(events), p, v);
    HoldsOneMore(h, h', c, p, v, self, ctid);
    TablesKeepWrite(c, p, u, m, v, self, ctid);
    Settle(c, LiveSet(events), p, v, self, ctid);
  }

  lemma RecordStep(c: Cutoffs, events: seq<Event>, p: Progress, v: Version, u: map<Key, Pending>, m: map<Key, Tid>,
                   h: Heap, h': Heap, self: Tid, ctid: Option<Tid>)
    requires OnTrack(c, events, p, {v}, u, m, h) && PointsTo(c, p, v, ctid) &&
      Inserted(h, h', self, Stored(v.Copy(c, ctid), self))
    requires v.IsNewer(c) && v.OwnKey(c) !in u
    ensures v.OwnKey(c) !in m
    ensures OnTrack(c, events, Note(c, Write(p, v, self, ctid), v), {}, u, m[v.OwnKey(c) := self], h')
  {
    InHand(c, LiveSet(events), p, v);
    HoldsOneMore(h, h', c, p, v, self, ctid);
    TablesKeepWrite(c, p, u, m, v, self, ctid);
    TablesKeepNote(c, Write(p, v, self, ctid), u, m, v);
    Record(c, LiveSet(events), p, v, self, ctid);
  }

  lemma ResolveStep(c: Cutoffs, events: seq<Event>, p: Progress, v: Version, u: map<Key, Pending>, m: map<Key, Tid>,
                    h: Heap, h': Heap, self: Tid, ctid: Option<Tid>)
    requires OnTrack(c, events, p, {v}, u, m, h) && PointsTo(c, p, v, ctid) &&
      Inserted(h, h', self, Stored(v.Copy(c, ctid), self))
    requires v.IsNewer(c) && v.OwnKey(c) in u
    ensures var k := v.OwnKey(c); var p' := Release(Write(p, v, self, ctid), k);
      && OnTrack(c, events, p', {p.waiting[k]}, u - {k}, m, h') && PointsTo(c, p', p.waiting[k], Some(self)) &&
           |u - {k}| < |u|
      && u[k] == Pending(p.waiting[k].tid, p.waiting[k].Copy(c, None))
  {
    InHand(c, LiveSet(events), p, v);
    HoldsOneMore(h, h', c, p, v, self, ctid);
    TablesKeepWrite(c, p, u, m, v, self, ctid);
    TablesKeepRelease(c, Write(p, v, self, ctid), u, m, v.OwnKey(c));
    Resolve(c, LiveSet(events), p, v, self, ctid);
  }

  lemma InHand(c: Cutoffs, live: set<Version>, p: Progress, v: Version)
    requires Inv(c, live, p, {v})
    ensures v !in p.placed && v in live
  {
    assert Accounted(live, p, {v}, v);
  }

  /** What WriteStep does to the tables, and what it hands on. */
  predicate Advanced(c: Cutoffs, t: NewTuple, oldTid: Tid, self: Tid, u: map<Key, Pending>, m: map<Key, Tid>,
                     u': map<Key, Pending>, m': map<Key, Tid>, more: bool, t': NewTuple, oldTid': Tid)
  {
    var key := Key(t.xmin, oldTid);
    if t.updated && !(t.xmin < c.oldestXmin) then
      if key in u then
        more && u' == u - {key} && m' == m && t' == u[key].tuple.(ctid := Some(self)) && oldTid' == u[key].oldTid
      else
        !more && u' == u && m' == m[key := self]
    else
      !more && u' == u && m' == m
  }

  /** One round of the loop keeps everything on track: either it is done with the chain, or it has
      the next older tuple in hand, and the table of unresolved tuples has shrunk. */
  lemma Advance(c: Cutoffs, events: seq<Event>, p: Progress, v: Version, u: map<Key, Pending>, m: map<Key, Tid>,
                h: Heap, h': Heap, t: NewTuple, self: Tid, u': map<Key, Pending>, m': map<Key, Tid>, more: bool,
                t': NewTuple, oldTid': Tid)
    returns (p': Progress, v': Version)
    requires OnTrack(c, events, p, {v}, u, m, h) && PointsTo(c, p, v, t.ctid) && t == v.Copy(c, t.ctid)
    requires Inserted(h, h', self, Stored(t, self)) && Advanced(c, t, v.tid, self, u, m, u', m', more, t', oldTid')
    ensures OnTrack(c, events, p', if more then {v'} else {}, u', m', h')
    ensures more ==> PointsTo(c, p', v', t'.ctid) && t' == v'.Copy(c, t'.ctid) && oldTid' == v'.tid && |u'| < |u|
  {
    v' := v;
    p' := Write(p, v, self, t.ctid);
    if !v.IsNewer(c) {
      SettleStep(c, events, p, v, u, m, h, h', self, t.ctid);
    } else if v.OwnKey(c) in u {
      ResolveStep(c, events, p, v, u, m, h, h', self, t.ctid);
      v' := p.waiting[v.OwnKey(c)];
      p' := Release(p', v.OwnKey(c));
    } else {
      RecordStep(c, events, p, v, u, m, h, h', self, t.ctid);
      p' := Note(c, p', v);
    }
  }

  /** What Receive does to the tables, and the copy it makes. */
  predicate Received(c: Cutoffs, v: Version, u: map<Key, Pending>, m: map<Key, Tid>, u': map<Key, Pending>,
                     m': map<Key, Tid>, ready: bool, t: NewTuple) {
    var key := v.SuccessorKey();
    if v.HasSuccessor() && key !in m then
      !ready && u' == u[key := Pending(v.tid, v.Copy(c, None))] && m' == m
    else
      && ready && u' == u && t == v.Copy(c, if v.HasSuccessor() then Some(m[key]) else None)
      && m' == if v.HasSuccessor() then m - {key} else m
  }

  lemma TablesKeepWait(c: Cutoffs, p: Progress, u: map<Key, Pending>, m: map<Key, Tid>, v: Version)
    requires TablesFit(c, p, u, m)
    ensures var k := v.SuccessorKey();
      TablesFit(c, p.(waiting := p.waiting[k := v]), u[k := Pending(v.tid, v.Copy(c, None))], m)
  {
  }

  lemma TablesKeepTake(c: Cutoffs, p: Progress, u: map<Key, Pending>, m: map<Key, Tid>, k: Key)
    requires TablesFit(c, p, u, m)
    ensures TablesFit(c, p.(seen := p.seen - {k}), u, m - {k})
  {
  }

  /** A tuple arrives: it waits if its successor is yet to come, else it is ready to be written. */
  lemma Arrive(c: Cutoffs, events: seq<Event>, p: Progress, v: Version, u: map<Key, Pending>, m: map<Key, Tid>, h: Heap,
               u': map<Key, Pending>, m': map<Key, Tid>, ready: bool, t: NewTuple)
    returns (p': Progress)
    requires OnTrack(c, events, p, {}, u, m, h) && Sane(events + [Live(v)])
    requires Received(c, v, u, m, u', m', ready, t)
    ensures !ready ==> v.SuccessorKey() !in u
    ensures OnTrack(c, events + [Live(v)], p', if ready then {v} else {}, u', m', h)
    ensures ready ==> PointsTo(c, p', v, t.ctid) && t == v.Copy(c, t.ctid)
  {
    HistoryGrows(events, Live(v));
    var live, k := LiveSet(events), v.SuccessorKey();
    assert Gone(events + [Live(v)]) == Gone(events);
    if v.HasSuccessor() && k !in m {
      Wait(c, live, p, v);
      TablesKeepWait(c, p, u, m, v);
      p' := p.(waiting := p.waiting[k := v]);
    } else {
      Take(c, live, p, v);
      TablesKeepTake(c, p, u, m, k);
      p' := if v.HasSuccessor() then p.(seen := p.seen - {k}) else p;
    }
  }

  /** A dead tuple releases what waits for it. */
  lemma Bury(c: Cutoffs, events: seq<Event>, p: Progress, d: Version, u: map<Key, Pending>, m: map<Key, Tid>, h: Heap,
             u': map<Key, Pending>)
    returns (p': Progress)
    requires OnTrack(c, events, p, {}, u, m, h) && Sane(events + [Dead(d)])
    requires var k := Key(d.xmin, d.tid); u' == if k in u then u - {k} else u
    ensures OnTrack(c, events + [Dead(d)], p', {}, u', m, h)
    ensures |p'.dropped| == |p.dropped| + if Key(d.xmin, d.tid) in u then 1 else 0
  {
    var k := Key(d.xmin, d.tid);
    HistoryGrows(events, Dead(d));
    DeadDrops(c, events, p, d);
    p' := p;
    if k in p.waiting {
      Drop(c, LiveSet(events), p, k);
      TablesKeepRelease(c, p, u, m, k);
      OneMore(p.dropped, p.waiting[k]);
      p' := p.(waiting := p.waiting - {k}, dropped := p.dropped + {p.waiting[k]});
    }
  }

  // ---- The result ----

  /** The simple relinking that the rewrite refines: every live tuple that no dead one drops has a
      copy, and a copy points to the copy of the tuple's successor if the chain leads through live
      tuples to its end, else to itself. Nothing here depends on the order of arrival but what is dropped. */
  ghost predicate Relinked(c: Cutoffs, events: seq<Event>, placed: map<Version, Place>) {
    && placed.Keys == LiveSet(events) - Gone(events)
    && forall v {:trigger RelinkedAt(c, LiveSet(events), placed, v)} :: v in placed ==>
         RelinkedAt(c, LiveSet(events), placed, v)
  }

  ghost predicate RelinkedAt(c: Cutoffs, live: set<Version>, placed: map<Version, Place>, v: Version)
    requires v in placed
  {
    if v.HasSuccessor() && Settled(c, live, v)
    then exists w :: w in placed && Follows(c, v, w) && placed[v].ctid == placed[w].self
    else placed[v].ctid == placed[v].self
  }

  /** The flush so far: `q` is what was placed before it, and the waiting tuples not in `rest`, each
      pointing to itself. */
  ghost predicate Flushed(p: Progress, q: map<Version, Place>, rest: set<Key>) {
    && (forall v :: v in q <==> v in p.placed || (p.Waits(v) && v.SuccessorKey() !in rest))
    && (forall v :: v in p.placed ==> q[v] == p.placed[v])
    && (forall v :: v in q && v !in p.placed ==> q[v].ctid == q[v].self)
  }

  lemma FlushOne(c: Cutoffs, live: set<Version>, p: Progress, q: map<Version, Place>, rest: set<Key>, k: Key, h: Heap,
                 h': Heap, self: Tid)
    returns (q': map<Version, Place>)
    requires Inv(c, live, p, {}) && Flushed(p, q, rest) && k in rest && k in p.waiting
    requires Holds(h, c, q) && Inserted(h, h', self, Stored(p.waiting[k].Copy(c, None), self))
    ensures Flushed(p, q', rest - {k}) && Holds(h', c, q')
  {
    var v := p.waiting[k];
    assert Accounted(live, p, {}, v);
    q' := q[v := Place(self, self)];
    assert Write(p.(placed := q), v, self, None).placed == q';
    HoldsOneMore(h, h', c, p.(placed := q), v, self, None);
  }

  lemma FlushedIsRelinked(c: Cutoffs, events: seq<Event>, p: Progress, q: map<Version, Place>)
    requires Sane(events) && Inv(c, LiveSet(events), p, {}) && p.dropped == Gone(events) && Flushed(p, q, {})
    ensures Relinked(c, events, q)
  {
    var live := LiveSet(events);
    forall v ensures v in q <==> v in live - Gone(events) {
      assert Accounted(live, p, {}, v);
    }
    forall v | v in q ensures RelinkedAt(c, live, q, v) {
      PlacedAreSettled(c, events, p, v);
      assert Accounted(live, p, {}, v);
      if v in p.placed {
        assert Linked(c, p, v);
        if v.HasSuccessor() {
          var w :| w in p.placed && Follows(c, v, w) && p.placed[v].ctid == p.placed[w].self;
          assert w in q && q[w] == p.placed[w];
        }
      }
    }
  }

  /** Two runs over the same tuples relink those that both keep in the same way, whatever the order
      in which each saw them. */
  lemma OrderDoesNotMatter(c: Cutoffs, events1: seq<Event>, events2: seq<Event>, placed1: map<Version, Place>,
                           placed2: map<Version, Place>, h1: Heap, h2: Heap, v: Version, w: Version)
    requires Sane(events1) && Sane(events2) && LiveSet(events1) == LiveSet(events2)
    requires Relinked(c, events1, placed1) && Relinked(c, events2, placed2)
    requires Holds(h1, c, placed1) && Holds(h2, c, placed2)
    requires v in placed1 && v in placed2 && w in placed1 && w in placed2
    ensures placed1[v].ctid == placed1[w].self <==> placed2[v].ctid == placed2[w].self
  {
    var live := LiveSet(events1);
    assert RelinkedAt(c, live, placed1, v) && RelinkedAt(c, live, placed2, v);
    if v.HasSuccessor() && Settled(c, live, v) {
      var x :| x in placed1 && Follows(c, v, x) && placed1[v].ctid == placed1[x].self;
      var y :| y in placed2 && Follows(c, v, y) && placed2[v].ctid == placed2[y].self;
      assert x == y by {
        assert x != y ==> Unlike(x, y);
      }
      assert x != w ==> OwnPlace(placed1, x, w) && OwnPlace(placed2, x, w);
    } else {
      assert v != w ==> OwnPlace(placed1, v, w) && OwnPlace(placed2, v, w);
    }
  }

  /** A pair whose newer half is written before the flush is linked in the new heap. */
  lemma PairsAreLinked(c: Cutoffs, events: seq<Event>, placed: map<Version, Place>, v: Version, w: Version)
    requires Sane(events) && Relinked(c, events, placed)
    requires v in LiveSet(events) && w in LiveSet(events) && Follows(c, v, w) && Settled(c, LiveSet(events), w)
    ensures v in placed && w in placed && placed[v].ctid == placed[w].self
  {
    SettledByNext(c, LiveSet(events), v, w);
    SettledIsNotGone(c, events, v);
    SettledIsNotGone(c, events, w);
    assert RelinkedAt(c, LiveSet(events), placed, v);
    var x :| x in placed && Follows(c, v, x) && placed[v].ctid == placed[x].self;
    assert x != w ==> Unlike(x, w);
  }

  /** `v` was updated to `w`, as the old heap has it, and someone may still see `v`. */
  predicate UpdatePair(c: Cutoffs, v: Version, w: Version) {
    && !v.xmaxInvalid && !v.onlyLocked && !v.movedPartitions && v.ctid == w.tid && v.tid != w.tid
    && w.updated && v.updateXid == w.xmin && c.oldestXmin <= w.xmin
  }

  /** No other version of the row came after `v` in this table, as the old heap has it. */
  predicate IsNewest(v: Version) {
    v.xmaxInvalid || v.onlyLocked || v.movedPartitions || v.ctid == v.tid
  }

  /** An update chain of the old heap that leads to its end. */
  ghost predicate WholeChain(c: Cutoffs, live: set<Version>, chain: seq<Version>) {
    && chain != [] && (forall i :: 0 <= i < |chain| ==> chain[i] in live) && IsNewest(chain[|chain|-1])
    && (forall i, j :: 0 <= i && j == i + 1 < |chain| ==> UpdatePair(c, chain[i], chain[j]))
  }

  lemma {:induction false} ChainIsSettled(c: Cutoffs, live: set<Version>, chain: seq<Version>, i: nat)
    requires FROZEN_XID < c.oldestXmin && c.freezeXid <= c.oldestXmin
    requires WholeChain(c, live, chain) && i < |chain|
    ensures Settled(c, live, chain[i])
    ensures i + 1 < |chain| ==> Follows(c, chain[i], chain[i+1])
    decreases |chain| - i
  {
    if i + 1 < |chain| {
      assert UpdatePair(c, chain[i], chain[i+1]);
      FreezingKeepsPairs(c, chain[i], chain[i+1]);
      ChainIsSettled(c, live, chain, i + 1);
      SettledByNext(c, live, chain[i], chain[i+1]);
    } else {
      assert SettledIn(c, live, chain[i], 0);
    }
  }

  /** In whatever order its tuples are presented, and whether or not they are frozen on the way: a chain of the old
      heap is a chain of the new one, with the newest tuple pointing to itself. */
  lemma ChainsAreRelinked(c: Cutoffs, events: seq<Event>, placed: map<Version, Place>, chain: seq<Version>, i: nat)
    requires FROZEN_XID < c.oldestXmin && c.freezeXid <= c.oldestXmin
    requires Sane(events) && Relinked(c, events, placed) && WholeChain(c, LiveSet(events), chain) && i < |chain|
    ensures chain[i] in placed
    ensures i + 1 < |chain| ==> chain[i+1] in placed && placed[chain[i]].ctid == placed[chain[i+1]].self
    ensures i + 1 == |chain| ==> placed[chain[i]].ctid == placed[chain[i]].self
  {
    ChainIsSettled(c, LiveSet(events), chain, i);
    SettledIsNotGone(c, events, chain[i]);
    if i + 1 < |chain| {
      ChainIsSettled(c, LiveSet(events), chain, i + 1);
      PairsAreLinked(c, events, placed, chain[i], chain[i+1]);
    } else {
      assert RelinkedAt(c, LiveSet(events), placed, chain[i]);
    }
  }

  function DeadCount(events: seq<Event>): nat {
    if events == [] then 0 else DeadCount(events[..|events|-1]) + if events[|events|-1].Dead? then 1 else 0
  }

  lemma {:induction false} EventsAreCounted(events: seq<Event>)
    requires Sane(events)
    ensures |LiveSet(events)| + DeadCount(events) == |events|
  {
    if events != [] {
      var init, e := events[..|events|-1], events[|events|-1];
      assert init + [e] == events;
      HistoryGrows(init, e);
      EventsAreCounted(init);
    }
  }

  lemma PrefixIsSane(events: seq<Event>, n: nat)
    requires Sane(events) && n <= |events|
    ensures Sane(events[..n]) && (n > 0 ==> events[..n] == events[..n-1] + [events[n-1]])
  {
  }

  /** Where no dead tuple is presented after a tuple that points to it, nothing is lost. */
  lemma NothingLost(c: Cutoffs, events: seq<Event>, placed: map<Version, Place>)
    requires Relinked(c, events, placed)
    ensures placed.Keys == LiveSet(events) <==> forall v :: v in LiveSet(events) ==> !DeadAfter(events, v)
  {
  }

  class RewriteState {
    const cutoffs: Cutoffs
    const saveFreeSpace: nat
    const first: nat
    var blockno: nat
    var bufferValid: bool
    var page: seq<NewTuple>
    var disk: seq<seq<NewTuple>>
    var unresolved: map<Key, Pending>
    var oldNew: map<Key, Tid>

    ghost predicate PagesFit()
      reads this
    {
      && blockno == first + |disk| && Fits(page)
      && (forall i :: 0 <= i < |disk| ==> Fits(disk[i]))
    }

    ghost function NewHeap(): Heap
      reads this
    {
      Heap(first, disk, if bufferValid then page else [])
    }

    /** begin_pg_tde_rewrite */
    constructor (cutoffs: Cutoffs, saveFreeSpace: nat, blocks: nat)
      ensures Valid([], Progress(map[], map[], map[], {}))
      ensures this.cutoffs == cutoffs && first == blocks
    {
      this.cutoffs, this.saveFreeSpace, first, blockno := cutoffs, saveFreeSpace, blocks, blocks;
      bufferValid, page, disk, unresolved, oldNew := false, [], [], map[], map[];
    }

    /** What holds between calls: `events` have been presented, with the result `p`. */
    ghost predicate Valid(events: seq<Event>, p: Progress)
      reads this
    {
      PagesFit() && OnTrack(cutoffs, events, p, {}, unresolved, oldNew, NewHeap())
    }

    /** Write the page being built out if the tuple does not fit on it, and start a new one. */
    method MakeRoom(len: nat)
      requires PagesFit()
      modifies `blockno, `bufferValid, `page, `disk
      ensures PagesFit() && SameHeap(old(NewHeap()), NewHeap())
      ensures bufferValid && (page != [] ==> len + saveFreeSpace <= HeapFreeSpace(page))
    {
      if bufferValid {
        if len + saveFreeSpace > HeapFreeSpace(page) {
          FlushedPage(NewHeap());
          disk := disk + [page];
          blockno := blockno + 1;
          bufferValid := false;
        }
      }
      if !bufferValid {
        page := [];
        bufferValid := true;
      }
    }

    /** raw_pg_tde_insert: put a tuple on the page being built, or on a new one. */
    method RawInsert(t: NewTuple) returns (ok: bool, self: Tid)
      requires PagesFit()
      modifies `blockno, `bufferValid, `page, `disk
      ensures PagesFit() && (ok <==> !TooBig(t.len))
      ensures ok ==> Inserted(old(NewHeap()), NewHeap(), self, Stored(t, self))
    {
      self := Tid(0, 0);
      var len := Compactify.MaxAlign(t.len);
      if len > MAX_TUPLE_SIZE {
        return false, self;
      }
      ghost var was := NewHeap();
      MakeRoom(len);
      ok, self := true, Tid(blockno, |page| + 1);
      var stored := Stored(t, self);
      FitsOneMore(page, stored, saveFreeSpace);
      GrownPage(was, NewHeap(), stored);
      page := page + [stored];
    }

    /** The tables once a tuple is at `self`: the older half of its pair is released if it waits, and else
        the tuple goes on record. */
    method Resolve(t: NewTuple, oldTid: Tid, self: Tid) returns (more: bool, t': NewTuple, oldTid': Tid)
      modifies `unresolved, `oldNew
      ensures Advanced(cutoffs, t, oldTid, self, old(unresolved), old(oldNew), unresolved, oldNew, more, t', oldTid')
    {
      more, t', oldTid' := false, t, oldTid;
      if t.updated && !(t.xmin < cutoffs.oldestXmin) {
        var key := Key(t.xmin, oldTid);
        if key in unresolved {
          more, t', oldTid' := true, unresolved[key].tuple.(ctid := Some(self)), unresolved[key].oldTid;
          unresolved := unresolved - {key};
        } else {
          oldNew := oldNew[key := self];
        }
      }
    }

    /** Write the tuple in hand.  Afterwards the older half of its pair is in hand, with the right link and
        fewer tuples waiting, or nothing is. */
    method WriteStep(t: NewTuple, oldTid: Tid, ghost v: Version, ghost events: seq<Event>, ghost p: Progress)
      returns (ok: bool, more: bool, t': NewTuple, oldTid': Tid, ghost v': Version, ghost p': Progress)
      requires PagesFit() && OnTrack(cutoffs, events, p, {v}, unresolved, oldNew, NewHeap())
      requires PointsTo(cutoffs, p, v, t.ctid) && t == v.Copy(cutoffs, t.ctid) && oldTid == v.tid
      modifies `blockno, `bufferValid, `page, `disk, `unresolved, `oldNew
      ensures PagesFit() && (ok <==> !TooBig(v.len)) && v in LiveSet(events)
      ensures ok ==> OnTrack(cutoffs, events, p', if more then {v'} else {}, unresolved, oldNew, NewHeap())
      ensures ok && more ==> PointsTo(cutoffs, p', v', t'.ctid) && t' == v'.Copy(cutoffs, t'.ctid) && oldTid' == v'.tid
      ensures ok && more ==> |unresolved| < |old(unresolved)|
    {
      ghost var u, m, h := unresolved, oldNew, NewHeap();
      InHand(cutoffs, LiveSet(events), p, v);
      more, t', oldTid', v', p' := false, t, oldTid, v, p;
      var self;
      ok, self := RawInsert(t);
      if ok {
        more, t', oldTid' := Resolve(t, oldTid, self);
        p', v' := Advance(cutoffs, events, p, v, u, m, h, NewHeap(), t, self, unresolved, oldNew, more, t', oldTid');
      }
    }

    /** The loop of rewrite_pg_tde_tuple: write a tuple, and every older one that this releases. */
    method WriteChain(t: NewTuple, oldTid: Tid, ghost v: Version, ghost events: seq<Event>, ghost p: Progress)
      returns (ok: bool, ghost p': Progress)
      requires PagesFit() && OnTrack(cutoffs, events, p, {v}, unresolved, oldNew, NewHeap())
      requires PointsTo(cutoffs, p, v, t.ctid) && t == v.Copy(cutoffs, t.ctid) && oldTid == v.tid
      modifies `blockno, `bufferValid, `page, `disk, `unresolved, `oldNew
      ensures PagesFit()
      ensures ok ==> OnTrack(cutoffs, events, p', {}, unresolved, oldNew, NewHeap())
      ensures !ok ==> exists w :: w in LiveSet(events) && TooBig(w.len)
    {
      var t', oldTid', more := t, oldTid, true;
      ghost var w := v;
      ok, p' := true, p;
      while more
        invariant PagesFit() && OnTrack(cutoffs, events, p', if more then {w} else {}, unresolved, oldNew, NewHeap())
        invariant more ==> PointsTo(cutoffs, p', w, t'.ctid) && t' == w.Copy(cutoffs, t'.ctid) && oldTid' == w.tid
        decreases more, |unresolved|
      {
        ghost var w0 := w;
        ok, more, t', oldTid', w, p' := WriteStep(t', oldTid', w, events, p');
        if !ok {
          assert w0 in LiveSet(events) && TooBig(w0.len);
          return;
        }
      }
    }

    /** The successor's new TID, if the successor has been written. */
    method LookUp(v: Version) returns (ready: bool, t: NewTuple)
      modifies `unresolved, `oldNew
      ensures Received(cutoffs, v, old(unresolved), old(oldNew), unresolved, oldNew, ready, t)
    {
      ready, t := true, v.Copy(cutoffs, None);
      if v.HasSuccessor() {
        var key := v.SuccessorKey();
        if key in oldNew {
          t := t.(ctid := Some(oldNew[key]));
          oldNew := oldNew - {key};
        } else {
          unresolved := unresolved[key := Pending(v.tid, t)];
          ready := false;
        }
      }
    }

    /** The head of rewrite_pg_tde_tuple.  The tuple is in hand, pointing to its successor's new place if that
        is in the new heap, or it waits. */
    method Receive(v: Version, ghost events: seq<Event>, ghost p: Progress)
      returns (ready: bool, t: NewTuple, ghost p': Progress)
      requires Valid(events, p) && Sane(events + [Live(v)])
      modifies `unresolved, `oldNew
      ensures PagesFit()
      ensures OnTrack(cutoffs, events + [Live(v)], p', if ready then {v} else {}, unresolved, oldNew, NewHeap())
      ensures ready ==> PointsTo(cutoffs, p', v, t.ctid) && t == v.Copy(cutoffs, t.ctid)
    {
      ghost var u, m, h := unresolved, oldNew, NewHeap();
      ready, t := LookUp(v);
      p' := Arrive(cutoffs, events, p, v, u, m, h, unresolved, oldNew, ready, t);
    }

    /** rewrite_pg_tde_tuple */
    method RewriteTuple(v: Version, ghost events: seq<Event>, ghost p: Progress) returns (ok: bool, ghost p': Progress)
      requires Valid(events, p) && Sane(events + [Live(v)])
      modifies `blockno, `bufferValid, `page, `disk, `unresolved, `oldNew
      ensures PagesFit()
      ensures ok ==> Valid(events + [Live(v)], p')
      ensures !ok ==> exists w :: w in LiveSet(events + [Live(v)]) && TooBig(w.len)
    {
      var ready, t;
      ready, t, p' := Receive(v, events, p);
      ok := true;
      if ready {
        ok, p' := WriteChain(t, v.tid, v, events + [Live(v)], p');
      }
    }

    /** rewrite_pg_tde_dead_tuple */
    method RewriteDeadTuple(d: Version, ghost events: seq<Event>, ghost p: Progress)
      returns (dropped: bool, ghost p': Progress)
      requires Valid(events, p) && Sane(events + [Dead(d)])
      modifies `unresolved
      ensures Valid(events + [Dead(d)], p')
      ensures dropped <==> Key(d.xmin, d.tid) in old(unresolved)
      ensures |p'.dropped| == |p.dropped| + if dropped then 1 else 0
    {
      var key := Key(d.xmin, d.tid);
      ghost var u := unresolved;
      dropped := key in unresolved;
      if dropped {
        unresolved := unresolved - {key};
      }
      p' := Bury(cutoffs, events, p, d, u, oldNew, NewHeap(), unresolved);
    }

    /** What still waits is written as it is, and will point to itself. */
    method FlushPending(ghost live: set<Version>, ghost p: Progress)
      returns (ok: bool, ghost placed: map<Version, Place>)
      requires PagesFit() && Inv(cutoffs, live, p, {}) && Holds(NewHeap(), cutoffs, p.placed)
      requires unresolved.Keys == p.waiting.Keys
      requires forall k :: k in p.waiting ==> unresolved[k].tuple.(ctid := None) == p.waiting[k].Copy(cutoffs, None)
      modifies `blockno, `bufferValid, `page, `disk
      ensures PagesFit()
      ensures ok ==> Flushed(p, placed, {}) && Holds(NewHeap(), cutoffs, placed)
      ensures !ok ==> exists w :: w in live && TooBig(w.len)
    {
      var rest := unresolved.Keys;
      placed := p.placed;
      ok := true;
      while rest != {}
        invariant PagesFit() && rest <= p.waiting.Keys
        invariant Flushed(p, placed, rest) && Holds(NewHeap(), cutoffs, placed)
        decreases rest
      {
        var k :| k in rest;
        ok, placed := FlushTuple(k, unresolved[k].tuple.(ctid := None), live, p, placed, rest);
        if !ok {
          return;
        }
        rest := rest - {k};
      }
    }

    /** One of them. */
    method FlushTuple(ghost k: Key, t: NewTuple, ghost live: set<Version>, ghost p: Progress,
                      ghost placed: map<Version, Place>, ghost rest: set<Key>)
      returns (ok: bool, ghost placed': map<Version, Place>)
      requires PagesFit() && Inv(cutoffs, live, p, {}) && k in rest && k in p.waiting
      requires t == p.waiting[k].Copy(cutoffs, None)
      requires Flushed(p, placed, rest) && Holds(NewHeap(), cutoffs, placed)
      modifies `blockno, `bufferValid, `page, `disk
      ensures PagesFit()
      ensures ok ==> Flushed(p, placed', rest - {k}) && Holds(NewHeap(), cutoffs, placed')
      ensures !ok ==> p.waiting[k] in live && TooBig(p.waiting[k].len)
    {
      ghost var h := NewHeap();
      assert Accounted(live, p, {}, p.waiting[k]);
      var self;
      ok, self := RawInsert(t);
      placed' := placed;
      if ok {
        placed' := FlushOne(cutoffs, live, p, placed, rest, k, h, NewHeap(), self);
      }
    }

    /** end_pg_tde_rewrite: flush what still waits; then write the last page. */
    method EndRewrite(ghost events: seq<Event>, ghost p: Progress) returns (ok: bool, ghost placed: map<Version, Place>)
      requires Valid(events, p)
      modifies `blockno, `bufferValid, `page, `disk
      ensures ok ==> Relinked(cutoffs, events, placed) && Holds(Heap(first, disk, []), cutoffs, placed)
      ensures ok ==> forall i :: 0 <= i < |disk| ==> Fits(disk[i])
      ensures !ok ==> exists w :: w in LiveSet(events) && TooBig(w.len)
    {
      ok, placed := FlushPending(LiveSet(events), p);
      if ok {
        FlushedIsRelinked(cutoffs, events, p, placed);
        WriteLastPage(placed);
      }
    }

    /** If there is one. */
    method WriteLastPage(ghost placed: map<Version, Place>)
      requires PagesFit() && Holds(NewHeap(), cutoffs, placed)
      modifies `disk
      ensures Holds(Heap(first, disk, []), cutoffs, placed)
      ensures forall i :: 0 <= i < |disk| ==> Fits(disk[i])
    {
      if bufferValid {
        SameHolds(NewHeap(), Heap(first, disk + [page], []), cutoffs, placed);
        disk := disk + [page];
      }
    }
  }

  lemma SameHolds(h: Heap, h': Heap, c: Cutoffs, placed: map<Version, Place>)
    requires Holds(h, c, placed) && h' == Heap(h.first, h.disk + [h.page], [])
    ensures Holds(h', c, placed)
  {
    FlushedPage(h);
    forall v | v in placed ensures HeldAt(h', c, placed, v) {
      assert HeldAt(h, c, placed, v);
    }
  }

  /** Present one tuple of the old heap: a dead one counts as vacuumed, and so does what it drops. */
  method CopyEvent(state: RewriteState, e: Event, ghost events: seq<Event>, ghost p: Progress)
    returns (ok: bool, vacuumed: nat, ghost p': Progress)
    requires state.Valid(events, p) && Sane(events + [e])
    modifies state
    ensures ok ==> state.Valid(events + [e], p') && vacuumed + |p.dropped| == |p'.dropped| + if e.Dead? then 1 else 0
    ensures !ok ==> exists w :: w in LiveSet(events + [e]) && TooBig(w.len)
  {
    HistoryGrows(events, e);
    ok, vacuumed := true, 0;
    if e.Dead? {
      var dropped;
      dropped, p' := state.RewriteDeadTuple(e.v, events, p);
      vacuumed := if dropped then 2 else 1;
    } else {
      ok, p' := state.RewriteTuple(e.v, events, p);
    }
  }

  /** Present the next one. */
  method CopyNext(state: RewriteState, events: seq<Event>, i: nat, ghost p: Progress)
    returns (ok: bool, vacuumed: nat, ghost p': Progress)
    requires i < |events| && Sane(events) && state.Valid(events[..i], p)
    modifies state
    ensures ok ==> state.Valid(events[..i+1], p')
    ensures ok ==> DeadCount(events[..i]) + |p.dropped| + vacuumed == DeadCount(events[..i+1]) + |p'.dropped|
    ensures !ok ==> exists w :: w in LiveSet(events[..i+1]) && TooBig(w.len)
  {
    ghost var before, more := events[..i], events[..i+1];
    PrefixIsSane(events, i + 1);
    assert more == before + [events[i]];
    OneMoreDead(before, events[i]);
    ok, vacuumed, p' := CopyEvent(state, events[i], before, p);
  }

  lemma OneMoreDead(events: seq<Event>, e: Event)
    ensures DeadCount(events + [e]) == DeadCount(events) + if e.Dead? then 1 else 0
  {
  }

  /** Copy a whole table, as for VACUUM FULL or CLUSTER. */
  method CopyTable(cutoffs: Cutoffs, saveFreeSpace: nat, blocks: nat, events: seq<Event>)
    returns (ok: bool, heap: Heap, tupsVacuumed: nat, ghost placed: map<Version, Place>)
    requires Sane(events)
    ensures ok ==> Relinked(cutoffs, events, placed) && Holds(heap, cutoffs, placed) && heap.first == blocks
    ensures ok ==> forall v :: v in placed ==> KeepsRow(heap, cutoffs, v, placed[v])
    ensures ok ==> forall i :: 0 <= i < |heap.disk| ==> Fits(heap.disk[i])
    ensures ok ==> tupsVacuumed + heap.Size() == |events|
    ensures !ok ==> exists w :: w in LiveSet(events) && TooBig(w.len)
  {
    var state := new RewriteState(cutoffs, saveFreeSpace, blocks);
    ghost var p := Progress(map[], map[], map[], {});
    placed, heap := map[], Heap(blocks, [], []);
    ok, tupsVacuumed, p := CopyTuples(state, events, p);
    if ok {
      ok, placed := state.EndRewrite(events, p);
      heap := Heap(blocks, state.disk, []);
    }
    if ok {
      EventsAreCounted(events);
      RowsAreKept(heap, cutoffs, placed);
    }
  }

  /** The scan of the old heap. */
  method CopyTuples(state: RewriteState, events: seq<Event>, ghost p0: Progress)
    returns (ok: bool, tupsVacuumed: nat, ghost p: Progress)
    requires Sane(events) && state.Valid([], p0) && p0.dropped == {}
    modifies state
    ensures ok ==> state.Valid(events, p) && tupsVacuumed == DeadCount(events) + |p.dropped|
    ensures !ok ==> exists w :: w in LiveSet(events) && TooBig(w.len)
  {
    ok, tupsVacuumed, p := true, 0, p0;
    assert events[..0] == [];
    for i := 0 to |events|
      invariant state.Valid(events[..i], p)
      invariant tupsVacuumed == DeadCount(events[..i]) + |p.dropped|
    {
      var vacuumed;
      ok, vacuumed, p := CopyNext(state, events, i, p);
      if !ok {
        LiveSetGrows(events, i + 1);
        return;
      }
      tupsVacuumed := tupsVacuumed + vacuumed;
    }
    assert events[..|events|] == events;
  }

  lemma LiveSetGrows(events: seq<Event>, n: nat)
    requires n <= |events|
    ensures LiveSet(events[..n]) <= LiveSet(events)
  {
  }
}
