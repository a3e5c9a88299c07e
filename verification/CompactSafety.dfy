/** What compaction does to the page and to the rows on it.

    The geometry is right for any lengths.  The plaintext is not: the source re-encrypts each
    moved tuple with the length of the next tuple and behind a fixed 24-byte header, which may
    leave data out, and may reach past the tuple.  This file says exactly which rows survive. */
module CompactSafety {
  import opened Base
  import opened Crypt
  import opened Compactify

  // --------------------------------------------------------------- geometry

  /** The new slots are packed against the end of the page, without gaps or overlap, in the
      order of the list, and the free space ends where the last of them begins. */
  lemma SlotsArePacked(items: seq<ItemIdCompact>, special: nat, j: nat, k: nat)
    requires Roomy(items, special) && j <= k < |items|
    ensures NewOff(items, special, k) + items[k].alignedlen == Upper(items, special, k)
    ensures j == k || NewOff(items, special, k) + items[k].alignedlen <= NewOff(items, special, j)
    ensures Upper(items, special, 0) == special
    ensures Upper(items, special, |items|) <= NewOff(items, special, k)
  {
    UpperStep(items, special, k);
    PlacedBelow(items, special, |items|, k);
    if j < k {
      PlacedBelow(items, special, k, j);
    }
  }

  // --------------------------------------------------------------- a cipher that tells positions apart

  /** A block cipher whose keystream, on a given machine, is zero everywhere but at position `p`. */
  function UnitCipher(wide: WideShift, p: nat): Cipher {
    Cipher((b: CounterBlock) => if b == Counter(wide, p / 16) then seq(16, i => if i == p % 16 then 1 else 0)
           else seq(16, i => 0), wide)
  }

  lemma UnitKeyByte(wide: WideShift, p: nat, pos: nat)
    requires p < 0x8_0000_0000 && pos < 0x8_0000_0000
    ensures IsBlockCipher(UnitCipher(wide, p))
    ensures KeyByte(UnitCipher(wide, p), pos) == if pos == p then 1 else 0
  {
    if pos / 16 != p / 16 && Counter(wide, pos / 16) == Counter(wide, p / 16) {
      CountersAreDistinct(wide, pos / 16, p / 16);
    }
  }

  // --------------------------------------------------------------- keystream positions

  /** Every position occurs an even number of times. */
  ghost predicate Even(ks: seq<nat>) {
    forall q: nat :: multiset(ks)[q] % 2 == 0
  }

  lemma CountInConcat(ks: seq<nat>, ls: seq<nat>, p: nat)
    ensures multiset(ks + ls)[p] == multiset(ks)[p] + multiset(ls)[p]
  {
    assert multiset(ks + ls) == multiset(ks) + multiset(ls);
  }

  lemma XorOfPair(key: PageKey, a: seq<nat>, q: nat, b: seq<nat>)
    ensures XorKeys(key, ((a + [q]) + b) + [q]) == XorKeys(key, a + b)
  {
    XorKeysOfConcat(key, (a + [q]) + b, [q]);
    XorKeysOfConcat(key, a + [q], b);
    XorKeysOfConcat(key, a, [q]);
    XorKeysOfConcat(key, a, b);
    CancelTwice(XorKeys(key, a), XorKeys(key, b), XorKeys(key, [q]));
  }

  lemma CancelTwice(a: bv8, b: bv8, k: bv8)
    ensures ((a ^ k) ^ b) ^ k == a ^ b
  {
  }

  /** The last position occurs once more. */
  lemma SplitPair(ks: seq<nat>) returns (a: seq<nat>, q: nat, b: seq<nat>)
    requires Even(ks) && ks != []
    ensures ks == ((a + [q]) + b) + [q]
  {
    var init := ks[..|ks|-1];
    q := ks[|ks|-1];
    assert ks == init + [q];
    CountInConcat(init, [q], q);
    assert multiset(ks)[q] % 2 == 0 && multiset([q])[q] == 1;
    assert q in multiset(init);
    var i :| 0 <= i < |init| && init[i] == q;
    a, b := init[..i], init[i+1..];
    assert init == (a + [q]) + b;
  }

  /** Without the two, the others are still even. */
  lemma DropPair(a: seq<nat>, q: nat, b: seq<nat>)
    requires Even(((a + [q]) + b) + [q])
    ensures Even(a + b)
  {
    forall r: nat ensures multiset(a + b)[r] % 2 == 0 {
      CountInConcat((a + [q]) + b, [q], r);
      CountInConcat(a + [q], b, r);
      CountInConcat(a, [q], r);
      CountInConcat(a, b, r);
      assert multiset(((a + [q]) + b) + [q])[r] == multiset(a + b)[r] + 2 * multiset([q])[r];
    }
  }

  /** What occurs an even number of times cancels, whatever the keystream. */
  lemma {:induction false} EvenCancels(key: PageKey, ks: seq<nat>)
    requires Even(ks)
    ensures XorKeys(key, ks) == 0
    decreases |ks|
  {
    if ks != [] {
      var a, q, b := SplitPair(ks);
      XorOfPair(key, a, q, b);
      DropPair(a, q, b);
      EvenCancels(key, a + b);
    }
  }

  lemma BitSum(p: bool, r: bool)
    ensures (if p then 1 else 0) as bv8 ^ (if r then 1 else 0) as bv8 == if p != r then 1 else 0
  {
  }

  /** A keystream that is 1 at position `q` and 0 elsewhere, up to some bound. */
  ghost predicate Singles(key: PageKey, q: nat) {
    forall r: nat :: r < 0x1_0000_0000 ==> key(r) == if r == q then 1 else 0
  }

  lemma UnitSingles(wide: WideShift, bn: nat, q: nat)
    requires q < 0x1_0000_0000
    ensures IsBlockCipher(UnitCipher(wide, FileOffset(bn, q)))
    ensures Singles(KeyOfPage(UnitCipher(wide, FileOffset(bn, q)), bn), q)
  {
    UnitKeyByte(wide, FileOffset(bn, q), FileOffset(bn, q));
    forall r: nat | r < 0x1_0000_0000
      ensures KeyOfPage(UnitCipher(wide, FileOffset(bn, q)), bn)(r) == if r == q then 1 else 0
    {
      UnitKeyByte(wide, FileOffset(bn, q), FileOffset(bn, r));
    }
  }

  /** And what does not shows, under some block cipher. */
  lemma {:induction false} OddShows(key: PageKey, ks: seq<nat>, q: nat)
    requires Singles(key, q) && Bounded(ks)
    ensures XorKeys(key, ks) == if multiset(ks)[q] % 2 == 1 then 1 else 0
  {
    if ks != [] {
      var init: seq<nat>, r := ks[..|ks|-1], ks[|ks|-1];
      assert ks == init + [r] && r in ks && forall p :: p in init ==> p in ks;
      OddShows(key, init, q);
      OneMoreKey(init, r, q);
      BitSum(multiset(init)[q] % 2 == 1, r == q);
    }
  }

  lemma OneMoreKey(ks: seq<nat>, r: nat, q: nat)
    ensures multiset(ks + [r])[q] % 2 == 1 <==> (multiset(ks)[q] % 2 == 1) != (r == q)
  {
    assert multiset(ks + [r]) == multiset(ks) + multiset{r};
  }

  // --------------------------------------------------------------- the keystream in one byte of a row

  function ReadKeys(at: nat, hoff: nat, x: nat): seq<nat> {
    if x < hoff then [] else [at + (x - hoff)]
  }

  /** All keystream positions between byte `x` of row `k` as it was read and as it is read. */
  function RowKeys(items: seq<ItemIdCompact>, special: nat, path: Path, hoff: nat, k: nat, x: nat): seq<nat>
    requires k < |items|
  {
    Layout(items, special, path).ChangeKeys(k, x) +
      (ReadKeys(items[k].itemoff, hoff, x) + ReadKeys(NewOff(items, special, k), hoff, x))
  }

  /** In every byte of the row, keystream bytes cancel out. */
  ghost predicate RowIntact(items: seq<ItemIdCompact>, special: nat, path: Path, hoff: nat, k: nat)
    requires k < |items|
  {
    forall x :: 0 <= x < items[k].len ==> ByteIntact(items, special, path, hoff, k, x)
  }

  ghost predicate ByteIntact(items: seq<ItemIdCompact>, special: nat, path: Path, hoff: nat, k: nat, x: nat)
    requires k < |items|
  {
    Even(RowKeys(items, special, path, hoff, k, x))
  }

  ghost predicate Intact(items: seq<ItemIdCompact>, special: nat, path: Path, hoffs: seq<nat>)
    requires |hoffs| == |items|
  {
    forall k :: 0 <= k < |items| ==> RowIntact(items, special, path, hoffs[k], k)
  }

  // --------------------------------------------------------------- rows

  /** The row of item `k` as it lies on the page after compaction. */
  function NewRow(job: Job, was: Bytes, k: nat): (r: Bytes)
    requires k < |job.lay.items| && job.lay.items[k].itemoff + job.lay.items[k].len <= |was|
    ensures |r| == job.lay.items[k].len && forall x :: 0 <= x < |r| ==> r[x] == job.NewByte(was, k, x)
  {
    seq(job.lay.items[k].len, x requires 0 <= x < job.lay.items[k].len => job.NewByte(was, k, x))
  }

  /** The row of item `k` as it is read before compaction, and through its new line pointer after it. */
  function RowBefore(e: Cipher, bn: nat, lay: Layout, hoff: nat, was: Bytes, k: nat): (r: Bytes)
    requires IsBlockCipher(e) && k < |lay.items| && hoff <= lay.items[k].len
    requires lay.items[k].itemoff + lay.items[k].len <= |was|
    ensures |r| == lay.items[k].len
  {
    OnPage(e, bn, lay.items[k].itemoff, Slot(was, lay.items[k].itemoff, lay.items[k].len), hoff)
  }

  function RowAfter(e: Cipher, bn: nat, lay: Layout, hoff: nat, was: Bytes, k: nat): (r: Bytes)
    requires IsBlockCipher(e) && k < |lay.items| && hoff <= lay.items[k].len
    requires lay.items[k].itemoff + lay.items[k].len <= |was|
    ensures |r| == lay.items[k].len
  {
    OnPage(e, bn, NewOff(lay.items, lay.special, k), NewRow(JobFor(e, bn, lay), was, k), hoff)
  }

  ghost predicate RowKept(e: Cipher, bn: nat, lay: Layout, hoff: nat, was: Bytes, k: nat)
    requires IsBlockCipher(e) && k < |lay.items| && hoff <= lay.items[k].len
    requires lay.items[k].itemoff + lay.items[k].len <= |was|
  {
    RowAfter(e, bn, lay, hoff, was, k) == RowBefore(e, bn, lay, hoff, was, k)
  }

  /** `NewRow` is what pgtde_compactify_tuples leaves there. */
  lemma RowIsThere(job: Job, was: Bytes, now: Bytes, k: nat)
    requires job.lay.Valid() && k < |job.lay.items| && PageDone(job, was, now)
    ensures NewOff(job.lay.items, job.lay.special, k) + job.lay.items[k].len <= |now|
    ensures Slot(now, NewOff(job.lay.items, job.lay.special, k), job.lay.items[k].len) == NewRow(job, was, k)
  {
    assert SlotDone(job, was, now, k);
    SlotHoldsRow(job, was, now, k, NewOff(job.lay.items, job.lay.special, k), NewRow(job, was, k));
  }

  lemma SlotHoldsRow(job: Job, was: Bytes, now: Bytes, k: nat, to: nat, row: Bytes)
    requires k < |job.lay.items| && job.lay.items[k].len <= job.lay.items[k].alignedlen
    requires job.lay.items[k].End() <= |was| && SlotDone(job, was, now, k)
    requires to == NewOff(job.lay.items, job.lay.special, k) && row == NewRow(job, was, k)
    ensures to + |row| <= |now| && Slot(now, to, |row|) == row
  {
    forall x | 0 <= x < |row| ensures now[to + x] == row[x] {
      assert ByteDone(job, was, now, k, x);
    }
    SlotIs(now, to, row);
  }

  lemma SlotIs(buf: Bytes, at: nat, row: Bytes)
    requires at + |row| <= |buf| && forall x :: 0 <= x < |row| ==> buf[at + x] == row[x]
    ensures Slot(buf, at, |row|) == row
  {
  }

  /** The keystream byte that reading byte `x` of a tuple at `at` applies. */
  function ReadKey(key: PageKey, at: nat, hoff: nat, x: nat): bv8 {
    if x < hoff then 0 else key(at + (x - hoff))
  }

  lemma ReadOneByte(e: Cipher, bn: nat, at: nat, image: Bytes, hoff: nat, x: nat)
    requires IsBlockCipher(e) && hoff <= |image| && x < |image|
    ensures OnPage(e, bn, at, image, hoff)[x] == image[x] ^ ReadKey(KeyOfPage(e, bn), at, hoff, x)
  {
    if x >= hoff {
      assert FileOffset(bn, at) + (x - hoff) == FileOffset(bn, at + (x - hoff));
    }
  }

  lemma ReadKeyIsKeys(key: PageKey, at: nat, hoff: nat, x: nat)
    ensures ReadKey(key, at, hoff, x) == XorKeys(key, ReadKeys(at, hoff, x))
  {
    if x >= hoff {
      assert ReadKeys(at, hoff, x)[..0] == [];
      XorMore(0, ReadKey(key, at, hoff, x), 0);
    }
  }

  lemma SameIffZero(b: bv8, c: bv8, r: bv8, r': bv8)
    ensures (b ^ c) ^ r' == b ^ r <==> c ^ (r ^ r') == 0
  {
  }

  lemma RowKeysAre(key: PageKey, lay: Layout, hoff: nat, k: nat, x: nat)
    requires k < |lay.items|
    ensures XorKeys(key, RowKeys(lay.items, lay.special, lay.path, hoff, k, x)) ==
      XorKeys(key, lay.ChangeKeys(k, x)) ^
      (ReadKey(key, lay.items[k].itemoff, hoff, x) ^ ReadKey(key, NewOff(lay.items, lay.special, k), hoff, x))
  {
    var from, to := lay.items[k].itemoff, NewOff(lay.items, lay.special, k);
    ReadKeyIsKeys(key, from, hoff, x);
    ReadKeyIsKeys(key, to, hoff, x);
    XorKeysOfConcat(key, ReadKeys(from, hoff, x), ReadKeys(to, hoff, x));
    XorKeysOfConcat(key, lay.ChangeKeys(k, x), ReadKeys(from, hoff, x) + ReadKeys(to, hoff, x));
  }

  /** Byte `x` of row `k`, as it read before and as it reads after. */
  function ReadBefore(key: PageKey, lay: Layout, hoff: nat, was: Bytes, k: nat, x: nat): bv8
    requires k < |lay.items| && lay.items[k].itemoff + x < |was|
  {
    was[lay.items[k].itemoff + x] ^ ReadKey(key, lay.items[k].itemoff, hoff, x)
  }

  function ReadAfter(key: PageKey, lay: Layout, hoff: nat, was: Bytes, k: nat, x: nat): bv8
    requires k < |lay.items| && lay.items[k].itemoff + x < |was|
  {
    (was[lay.items[k].itemoff + x] ^ XorKeys(key, lay.ChangeKeys(k, x))) ^
      ReadKey(key, NewOff(lay.items, lay.special, k), hoff, x)
  }

  ghost predicate ReadsSame(key: PageKey, lay: Layout, hoff: nat, was: Bytes, k: nat, x: nat)
    requires k < |lay.items| && lay.items[k].itemoff + x < |was|
  {
    ReadAfter(key, lay, hoff, was, k, x) == ReadBefore(key, lay, hoff, was, k, x)
  }

  /** They agree if and only if the keystream bytes cancel. */
  lemma RowByte(key: PageKey, lay: Layout, hoff: nat, was: Bytes, k: nat, x: nat)
    requires k < |lay.items| && lay.items[k].itemoff + x < |was|
    ensures ReadsSame(key, lay, hoff, was, k, x) <==>
      XorKeys(key, RowKeys(lay.items, lay.special, lay.path, hoff, k, x)) == 0
  {
    var from, to := lay.items[k].itemoff, NewOff(lay.items, lay.special, k);
    RowKeysAre(key, lay, hoff, k, x);
    SameIffZero(was[from + x], XorKeys(key, lay.ChangeKeys(k, x)), ReadKey(key, from, hoff, x),
                ReadKey(key, to, hoff, x));
  }

  lemma RowKeptIff(e: Cipher, bn: nat, lay: Layout, hoff: nat, was: Bytes, k: nat)
    requires IsBlockCipher(e) && k < |lay.items| && hoff <= lay.items[k].len
    requires lay.items[k].itemoff + lay.items[k].len <= |was|
    ensures RowKept(e, bn, lay, hoff, was, k) <==>
      forall x :: 0 <= x < lay.items[k].len ==> ReadsSame(KeyOfPage(e, bn), lay, hoff, was, k, x)
  {
    var a, b := RowAfter(e, bn, lay, hoff, was, k), RowBefore(e, bn, lay, hoff, was, k);
    forall x | 0 <= x < lay.items[k].len
      ensures a[x] == b[x] <==> ReadsSame(KeyOfPage(e, bn), lay, hoff, was, k, x)
    {
      ReadsAfter(e, bn, lay, hoff, was, k, x);
      ReadsBefore(e, bn, lay, hoff, was, k, x);
    }
    SameBytes(a, b);
  }

  lemma SameBytes(a: Bytes, b: Bytes)
    requires |a| == |b|
    ensures a == b <==> forall x :: 0 <= x < |a| ==> a[x] == b[x]
  {
  }

  lemma ReadsAfter(e: Cipher, bn: nat, lay: Layout, hoff: nat, was: Bytes, k: nat, x: nat)
    requires IsBlockCipher(e) && k < |lay.items| && hoff <= lay.items[k].len && x < lay.items[k].len
    requires lay.items[k].itemoff + lay.items[k].len <= |was|
    ensures RowAfter(e, bn, lay, hoff, was, k)[x] == ReadAfter(KeyOfPage(e, bn), lay, hoff, was, k, x)
  {
    var row := NewRow(JobFor(e, bn, lay), was, k);
    assert row[x] == was[lay.items[k].itemoff + x] ^ XorKeys(KeyOfPage(e, bn), lay.ChangeKeys(k, x));
    ReadOneByte(e, bn, NewOff(lay.items, lay.special, k), row, hoff, x);
  }

  lemma ReadsBefore(e: Cipher, bn: nat, lay: Layout, hoff: nat, was: Bytes, k: nat, x: nat)
    requires IsBlockCipher(e) && k < |lay.items| && hoff <= lay.items[k].len && x < lay.items[k].len
    requires lay.items[k].itemoff + lay.items[k].len <= |was|
    ensures RowBefore(e, bn, lay, hoff, was, k)[x] == ReadBefore(KeyOfPage(e, bn), lay, hoff, was, k, x)
  {
    ReadOneByte(e, bn, lay.items[k].itemoff, Slot(was, lay.items[k].itemoff, lay.items[k].len), hoff, x);
  }

  /** Positions at which `Singles` says what a keystream is. */
  ghost predicate Bounded(ks: seq<nat>) {
    forall q :: q in ks ==> q < 0x1_0000_0000
  }

  lemma BoundedConcat(ks: seq<nat>, ls: seq<nat>)
    requires Bounded(ks) && Bounded(ls)
    ensures Bounded(ks + ls)
  {
  }

  lemma {:induction false} RekeyKeysBounded(items: seq<ItemIdCompact>, special: nat, a: nat, b: nat, pos: nat)
    requires Roomy(items, special) && b <= |items| && pos <= 4 * BLCKSZ
    ensures Bounded(RekeyKeys(items, special, a, b, pos))
  {
    if a < b {
      RekeyKeysBounded(items, special, a, b - 1, pos);
      UpperStep(items, special, b - 1);
      BoundedConcat(RekeyKeys(items, special, a, b - 1, pos), ItemKeys(items, special, b - 1, pos));
    }
  }

  lemma LaterKeysBounded(lay: Layout, a: nat, pos: nat)
    requires Roomy(lay.items, lay.special) && a <= |lay.items| && pos <= 4 * BLCKSZ
    ensures Bounded(lay.LaterKeys(a, |lay.items|, pos))
  {
    RekeyKeysBounded(lay.items, lay.special, a, |lay.items|, pos);
  }

  lemma ChangeKeysBounded(lay: Layout, k: nat, x: nat)
    requires Roomy(lay.items, lay.special) && k < |lay.items| && x < lay.items[k].len
    ensures Bounded(lay.ChangeKeys(k, x))
  {
    var s, ce, at := lay.First(), ChunkEnd(lay.items, k), lay.items[k].itemoff + x;
    UpperStep(lay.items, lay.special, k);
    if k < s {
      LaterKeysBounded(lay, s, at);
    } else {
      var to := NewOff(lay.items, lay.special, k) + x;
      RekeyKeysBounded(lay.items, lay.special, s, ce, at);
      LaterKeysBounded(lay, ce, to);
      BoundedConcat(RekeyKeys(lay.items, lay.special, s, ce, at), lay.LaterKeys(ce, |lay.items|, to));
    }
  }

  lemma RowKeysBounded(items: seq<ItemIdCompact>, special: nat, path: Path, hoff: nat, k: nat, x: nat)
    requires Roomy(items, special) && k < |items| && x < items[k].len
    ensures Bounded(RowKeys(items, special, path, hoff, k, x))
  {
    UpperStep(items, special, k);
    ChangeKeysBounded(Layout(items, special, path), k, x);
    BoundedConcat(ReadKeys(items[k].itemoff, hoff, x), ReadKeys(NewOff(items, special, k), hoff, x));
    BoundedConcat(Layout(items, special, path).ChangeKeys(k, x),
                  ReadKeys(items[k].itemoff, hoff, x) + ReadKeys(NewOff(items, special, k), hoff, x));
  }

  /** MAIN: a row reads as before under every block cipher if and only if in each of its bytes every
      keystream position occurs an even number of times. */
  lemma RowSurvivesIff(wide: WideShift, bn: nat, lay: Layout, hoff: nat, was: Bytes, k: nat)
    requires Roomy(lay.items, lay.special) && k < |lay.items| && hoff <= lay.items[k].len && BLCKSZ <= |was|
    ensures (forall e :: IsBlockCipher(e) && e.wide == wide ==> RowKept(e, bn, lay, hoff, was, k))
       <==> RowIntact(lay.items, lay.special, lay.path, hoff, k)
  {
    if RowIntact(lay.items, lay.special, lay.path, hoff, k) {
      forall e | IsBlockCipher(e) && e.wide == wide ensures RowKept(e, bn, lay, hoff, was, k) {
        IntactIsKept(e, bn, lay, hoff, was, k);
      }
    } else {
      var x :| 0 <= x < lay.items[k].len && !ByteIntact(lay.items, lay.special, lay.path, hoff, k, x);
      var e := LostUnder(wide, bn, lay, hoff, was, k, x);
    }
  }

  lemma IntactIsKept(e: Cipher, bn: nat, lay: Layout, hoff: nat, was: Bytes, k: nat)
    requires IsBlockCipher(e) && k < |lay.items| && hoff <= lay.items[k].len
    requires lay.items[k].itemoff + lay.items[k].len <= |was|
    requires RowIntact(lay.items, lay.special, lay.path, hoff, k)
    ensures RowKept(e, bn, lay, hoff, was, k)
  {
    var key := KeyOfPage(e, bn);
    forall x | 0 <= x < lay.items[k].len
      ensures ReadsSame(key, lay, hoff, was, k, x)
    {
      assert ByteIntact(lay.items, lay.special, lay.path, hoff, k, x);
      EvenCancels(key, RowKeys(lay.items, lay.special, lay.path, hoff, k, x));
      RowByte(key, lay, hoff, was, k, x);
    }
    RowKeptIff(e, bn, lay, hoff, was, k);
  }

  lemma LostUnder(wide: WideShift, bn: nat, lay: Layout, hoff: nat, was: Bytes, k: nat, x: nat) returns (e: Cipher)
    requires Roomy(lay.items, lay.special) && k < |lay.items| && hoff <= lay.items[k].len && BLCKSZ <= |was|
    requires x < lay.items[k].len && !ByteIntact(lay.items, lay.special, lay.path, hoff, k, x)
    ensures IsBlockCipher(e) && e.wide == wide && !RowKept(e, bn, lay, hoff, was, k)
  {
    RowKeysBounded(lay.items, lay.special, lay.path, hoff, k, x);
    e := ShownUnder(wide, bn, RowKeys(lay.items, lay.special, lay.path, hoff, k, x));
    RowByte(KeyOfPage(e, bn), lay, hoff, was, k, x);
    RowKeptIff(e, bn, lay, hoff, was, k);
  }

  lemma ShownUnder(wide: WideShift, bn: nat, ks: seq<nat>) returns (e: Cipher)
    requires !Even(ks) && Bounded(ks)
    ensures IsBlockCipher(e) && e.wide == wide && XorKeys(KeyOfPage(e, bn), ks) != 0
  {
    var all: multiset<nat> := multiset(ks);
    var q: nat :| all[q] % 2 != 0;
    assert q in ks;
    e := UnitCipher(wide, FileOffset(bn, q));
    UnitSingles(wide, bn, q);
    OddShows(KeyOfPage(e, bn), ks, q);
  }

  /** Every row of the page reads as before. */
  ghost predicate RowsKept(e: Cipher, bn: nat, lay: Layout, hoffs: seq<nat>, was: Bytes)
    requires IsBlockCipher(e) && Roomy(lay.items, lay.special) && |hoffs| == |lay.items| && BLCKSZ <= |was|
    requires forall k :: 0 <= k < |lay.items| ==> hoffs[k] <= lay.items[k].len
  {
    forall k :: 0 <= k < |lay.items| ==> RowKept(e, bn, lay, hoffs[k], was, k)
  }

  /** MAIN: compaction keeps every row of a page under every block cipher if and only if `Intact` says so
      of its items, for all lengths and on all paths. */
  lemma CompactionKeepsRowsIff(wide: WideShift, bn: nat, lay: Layout, hoffs: seq<nat>, was: Bytes)
    requires Roomy(lay.items, lay.special) && |hoffs| == |lay.items| && BLCKSZ <= |was|
    requires forall k :: 0 <= k < |lay.items| ==> hoffs[k] <= lay.items[k].len
    ensures (forall e :: IsBlockCipher(e) && e.wide == wide ==> RowsKept(e, bn, lay, hoffs, was))
       <==> Intact(lay.items, lay.special, lay.path, hoffs)
  {
    if !Intact(lay.items, lay.special, lay.path, hoffs) {
      var e, k := PageLost(wide, bn, lay, hoffs, was);
      assert !RowsKept(e, bn, lay, hoffs, was);
    } else {
      forall e | IsBlockCipher(e) && e.wide == wide ensures RowsKept(e, bn, lay, hoffs, was) {
        forall k | 0 <= k < |lay.items| ensures RowKept(e, bn, lay, hoffs[k], was, k) {
          IntactIsKept(e, bn, lay, hoffs[k], was, k);
        }
      }
    }
  }

  lemma PageLost(wide: WideShift, bn: nat, lay: Layout, hoffs: seq<nat>, was: Bytes) returns (e: Cipher, k: nat)
    requires Roomy(lay.items, lay.special) && |hoffs| == |lay.items| && BLCKSZ <= |was|
    requires forall k :: 0 <= k < |lay.items| ==> hoffs[k] <= lay.items[k].len
    requires !Intact(lay.items, lay.special, lay.path, hoffs)
    ensures IsBlockCipher(e) && e.wide == wide && k < |lay.items| && !RowKept(e, bn, lay, hoffs[k], was, k)
  {
    k :| 0 <= k < |lay.items| && !RowIntact(lay.items, lay.special, lay.path, hoffs[k], k);
    var x :| 0 <= x < lay.items[k].len && !ByteIntact(lay.items, lay.special, lay.path, hoffs[k], k, x);
    e := LostUnder(wide, bn, lay, hoffs[k], was, k, x);
  }

  // --------------------------------------------------------------- the condition, tuple by tuple

  /** The tuple stays where it is, or its header has the assumed size and the length used covers
      it, or it has no data at all and nothing is re-encrypted. */
  predicate KeepsTuple(from: nat, to: nat, reclen: nat, len: nat, hoff: nat) {
    from == to || (hoff == HEADER_SIZE && len <= reclen) || (hoff == len && reclen == HEADER_SIZE)
  }

  predicate Keeps(items: seq<ItemIdCompact>, special: nat, hoff: nat, k: nat)
    requires k < |items|
  {
    KeepsTuple(items[k].itemoff, NewOff(items, special, k), RecryptLen(items, k), items[k].len, hoff)
  }

  predicate KeepsAll(items: seq<ItemIdCompact>, special: nat, hoffs: seq<nat>)
    requires |hoffs| == |items|
  {
    forall k :: 0 <= k < |items| ==> Keeps(items, special, hoffs[k], k)
  }

  /** What re-encrypting item `m` reaches behind its slot no longer matters, or does not yet. */
  predicate Quiet(items: seq<ItemIdCompact>, special: nat, path: Path, m: nat)
    requires m < |items|
  {
    if !path.Presorted? then
      items[m].itemoff == NewOff(items, special, m) ||
      forall k :: FirstMoved(items, special, path) <= k < |items| ==> Spared(items, m, k)
    else if FirstMoved(items, special, path) < m && Adjacent(items, m) then
      RecryptLen(items, m) <= items[m].alignedlen
    else
      m == 0 || items[m].itemoff + RecryptLen(items, m) <= Upper(items, special, m)
  }

  /** Item `k` is moved before `m` is re-encrypted, or out of its reach. */
  predicate Spared(items: seq<ItemIdCompact>, m: nat, k: nat)
    requires m < |items| && k < |items|
  {
    ChunkEnd(items, k) <= m || items[k].itemoff < items[m].End() ||
      items[m].itemoff + RecryptLen(items, m) <= items[k].itemoff
  }

  predicate AllQuiet(items: seq<ItemIdCompact>, special: nat, path: Path) {
    forall m :: FirstMoved(items, special, path) <= m < |items| ==> Quiet(items, special, path, m)
  }

  ghost predicate Shaped(items: seq<ItemIdCompact>, special: nat, path: Path) {
    Roomy(items, special) && Apart(items) && (path.Presorted? ==> Descending(items))
  }

  lemma {:induction false} OnlyOneReaches(items: seq<ItemIdCompact>, special: nat, a: nat, b: nat, m: nat, pos: int)
    requires b <= |items| && m < |items|
    requires forall i :: a <= i < b && i != m ==> !Reaches(items, special, i, pos)
    ensures RekeyKeys(items, special, a, b, pos) == if a <= m < b then ItemKeys(items, special, m, pos) else []
  {
    if a < b {
      OnlyOneReaches(items, special, a, b - 1, m, pos);
    }
  }

  lemma {:induction false} InsideChunk(items: seq<ItemIdCompact>, k: nat, m: nat)
    requires k < |items| && k < m < ChunkEnd(items, k)
    ensures Adjacent(items, m)
    decreases m - k
  {
    if k + 1 < m {
      InsideChunk(items, k + 1, m);
    }
  }

  /** Quiet items change no row at its old place but their own. */
  lemma QuietAtOldPlace(items: seq<ItemIdCompact>, special: nat, path: Path, k: nat, m: nat, x: nat)
    requires Shaped(items, special, path) && FirstMoved(items, special, path) <= k < |items| && x < items[k].len
    requires FirstMoved(items, special, path) <= m < ChunkEnd(items, k) && m != k
    requires Quiet(items, special, path, m) || m < k
    ensures path.Presorted? || Quiet(items, special, path, m) ==> !Reaches(items, special, m, items[k].itemoff + x)
  {
    if path.Presorted? {
      DescendingIsStacked(items, special);
      if m < k {
        PresortedOrder(items, special, m, k);
      } else {
        InsideChunk(items, k, m);
        PresortedOrder(items, special, k, m);
      }
    } else {
      assert if k < m then Clear(items, k, m) else Clear(items, m, k);
      assert Quiet(items, special, path, m) && items[m].itemoff != NewOff(items, special, m) ==> Spared(items, m, k);
    }
  }

  /** Nor at its new place. */
  lemma QuietAtNewPlace(items: seq<ItemIdCompact>, special: nat, k: nat, m: nat, x: nat)
    requires Shaped(items, special, Presorted) && k < m < |items| && FirstMoved(items, special, Presorted) <= m
    requires Quiet(items, special, Presorted, m) && x < items[k].len
    ensures !Reaches(items, special, m, NewOff(items, special, k) + x)
  {
    DescendingIsStacked(items, special);
    PresortedOrder(items, special, k, m);
    PresortedMovesUp(items, special, k);
    UpperFalls(items, special, k + 1, m);
  }

  /** With quiet items, only its own re-encryption touches a row. */
  lemma QuietKeys(items: seq<ItemIdCompact>, special: nat, path: Path, k: nat, x: nat)
    requires Shaped(items, special, path) && AllQuiet(items, special, path) && k < |items| && x < items[k].len
    ensures Layout(items, special, path).ChangeKeys(k, x) ==
      if k < FirstMoved(items, special, path) then [] else ItemKeys(items, special, k, items[k].itemoff + x)
  {
    if k < FirstMoved(items, special, path) {
      QuietLeading(items, special, path, k, x);
    } else {
      QuietEarly(items, special, path, k, x, items[k].itemoff + x);
      QuietAfter(items, special, path, k, x);
      MovedKeysAre(items, special, path, k, x, ItemKeys(items, special, k, items[k].itemoff + x), []);
    }
  }

  lemma MovedKeysAre(items: seq<ItemIdCompact>, special: nat, path: Path, k: nat, x: nat, early: seq<nat>,
                     later: seq<nat>)
    requires FirstMoved(items, special, path) <= k < |items|
    requires early == RekeyKeys(items, special, FirstMoved(items, special, path), ChunkEnd(items, k),
                                items[k].itemoff + x)
    requires later ==
      Layout(items, special, path).LaterKeys(ChunkEnd(items, k), |items|, NewOff(items, special, k) + x)
    ensures Layout(items, special, path).ChangeKeys(k, x) == early + later
  {
  }

  lemma QuietAfter(items: seq<ItemIdCompact>, special: nat, path: Path, k: nat, x: nat)
    requires Shaped(items, special, path) && AllQuiet(items, special, path)
    requires FirstMoved(items, special, path) <= k < |items| && x < items[k].len
    ensures Layout(items, special, path).LaterKeys(ChunkEnd(items, k), |items|, NewOff(items, special, k) + x) == []
  {
    if path.Presorted? {
      QuietLater(items, special, ChunkEnd(items, k), k, x);
    }
  }

  lemma QuietEarly(items: seq<ItemIdCompact>, special: nat, path: Path, k: nat, x: nat, at: nat)
    requires Shaped(items, special, path) && AllQuiet(items, special, path)
    requires FirstMoved(items, special, path) <= k < |items| && x < items[k].len && at == items[k].itemoff + x
    ensures RekeyKeys(items, special, FirstMoved(items, special, path), ChunkEnd(items, k), at) ==
      ItemKeys(items, special, k, at)
  {
    NoOtherEarly(items, special, path, k, x, at);
    OnlyOneReaches(items, special, FirstMoved(items, special, path), ChunkEnd(items, k), k, at);
  }

  lemma NoOtherEarly(items: seq<ItemIdCompact>, special: nat, path: Path, k: nat, x: nat, at: nat)
    requires Shaped(items, special, path) && AllQuiet(items, special, path)
    requires FirstMoved(items, special, path) <= k < |items| && x < items[k].len && at == items[k].itemoff + x
    ensures forall m :: FirstMoved(items, special, path) <= m < ChunkEnd(items, k) && m != k ==>
      !Reaches(items, special, m, at)
  {
    forall m | FirstMoved(items, special, path) <= m < ChunkEnd(items, k) && m != k
      ensures !Reaches(items, special, m, at)
    {
      QuietAtOldPlace(items, special, path, k, m, x);
    }
  }

  lemma QuietLater(items: seq<ItemIdCompact>, special: nat, a: nat, k: nat, x: nat)
    requires Shaped(items, special, Presorted) && AllQuiet(items, special, Presorted)
    requires k < a <= |items| && FirstMoved(items, special, Presorted) <= a && x < items[k].len
    ensures RekeyKeys(items, special, a, |items|, NewOff(items, special, k) + x) == []
  {
    var pos := NewOff(items, special, k) + x;
    forall m | a <= m < |items| && m != k ensures !Reaches(items, special, m, pos) {
      QuietAtNewPlace(items, special, k, m, x);
    }
    OnlyOneReaches(items, special, a, |items|, k, pos);
  }

  lemma QuietLeading(items: seq<ItemIdCompact>, special: nat, path: Path, k: nat, x: nat)
    requires Shaped(items, special, path) && AllQuiet(items, special, path)
    requires k < FirstMoved(items, special, path) && x < items[k].len
    ensures Layout(items, special, path).ChangeKeys(k, x) == []
  {
    LeadingStay(items, special, 0);
    InPlaceStays(items, special, FirstMoved(items, special, path), k);
    if path.Presorted? {
      QuietLater(items, special, FirstMoved(items, special, path), k, x);
    }
  }

  lemma CountInTwo(q: nat, r: nat, p: nat)
    ensures multiset([q, r])[p] == (if q == p then 1 else 0) + if r == p then 1 else 0
  {
    assert multiset([q, r]) == multiset{q, r};
  }

  lemma EvenTwo(q: nat, r: nat)
    ensures Even([q, r]) <==> q == r
  {
    CountInTwo(q, r, q);
    forall p: nat | q == r ensures multiset([q, r])[p] % 2 == 0 {
      CountInTwo(q, r, p);
    }
  }

  lemma EvenTwice(ks: seq<nat>)
    ensures Even(ks + ks)
  {
    forall p: nat ensures multiset(ks + ks)[p] % 2 == 0 {
      CountInConcat(ks, ks, p);
    }
  }

  /** Whether what item `k` brings into its own byte `x` matches what reading it takes out. */
  predicate Matched(items: seq<ItemIdCompact>, special: nat, hoff: nat, k: nat, x: nat)
    requires k < |items|
  {
    items[k].itemoff == NewOff(items, special, k) ||
    if x < hoff then x < HEADER_SIZE || RecryptLen(items, k) <= x else hoff == HEADER_SIZE && x < RecryptLen(items, k)
  }

  lemma OwnKeysEven(items: seq<ItemIdCompact>, special: nat, hoff: nat, k: nat, x: nat, all: seq<nat>)
    requires k < |items| && HEADER_SIZE <= hoff
    requires all == ItemKeys(items, special, k, items[k].itemoff + x) +
                    (ReadKeys(items[k].itemoff, hoff, x) + ReadKeys(NewOff(items, special, k), hoff, x))
    ensures Even(all) <==> Matched(items, special, hoff, k, x)
  {
    var from, to, own := items[k].itemoff, NewOff(items, special, k), ItemKeys(items, special, k, items[k].itemoff + x);
    if x >= hoff {
      DataKeysEven(from, to, own, hoff, x, all);
    } else {
      assert all == own;
      HeaderKeysEven(from, to, own, x, all);
    }
  }

  lemma HeaderKeysEven(from: nat, to: nat, own: seq<nat>, x: nat, all: seq<nat>)
    requires all == own && (own == [] ||
        (x >= HEADER_SIZE && own == [from + (x - HEADER_SIZE), to + (x - HEADER_SIZE)] && from != to))
    ensures Even(all) <==> own == []
  {
    if own != [] {
      EvenTwo(own[0], own[1]);
      assert own == [own[0], own[1]];
    }
  }

  lemma DataKeysEven(from: nat, to: nat, own: seq<nat>, hoff: nat, x: nat, all: seq<nat>)
    requires HEADER_SIZE <= hoff <= x && all == own + ([from + (x - hoff)] + [to + (x - hoff)])
    requires own == [] || (from != to && own == [from + (x - HEADER_SIZE), to + (x - HEADER_SIZE)])
    ensures Even(all) <==> from == to || (hoff == HEADER_SIZE && own != [])
  {
    var q, r := from + (x - hoff), to + (x - hoff);
    if own == [] {
      assert all == [q, r];
      EvenTwo(q, r);
    } else {
      assert all == [own[0], own[1], q, r];
      PairsEvenIff(own[0], own[1], q, r);
    }
  }

  /** Two pairs at the same distance cancel only if they are the same pair. */
  lemma PairsEvenIff(a: nat, b: nat, q: nat, r: nat)
    requires a != b && a - q == b - r >= 0
    ensures Even([a, b, q, r]) <==> a == q
  {
    if a == q {
      assert [a, b, a, b] == [a, b] + [a, b];
      EvenTwice([a, b]);
    } else {
      LowestIsOdd(a, b, q, r);
    }
  }

  /** Otherwise the lowest of the four occurs once. */
  lemma LowestIsOdd(a: nat, b: nat, q: nat, r: nat)
    requires a != b && a - q == b - r > 0
    ensures !Even([a, b, q, r])
  {
    var p, ks := if q < r then q else r, [a, b, q, r];
    assert ks == [a, b] + [q, r];
    CountInConcat([a, b], [q, r], p);
    CountInTwo(a, b, p);
    CountInTwo(q, r, p);
  }

  lemma QuietByteIff(items: seq<ItemIdCompact>, special: nat, path: Path, hoff: nat, k: nat, x: nat)
    requires Shaped(items, special, path) && AllQuiet(items, special, path)
    requires k < |items| && HEADER_SIZE <= hoff && x < items[k].len
    ensures ByteIntact(items, special, path, hoff, k, x) <==> Matched(items, special, hoff, k, x)
  {
    QuietKeys(items, special, path, k, x);
    if k < FirstMoved(items, special, path) {
      LeadingStay(items, special, 0);
      InPlaceStays(items, special, FirstMoved(items, special, path), k);
      assert ItemKeys(items, special, k, items[k].itemoff + x) == [];
    }
    OwnKeysEven(items, special, hoff, k, x, RowKeys(items, special, path, hoff, k, x));
  }

  /** With quiet items, a row survives if and only if the length used covers it and its header has the
      assumed size. */
  lemma QuietRowIff(items: seq<ItemIdCompact>, special: nat, path: Path, hoff: nat, k: nat)
    requires Shaped(items, special, path) && AllQuiet(items, special, path)
    requires k < |items| && HEADER_SIZE <= hoff <= items[k].len
    ensures RowIntact(items, special, path, hoff, k) <==> Keeps(items, special, hoff, k)
  {
    forall x | 0 <= x < items[k].len
      ensures ByteIntact(items, special, path, hoff, k, x) <==> Matched(items, special, hoff, k, x)
    {
      QuietByteIff(items, special, path, hoff, k, x);
    }
    MatchedIff(items, special, hoff, k);
  }

  lemma MatchedIff(items: seq<ItemIdCompact>, special: nat, hoff: nat, k: nat)
    requires Roomy(items, special) && k < |items| && HEADER_SIZE <= hoff <= items[k].len
    ensures (forall x :: 0 <= x < items[k].len ==> Matched(items, special, hoff, k, x)) <==>
      Keeps(items, special, hoff, k)
  {
    if !Keeps(items, special, hoff, k) {
      var reclen := RecryptLen(items, k);
      var x := if hoff == HEADER_SIZE then reclen else if reclen > HEADER_SIZE then HEADER_SIZE else hoff;
      assert 0 <= x < items[k].len && !Matched(items, special, hoff, k, x);
    }
  }

  // --------------------------------------------------------------- presorted pages

  /** On a presorted page every item from the first one that moves goes up. */
  lemma {:induction false} PresortedMoves(items: seq<ItemIdCompact>, special: nat, m: nat)
    requires Shaped(items, special, Presorted) && FirstMoved(items, special, Presorted) <= m < |items|
    ensures items[m].itemoff < NewOff(items, special, m)
  {
    var s := FirstMoved(items, special, Presorted);
    LeadingStay(items, special, 0);
    DescendingIsStacked(items, special);
    PresortedMovesUp(items, special, m);
    UpperStep(items, special, m);
    if m > s {
      PresortedMoves(items, special, m - 1);
      assert Below(items, m);
    }
  }

  /** The lowest of the items that re-encryption could damage shows whether it does: if item `m` is not
      quiet, but all later ones are, then the tuple above it loses the first byte of its header. */
  lemma LoudBreaks(items: seq<ItemIdCompact>, special: nat, hoff: nat, m: nat)
    requires Shaped(items, special, Presorted) && FirstMoved(items, special, Presorted) <= m < |items|
    requires !Quiet(items, special, Presorted, m) && HEADER_SIZE <= hoff
    requires forall i :: m < i < |items| ==> Quiet(items, special, Presorted, i)
    ensures m > 0 && !RowIntact(items, special, Presorted, hoff, m - 1)
  {
    var s, n, k := FirstMoved(items, special, Presorted), |items|, m - 1;
    var at, to := items[k].itemoff, NewOff(items, special, k);
    var keys := ItemKeys(items, special, m, if s < m && Adjacent(items, m) then at else to);
    DescendingIsStacked(items, special);
    PresortedMoves(items, special, m);
    PresortedMovesUp(items, special, m);
    assert |keys| == 2 && keys[0] != keys[1];
    if k < s {
      LoudBelowLeading(items, special, m);
    } else if Adjacent(items, m) {
      LoudInChunk(items, special, m);
    } else {
      LoudAtStart(items, special, m);
    }
    TwoKeysBreak(items, special, hoff, k, keys);
  }

  /** Two different positions in the first byte of a header do not cancel. */
  lemma TwoKeysBreak(items: seq<ItemIdCompact>, special: nat, hoff: nat, k: nat, keys: seq<nat>)
    requires k < |items| && HEADER_SIZE <= hoff && 0 < items[k].len
    requires keys == Layout(items, special, Presorted).ChangeKeys(k, 0) && |keys| == 2 && keys[0] != keys[1]
    ensures !RowIntact(items, special, Presorted, hoff, k)
  {
    assert RowKeys(items, special, Presorted, hoff, k, 0) == keys == [keys[0], keys[1]];
    EvenTwo(keys[0], keys[1]);
    assert !ByteIntact(items, special, Presorted, hoff, k, 0);
  }

  lemma LoudBelowLeading(items: seq<ItemIdCompact>, special: nat, m: nat)
    requires Shaped(items, special, Presorted) && 0 < m == FirstMoved(items, special, Presorted) < |items|
    requires forall i :: m < i < |items| ==> Quiet(items, special, Presorted, i)
    ensures Layout(items, special, Presorted).ChangeKeys(m - 1, 0) ==
      ItemKeys(items, special, m, NewOff(items, special, m - 1))
  {
    var n, k, at := |items|, m - 1, items[m-1].itemoff;
    LeadingStay(items, special, 0);
    InPlaceStays(items, special, m, k);
    forall i | m <= i < n && i != m ensures !Reaches(items, special, i, at) {
      QuietAtNewPlace(items, special, k, i, 0);
    }
    OnlyOneReaches(items, special, m, n, m, at);
  }

  lemma LoudInChunk(items: seq<ItemIdCompact>, special: nat, m: nat)
    requires Shaped(items, special, Presorted) && FirstMoved(items, special, Presorted) < m < |items| &&
      Adjacent(items, m)
    requires forall i :: m < i < |items| ==> Quiet(items, special, Presorted, i)
    ensures Layout(items, special, Presorted).ChangeKeys(m - 1, 0) == ItemKeys(items, special, m, items[m-1].itemoff)
  {
    var s, n, k := FirstMoved(items, special, Presorted), |items|, m - 1;
    var ce, at, to := ChunkEnd(items, k), items[k].itemoff, NewOff(items, special, k);
    forall i | s <= i < ce && i != m ensures !Reaches(items, special, i, at) {
      if i != k {
        QuietAtOldPlace(items, special, Presorted, k, i, 0);
      }
    }
    OnlyOneReaches(items, special, s, ce, m, at);
    forall i | ce <= i < n ensures !Reaches(items, special, i, to) {
      QuietAtNewPlace(items, special, k, i, 0);
    }
    OnlyOneReaches(items, special, ce, n, k, to);
  }

  lemma LoudAtStart(items: seq<ItemIdCompact>, special: nat, m: nat)
    requires Shaped(items, special, Presorted) && FirstMoved(items, special, Presorted) < m < |items| &&
      !Adjacent(items, m)
    requires forall i :: m < i < |items| ==> Quiet(items, special, Presorted, i)
    ensures Layout(items, special, Presorted).ChangeKeys(m - 1, 0) ==
      ItemKeys(items, special, m, NewOff(items, special, m - 1))
  {
    var s, n, k := FirstMoved(items, special, Presorted), |items|, m - 1;
    var at, to := items[k].itemoff, NewOff(items, special, k);
    assert ChunkEnd(items, k) == m;
    forall i | s <= i < m ensures !Reaches(items, special, i, at) {
      if i != k {
        QuietAtOldPlace(items, special, Presorted, k, i, 0);
      }
    }
    OnlyOneReaches(items, special, s, m, m, at);
    forall i | m <= i < n && i != m ensures !Reaches(items, special, i, to) {
      QuietAtNewPlace(items, special, k, i, 0);
    }
    OnlyOneReaches(items, special, m, n, m, to);
  }

  /** MAIN: a presorted page keeps every row if and only if no re-encryption reaches a slot that still
      matters, and every tuple that moves is covered and has a header of the assumed size. */
  lemma PresortedKeepsRowsIff(items: seq<ItemIdCompact>, special: nat, hoffs: seq<nat>)
    requires Shaped(items, special, Presorted) && |hoffs| == |items|
    requires forall k :: 0 <= k < |items| ==> HEADER_SIZE <= hoffs[k] <= items[k].len
    ensures Intact(items, special, Presorted, hoffs) <==>
      AllQuiet(items, special, Presorted) && KeepsAll(items, special, hoffs)
  {
    if AllQuiet(items, special, Presorted) {
      QuietKeepsRowsIff(items, special, Presorted, hoffs);
    } else {
      var m := LastLoud(items, special, |items|);
      LoudBreaks(items, special, hoffs[if m > 0 then m - 1 else 0], m);
      assert !RowIntact(items, special, Presorted, hoffs[m-1], m - 1);
    }
  }

  lemma {:induction false} LastLoud(items: seq<ItemIdCompact>, special: nat, n: nat) returns (m: nat)
    requires n <= |items| && !AllQuiet(items, special, Presorted)
    requires forall i :: n <= i < |items| ==> Quiet(items, special, Presorted, i)
    ensures FirstMoved(items, special, Presorted) <= m < |items| && !Quiet(items, special, Presorted, m)
    ensures forall i :: m < i < |items| ==> Quiet(items, special, Presorted, i)
  {
    if n == 0 || !Quiet(items, special, Presorted, n - 1) {
      m := n - 1;
    } else {
      m := LastLoud(items, special, n - 1);
    }
  }

  /** MAIN: and on every path, a page of quiet items keeps every row if and only if every tuple that moves
      is covered and has a header of the assumed size. */
  lemma QuietKeepsRowsIff(items: seq<ItemIdCompact>, special: nat, path: Path, hoffs: seq<nat>)
    requires Shaped(items, special, path) && AllQuiet(items, special, path) && |hoffs| == |items|
    requires forall k :: 0 <= k < |items| ==> HEADER_SIZE <= hoffs[k] <= items[k].len
    ensures Intact(items, special, path, hoffs) <==> KeepsAll(items, special, hoffs)
  {
    forall k | 0 <= k < |items|
      ensures RowIntact(items, special, path, hoffs[k], k) <==> Keeps(items, special, hoffs[k], k)
    {
      QuietRowIff(items, special, path, hoffs[k], k);
    }
  }

  /** No tuple that moves is re-encrypted past its own slot. */
  predicate NoSpill(items: seq<ItemIdCompact>, special: nat) {
    forall k :: 0 <= k < |items| && items[k].itemoff != NewOff(items, special, k) ==>
      RecryptLen(items, k) <= items[k].alignedlen
  }

  lemma NoSpillIsQuiet(items: seq<ItemIdCompact>, special: nat, path: Path)
    requires Shaped(items, special, path) && NoSpill(items, special)
    ensures AllQuiet(items, special, path)
  {
    forall m | FirstMoved(items, special, path) <= m < |items| ensures Quiet(items, special, path, m) {
      if path.Presorted? {
        DescendingIsStacked(items, special);
        PresortedMoves(items, special, m);
        PresortedMovesUp(items, special, m);
      }
    }
  }

  /** MAIN: every byte that compaction re-encrypts lies in a buffer of `size` bytes if and only if no item from
      the first that moves on has a length used that takes it past the end; `CompactifyTuples` leaves neither
      page nor scratch copy on that condition.  Being quiet does not imply it: see `QuietYetOutside`. */
  lemma StaysWithinIff(lay: Layout, size: nat)
    requires Roomy(lay.items, lay.special) && BLCKSZ <= size
    ensures lay.StaysWithin(size) <==>
      forall m, pos :: lay.First() <= m < |lay.items| && Touches(lay.items, m, pos) ==> pos < size
  {
    forall m | lay.First() <= m < |lay.items| && !EndsWithin(lay.items, m, size)
      ensures Touches(lay.items, m, lay.items[m].itemoff + RecryptLen(lay.items, m) - 1)
    {
      assert lay.items[m].End() <= lay.special && HEADER_SIZE <= lay.items[m].alignedlen;
    }
    forall m, pos | lay.StaysWithin(size) && lay.First() <= m < |lay.items| && Touches(lay.items, m, pos)
      ensures pos < size
    {
      assert EndsWithin(lay.items, m, size);
    }
  }

  /** Rows of one stored length whose headers carry no null bitmap survive every compaction. */
  lemma EqualLengthsSuffice(items: seq<ItemIdCompact>, special: nat, path: Path, hoffs: seq<nat>)
    requires Shaped(items, special, path) && |hoffs| == |items| && forall k :: 0 <= k < |items| ==>
      hoffs[k] == HEADER_SIZE
    requires forall j, k :: 0 <= j < |items| && 0 <= k < |items| ==> items[j].len == items[k].len
    ensures Intact(items, special, path, hoffs)
  {
    NoSpillIsQuiet(items, special, path);
    QuietKeepsRowsIff(items, special, path, hoffs);
  }

  // --------------------------------------------------------------- example pages

  /** A page of two tuples, 60 and 32 bytes long, with a gap behind the first: the first moves up
      by 32 bytes, only its first 32 bytes are re-encrypted, and the rest of the row is lost. */
  lemma ShortLengthLoses(items: seq<ItemIdCompact>)
    requires items == [ItemIdCompact(0, 8096, 60, 64), ItemIdCompact(1, 8064, 32, 32)]
    ensures Shaped(items, BLCKSZ, Presorted) && NoSpill(items, BLCKSZ)
    ensures !Intact(items, BLCKSZ, Presorted, [HEADER_SIZE, HEADER_SIZE])
  {
    OtherTwoItems(items);
    PresortedKeepsRowsIff(items, BLCKSZ, [HEADER_SIZE, HEADER_SIZE]);
  }

  lemma OtherTwoItems(items: seq<ItemIdCompact>)
    requires items == [ItemIdCompact(0, 8096, 60, 64), ItemIdCompact(1, 8064, 32, 32)]
    ensures Shaped(items, BLCKSZ, Presorted) && NoSpill(items, BLCKSZ)
    ensures !KeepsAll(items, BLCKSZ, [HEADER_SIZE, HEADER_SIZE])
  {
    assert items[0] == ItemIdCompact(0, 8096, 60, 64) && items[1] == ItemIdCompact(1, 8064, 32, 32);
    assert Fill(items, 1) == Fill(items, 0) + 64 == 64;
    assert Fill(items, 2) == Fill(items, 1) + 32 == 96;
    assert NewOff(items, BLCKSZ, 0) == 8128 && NewOff(items, BLCKSZ, 1) == 8096;
    assert RecryptLen(items, 0) == 32 && RecryptLen(items, 1) == 32;
    assert Lower(items, 1);
    var hoffs: seq<nat> := [HEADER_SIZE, HEADER_SIZE];
    assert !Keeps(items, BLCKSZ, hoffs[0], 0);
  }

  /** Three tuples of 32, 32 and 64 bytes, the first two next to each other: each length covers its tuple, yet
      the second is re-encrypted with length 64, and with it the first, which is lost. */
  lemma NeighbourLoses(items: seq<ItemIdCompact>)
    requires items == [ItemIdCompact(0, 8032, 32, 32), ItemIdCompact(1, 8000, 32, 32), ItemIdCompact(2, 7896, 64, 64)]
    ensures Shaped(items, BLCKSZ, Presorted) && KeepsAll(items, BLCKSZ, [HEADER_SIZE, HEADER_SIZE, HEADER_SIZE])
    ensures !Intact(items, BLCKSZ, Presorted, [HEADER_SIZE, HEADER_SIZE, HEADER_SIZE])
  {
    ThreeItems(items);
    PresortedKeepsRowsIff(items, BLCKSZ, [HEADER_SIZE, HEADER_SIZE, HEADER_SIZE]);
  }

  lemma ThreeItems(items: seq<ItemIdCompact>)
    requires items == [ItemIdCompact(0, 8032, 32, 32), ItemIdCompact(1, 8000, 32, 32), ItemIdCompact(2, 7896, 64, 64)]
    ensures Shaped(items, BLCKSZ, Presorted) && KeepsAll(items, BLCKSZ, [HEADER_SIZE, HEADER_SIZE, HEADER_SIZE])
    ensures !AllQuiet(items, BLCKSZ, Presorted)
  {
    assert Fill(items, 1) == Fill(items, 0) + 32 == 32;
    assert Fill(items, 2) == Fill(items, 1) + 32 == 64;
    assert Fill(items, 3) == Fill(items, 2) + 64 == 128;
    assert RecryptLen(items, 0) == 32 && RecryptLen(items, 1) == 64 && RecryptLen(items, 2) == 64;
    assert Lower(items, 1) && Lower(items, 2);
    assert FirstMoved(items, BLCKSZ, Presorted) == 0 && Adjacent(items, 1);
    assert !Quiet(items, BLCKSZ, Presorted, 1);
  }

  /** Two tuples of 32 and 64 bytes far apart: the first is re-encrypted with length 64, but what lies behind it
      is free, and nothing is lost. */
  lemma SpillIntoGap(items: seq<ItemIdCompact>)
    requires items == [ItemIdCompact(0, 8000, 32, 32), ItemIdCompact(1, 7000, 64, 64)]
    ensures Shaped(items, BLCKSZ, Presorted) && !NoSpill(items, BLCKSZ)
    ensures Intact(items, BLCKSZ, Presorted, [HEADER_SIZE, HEADER_SIZE])
  {
    TwoItems(items);
    PresortedKeepsRowsIff(items, BLCKSZ, [HEADER_SIZE, HEADER_SIZE]);
  }

  lemma TwoItems(items: seq<ItemIdCompact>)
    requires items == [ItemIdCompact(0, 8000, 32, 32), ItemIdCompact(1, 7000, 64, 64)]
    ensures Shaped(items, BLCKSZ, Presorted) && !NoSpill(items, BLCKSZ) && AllQuiet(items, BLCKSZ, Presorted)
    ensures KeepsAll(items, BLCKSZ, [HEADER_SIZE, HEADER_SIZE])
  {
    assert Fill(items, 1) == Fill(items, 0) + 32 == 32;
    assert Fill(items, 2) == Fill(items, 1) + 64 == 96;
    assert NewOff(items, BLCKSZ, 0) == 8160 && RecryptLen(items, 0) == 64 && RecryptLen(items, 1) == 64;
    assert Lower(items, 1);
    assert FirstMoved(items, BLCKSZ, Presorted) == 0 && !Adjacent(items, 1);
  }

  /** Two tuples of 32 and 300 bytes far apart: no row is lost, but the first is re-encrypted with length 300,
      up to 108 bytes behind the page. */
  lemma QuietYetOutside(items: seq<ItemIdCompact>)
    requires items == [ItemIdCompact(0, 8000, 32, 32), ItemIdCompact(1, 7000, 300, 304)]
    ensures Shaped(items, BLCKSZ, Presorted) && AllQuiet(items, BLCKSZ, Presorted)
    ensures Intact(items, BLCKSZ, Presorted, [HEADER_SIZE, HEADER_SIZE])
    ensures !Layout(items, BLCKSZ, Presorted).StaysWithin(BLCKSZ)
  {
    FarItems(items);
    PresortedKeepsRowsIff(items, BLCKSZ, [HEADER_SIZE, HEADER_SIZE]);
    assert !EndsWithin(items, 0, BLCKSZ);
  }

  lemma FarItems(items: seq<ItemIdCompact>)
    requires items == [ItemIdCompact(0, 8000, 32, 32), ItemIdCompact(1, 7000, 300, 304)]
    ensures Shaped(items, BLCKSZ, Presorted) && AllQuiet(items, BLCKSZ, Presorted)
    ensures FirstMoved(items, BLCKSZ, Presorted) == 0 && RecryptLen(items, 0) == 300
    ensures KeepsAll(items, BLCKSZ, [HEADER_SIZE, HEADER_SIZE])
  {
    assert Fill(items, 1) == Fill(items, 0) + 32 == 32;
    assert Fill(items, 2) == Fill(items, 1) + 304 == 336;
    assert NewOff(items, BLCKSZ, 0) == 8160 && RecryptLen(items, 0) == 300 && RecryptLen(items, 1) == 300;
    assert Lower(items, 1);
    assert FirstMoved(items, BLCKSZ, Presorted) == 0 && !Adjacent(items, 1);
  }

  lemma EvenConcat(ks: seq<nat>, ls: seq<nat>)
    requires Even(ks) && Even(ls)
    ensures Even(ks + ls)
  {
    forall q: nat ensures multiset(ks + ls)[q] % 2 == 0 {
      CountInConcat(ks, ls, q);
    }
  }

  /** Five tuples that are not presorted: the re-encryptions of items 0 and 2 both reach the first 32 bytes of
      item 4 and cancel there, because the two move by the same distance.  Nothing is lost although neither is
      quiet, so off the presorted path only counting positions is exact. */
  lemma SpillsCancel() returns (items: seq<ItemIdCompact>)
    ensures items == [ItemIdCompact(0, 6128, 32, 32), ItemIdCompact(1, 7000, 64, 64), ItemIdCompact(2, 6000, 64, 64),
                      ItemIdCompact(3, 7500, 192, 192), ItemIdCompact(4, 6160, 192, 192)]
    ensures Shaped(items, BLCKSZ, AllAtOnce) && !AllQuiet(items, BLCKSZ, AllAtOnce)
    ensures Intact(items, BLCKSZ, AllAtOnce, seq(5, i => HEADER_SIZE))
  {
    items := [ItemIdCompact(0, 6128, 32, 32), ItemIdCompact(1, 7000, 64, 64), ItemIdCompact(2, 6000, 64, 64),
              ItemIdCompact(3, 7500, 192, 192), ItemIdCompact(4, 6160, 192, 192)];
    FiveItems(items);
    var hoffs: seq<nat> := seq(5, i => HEADER_SIZE);
    forall k | 0 <= k < 5 ensures RowIntact(items, BLCKSZ, AllAtOnce, hoffs[k], k) {
      forall x | 0 <= x < items[k].len ensures ByteIntact(items, BLCKSZ, AllAtOnce, HEADER_SIZE, k, x) {
        FiveBytes(items, k, x);
      }
    }
    assert !Spared(items, 0, 4);
    assert !Quiet(items, BLCKSZ, AllAtOnce, 0);
  }

  ghost predicate Five(items: seq<ItemIdCompact>) {
    items == [ItemIdCompact(0, 6128, 32, 32), ItemIdCompact(1, 7000, 64, 64), ItemIdCompact(2, 6000, 64, 64),
              ItemIdCompact(3, 7500, 192, 192), ItemIdCompact(4, 6160, 192, 192)]
  }

  lemma FiveItems(items: seq<ItemIdCompact>)
    requires Five(items)
    ensures Shaped(items, BLCKSZ, AllAtOnce) && FirstMoved(items, BLCKSZ, AllAtOnce) == 0
    ensures forall k :: 0 <= k < 5 ==> ChunkEnd(items, k) == k + 1
    ensures NewOff(items, BLCKSZ, 0) == 8160 && NewOff(items, BLCKSZ, 1) == 8096 && NewOff(items, BLCKSZ, 2) == 8032
    ensures NewOff(items, BLCKSZ, 3) == 7840 && NewOff(items, BLCKSZ, 4) == 7648
    ensures RecryptLen(items, 0) == 64 && RecryptLen(items, 1) == 64 && RecryptLen(items, 2) == 192
    ensures RecryptLen(items, 3) == 192 && RecryptLen(items, 4) == 192
  {
    assert Fill(items, 1) == Fill(items, 0) + 32 == 32;
    assert Fill(items, 2) == Fill(items, 1) + 64 == 96;
    assert Fill(items, 3) == Fill(items, 2) + 64 == 160;
    assert Fill(items, 4) == Fill(items, 3) + 192 == 352;
    assert Fill(items, 5) == Fill(items, 4) + 192 == 544;
    assert forall k :: 0 < k < 5 ==> !Adjacent(items, k);
  }

  lemma FiveBytes(items: seq<ItemIdCompact>, k: nat, x: nat)
    requires Five(items) && k < 5 && x < items[k].len
    ensures ByteIntact(items, BLCKSZ, AllAtOnce, HEADER_SIZE, k, x)
  {
    var at := items[k].itemoff + x;
    var own := ItemKeys(items, BLCKSZ, k, at);
    var read := ReadKeys(items[k].itemoff, HEADER_SIZE, x) + ReadKeys(NewOff(items, BLCKSZ, k), HEADER_SIZE, x);
    var all := RowKeys(items, BLCKSZ, AllAtOnce, HEADER_SIZE, k, x);
    FiveOwn(items, k, x, own + read);
    FiveOthers(items, k, x);
    if k < 4 || x >= 32 {
      assert all == own + read;
    } else {
      var p, q := at - HEADER_SIZE, at - HEADER_SIZE + 2032;
      assert all == [p, q, p, q] + (own + read);
      assert [p, q, p, q] == [p, q] + [p, q];
      EvenTwice([p, q]);
      EvenConcat([p, q, p, q], own + read);
    }
  }

  lemma FiveOwn(items: seq<ItemIdCompact>, k: nat, x: nat, all: seq<nat>)
    requires Five(items) && k < 5 && x < items[k].len
    requires all == ItemKeys(items, BLCKSZ, k, items[k].itemoff + x) +
                    (ReadKeys(items[k].itemoff, HEADER_SIZE, x) + ReadKeys(NewOff(items, BLCKSZ, k), HEADER_SIZE, x))
    ensures Even(all)
  {
    FiveItems(items);
    OwnKeysEven(items, BLCKSZ, HEADER_SIZE, k, x, all);
  }

  lemma FiveOthers(items: seq<ItemIdCompact>, k: nat, x: nat)
    requires Five(items) && k < 5 && x < items[k].len
    ensures var at := items[k].itemoff + x; var own := ItemKeys(items, BLCKSZ, k, at);
      Layout(items, BLCKSZ, AllAtOnce).ChangeKeys(k, x) ==
        if k < 4 || x >= 32 then own
        else [at - HEADER_SIZE, at - HEADER_SIZE + 2032, at - HEADER_SIZE, at - HEADER_SIZE + 2032] + own
  {
    FiveItems(items);
    var at := items[k].itemoff + x;
    if k < 4 || x >= 32 {
      FiveReach(items, k, x, at);
      OnlyOneReaches(items, BLCKSZ, 0, k + 1, k, at);
    } else {
      FiveKeys(items, at);
    }
    MovedKeysAre(items, BLCKSZ, AllAtOnce, k, x, RekeyKeys(items, BLCKSZ, 0, k + 1, at), []);
  }

  lemma FiveReach(items: seq<ItemIdCompact>, k: nat, x: nat, at: nat)
    requires Five(items) && k < 5 && x < items[k].len && (k < 4 || x >= 32) && at == items[k].itemoff + x
    ensures forall i :: 0 <= i < k ==> !Reaches(items, BLCKSZ, i, at)
  {
    FiveItems(items);
  }

  lemma FiveKeys(items: seq<ItemIdCompact>, at: nat)
    requires Five(items) && 6160 <= at < 6192
    ensures var p, q := at - HEADER_SIZE, at - HEADER_SIZE + 2032;
      RekeyKeys(items, BLCKSZ, 0, 5, at) == [p, q, p, q] + ItemKeys(items, BLCKSZ, 4, at)
  {
    var p, q := at - HEADER_SIZE, at - HEADER_SIZE + 2032;
    FiveItemKeys(items, at);
    assert RekeyKeys(items, BLCKSZ, 0, 1, at) == [p, q];
    assert RekeyKeys(items, BLCKSZ, 0, 2, at) == [p, q];
    assert RekeyKeys(items, BLCKSZ, 0, 3, at) == [p, q] + [p, q] == [p, q, p, q];
    assert RekeyKeys(items, BLCKSZ, 0, 4, at) == [p, q, p, q];
  }

  lemma FiveItemKeys(items: seq<ItemIdCompact>, at: nat)
    requires Five(items) && 6160 <= at < 6192
    ensures ItemKeys(items, BLCKSZ, 0, at) == ItemKeys(items, BLCKSZ, 2, at) ==
      [at - HEADER_SIZE, at - HEADER_SIZE + 2032]
    ensures ItemKeys(items, BLCKSZ, 1, at) == ItemKeys(items, BLCKSZ, 3, at) == []
  {
    FiveItems(items);
  }
}
