/** pgtde_compactify_tuples: slide the tuples of a page up against its end, re-encrypting each
    for the file position it moves to.

    The page is the first BLCKSZ bytes of `page`.  The array may go on behind it because the length
    that the source re-encrypts a tuple with is that of the next tuple in the list, which may
    reach past the tuple itself, and past the page: `StaysWithin` says when.  What that does to
    other tuples is part of the specification: `NewByte` says what every byte of every slot is in
    the end. */
module Compactify {
  import opened Base
  import opened Crypt

  const HEADER_SIZE: nat := 24   // sizeof(HeapTupleHeaderData)

  datatype ItemIdCompact = ItemIdCompact(offsetindex: nat, itemoff: nat, len: nat, alignedlen: nat)
  {
    function End(): nat {
      itemoff + alignedlen
    }
  }

  function MaxAlign(n: nat): nat {
    (n + 7) / 8 * 8
  }

  /** It is the next multiple of MAXIMUM_ALIGNOF. */
  lemma MaxAligned(n: nat)
    ensures MaxAlign(n) % 8 == 0 && n <= MaxAlign(n) < n + 8
  {
  }

  /** Total aligned length of the first `n` items. */
  function Fill(items: seq<ItemIdCompact>, n: nat): nat
    requires n <= |items|
  {
    if n == 0 then 0 else Fill(items, n - 1) + items[n-1].alignedlen
  }

  /** The value of `upper` once the first `i` items have been placed. */
  function Upper(items: seq<ItemIdCompact>, special: nat, i: nat): nat
    requires i <= |items|
  {
    if Fill(items, i) <= special then special - Fill(items, i) else 0
  }

  /** Where item `k` ends up. */
  function NewOff(items: seq<ItemIdCompact>, special: nat, k: nat): nat
    requires k < |items|
  {
    Upper(items, special, k + 1)
  }

  /** The length item `k` is re-encrypted with: that of the next item in the list. */
  function RecryptLen(items: seq<ItemIdCompact>, k: nat): nat
    requires k < |items|
  {
    if k + 1 < |items| then items[k+1].len else items[k].len
  }

  /** Items with storage inside the page, each at least a header long, with room for all. */
  ghost predicate Roomy(items: seq<ItemIdCompact>, special: nat) {
    && special <= BLCKSZ && Fill(items, |items|) <= special
    && (forall k :: 0 <= k < |items| ==>
        HEADER_SIZE <= items[k].len <= items[k].alignedlen && items[k].End() <= special)
  }

  /** No two items overlap, and each has its own line pointer. */
  ghost predicate Apart(items: seq<ItemIdCompact>) {
    forall j, k :: 0 <= j < k < |items| ==> Clear(items, j, k)
  }

  predicate Clear(items: seq<ItemIdCompact>, j: int, k: int)
    requires 0 <= j < k < |items|
  {
    items[k].offsetindex != items[j].offsetindex &&
      (items[k].End() <= items[j].itemoff || items[j].End() <= items[k].itemoff)
  }

  /** Higher line pointers at lower offsets: the presorted flag. */
  predicate Descending(items: seq<ItemIdCompact>) {
    forall k :: 0 < k < |items| ==> Lower(items, k)
  }

  predicate Lower(items: seq<ItemIdCompact>, k: int)
    requires 0 < k < |items|
  {
    items[k].itemoff < items[k-1].itemoff
  }

  /** Presorted items that do not overlap are stacked below each other. */
  ghost predicate Stacked(items: seq<ItemIdCompact>) {
    forall k :: 0 < k < |items| ==> Below(items, k)
  }

  predicate Below(items: seq<ItemIdCompact>, k: int)
    requires 0 < k < |items|
  {
    items[k].End() <= items[k-1].itemoff
  }

  /** Item `k` ends where the item before it in the list begins. */
  predicate Adjacent(items: seq<ItemIdCompact>, k: int)
    requires 0 < k < |items|
  {
    items[k].End() == items[k-1].itemoff
  }

  /** Items that take multiples of eight bytes go to places that are such multiples. */
  lemma {:induction false} FillIsAligned(items: seq<ItemIdCompact>, n: nat)
    requires n <= |items| && forall k :: 0 <= k < |items| ==> items[k].alignedlen % 8 == 0
    ensures Fill(items, n) % 8 == 0
  {
    if n > 0 {
      FillIsAligned(items, n - 1);
    }
  }

  lemma UpperIsAligned(items: seq<ItemIdCompact>, special: nat, i: nat)
    requires special == MaxAlign(special) && i <= |items|
    requires forall k :: 0 <= k < |items| ==> items[k].alignedlen % 8 == 0
    ensures Upper(items, special, i) % 8 == 0
  {
    MaxAligned(special);
    FillIsAligned(items, i);
  }

  lemma {:induction false} FillGrows(items: seq<ItemIdCompact>, i: nat, j: nat)
    requires i <= j <= |items|
    ensures Fill(items, i) <= Fill(items, j)
    decreases j
  {
    if i < j {
      FillGrows(items, i, j - 1);
    }
  }

  /** Items keep their order, and presorted items only move up. */
  lemma {:induction false} PresortedMovesUp(items: seq<ItemIdCompact>, special: nat, k: nat)
    requires Roomy(items, special) && Stacked(items) && k < |items|
    ensures items[k].itemoff <= NewOff(items, special, k)
    ensures items[k].End() <= Upper(items, special, k)
    decreases k
  {
    FillGrows(items, k + 1, |items|);
    assert Fill(items, k + 1) == Fill(items, k) + items[k].alignedlen;
    if k > 0 {
      assert Below(items, k);
      PresortedMovesUp(items, special, k - 1);
    }
  }

  lemma {:induction false} PresortedOrder(items: seq<ItemIdCompact>, special: nat, j: nat, k: nat)
    requires Roomy(items, special) && Stacked(items) && j < k < |items|
    ensures items[k].End() <= items[j].itemoff
    decreases k
  {
    assert Below(items, k);
    if j < k - 1 {
      PresortedOrder(items, special, j, k - 1);
    }
  }

  // --------------------------------------------------------------- re-encryption

  function Slot(buf: Bytes, at: int, n: nat): Bytes
    requires 0 <= at && at + n <= |buf|
  {
    buf[at..at+n]
  }

  /** The keystream of block `bn`, by page position. */
  type PageKey = nat -> bv8

  function KeyOfPage(e: Cipher, bn: nat): PageKey
    requires IsBlockCipher(e)
  {
    (pos: nat) => KeyByte(e, FileOffset(bn, pos))
  }

  /** What re-encrypting a tuple changes its byte `j` by. */
  function Mask(key: PageKey, from: nat, to: nat, reclen: nat, j: int): bv8 {
    if HEADER_SIZE <= j < reclen then key(from + (j - HEADER_SIZE)) ^ key(to + (j - HEADER_SIZE)) else 0
  }

  // --------------------------------------------------------------- the primitive steps

  /** `now` is `dst` with `n` bytes of `src` copied in. */
  ghost predicate BytesMoved(src: Bytes, from: nat, dst: Bytes, to: nat, n: nat, now: Bytes) {
    && from + n <= |src| && to + n <= |dst| == |now|
    && (forall y :: to <= y < to + n ==> now[y] == src[from + (y - to)])
    && (forall y :: 0 <= y < |now| && !(to <= y < to + n) ==> now[y] == dst[y])
  }

  /** memmove, or memcpy when the buffers differ. */
  method MoveBytes(src: array<bv8>, from: nat, dst: array<bv8>, to: nat, n: nat)
    requires from + n <= src.Length && to + n <= dst.Length
    modifies dst
    ensures BytesMoved(old(src[..]), from, old(dst[..]), to, n, dst[..])
  {
    if from < to {
      MoveUp(src, from, dst, to, n);
    } else {
      MoveDown(src, from, dst, to, n);
    }
  }

  /** From the end. */
  method MoveUp(src: array<bv8>, from: nat, dst: array<bv8>, to: nat, n: nat)
    requires from + n <= src.Length && to + n <= dst.Length && from < to
    modifies dst
    ensures BytesMoved(old(src[..]), from, old(dst[..]), to, n, dst[..])
  {
    var i := n;
    while i > 0
      invariant 0 <= i <= n
      invariant forall x :: to + i <= x < to + n ==> dst[x] == old(src[from + (x - to)])
      invariant forall x :: 0 <= x < dst.Length && !(to + i <= x < to + n) ==> dst[x] == old(dst[x])
      invariant forall x :: from <= x < from + i ==> src[x] == old(src[x])
    {
      i := i - 1;
      dst[to + i] := src[from + i];
    }
  }

  /** From the beginning. */
  method MoveDown(src: array<bv8>, from: nat, dst: array<bv8>, to: nat, n: nat)
    requires from + n <= src.Length && to + n <= dst.Length && to <= from
    modifies dst
    ensures BytesMoved(old(src[..]), from, old(dst[..]), to, n, dst[..])
  {
    for i := 0 to n
      invariant forall x :: to <= x < to + i ==> dst[x] == old(src[from + (x - to)])
      invariant forall x :: 0 <= x < dst.Length && !(to <= x < to + i) ==> dst[x] == old(dst[x])
      invariant forall x :: from + i <= x < from + n ==> src[x] == old(src[x])
    {
      dst[to + i] := src[from + i];
    }
  }

  lemma Spliced(was: Bytes, mid: Bytes, now: Bytes, d: nat, n: nat, x: nat)
    requires d + n <= |was| && |mid| == n && now == was[..d] + mid + was[d+n..] && x < |was|
    ensures |now| == |was| && now[x] == if d <= x < d + n then mid[x-d] else was[x]
  {
  }

  lemma ReEncryptedByte(e: Cipher, bn: nat, from: nat, to: nat, c: Bytes, i: nat)
    requires IsBlockCipher(e) && i < |c|
    ensures ReEncrypted(e, FileOffset(bn, from), FileOffset(bn, to), c)[i] ==
      c[i] ^ Mask(KeyOfPage(e, bn), from, to, HEADER_SIZE + |c|, HEADER_SIZE + i)
  {
    assert FileOffset(bn, from) + i == FileOffset(bn, from + i) && FileOffset(bn, to) + i == FileOffset(bn, to + i);
    assert Mask(KeyOfPage(e, bn), from, to, HEADER_SIZE + |c|, HEADER_SIZE + i) ==
      KeyOfPage(e, bn)(from + i) ^ KeyOfPage(e, bn)(to + i);
  }

  /** Bytes `d` up to `d + n`, the data of the tuple at `at`, are replaced by `mid`. */
  lemma RekeyedInPlace(e: Cipher, bn: nat, was: Bytes, mid: Bytes, now: Bytes, at: nat, to: nat, d: nat, n: nat, x: nat)
    requires IsBlockCipher(e) && d == at + HEADER_SIZE && d + n <= |was| && x < |was|
    requires mid == ReEncrypted(e, FileOffset(bn, at), FileOffset(bn, to), was[d..d+n])
    requires now == was[..d] + mid + was[d+n..]
    ensures |now| == |was| && now[x] == was[x] ^ Mask(KeyOfPage(e, bn), at, to, HEADER_SIZE + n, x - at)
  {
    Spliced(was, mid, now, d, n, x);
    if d <= x < d + n {
      assert x - at == HEADER_SIZE + (x - d) && was[d..d+n][x-d] == was[x];
      ReEncryptedByte(e, bn, at, to, was[d..d+n], x - d);
    } else {
      XorMore(was[x], 0, 0);
    }
  }

  ghost predicate Masked(key: PageKey, was: Bytes, now: Bytes, at: nat, to: nat, reclen: nat) {
    |now| == |was| && forall y :: 0 <= y < |now| ==> now[y] == was[y] ^ Mask(key, at, to, reclen, y - at)
  }

  /** PG_TDE_RE_ENCRYPT_TUPLE_DATA on the tuple at `at`, which is about to move to `to`: every byte of
      the buffer, in the tuple or behind it. */
  method RekeyItem(e: Cipher, bn: nat, buf: array<bv8>, at: nat, to: nat, reclen: nat)
    requires IsBlockCipher(e) && HEADER_SIZE <= reclen <= BLCKSZ
    requires at <= BLCKSZ && to <= BLCKSZ && at + reclen <= buf.Length
    modifies buf
    ensures Masked(KeyOfPage(e, bn), old(buf[..]), buf[..], at, to, reclen)
  {
    ghost var was, d := buf[..], at + HEADER_SIZE;
    var n := reclen - HEADER_SIZE;
    MoveEncryptedData(e, FileOffset(bn, at), buf, at + HEADER_SIZE, FileOffset(bn, to), buf, at + HEADER_SIZE, n);
    ghost var mid := ReEncrypted(e, FileOffset(bn, at), FileOffset(bn, to), was[d..d+n]);
    ghost var now := buf[..];
    forall y | 0 <= y < |was| ensures now[y] == was[y] ^ Mask(KeyOfPage(e, bn), at, to, HEADER_SIZE + n, y - at) {
      RekeyedInPlace(e, bn, was, mid, now, at, to, d, n, y);
    }
  }

  // --------------------------------------------------------------- geometry

  /** Items g..i-1 lie next to each other. */
  ghost predicate Contiguous(items: seq<ItemIdCompact>, g: nat, i: nat)
    requires i <= |items|
  {
    forall k :: g < k < i ==> Adjacent(items, k)
  }

  lemma UpperStep(items: seq<ItemIdCompact>, special: nat, k: nat)
    requires Fill(items, |items|) <= special && k < |items|
    ensures NewOff(items, special, k) + items[k].alignedlen == Upper(items, special, k) <= special
  {
    FillGrows(items, k + 1, |items|);
    assert Fill(items, k + 1) == Fill(items, k) + items[k].alignedlen;
  }

  /** A chunk moves as a whole to where its items belong. */
  lemma {:induction false} ChunkGeometry(items: seq<ItemIdCompact>, special: nat, g: nat, i: nat, k: nat)
    requires Fill(items, |items|) <= special && g <= k < i <= |items| && Contiguous(items, g, i)
    ensures items[k].itemoff - items[i-1].itemoff == NewOff(items, special, k) - Upper(items, special, i)
    ensures items[k].End() - items[i-1].itemoff == Upper(items, special, k) - Upper(items, special, i)
    ensures items[i-1].itemoff <= items[k].itemoff
    ensures Upper(items, special, i) <= NewOff(items, special, k) <= Upper(items, special, k) <= special
    decreases i - k
  {
    UpperStep(items, special, k);
    if k < i - 1 {
      assert Adjacent(items, k + 1);
      ChunkGeometry(items, special, g, i, k + 1);
    }
  }

  lemma {:induction false} ChunkOrder(items: seq<ItemIdCompact>, g: nat, i: nat, k: nat)
    requires g <= k < i <= |items| && Contiguous(items, g, i)
    ensures items[k].End() <= items[g].End()
    decreases k
  {
    if g < k {
      assert Adjacent(items, k);
      ChunkOrder(items, g, i, k - 1);
    }
  }

  lemma PlacedBelow(items: seq<ItemIdCompact>, special: nat, g: nat, k: nat)
    requires Roomy(items, special) && k < g <= |items|
    ensures NewOff(items, special, k) >= Upper(items, special, g)
  {
    FillGrows(items, k + 1, g);
    FillGrows(items, g, |items|);
  }

  lemma HeadBelowTail(items: seq<ItemIdCompact>, special: nat, s: nat, g: nat, i: nat)
    requires Roomy(items, special) && s <= g <= i <= |items| && Contiguous(items, g, i) && (i > s ==> g < i)
    ensures i > s ==> items[i-1].itemoff < items[g].End()
  {
    if i > s {
      ChunkOrder(items, g, i, i - 1);
    }
  }

  lemma ExtendChunk(items: seq<ItemIdCompact>, g: nat, i: nat)
    requires g <= i < |items| && Contiguous(items, g, i)
    requires g < i ==> items[i].End() == items[i-1].itemoff
    ensures Contiguous(items, g, i + 1)
  {
  }

  /** The end of the chunk of adjacent items that contains item `k`. */
  function ChunkEnd(items: seq<ItemIdCompact>, k: nat): (i: nat)
    requires k < |items|
    ensures k < i <= |items|
    decreases |items| - k
  {
    if k + 1 < |items| && Adjacent(items, k + 1) then ChunkEnd(items, k + 1) else k + 1
  }

  lemma {:induction false} ChunkEndsAt(items: seq<ItemIdCompact>, g: nat, i: nat, k: nat)
    requires g <= k < i <= |items| && Contiguous(items, g, i) && (i < |items| ==> !Adjacent(items, i))
    ensures ChunkEnd(items, k) == i
    decreases i - k
  {
    if k + 1 < i {
      assert Adjacent(items, k + 1);
      ChunkEndsAt(items, g, i, k + 1);
    }
  }

  /** The first `s` items already lie packed against the end of the page. */
  ghost predicate InPlace(items: seq<ItemIdCompact>, special: nat, s: nat)
    requires s <= |items|
  {
    forall k :: 0 <= k < s ==> EndsAtUpper(items, special, k)
  }

  predicate EndsAtUpper(items: seq<ItemIdCompact>, special: nat, k: int)
    requires 0 <= k < |items|
  {
    items[k].End() == Upper(items, special, k)
  }

  /** How many items, from item `i` on, need not move. */
  function Leading(items: seq<ItemIdCompact>, special: nat, i: nat): (s: nat)
    requires i <= |items|
    ensures i <= s <= |items|
    decreases |items| - i
  {
    if i < |items| && EndsAtUpper(items, special, i) then Leading(items, special, i + 1) else i
  }

  lemma {:induction false} LeadingStay(items: seq<ItemIdCompact>, special: nat, i: nat)
    requires i <= |items| && InPlace(items, special, i)
    ensures var s := Leading(items, special, i);
      InPlace(items, special, s) && (s < |items| ==> !EndsAtUpper(items, special, s))
    decreases |items| - i
  {
    if i < |items| && EndsAtUpper(items, special, i) {
      LeadingStay(items, special, i + 1);
    }
  }

  lemma InPlaceStays(items: seq<ItemIdCompact>, special: nat, s: nat, k: nat)
    requires Roomy(items, special) && s <= |items| && InPlace(items, special, s) && k < s
    ensures items[k].itemoff == NewOff(items, special, k)
  {
    assert EndsAtUpper(items, special, k);
    UpperStep(items, special, k);
  }

  /** The items that still have to move lie below those that are in place. */
  lemma {:induction false} OthersBelow(items: seq<ItemIdCompact>, special: nat, s: nat, k: nat)
    requires Roomy(items, special) && Apart(items) && s <= k < |items| && InPlace(items, special, s)
    ensures items[k].End() <= Upper(items, special, s)
    decreases s
  {
    assert items[k].alignedlen > 0 && items[k].End() <= special;
    if s > 0 {
      OthersBelow(items, special, s - 1, k);
      assert EndsAtUpper(items, special, s - 1) && Clear(items, s - 1, k);
      NotAbove(items, special, s, k);
    }
  }

  lemma NotAbove(items: seq<ItemIdCompact>, special: nat, s: nat, k: nat)
    requires Fill(items, |items|) <= special && 0 < s <= k < |items| && Clear(items, s - 1, k)
    requires items[s-1].End() == Upper(items, special, s - 1) && items[k].alignedlen > 0
    requires items[k].End() <= Upper(items, special, s - 1)
    ensures items[k].End() <= Upper(items, special, s)
  {
  }

  lemma DescendingIsStacked(items: seq<ItemIdCompact>, special: nat)
    requires Roomy(items, special) && Apart(items) && Descending(items)
    ensures Stacked(items)
  {
    forall k | 0 < k < |items| ensures Below(items, k) {
      assert Lower(items, k) && Clear(items, k - 1, k);
    }
  }

  // --------------------------------------------------------------- keystream positions

  lemma XorMore(a: bv8, b: bv8, c: bv8)
    ensures (a ^ b) ^ c == a ^ (b ^ c) && a ^ 0 == a && 0 ^ a == a
  {
  }

  /** The XOR of the keystream bytes at page positions `ks`. */
  function XorKeys(key: PageKey, ks: seq<nat>): bv8 {
    if ks == [] then 0 else XorKeys(key, ks[..|ks|-1]) ^ key(ks[|ks|-1])
  }

  lemma {:induction false} XorKeysOfConcat(key: PageKey, ks: seq<nat>, ls: seq<nat>)
    ensures XorKeys(key, ks + ls) == XorKeys(key, ks) ^ XorKeys(key, ls)
  {
    if ls == [] {
      assert ks + ls == ks;
      XorMore(XorKeys(key, ks), 0, 0);
    } else {
      var init, last := ls[..|ls|-1], ls[|ls|-1];
      assert (ks + ls)[..|ks + ls|-1] == ks + init && (ks + ls)[|ks + ls|-1] == last;
      XorKeysOfConcat(key, ks, init);
      XorMore(XorKeys(key, ks), XorKeys(key, init), key(last));
    }
  }

  /** Re-encrypting item `m` reads and writes the byte at `pos`. */
  predicate Touches(items: seq<ItemIdCompact>, m: nat, pos: int)
    requires m < |items|
  {
    HEADER_SIZE <= pos - items[m].itemoff < RecryptLen(items, m)
  }

  /** It does, and the item moves, so that the byte may change. */
  predicate Reaches(items: seq<ItemIdCompact>, special: nat, m: nat, pos: int)
    requires m < |items|
  {
    items[m].itemoff != NewOff(items, special, m) && Touches(items, m, pos)
  }

  /** The keystream positions it brings in there. */
  function ItemKeys(items: seq<ItemIdCompact>, special: nat, m: nat, pos: int): seq<nat>
    requires m < |items|
  {
    if Reaches(items, special, m, pos)
    then [items[m].itemoff + (pos - items[m].itemoff - HEADER_SIZE),
          NewOff(items, special, m) + (pos - items[m].itemoff - HEADER_SIZE)]
    else []
  }

  predicate EndsWithin(items: seq<ItemIdCompact>, m: nat, size: nat)
    requires m < |items|
  {
    items[m].itemoff + RecryptLen(items, m) <= size
  }

  function RekeyKeys(items: seq<ItemIdCompact>, special: nat, a: nat, b: nat, pos: int): seq<nat>
    requires b <= |items|
  {
    if a >= b then [] else RekeyKeys(items, special, a, b - 1, pos) + ItemKeys(items, special, b - 1, pos)
  }

  lemma XorKeysOfTwo(key: PageKey, p: nat, q: nat)
    ensures XorKeys(key, [p, q]) == key(p) ^ key(q)
  {
    assert [p, q][..1] == [p] && [p][..0] == [];
    assert XorKeys(key, [p]) == 0 ^ key(p);
    XorMore(key(p), 0, 0);
  }

  lemma ItemMaskIsKeys(key: PageKey, items: seq<ItemIdCompact>, special: nat, m: nat, pos: int)
    requires m < |items|
    ensures Mask(key, items[m].itemoff, NewOff(items, special, m), RecryptLen(items, m), pos - items[m].itemoff) ==
      XorKeys(key, ItemKeys(items, special, m, pos))
  {
    var from, to, j := items[m].itemoff, NewOff(items, special, m), pos - items[m].itemoff;
    if HEADER_SIZE <= j < RecryptLen(items, m) {
      var p, q := from + (j - HEADER_SIZE), to + (j - HEADER_SIZE);
      if from == to {
        XorSelf(key(p));
      } else {
        assert ItemKeys(items, special, m, pos) == [p, q];
        XorKeysOfTwo(key, p, q);
      }
    }
  }

  lemma XorSelf(a: bv8)
    ensures a ^ a == 0
  {
  }

  // --------------------------------------------------------------- what compaction comes to

  /** In place; through a scratch copy made tuple by tuple; or through one of the whole part that moves. */
  datatype Path = Presorted | TupleByTuple | AllAtOnce

  function PathOf(presorted: bool, nitems: nat, maxoff: nat): Path {
    if presorted then Presorted else if nitems < maxoff / 4 then TupleByTuple else AllAtOnce
  }

  /** The first item that the loop looks at. */
  function FirstMoved(items: seq<ItemIdCompact>, special: nat, path: Path): (s: nat)
    ensures s <= |items|
  {
    if path.TupleByTuple? then 0 else Leading(items, special, 0)
  }

  /** The items of a page, pd_special and the way that is taken. */
  datatype Layout = Layout(items: seq<ItemIdCompact>, special: nat, path: Path)
  {
    /** The first item that the loop looks at. */
    function First(): (s: nat)
      ensures s <= |items|
    {
      FirstMoved(items, special, path)
    }

    ghost predicate Valid() {
      Roomy(items, special) && Apart(items) && (path.Presorted? ==> Stacked(items)) && InPlace(items, special, First())
    }

    /** Re-encryption stays within a buffer of `size` bytes. */
    predicate StaysWithin(size: nat) {
      forall m :: First() <= m < |items| ==> EndsWithin(items, m, size)
    }

    /** Positions that re-encrypting items a..b-1 brings into the byte at `pos` of the page; none unless
        that is done in place. */
    function LaterKeys(a: nat, b: nat, pos: int): seq<nat>
      requires b <= |items|
    {
      if path.Presorted? then RekeyKeys(items, special, a, b, pos) else []
    }

    /** Positions brought into byte `x` of item `k` once items up to `r` are re-encrypted: at its old place
        until its chunk is moved, and at its new place, if that is in the same buffer, from then on. */
    function MovedKeys(r: nat, k: nat, x: nat): seq<nat>
      requires k < |items| && r <= |items|
    {
      RekeyKeys(items, special, First(), ChunkEnd(items, k), items[k].itemoff + x)
        + LaterKeys(ChunkEnd(items, k), r, NewOff(items, special, k) + x)
    }

    /** Positions brought into byte `x` of item `k` by the time compaction is done. */
    function ChangeKeys(k: nat, x: nat): seq<nat>
      requires k < |items|
    {
      if k < First() then LaterKeys(First(), |items|, items[k].itemoff + x) else MovedKeys(|items|, k, x)
    }
  }

  /** A byte with the keystream at a list of positions applied to it. */
  type Apply = (bv8, seq<nat>) -> bv8

  function XorWith(key: PageKey): Apply {
    (b: bv8, ks: seq<nat>) => b ^ XorKeys(key, ks)
  }

  predicate Joined(ks: seq<nat>, ls: seq<nat>, all: seq<nat>) {
    all == ks + ls
  }

  /** One call: how keystream positions change a byte, and the layout of the page. */
  datatype Job = Job(apply: Apply, lay: Layout)
  {
    /** The keystream is that of block `bn` under `e`. */
    ghost predicate IsFor(e: Cipher, bn: nat) {
      IsBlockCipher(e) && this == JobFor(e, bn, lay)
    }

    /** All that the loop relies on: no positions change nothing, and positions add up. */
    ghost predicate Neutral() {
      forall b: bv8 :: apply(b, []) == b
    }

    ghost predicate Additive() {
      forall b: bv8, ks: seq<nat>, ls: seq<nat>, all: seq<nat> {:trigger Joined(ks, ls, all), apply(b, ks)} ::
        Joined(ks, ls, all) ==> apply(apply(b, ks), ls) == apply(b, all)
    }

    /** Item `r` is re-encrypted in the buffer. */
    ghost predicate Rekeys(was: Bytes, now: Bytes, r: nat)
      requires r < |lay.items|
    {
      |now| == |was| && forall y :: 0 <= y < |now| ==> now[y] == apply(was[y], ItemKeys(lay.items, lay.special, r, y))
    }

    /** Byte `x` of the slot of item `k` when compaction is done, given the page before. */
    function NewByte(was: Bytes, k: nat, x: nat): bv8
      requires k < |lay.items| && lay.items[k].itemoff + x < |was|
    {
      apply(was[lay.items[k].itemoff + x], lay.ChangeKeys(k, x))
    }
  }

  function JobFor(e: Cipher, bn: nat, lay: Layout): Job
    requires IsBlockCipher(e)
  {
    Job(XorWith(KeyOfPage(e, bn)), lay)
  }

  lemma XorIsAdditive(job: Job, e: Cipher, bn: nat)
    requires job.IsFor(e, bn)
    ensures job.Additive()
  {
    var key := KeyOfPage(e, bn);
    forall b: bv8, ks: seq<nat>, ls: seq<nat>, all: seq<nat> | Joined(ks, ls, all)
      ensures job.apply(job.apply(b, ks), ls) == job.apply(b, all)
    {
      XorKeysOfConcat(key, ks, ls);
      XorMore(b, XorKeys(key, ks), XorKeys(key, ls));
    }
  }

  lemma XorIsNeutral(job: Job, e: Cipher, bn: nat)
    requires job.IsFor(e, bn)
    ensures job.Neutral()
  {
    forall b: bv8 ensures job.apply(b, []) == b {
      XorMore(b, 0, 0);
    }
  }

  /** The slot of item `k` holds what it should. */
  ghost predicate SlotDone(job: Job, was: Bytes, now: Bytes, k: nat)
    requires k < |job.lay.items| && job.lay.items[k].End() <= |was|
  {
    && NewOff(job.lay.items, job.lay.special, k) + job.lay.items[k].alignedlen <= |now|
    && forall x :: 0 <= x < job.lay.items[k].alignedlen ==> ByteDone(job, was, now, k, x)
  }

  ghost predicate ByteDone(job: Job, was: Bytes, now: Bytes, k: nat, x: nat)
    requires k < |job.lay.items| && job.lay.items[k].itemoff + x < |was|
    requires NewOff(job.lay.items, job.lay.special, k) + x < |now|
  {
    now[NewOff(job.lay.items, job.lay.special, k) + x] == job.NewByte(was, k, x)
  }

  /** The page after compaction: every slot, and what lies behind the tuples. */
  ghost predicate PageDone(job: Job, was: Bytes, now: Bytes)
    requires job.lay.Valid()
  {
    && BLCKSZ <= |was| == |now|
    && (forall k :: 0 <= k < |job.lay.items| ==> SlotDone(job, was, now, k))
    && forall y :: job.lay.special <= y < |now| ==>
         now[y] == job.apply(was[y], job.lay.LaterKeys(job.lay.First(), |job.lay.items|, y))
  }

  // --------------------------------------------------------------- the state of the loop

  /** What is still to be moved: re-encrypted up to item `r`, and not overwritten. */
  ghost predicate SourceKept(job: Job, src0: Bytes, src: Bytes, g: nat, r: nat)
    requires job.lay.Valid() && g <= |job.lay.items| && r <= |job.lay.items|
  {
    |src| == |src0| && forall y ::
      0 <= y < |src| && (job.lay.path.Presorted? ==> y < Upper(job.lay.items, job.lay.special, g)) ==>
      src[y] == job.apply(src0[y], RekeyKeys(job.lay.items, job.lay.special, job.lay.First(), r, y))
  }

  /** What was at the end of the page from the start. */
  ghost predicate RestKept(job: Job, dst0: Bytes, dst: Bytes, r: nat)
    requires job.lay.Valid() && r <= |job.lay.items|
  {
    |dst| == |dst0| && forall y :: Upper(job.lay.items, job.lay.special, job.lay.First()) <= y < |dst| ==>
      dst[y] == job.apply(dst0[y], job.lay.LaterKeys(job.lay.First(), r, y))
  }

  /** Item `k` has been moved, with its chunk. */
  ghost predicate Moved(job: Job, src0: Bytes, dst: Bytes, g: nat, r: nat, k: nat)
    requires job.lay.Valid() && k < |job.lay.items| && r <= |job.lay.items|
  {
    && ChunkEnd(job.lay.items, k) <= g && BLCKSZ <= |src0| && BLCKSZ <= |dst|
    && MovedTo(job, src0, dst, r, k)
  }

  ghost predicate MovedTo(job: Job, src0: Bytes, dst: Bytes, r: nat, k: nat)
    requires job.lay.Valid() && k < |job.lay.items| && r <= |job.lay.items| && BLCKSZ <= |src0|
  {
    NewOff(job.lay.items, job.lay.special, k) + job.lay.items[k].alignedlen <= |dst| &&
    forall x :: 0 <= x < job.lay.items[k].alignedlen ==> ByteMoved(job, src0, dst, r, k, x)
  }

  ghost predicate ByteMoved(job: Job, src0: Bytes, dst: Bytes, r: nat, k: nat, x: nat)
    requires k < |job.lay.items| && r <= |job.lay.items| &&
      job.lay.items[k].itemoff + x < |src0|
    requires NewOff(job.lay.items, job.lay.special, k) + x < |dst|
  {
    dst[NewOff(job.lay.items, job.lay.special, k) + x] ==
      job.apply(src0[job.lay.items[k].itemoff + x], job.lay.MovedKeys(r, k, x))
  }

  /** Items up to g are moved and items up to r re-encrypted. */
  ghost predicate Progress(job: Job, src0: Bytes, dst0: Bytes, src: Bytes, dst: Bytes, g: nat, r: nat)
    requires job.lay.Valid() && g <= |job.lay.items| && r <= |job.lay.items|
  {
    && SourceKept(job, src0, src, g, r) && RestKept(job, dst0, dst, r)
    && forall k :: job.lay.First() <= k < g ==> Moved(job, src0, dst, g, r, k)
  }

  /** The buffers that are in that state, for methods that do not look into them. */
  ghost function States(job: Job, src0: Bytes, dst0: Bytes, g: nat, r: nat): iset<(Bytes, Bytes)>
    requires job.lay.Valid() && g <= |job.lay.items| && r <= |job.lay.items|
  {
    iset src: Bytes, dst: Bytes | Progress(job, src0, dst0, src, dst, g, r) :: (src, dst)
  }

  /** Re-encrypting item `r` on top of what has been applied to a byte. */
  lemma RekeyedByte(job: Job, b: bv8, was: bv8, now: bv8, ks: seq<nat>, r: nat, pos: int, all: seq<nat>)
    requires job.Additive() && r < |job.lay.items|
    requires Joined(ks, ItemKeys(job.lay.items, job.lay.special, r, pos), all)
    requires was == job.apply(b, ks) && now == job.apply(was, ItemKeys(job.lay.items, job.lay.special, r, pos))
    ensures now == job.apply(b, all)
  {
  }

  /** Re-encrypting item `r` takes what is still to be moved one step further. */
  lemma RekeyedSource(job: Job, src0: Bytes, src: Bytes, now: Bytes, g: nat, r: nat)
    requires job.lay.Valid() && g <= |job.lay.items| && job.lay.First() <= r < |job.lay.items| &&
      SourceKept(job, src0, src, g, r)
    requires job.Additive() && job.Rekeys(src, now, r)
    ensures SourceKept(job, src0, now, g, r + 1)
  {
    forall y | 0 <= y < |now| && (job.lay.path.Presorted? ==> y < Upper(job.lay.items, job.lay.special, g))
      ensures now[y] == job.apply(src0[y], RekeyKeys(job.lay.items, job.lay.special, job.lay.First(), r + 1, y))
    {
      RekeyedByte(job, src0[y], src[y], now[y], RekeyKeys(job.lay.items, job.lay.special, job.lay.First(), r, y), r, y,
                  RekeyKeys(job.lay.items, job.lay.special, job.lay.First(), r + 1, y));
    }
  }

  lemma RekeyedRest(job: Job, dst0: Bytes, dst: Bytes, now: Bytes, r: nat)
    requires job.lay.Valid() && job.lay.path.Presorted? && job.lay.First() <= r < |job.lay.items| &&
      RestKept(job, dst0, dst, r)
    requires job.Additive() && job.Rekeys(dst, now, r)
    ensures RestKept(job, dst0, now, r + 1)
  {
    forall y | Upper(job.lay.items, job.lay.special, job.lay.First()) <= y < |now|
      ensures now[y] == job.apply(dst0[y], job.lay.LaterKeys(job.lay.First(), r + 1, y))
    {
      RekeyedByte(job, dst0[y], dst[y], now[y], job.lay.LaterKeys(job.lay.First(), r, y), r, y,
                  job.lay.LaterKeys(job.lay.First(), r + 1, y));
    }
  }

  lemma MovedMore(lay: Layout, r: nat, k: nat, x: nat, to: nat)
    requires lay.path.Presorted? && k < |lay.items| && ChunkEnd(lay.items, k) <= r < |lay.items|
    requires to == NewOff(lay.items, lay.special, k) + x
    ensures Joined(lay.MovedKeys(r, k, x), ItemKeys(lay.items, lay.special, r, to), lay.MovedKeys(r + 1, k, x))
  {
  }

  lemma RekeyedMovedByte(job: Job, src0: Bytes, dst: Bytes, now: Bytes, r: nat, k: nat, x: nat, at: nat, to: nat)
    requires job.Additive() && job.lay.path.Presorted? && k < |job.lay.items|
    requires ChunkEnd(job.lay.items, k) <= r < |job.lay.items|
    requires at == job.lay.items[k].itemoff + x < |src0|
    requires to == NewOff(job.lay.items, job.lay.special, k) + x < |dst| == |now|
    requires ByteMoved(job, src0, dst, r, k, x)
    requires now[to] == job.apply(dst[to], ItemKeys(job.lay.items, job.lay.special, r, to))
    ensures ByteMoved(job, src0, now, r + 1, k, x)
  {
    MovedMore(job.lay, r, k, x, to);
    RekeyedByte(job, src0[at], dst[to], now[to], job.lay.MovedKeys(r, k, x), r, to, job.lay.MovedKeys(r + 1, k, x));
  }

  lemma RekeyedMoved(job: Job, src0: Bytes, dst: Bytes, now: Bytes, g: nat, r: nat, k: nat)
    requires job.lay.Valid() && job.lay.path.Presorted? && k < |job.lay.items| && g <= r < |job.lay.items| &&
      Moved(job, src0, dst, g, r, k)
    requires job.Additive() && job.Rekeys(dst, now, r)
    ensures Moved(job, src0, now, g, r + 1, k)
  {
    var r', at, to := r + 1, job.lay.items[k].itemoff, NewOff(job.lay.items, job.lay.special, k);
    forall x | 0 <= x < job.lay.items[k].alignedlen ensures ByteMoved(job, src0, now, r', k, x) {
      assert ByteMoved(job, src0, dst, r, k, x);
      RekeyedMovedByte(job, src0, dst, now, r, k, x, at + x, to + x);
    }
  }

  /** Re-encrypt item i-1, the last one seen, for the place it will move to. */
  method RekeyPending(e: Cipher, bn: nat, job: Job, src: array<bv8>, dst: array<bv8>, copyHead: nat, upper: nat,
                      reclen: nat, ghost src0: Bytes, ghost dst0: Bytes, ghost g: nat, ghost i: nat)
    requires job.IsFor(e, bn)
    requires job.lay.Valid() && (src == dst <==> job.lay.path.Presorted?)
    requires job.lay.StaysWithin(src.Length) && job.lay.First() <= g < i <= |job.lay.items|
    requires copyHead == job.lay.items[i-1].itemoff && upper == Upper(job.lay.items, job.lay.special, i)
    requires reclen == RecryptLen(job.lay.items, i - 1)
    requires (src[..], dst[..]) in States(job, src0, dst0, g, i - 1)
    modifies src
    ensures (src[..], dst[..]) in States(job, src0, dst0, g, i)
  {
    ghost var was, to := src[..], dst[..];
    assert EndsWithin(job.lay.items, i - 1, src.Length);
    RekeyItem(e, bn, src, copyHead, upper, reclen);
    PendingRekeyed(e, bn, job, src0, dst0, was, to, src[..], dst[..], g, i, copyHead, upper, reclen);
  }

  lemma PendingRekeyed(e: Cipher, bn: nat, job: Job, src0: Bytes, dst0: Bytes, src: Bytes, dst: Bytes, src': Bytes,
                       dst': Bytes, g: nat, i: nat, at: nat, to: nat, reclen: nat)
    requires job.IsFor(e, bn) && job.lay.Valid() && job.lay.First() <= g < i <= |job.lay.items|
    requires at == job.lay.items[i-1].itemoff && to == Upper(job.lay.items, job.lay.special, i)
    requires reclen == RecryptLen(job.lay.items, i - 1)
    requires (src, dst) in States(job, src0, dst0, g, i - 1) && Masked(KeyOfPage(e, bn), src, src', at, to, reclen)
    requires if job.lay.path.Presorted? then src == dst && src' == dst' else dst' == dst
    ensures (src', dst') in States(job, src0, dst0, g, i)
  {
    XorIsAdditive(job, e, bn);
    MaskedIsRekeyed(e, bn, job, src, src', i - 1);
    RekeyedProgress(job, src0, dst0, src, dst, src', dst', g, i - 1);
  }

  lemma MaskedIsRekeyed(e: Cipher, bn: nat, job: Job, was: Bytes, now: Bytes, r: nat)
    requires job.IsFor(e, bn) && r < |job.lay.items|
    requires Masked(KeyOfPage(e, bn), was, now, job.lay.items[r].itemoff, NewOff(job.lay.items, job.lay.special, r),
                    RecryptLen(job.lay.items, r))
    ensures job.Rekeys(was, now, r)
  {
    var key := KeyOfPage(e, bn);
    forall y | 0 <= y < |now|
      ensures now[y] == job.apply(was[y], ItemKeys(job.lay.items, job.lay.special, r, y))
    {
      ItemMaskIsKeys(key, job.lay.items, job.lay.special, r, y);
    }
  }

  lemma RekeyedProgress(job: Job, src0: Bytes, dst0: Bytes, src: Bytes, dst: Bytes, src': Bytes, dst': Bytes, g: nat,
                        r: nat)
    requires job.lay.Valid() && job.lay.First() <= g <= r < |job.lay.items| &&
      (src, dst) in States(job, src0, dst0, g, r)
    requires job.Additive() && job.Rekeys(src, src', r)
    requires if job.lay.path.Presorted? then src == dst && src' == dst' else dst' == dst
    ensures (src', dst') in States(job, src0, dst0, g, r + 1)
  {
    RekeyedSource(job, src0, src, src', g, r);
    RekeyedTarget(job, src0, dst0, dst, dst', g, r, r + 1);
  }

  lemma RekeyedTarget(job: Job, src0: Bytes, dst0: Bytes, dst: Bytes, dst': Bytes, g: nat, r: nat, r': nat)
    requires r' == r + 1 && job.lay.Valid() && job.lay.First() <= g <= r < |job.lay.items| &&
      RestKept(job, dst0, dst, r)
    requires forall k :: job.lay.First() <= k < g ==> Moved(job, src0, dst, g, r, k)
    requires job.Additive() && if job.lay.path.Presorted? then job.Rekeys(dst, dst', r) else dst' == dst
    ensures RestKept(job, dst0, dst', r')
    ensures forall k :: job.lay.First() <= k < g ==> Moved(job, src0, dst', g, r', k)
  {
    if job.lay.path.Presorted? {
      RekeyedRest(job, dst0, dst, dst', r);
    }
    forall k | job.lay.First() <= k < g ensures Moved(job, src0, dst', g, r', k) {
      if job.lay.path.Presorted? {
        RekeyedMoved(job, src0, dst, dst', g, r, k);
      } else {
        NotRekeyed(job, src0, dst, g, r, k);
      }
    }
  }

  /** Through a scratch copy, what has been moved is out of reach. */
  lemma NotRekeyed(job: Job, src0: Bytes, dst: Bytes, g: nat, r: nat, k: nat)
    requires job.lay.Valid() && !job.lay.path.Presorted? && k < |job.lay.items| && r < |job.lay.items|
    requires Moved(job, src0, dst, g, r, k)
    ensures Moved(job, src0, dst, g, r + 1, k)
  {
    var r' := r + 1;
    forall x | 0 <= x < job.lay.items[k].alignedlen ensures ByteMoved(job, src0, dst, r', k, x) {
      assert ByteMoved(job, src0, dst, r, k, x);
    }
  }

  /** A chunk has been moved: where it was is as before, where it is holds what was there. */
  ghost predicate ChunkMoved(job: Job, src: Bytes, dst: Bytes, now: Bytes, g: nat, i: nat)
    requires g < i <= |job.lay.items|
  {
    var head := job.lay.items[i-1].itemoff;
    head <= job.lay.items[g].End() &&
    BytesMoved(src, head, dst, Upper(job.lay.items, job.lay.special, i), job.lay.items[g].End() - head, now)
  }

  lemma FlushedByte(job: Job, src0: Bytes, now: Bytes, b: bv8, i: nat, k: nat, x: nat)
    requires k < i <= |job.lay.items| && ChunkEnd(job.lay.items, k) == i
    requires job.lay.items[k].itemoff + x < |src0| && NewOff(job.lay.items, job.lay.special, k) + x < |now|
    requires now[NewOff(job.lay.items, job.lay.special, k) + x] == b
    requires var at := job.lay.items[k].itemoff + x;
      b == job.apply(src0[at], RekeyKeys(job.lay.items, job.lay.special, job.lay.First(), i, at))
    ensures ByteMoved(job, src0, now, i, k, x)
  {
    assert job.lay.MovedKeys(i, k, x) ==
      RekeyKeys(job.lay.items, job.lay.special, job.lay.First(), i, job.lay.items[k].itemoff + x);
  }

  /** Where the items of the pending chunk lie, and where they go. */
  lemma ChunkSlot(job: Job, g: nat, i: nat, k: nat)
    requires job.lay.Valid() && job.lay.First() <= g <= k < i <= |job.lay.items|
    requires Contiguous(job.lay.items, g, i) && (i < |job.lay.items| ==> !Adjacent(job.lay.items, i))
    ensures ChunkEnd(job.lay.items, k) == i
    ensures NewOff(job.lay.items, job.lay.special, k) - Upper(job.lay.items, job.lay.special, i) ==
      job.lay.items[k].itemoff - job.lay.items[i-1].itemoff >= 0
    ensures job.lay.items[k].End() <= job.lay.items[g].End()
    ensures NewOff(job.lay.items, job.lay.special, k) + job.lay.items[k].alignedlen ==
      Upper(job.lay.items, job.lay.special, k) <= job.lay.special
    ensures job.lay.path.Presorted? ==> job.lay.items[g].End() <= Upper(job.lay.items, job.lay.special, g)
  {
    ChunkEndsAt(job.lay.items, g, i, k);
    ChunkGeometry(job.lay.items, job.lay.special, g, i, k);
    ChunkOrder(job.lay.items, g, i, k);
    UpperStep(job.lay.items, job.lay.special, k);
    if job.lay.path.Presorted? {
      PresortedMovesUp(job.lay.items, job.lay.special, g);
    }
  }

  lemma FlushedItem(job: Job, src0: Bytes, src: Bytes, dst: Bytes, now: Bytes, g: nat, i: nat, k: nat)
    requires job.lay.Valid() && job.lay.First() <= g <= k < i <= |job.lay.items| && BLCKSZ <= |src0|
    requires Contiguous(job.lay.items, g, i) && (i < |job.lay.items| ==> !Adjacent(job.lay.items, i))
    requires SourceKept(job, src0, src, g, i) && ChunkMoved(job, src, dst, now, g, i) && BLCKSZ <= |now|
    ensures Moved(job, src0, now, i, i, k)
  {
    ChunkSlot(job, g, i, k);
    var at, to := job.lay.items[k].itemoff, NewOff(job.lay.items, job.lay.special, k);
    forall x | 0 <= x < job.lay.items[k].alignedlen ensures ByteMoved(job, src0, now, i, k, x) {
      assert now[to + x] == src[at + x];
      FlushedByte(job, src0, now, src[at + x], i, k, x);
    }
  }

  lemma FlushSparesMoved(job: Job, src0: Bytes, src: Bytes, dst: Bytes, now: Bytes, g: nat, i: nat, k: nat)
    requires job.lay.Valid() && k < g < i <= |job.lay.items| && Contiguous(job.lay.items, g, i)
    requires ChunkMoved(job, src, dst, now, g, i) && Moved(job, src0, dst, g, i, k)
    ensures Moved(job, src0, now, i, i, k)
  {
    ChunkGeometry(job.lay.items, job.lay.special, g, i, g);
    PlacedBelow(job.lay.items, job.lay.special, g, k);
    forall x | 0 <= x < job.lay.items[k].alignedlen ensures ByteMoved(job, src0, now, i, k, x) {
      assert ByteMoved(job, src0, dst, i, k, x);
      assert now[NewOff(job.lay.items, job.lay.special, k) + x] == dst[NewOff(job.lay.items, job.lay.special, k) + x];
    }
  }

  lemma UpperFalls(items: seq<ItemIdCompact>, special: nat, i: nat, j: nat)
    requires i <= j <= |items|
    ensures Upper(items, special, j) <= Upper(items, special, i)
  {
    FillGrows(items, i, j);
  }

  lemma FlushedProgress(job: Job, src0: Bytes, dst0: Bytes, src: Bytes, dst: Bytes, src': Bytes, dst': Bytes, g: nat,
                        i: nat)
    requires job.lay.Valid() && job.lay.First() <= g < i <= |job.lay.items| && BLCKSZ <= |src0| && BLCKSZ <= |dst|
    requires Contiguous(job.lay.items, g, i) && (i < |job.lay.items| ==> !Adjacent(job.lay.items, i))
    requires (src, dst) in States(job, src0, dst0, g, i) && ChunkMoved(job, src, dst, dst', g, i)
    requires if job.lay.path.Presorted? then src == dst && src' == dst' else src' == src
    ensures (src', dst') in States(job, src0, dst0, i, i)
  {
    ChunkGeometry(job.lay.items, job.lay.special, g, i, g);
    UpperFalls(job.lay.items, job.lay.special, job.lay.First(), g);
    forall k | job.lay.First() <= k < i ensures Moved(job, src0, dst', i, i, k) {
      if k < g {
        assert Moved(job, src0, dst, g, i, k);
        FlushSparesMoved(job, src0, src, dst, dst', g, i, k);
      } else {
        FlushedItem(job, src0, src, dst, dst', g, i, k);
      }
    }
  }

  /** Move the pending chunk g..i-1. */
  method FlushChunk(job: Job, src: array<bv8>, dst: array<bv8>, copyHead: nat, copyTail: nat, upper: nat,
                    ghost src0: Bytes, ghost dst0: Bytes, ghost g: nat, ghost i: nat)
    requires job.lay.Valid() && (src == dst <==> job.lay.path.Presorted?) && BLCKSZ <= src.Length &&
      BLCKSZ <= dst.Length
    requires job.lay.First() <= g < i <= |job.lay.items|
    requires Contiguous(job.lay.items, g, i) && (i < |job.lay.items| ==> !Adjacent(job.lay.items, i))
    requires upper == Upper(job.lay.items, job.lay.special, i)
    requires copyHead == job.lay.items[i-1].itemoff && copyTail == job.lay.items[g].End()
    requires (src[..], dst[..]) in States(job, src0, dst0, g, i)
    modifies dst
    ensures (src[..], dst[..]) in States(job, src0, dst0, i, i)
  {
    ghost var from, was := src[..], dst[..];
    ChunkGeometry(job.lay.items, job.lay.special, g, i, g);
    MoveBytes(src, copyHead, dst, upper, copyTail - copyHead);
    FlushedProgress(job, src0, dst0, from, was, src[..], dst[..], g, i);
  }

  // --------------------------------------------------------------- one iteration

  /** Where the loop is before it looks at item `i`: items up to g are moved, items g..i-1 form
      the chunk that waits to be moved, and only its last one is not re-encrypted yet. */
  ghost predicate AtItem(job: Job, src0: Bytes, dst0: Bytes, src: Bytes, dst: Bytes, g: nat, i: nat, copyHead: nat,
                         copyTail: nat, upper: nat)
    requires job.lay.Valid()
  {
    var items, s := job.lay.items, job.lay.First();
    && s <= g <= i <= |items| && upper == Upper(items, job.lay.special, i)
    && (i == s ==> g == s && copyHead == copyTail && (s < |items| ==> copyHead == items[s].End()))
    && (i > s ==> g < i && copyHead == items[i-1].itemoff && copyTail == items[g].End())
    && Contiguous(items, g, i)
    && (src, dst) in States(job, src0, dst0, g, if i > s then i - 1 else i)
  }

  /** The body of the compaction loop up to the line pointer update. */
  method CompactItem(e: Cipher, bn: nat, job: Job, src: array<bv8>, dst: array<bv8>, i: nat, head: nat, tail: nat,
                     upper: nat, ghost src0: Bytes, ghost dst0: Bytes, ghost g0: nat)
    returns (copyTail: nat, ghost g: nat)
    requires job.IsFor(e, bn)
    requires job.lay.Valid() && (src == dst <==> job.lay.path.Presorted?)
    requires BLCKSZ <= src.Length && BLCKSZ <= dst.Length && job.lay.StaysWithin(src.Length)
    requires i < |job.lay.items| && AtItem(job, src0, dst0, src[..], dst[..], g0, i, head, tail, upper)
    modifies src, dst
    ensures job.lay.First() <= g <= i && copyTail == job.lay.items[g].End() && Contiguous(job.lay.items, g, i + 1)
    ensures (src[..], dst[..]) in States(job, src0, dst0, g, i)
  {
    copyTail := tail;
    g := g0;
    HeadBelowTail(job.lay.items, job.lay.special, job.lay.First(), g, i);
    if head < copyTail {
      RekeyPending(e, bn, job, src, dst, head, upper, job.lay.items[i].len, src0, dst0, g, i);
    }
    // The presorted loop adds `copy_head < copy_tail` here, which a gap implies.
    if head != job.lay.items[i].End() {
      FlushChunk(job, src, dst, head, copyTail, upper, src0, dst0, g, i);
      copyTail := job.lay.items[i].End();
      g := i;
    }
    ExtendChunk(job.lay.items, g, i);
  }

  /** The line pointers of the first `i` items name their new places; the others are as they were. */
  ghost predicate Repointed(items: seq<ItemIdCompact>, special: nat, was: seq<nat>, now: seq<nat>, i: nat)
    requires i <= |items| && forall k :: 0 <= k < |items| ==> items[k].offsetindex < |was|
  {
    && |now| == |was|
    && (forall k :: 0 <= k < i ==> now[items[k].offsetindex] == NewOff(items, special, k))
    && (forall x :: 0 <= x < |was| && (forall k :: 0 <= k < i ==> items[k].offsetindex != x) ==> now[x] == was[x])
  }

  lemma RepointOne(items: seq<ItemIdCompact>, special: nat, was: seq<nat>, now: seq<nat>, i: nat)
    requires i < |items| && forall k :: 0 <= k < |items| ==> items[k].offsetindex < |was|
    requires forall k :: 0 <= k < i ==> items[k].offsetindex != items[i].offsetindex
    requires Repointed(items, special, was, now, i)
    ensures Repointed(items, special, was, now[items[i].offsetindex := NewOff(items, special, i)], i + 1)
  {
  }

  method Repoint(lpOff: array<nat>, items: seq<ItemIdCompact>, special: nat, i: nat, upper: nat, ghost was: seq<nat>)
    requires i < |items| && upper == NewOff(items, special, i)
    requires forall k :: 0 <= k < |items| ==> items[k].offsetindex < |was|
    requires forall k :: 0 <= k < i ==> items[k].offsetindex != items[i].offsetindex
    requires Repointed(items, special, was, lpOff[..], i)
    modifies lpOff
    ensures Repointed(items, special, was, lpOff[..], i + 1)
  {
    RepointOne(items, special, was, lpOff[..], i);
    lpOff[items[i].offsetindex] := upper;
  }

  lemma OwnLinePointers(job: Job)
    requires job.lay.Valid()
    ensures forall j, k :: 0 <= j < k < |job.lay.items| ==> job.lay.items[j].offsetindex != job.lay.items[k].offsetindex
  {
    forall j, k | 0 <= j < k < |job.lay.items| ensures job.lay.items[j].offsetindex != job.lay.items[k].offsetindex {
      assert Clear(job.lay.items, j, k);
    }
  }

  /** One whole iteration. */
  method CompactStep(e: Cipher, bn: nat, job: Job, src: array<bv8>, dst: array<bv8>, lpOff: array<nat>, i: nat,
                     head: nat, tail: nat, upper0: nat, ghost src0: Bytes, ghost dst0: Bytes, ghost g0: nat,
                     ghost was: seq<nat>)
    returns (copyHead: nat, copyTail: nat, upper: nat, ghost g: nat)
    requires lpOff as object != src as object && lpOff as object != dst as object
    requires job.IsFor(e, bn)
    requires job.lay.Valid() && (src == dst <==> job.lay.path.Presorted?)
    requires BLCKSZ <= src.Length && BLCKSZ <= dst.Length && job.lay.StaysWithin(src.Length)
    requires i < |job.lay.items| && AtItem(job, src0, dst0, src[..], dst[..], g0, i, head, tail, upper0)
    requires forall k :: 0 <= k < |job.lay.items| ==> job.lay.items[k].offsetindex < |was|
    requires Repointed(job.lay.items, job.lay.special, was, lpOff[..], i)
    modifies src, dst, lpOff
    ensures AtItem(job, src0, dst0, src[..], dst[..], g, i + 1, copyHead, copyTail, upper)
    ensures Repointed(job.lay.items, job.lay.special, was, lpOff[..], i + 1)
  {
    copyTail, g := CompactItem(e, bn, job, src, dst, i, head, tail, upper0, src0, dst0, g0);
    UpperStep(job.lay.items, job.lay.special, i);
    upper := upper0 - job.lay.items[i].alignedlen;
    copyHead := job.lay.items[i].itemoff;
    OwnLinePointers(job);
    Repoint(lpOff, job.lay.items, job.lay.special, i, upper, was);
  }

  /** After the loop: re-encrypt the last item with its own length and move the last chunk. */
  method CompactLast(e: Cipher, bn: nat, job: Job, src: array<bv8>, dst: array<bv8>, copyHead: nat, copyTail: nat,
                     upper: nat, ghost src0: Bytes, ghost dst0: Bytes, ghost g: nat)
    requires job.IsFor(e, bn)
    requires job.lay.Valid() && (src == dst <==> job.lay.path.Presorted?)
    requires BLCKSZ <= src.Length && BLCKSZ <= dst.Length && job.lay.StaysWithin(src.Length)
    requires |job.lay.items| > 0
    requires AtItem(job, src0, dst0, src[..], dst[..], g, |job.lay.items|, copyHead, copyTail, upper)
    modifies src, dst
    ensures (src[..], dst[..]) in States(job, src0, dst0, |job.lay.items|, |job.lay.items|)
  {
    var n := |job.lay.items|;
    HeadBelowTail(job.lay.items, job.lay.special, job.lay.First(), g, n);
    if copyHead < copyTail {
      RekeyPending(e, bn, job, src, dst, copyHead, upper, job.lay.items[n-1].len, src0, dst0, g, n);
      FlushChunk(job, src, dst, copyHead, copyTail, upper, src0, dst0, g, n);
    }
    // otherwise the remaining chunk is empty and the last memmove moves nothing
  }

  /** Before the loop nothing is re-encrypted and nothing moved. */
  lemma NoProgressYet(job: Job, src: Bytes, dst: Bytes)
    requires job.lay.Valid() && job.Neutral()
    ensures (src, dst) in States(job, src, dst, job.lay.First(), job.lay.First())
  {
  }

  /** The compaction loop and the statements after it.  `src` is the page itself when the items
      are presorted, and a scratch copy of it otherwise. */
  method CompactFrom(e: Cipher, bn: nat, job: Job, src: array<bv8>, dst: array<bv8>, lpOff: array<nat>, s: nat,
                     upper0: nat)
    returns (upper: nat)
    requires lpOff as object != src as object && lpOff as object != dst as object
    requires job.IsFor(e, bn)
    requires job.lay.Valid() && (src == dst <==> job.lay.path.Presorted?)
    requires BLCKSZ <= src.Length && BLCKSZ <= dst.Length && job.lay.StaysWithin(src.Length)
    requires 0 < |job.lay.items| && s == job.lay.First() && upper0 == Upper(job.lay.items, job.lay.special, s)
    requires forall k :: 0 <= k < |job.lay.items| ==> job.lay.items[k].offsetindex < lpOff.Length
    requires Repointed(job.lay.items, job.lay.special, lpOff[..], lpOff[..], s)
    modifies src, dst, lpOff
    ensures upper == Upper(job.lay.items, job.lay.special, |job.lay.items|)
    ensures (src[..], dst[..]) in States(job, old(src[..]), old(dst[..]), |job.lay.items|, |job.lay.items|)
    ensures Repointed(job.lay.items, job.lay.special, old(lpOff[..]), lpOff[..], |job.lay.items|)
  {
    ghost var was, src0, dst0 := lpOff[..], src[..], dst[..];
    upper := upper0;
    var first := if s < |job.lay.items| then s else |job.lay.items| - 1;
    var copyTail := job.lay.items[first].End();
    var copyHead := copyTail;
    ghost var g := s;
    XorIsNeutral(job, e, bn);
    NoProgressYet(job, src0, dst0);
    for i := s to |job.lay.items|
      invariant AtItem(job, src0, dst0, src[..], dst[..], g, i, copyHead, copyTail, upper)
      invariant Repointed(job.lay.items, job.lay.special, was, lpOff[..], i)
    {
      copyHead, copyTail, upper, g :=
        CompactStep(e, bn, job, src, dst, lpOff, i, copyHead, copyTail, upper, src0, dst0, g, was);
    }
    CompactLast(e, bn, job, src, dst, copyHead, copyTail, upper, src0, dst0, g);
  }

  // --------------------------------------------------------------- pgtde_compactify_tuples

  /** Skip the tuples that need not move. */
  method SkipInPlace(items: seq<ItemIdCompact>, special: nat) returns (s: nat, upper: nat)
    requires Roomy(items, special) && 0 < |items|
    ensures s == Leading(items, special, 0) && upper == Upper(items, special, s)
  {
    s, upper := 0, special;
    while s < |items| && upper == items[s].End()
      invariant s <= |items| && upper == Upper(items, special, s) &&
        Leading(items, special, s) == Leading(items, special, 0)
    {
      UpperStep(items, special, s);
      upper := upper - items[s].alignedlen;
      s := s + 1;
    }
  }

  /** The slots of items from `s` on hold what they held on the page. */
  ghost predicate Copied(items: seq<ItemIdCompact>, page: Bytes, scratch: Bytes, s: nat) {
    forall k :: s <= k < |items| ==> SlotCopied(items[k], page, scratch)
  }

  ghost predicate SlotCopied(item: ItemIdCompact, page: Bytes, scratch: Bytes) {
    item.End() <= |page| && item.End() <= |scratch| && forall x :: item.itemoff <= x < item.End() ==>
      scratch[x] == page[x]
  }

  /** Copy every tuple into the scratch buffer, each to its own offset. */
  method CopyEach(page: array<bv8>, scratch: array<bv8>, items: seq<ItemIdCompact>, special: nat)
    requires Roomy(items, special) && page != scratch && BLCKSZ <= page.Length && BLCKSZ <= scratch.Length
    modifies scratch
    ensures Copied(items, page[..], scratch[..], 0)
  {
    ghost var was := page[..];
    for i := 0 to |items|
      invariant forall k :: 0 <= k < i ==> SlotCopied(items[k], was, scratch[..])
    {
      ghost var before := scratch[..];
      MoveBytes(page, items[i].itemoff, scratch, items[i].itemoff, items[i].alignedlen);
      forall k | 0 <= k < i ensures SlotCopied(items[k], was, scratch[..]) {
        assert SlotCopied(items[k], was, before);
      }
    }
  }

  /** Copy the part of the page that holds the tuples that have to move. */
  method CopyRest(page: array<bv8>, scratch: array<bv8>, items: seq<ItemIdCompact>, special: nat, s: nat, pdUpper: nat,
                  upper: nat)
    requires Roomy(items, special) && Apart(items) && page != scratch && BLCKSZ <= page.Length &&
      BLCKSZ <= scratch.Length
    requires s <= |items| && upper == Upper(items, special, s) && InPlace(items, special, s)
    requires forall k :: 0 <= k < |items| ==> pdUpper <= items[k].itemoff
    modifies scratch
    ensures Copied(items, page[..], scratch[..], s)
  {
    if pdUpper < upper {
      MoveBytes(page, pdUpper, scratch, pdUpper, upper - pdUpper);
    }
    forall k | s <= k < |items| ensures SlotCopied(items[k], page[..], scratch[..]) {
      OthersBelow(items, special, s, k);
    }
  }

  /** When the loop is done, every slot of the page is. */
  lemma LoopDone(job: Job, was: Bytes, src0: Bytes, src: Bytes, now: Bytes)
    requires job.lay.Valid() && BLCKSZ <= |was| == |now| && BLCKSZ <= |src0|
    requires (src, now) in States(job, src0, was, |job.lay.items|, |job.lay.items|)
    requires if job.lay.path.Presorted? then src0 == was else Copied(job.lay.items, was, src0, job.lay.First())
    ensures PageDone(job, was, now)
  {
    var s := job.lay.First();
    forall k | 0 <= k < |job.lay.items| ensures SlotDone(job, was, now, k) {
      if k < s {
        LeadingDone(job, was, now, k);
      } else {
        assert Moved(job, src0, now, |job.lay.items|, |job.lay.items|, k);
        assert job.lay.path.Presorted? || SlotCopied(job.lay.items[k], was, src0);
        MovedDone(job, was, src0, now, k);
      }
    }
    UpperFalls(job.lay.items, job.lay.special, 0, s);
  }

  lemma LeadingDone(job: Job, was: Bytes, now: Bytes, k: nat)
    requires job.lay.Valid() && BLCKSZ <= |was| == |now| && k < job.lay.First() &&
      RestKept(job, was, now, |job.lay.items|)
    ensures SlotDone(job, was, now, k)
  {
    UpperStep(job.lay.items, job.lay.special, k);
    InPlaceStays(job.lay.items, job.lay.special, job.lay.First(), k);
    UpperFalls(job.lay.items, job.lay.special, k + 1, job.lay.First());
  }

  lemma MovedDone(job: Job, was: Bytes, src0: Bytes, now: Bytes, k: nat)
    requires job.lay.Valid() && BLCKSZ <= |was| == |now| && BLCKSZ <= |src0| && job.lay.First() <= k < |job.lay.items|
    requires MovedTo(job, src0, now, |job.lay.items|, k) && SlotCopied(job.lay.items[k], was, src0)
    ensures SlotDone(job, was, now, k)
  {
    forall x | 0 <= x < job.lay.items[k].alignedlen ensures ByteDone(job, was, now, k, x) {
      assert ByteMoved(job, src0, now, |job.lay.items|, k, x);
      assert src0[job.lay.items[k].itemoff + x] == was[job.lay.items[k].itemoff + x];
    }
  }

  lemma LayoutIsValid(lay: Layout)
    requires Roomy(lay.items, lay.special) && Apart(lay.items) && (lay.path.Presorted? ==> Descending(lay.items))
    ensures lay.Valid()
  {
    if lay.path.Presorted? {
      DescendingIsStacked(lay.items, lay.special);
    }
    LeadingStay(lay.items, lay.special, 0);
  }

  lemma NotRepointedYet(job: Job, lp: seq<nat>)
    requires job.lay.Valid()
    requires forall k :: 0 <= k < |job.lay.items| ==>
      job.lay.items[k].offsetindex < |lp| && lp[job.lay.items[k].offsetindex] == job.lay.items[k].itemoff
    ensures Repointed(job.lay.items, job.lay.special, lp, lp, job.lay.First())
  {
    forall k | 0 <= k < job.lay.First()
      ensures lp[job.lay.items[k].offsetindex] == NewOff(job.lay.items, job.lay.special, k)
    {
      InPlaceStays(job.lay.items, job.lay.special, job.lay.First(), k);
    }
  }

  /** A page and as much again always has room for it. */
  lemma SlackSuffices(lay: Layout, size: nat)
    requires Roomy(lay.items, lay.special) && 2 * BLCKSZ <= size
    ensures lay.StaysWithin(size)
  {
    forall m | lay.First() <= m < |lay.items| ensures EndsWithin(lay.items, m, size) {
      assert RecryptLen(lay.items, m) <= BLCKSZ;
    }
  }

  /** pgtde_compactify_tuples: `pd_upper`, the line pointers and every slot of the page, for all
      lengths the items may have, in a buffer that re-encryption does not leave. */
  method CompactifyTuples(e: Cipher, bn: nat, page: array<bv8>, lpOff: array<nat>, items: seq<ItemIdCompact>,
                          pdUpper: nat, special: nat, maxoff: nat, presorted: bool)
    returns (upper: nat)
    requires IsBlockCipher(e) && 0 < |items| && Roomy(items, special) && Apart(items) &&
      (presorted ==> Descending(items))
    requires lpOff as object != page as object && BLCKSZ <= page.Length
    requires Layout(items, special, PathOf(presorted, |items|, maxoff)).StaysWithin(page.Length)
    requires forall k :: 0 <= k < |items| ==>
      items[k].offsetindex < lpOff.Length && lpOff[items[k].offsetindex] == items[k].itemoff &&
        pdUpper <= items[k].itemoff
    modifies page, lpOff
    ensures upper == Upper(items, special, |items|)
    ensures Repointed(items, special, old(lpOff[..]), lpOff[..], |items|)
    ensures var job := JobFor(e, bn, Layout(items, special, PathOf(presorted, |items|, maxoff)));
      job.lay.Valid() && PageDone(job, old(page[..]), page[..])
  {
    var job := JobFor(e, bn, Layout(items, special, PathOf(presorted, |items|, maxoff)));
    ghost var was := page[..];
    LayoutIsValid(job.lay);
    NotRepointedYet(job, lpOff[..]);
    if presorted {
      var s, u := SkipInPlace(items, special);
      upper := CompactFrom(e, bn, job, page, page, lpOff, s, u);
      LoopDone(job, was, was, page[..], page[..]);
    } else {
      upper := CompactCopy(e, bn, job, page, lpOff, pdUpper);
    }
  }

  /** The case of items that are not presorted: through a scratch copy. */
  method CompactCopy(e: Cipher, bn: nat, job: Job, page: array<bv8>, lpOff: array<nat>, pdUpper: nat)
    returns (upper: nat)
    requires job.IsFor(e, bn)
    requires job.lay.Valid() && !job.lay.path.Presorted? && 0 < |job.lay.items|
    requires lpOff as object != page as object && BLCKSZ <= page.Length && job.lay.StaysWithin(page.Length)
    requires forall k :: 0 <= k < |job.lay.items| ==>
      job.lay.items[k].offsetindex < lpOff.Length && pdUpper <= job.lay.items[k].itemoff
    requires Repointed(job.lay.items, job.lay.special, lpOff[..], lpOff[..], job.lay.First())
    modifies page, lpOff
    ensures upper == Upper(job.lay.items, job.lay.special, |job.lay.items|)
    ensures Repointed(job.lay.items, job.lay.special, old(lpOff[..]), lpOff[..], |job.lay.items|)
    ensures PageDone(job, old(page[..]), page[..])
  {
    ghost var was := page[..];
    var scratch := new bv8[page.Length];
    var s, u := 0, job.lay.special;
    if job.lay.path.TupleByTuple? {
      CopyEach(page, scratch, job.lay.items, job.lay.special);
    } else {
      s, u := SkipInPlace(job.lay.items, job.lay.special);
      CopyRest(page, scratch, job.lay.items, job.lay.special, s, pdUpper, u);
    }
    ghost var src0 := scratch[..];
    upper := CompactFrom(e, bn, job, scratch, page, lpOff, s, u);
    LoopDone(job, was, src0, scratch[..], page[..]);
  }
}
