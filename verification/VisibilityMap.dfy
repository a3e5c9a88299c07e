/** The visibility map: two bits for each heap block, packed four blocks to a byte. */
module VisibilityMap {
  import opened Base

  const MAPSIZE: nat := 8168
  const ALL_VISIBLE: bv8 := 1
  const ALL_FROZEN: bv8 := 2
  const VALID_BITS: bv8 := 3

  type MapPage = array<bv8>

  /** The two bits of the block at place `k` of a byte. */
  function Pair(b: bv8, k: int): bv8 {
    match k
    case 0 => b & 3
    case 1 => (b >> 2) & 3
    case 2 => (b >> 4) & 3
    case _ => (b >> 6) & 3
  }

  /** `flags << HEAPBLK_TO_OFFSET` */
  function Shifted(flags: bv8, k: int): bv8 {
    match k
    case 0 => flags
    case 1 => flags << 2
    case 2 => flags << 4
    case _ => flags << 6
  }

  /** A byte after setting, if there is anything to set. */
  function SetIn(b: bv8, flags: bv8, k: int): bv8 {
    if flags != Pair(b, k) then b | Shifted(flags, k) else b
  }

  lemma SetByte(b: bv8, flags: bv8, k: nat, j: nat)
    requires k < 4 && j < 4 && flags <= 3
    ensures Pair(SetIn(b, flags, k), j) == if j == k then Pair(b, j) | flags else Pair(b, j)
  {
  }

  /** `(1 << truncOffset) - 1` */
  function Below(k: int): bv8 {
    match k
    case 0 => 0
    case 1 => 3
    case 2 => 15
    case _ => 63
  }

  lemma TruncPair(b: bv8, k: nat, j: nat)
    requires k < 4 && j < 4
    ensures Pair(b & Below(k), j) == if j < k then Pair(b, j) else 0
  {
  }

  /** The bits of heap block `blk` on its map page. */
  function OnPage(m: seq<bv8>, blk: int): bv8
    requires |m| == MAPSIZE && 0 <= blk
  {
    Pair(m[blk % HEAPBLOCKS_PER_PAGE / 4], blk % 4)
  }

  /** What the map says of heap block `blk`; nothing for blocks past its end. */
  function Bits(pages: seq<seq<bv8>>, blk: int): bv8
    requires 0 <= blk && forall i :: 0 <= i < |pages| ==> |pages[i]| == MAPSIZE
  {
    if blk / HEAPBLOCKS_PER_PAGE < |pages| then OnPage(pages[blk / HEAPBLOCKS_PER_PAGE], blk) else 0
  }

  predicate Consistent(bits: bv8) {
    bits & ALL_FROZEN != 0 ==> bits & ALL_VISIBLE != 0
  }

  /** pg_tde_visibilitymap_set: only the block's own bits change; frozen is only set with visible. */
  method Set(m: MapPage, mapBlock: nat, blk: nat, flags: bv8) returns (wrongBuffer: bool)
    requires m.Length == MAPSIZE && (flags == ALL_VISIBLE || flags == VALID_BITS)
    modifies m
    ensures wrongBuffer <==> mapBlock != blk / HEAPBLOCKS_PER_PAGE
    ensures wrongBuffer ==> m[..] == old(m[..])
    ensures !wrongBuffer ==> OnPage(m[..], blk) == old(OnPage(m[..], blk)) | flags && Consistent(OnPage(m[..], blk))
    ensures forall b: nat :: b / HEAPBLOCKS_PER_PAGE == mapBlock && b != blk ==>
      OnPage(m[..], b) == old(OnPage(m[..], b))
  {
    if mapBlock != blk / HEAPBLOCKS_PER_PAGE {
      return true;
    }
    var byte, k := blk % HEAPBLOCKS_PER_PAGE / 4, blk % 4;
    ghost var was := m[..];
    m[byte] := SetIn(m[byte], flags, k);
    ghost var x := m[byte];
    forall j | 0 <= j < 4 ensures Pair(x, j) == if j == k then Pair(was[byte], j) | flags else Pair(was[byte], j) {
      SetByte(was[byte], flags, k, j);
    }
    SetOnPage(was, blk, flags, x);
    return false;
  }

  lemma SetOnPage(m: seq<bv8>, blk: nat, flags: bv8, x: bv8)
    requires |m| == MAPSIZE && (flags == ALL_VISIBLE || flags == VALID_BITS)
    requires forall j :: 0 <= j < 4 ==>
      Pair(x, j) == if j == blk % 4 then Pair(m[blk % HEAPBLOCKS_PER_PAGE / 4], j) | flags
        else Pair(m[blk % HEAPBLOCKS_PER_PAGE / 4], j)
    ensures var m' := m[blk % HEAPBLOCKS_PER_PAGE / 4 := x];
      && OnPage(m', blk) == OnPage(m, blk) | flags && Consistent(OnPage(m', blk))
      && forall b: nat :: b / HEAPBLOCKS_PER_PAGE == blk / HEAPBLOCKS_PER_PAGE && b != blk ==>
           OnPage(m', b) == OnPage(m, b)
  {
    SetIsConsistent(OnPage(m, blk), flags);
  }

  lemma SetIsConsistent(bits: bv8, flags: bv8)
    requires flags == ALL_VISIBLE || flags == VALID_BITS
    ensures Consistent(bits | flags)
  {
  }

  function Without(bits: bv8, flags: bv8): bv8 {
    bits & !flags
  }

  /** A byte after clearing, if there is anything to clear. */
  function ClearIn(b: bv8, flags: bv8, k: int): bv8 {
    if b & Shifted(flags, k) != 0 then b & !Shifted(flags, k) else b
  }

  lemma ClearedByte(b: bv8, flags: bv8, k: nat, j: nat)
    requires k < 4 && j < 4 && (flags == ALL_FROZEN || flags == VALID_BITS)
    ensures Pair(ClearIn(b, flags, k), j) == if j == k then Without(Pair(b, j), flags) else Pair(b, j)
  {
  }

  /** pg_tde_visibilitymap_clear: only the block's own bits change; visible is only cleared with frozen. */
  method Clear(m: MapPage, mapBlock: nat, blk: nat, flags: bv8) returns (wrongBuffer: bool, cleared: bool)
    requires m.Length == MAPSIZE && (flags == ALL_FROZEN || flags == VALID_BITS)
    modifies m
    ensures wrongBuffer <==> mapBlock != blk / HEAPBLOCKS_PER_PAGE
    ensures wrongBuffer ==> m[..] == old(m[..]) && !cleared
    ensures !wrongBuffer ==>
      OnPage(m[..], blk) == Without(old(OnPage(m[..], blk)), flags) &&
        (cleared <==> old(OnPage(m[..], blk)) & flags != 0)
    ensures !wrongBuffer ==> Consistent(OnPage(m[..], blk))
    ensures forall b: nat :: b / HEAPBLOCKS_PER_PAGE == mapBlock && b != blk ==>
      OnPage(m[..], b) == old(OnPage(m[..], b))
  {
    if mapBlock != blk / HEAPBLOCKS_PER_PAGE {
      return true, false;
    }
    var byte, k := blk % HEAPBLOCKS_PER_PAGE / 4, blk % 4;
    ghost var was := m[..];
    cleared := m[byte] & Shifted(flags, k) != 0;
    m[byte] := ClearIn(m[byte], flags, k);
    ghost var x := m[byte];
    forall j | 0 <= j < 4
      ensures Pair(x, j) == if j == k then Without(Pair(was[byte], j), flags) else Pair(was[byte], j)
    {
      ClearedByte(was[byte], flags, k, j);
    }
    ClearedTells(was[byte], flags, k);
    ClearedPage(was, blk, flags, x);
    return false, cleared;
  }

  lemma ClearedTells(b: bv8, flags: bv8, k: nat)
    requires k < 4 && (flags == ALL_FROZEN || flags == VALID_BITS)
    ensures b & Shifted(flags, k) != 0 <==> Pair(b, k) & flags != 0
  {
  }

  lemma ClearedPage(m: seq<bv8>, blk: nat, flags: bv8, x: bv8)
    requires |m| == MAPSIZE && (flags == ALL_FROZEN || flags == VALID_BITS)
    requires forall j :: 0 <= j < 4 ==>
      Pair(x, j) == if j == blk % 4 then Without(Pair(m[blk % HEAPBLOCKS_PER_PAGE / 4], j), flags)
        else Pair(m[blk % HEAPBLOCKS_PER_PAGE / 4], j)
    ensures var m' := m[blk % HEAPBLOCKS_PER_PAGE / 4 := x];
      && OnPage(m', blk) == Without(OnPage(m, blk), flags) && Consistent(OnPage(m', blk))
      && forall b: nat :: b / HEAPBLOCKS_PER_PAGE == blk / HEAPBLOCKS_PER_PAGE && b != blk ==>
           OnPage(m', b) == OnPage(m, b)
  {
  }

  // ---- Counting ----

  /** Set bits of a byte under a mask. */
  function Popcount8(b: bv8): nat {
    One(b & 1) + One(b & 2) + One(b & 4) + One(b & 8) + One(b & 16) + One(b & 32) + One(b & 64) + One(b & 128)
  }

  function One(bit: bv8): nat {
    if bit != 0 then 1 else 0
  }

  /** pg_popcount64(word & mask), for a word that is bytes `at` to `end` and a mask that repeats every byte. */
  function Popcount64(m: seq<bv8>, at: nat, end: nat, mask: bv8): nat
    requires at <= end <= |m|
    decreases end - at
  {
    if at == end then 0 else Popcount64(m, at, end - 1, mask) + Popcount8(m[end-1] & mask)
  }

  const VISIBLE_MASK: bv8 := 0x55
  const FROZEN_MASK: bv8 := 0xaa

  /** How many of the first `n` blocks of a map page have `flag` set. */
  function CountSet(m: seq<bv8>, n: nat, flag: bv8): nat
    requires n <= 4 * |m|
  {
    if n == 0 then 0 else CountSet(m, n - 1, flag) + One(Pair(m[(n - 1) / 4], (n - 1) % 4) & flag)
  }

  /** A byte's masked population is the number of its blocks that have the flag. */
  lemma ByteCount(b: bv8)
    ensures Popcount8(b & VISIBLE_MASK) ==
      One(Pair(b, 0) & ALL_VISIBLE) + One(Pair(b, 1) & ALL_VISIBLE) + One(Pair(b, 2) & ALL_VISIBLE) +
        One(Pair(b, 3) & ALL_VISIBLE)
    ensures Popcount8(b & FROZEN_MASK) ==
      One(Pair(b, 0) & ALL_FROZEN) + One(Pair(b, 1) & ALL_FROZEN) + One(Pair(b, 2) & ALL_FROZEN) +
        One(Pair(b, 3) & ALL_FROZEN)
  {
  }

  lemma FlagOfMask(b: bv8, flag: bv8, mask: bv8)
    requires (flag == ALL_VISIBLE && mask == VISIBLE_MASK) || (flag == ALL_FROZEN && mask == FROZEN_MASK)
    ensures Popcount8(b & mask) == One(Pair(b, 0) & flag) + One(Pair(b, 1) & flag) + One(Pair(b, 2) & flag) +
      One(Pair(b, 3) & flag)
  {
  }

  lemma CountByte(m: seq<bv8>, n: nat, flag: bv8, mask: bv8)
    requires n < |m| && ((flag == ALL_VISIBLE && mask == VISIBLE_MASK) || (flag == ALL_FROZEN && mask == FROZEN_MASK))
    ensures CountSet(m, 4 * (n + 1), flag) == CountSet(m, 4 * n, flag) + Popcount8(m[n] & mask)
  {
    FlagOfMask(m[n], flag, mask);
    CountFour(m, n, 4 * n, flag);
  }

  lemma CountFour(m: seq<bv8>, n: nat, k: nat, flag: bv8)
    requires n < |m| && k == 4 * n
    ensures CountSet(m, k + 4, flag) == CountSet(m, k, flag) + One(Pair(m[n], 0) & flag) + One(Pair(m[n], 1) & flag) +
      One(Pair(m[n], 2) & flag) + One(Pair(m[n], 3) & flag)
  {
    CountOne(m, n, 0, k, flag);
    CountOne(m, n, 1, k + 1, flag);
    CountOne(m, n, 2, k + 2, flag);
    CountOne(m, n, 3, k + 3, flag);
  }

  lemma CountOne(m: seq<bv8>, n: nat, j: nat, k: nat, flag: bv8)
    requires n < |m| && j < 4 && k == 4 * n + j
    ensures CountSet(m, k + 1, flag) == CountSet(m, k, flag) + One(Pair(m[n], j) & flag)
  {
    assert k / 4 == n && k % 4 == j;
  }

  ghost predicate Counted(m: seq<bv8>, n: nat, flag: bv8, mask: bv8)
    requires n < |m|
  {
    CountSet(m, 4 * (n + 1), flag) == CountSet(m, 4 * n, flag) + Popcount8(m[n] & mask)
  }

  lemma {:induction false} CountRun(m: seq<bv8>, at: nat, end: nat, flag: bv8, mask: bv8)
    requires at <= end <= |m| && forall n :: at <= n < end ==> Counted(m, n, flag, mask)
    ensures CountSet(m, 4 * end, flag) == CountSet(m, 4 * at, flag) + Popcount64(m, at, end, mask)
    decreases end
  {
    if at < end {
      CountRun(m, at, end - 1, flag, mask);
      assert Counted(m, end - 1, flag, mask);
    }
  }

  lemma CountBytes(m: seq<bv8>, at: nat, end: nat, flag: bv8, mask: bv8)
    requires at <= end <= |m|
    requires (flag == ALL_VISIBLE && mask == VISIBLE_MASK) || (flag == ALL_FROZEN && mask == FROZEN_MASK)
    ensures CountSet(m, 4 * end, flag) == CountSet(m, 4 * at, flag) + Popcount64(m, at, end, mask)
  {
    forall n | at <= n < end ensures Counted(m, n, flag, mask) {
      CountByte(m, n, flag, mask);
    }
    CountRun(m, at, end, flag, mask);
  }

  /** The first `n` heap blocks with `flag` set. */
  ghost function Flagged(pages: seq<seq<bv8>>, n: nat, flag: bv8): (r: set<nat>)
    requires forall i :: 0 <= i < |pages| ==> |pages[i]| == MAPSIZE
    ensures forall b :: b in r ==> b < n
  {
    set b: nat | b < n && IsSet(pages, b, flag)
  }

  predicate IsSet(pages: seq<seq<bv8>>, b: nat, flag: bv8)
    requires forall i :: 0 <= i < |pages| ==> |pages[i]| == MAPSIZE
  {
    Bits(pages, b) & flag != 0
  }

  lemma OneMoreFlagged(pages: seq<seq<bv8>>, b: nat, flag: bv8)
    requires forall i :: 0 <= i < |pages| ==> |pages[i]| == MAPSIZE
    ensures |Flagged(pages, b + 1, flag)| == |Flagged(pages, b, flag)| + if IsSet(pages, b, flag) then 1 else 0
  {
    assert Flagged(pages, b + 1, flag) == Flagged(pages, b, flag) + if IsSet(pages, b, flag) then {b} else {};
  }

  /** Where the block at place `k` of map page `i` has its bits. */
  lemma BlockOnPage(pages: seq<seq<bv8>>, i: nat, k: nat, b: nat, flag: bv8)
    requires forall j :: 0 <= j < |pages| ==> |pages[j]| == MAPSIZE
    requires i < |pages| && k < HEAPBLOCKS_PER_PAGE && b == i * HEAPBLOCKS_PER_PAGE + k
    ensures (if IsSet(pages, b, flag) then 1 else 0) == One(Pair(pages[i][k / 4], k % 4) & flag)
  {
    BlockPlace(i, k, b);
  }

  lemma BlockPlace(i: nat, k: nat, b: nat)
    requires k < HEAPBLOCKS_PER_PAGE && b == i * HEAPBLOCKS_PER_PAGE + k
    ensures b / HEAPBLOCKS_PER_PAGE == i && b % HEAPBLOCKS_PER_PAGE == k && b % 4 == k % 4
  {
  }

  lemma {:induction false} PageIsCounted(pages: seq<seq<bv8>>, i: nat, n: nat, at: nat, flag: bv8)
    requires forall j :: 0 <= j < |pages| ==> |pages[j]| == MAPSIZE
    requires i < |pages| && n <= HEAPBLOCKS_PER_PAGE && at == i * HEAPBLOCKS_PER_PAGE
    ensures |Flagged(pages, at + n, flag)| == |Flagged(pages, at, flag)| + CountSet(pages[i], n, flag)
  {
    if n > 0 {
      PageIsCounted(pages, i, n - 1, at, flag);
      OneMoreFlagged(pages, at + n - 1, flag);
      BlockOnPage(pages, i, n - 1, at + n - 1, flag);
    }
  }

  /** Adding up the map pages counts each heap block once. */
  lemma {:induction false} TotalIsAll(pages: seq<seq<bv8>>, n: nat, flag: bv8)
    requires forall i :: 0 <= i < |pages| ==> |pages[i]| == MAPSIZE
    requires n <= |pages|
    ensures Total(pages[..n], flag) == |Flagged(pages, n * HEAPBLOCKS_PER_PAGE, flag)|
  {
    if n > 0 {
      TotalIsAll(pages, n - 1, flag);
      assert pages[..n][..n-1] == pages[..n-1];
      PageIsCounted(pages, n - 1, HEAPBLOCKS_PER_PAGE, (n - 1) * HEAPBLOCKS_PER_PAGE, flag);
    } else {
      assert Flagged(pages, 0, flag) == {};
    }
  }

  /** How many blocks the whole map has with `flag` set, page by page. */
  function Total(pages: seq<seq<bv8>>, flag: bv8): nat
    requires forall i :: 0 <= i < |pages| ==> |pages[i]| == MAPSIZE
  {
    if pages == [] then 0
      else Total(pages[..|pages|-1], flag) + CountSet(pages[|pages|-1], 4 * |pages[|pages|-1]|, flag)
  }

  /** pg_tde_visibilitymap_count */
  method Count(pages: seq<seq<bv8>>) returns (visible: nat, frozen: nat)
    requires forall i :: 0 <= i < |pages| ==> |pages[i]| == MAPSIZE
    ensures visible == |Flagged(pages, |pages| * HEAPBLOCKS_PER_PAGE, ALL_VISIBLE)|
    ensures frozen == |Flagged(pages, |pages| * HEAPBLOCKS_PER_PAGE, ALL_FROZEN)|
  {
    visible, frozen := 0, 0;
    for mapBlock := 0 to |pages|
      invariant visible == Total(pages[..mapBlock], ALL_VISIBLE) && frozen == Total(pages[..mapBlock], ALL_FROZEN)
    {
      assert pages[..mapBlock+1][..mapBlock] == pages[..mapBlock];
      var v, f := CountPage(pages[mapBlock]);
      visible, frozen := visible + v, frozen + f;
    }
    TotalIsAll(pages, |pages|, ALL_VISIBLE);
    TotalIsAll(pages, |pages|, ALL_FROZEN);
  }

  method CountPage(m: seq<bv8>) returns (visible: nat, frozen: nat)
    requires |m| % 8 == 0
    ensures visible == CountSet(m, 4 * |m|, ALL_VISIBLE) && frozen == CountSet(m, 4 * |m|, ALL_FROZEN)
  {
    visible, frozen := 0, 0;
    for i := 0 to |m| / 8
      invariant visible == CountSet(m, 4 * (8 * i), ALL_VISIBLE) && frozen == CountSet(m, 4 * (8 * i), ALL_FROZEN)
    {
      var at, end := 8 * i, 8 * (i + 1);
      CountBytes(m, at, end, ALL_VISIBLE, VISIBLE_MASK);
      CountBytes(m, at, end, ALL_FROZEN, FROZEN_MASK);
      visible := visible + Popcount64(m, at, end, VISIBLE_MASK);
      frozen := frozen + Popcount64(m, at, end, FROZEN_MASK);
    }
  }

  // ---- Truncation ----

  ghost predicate Distinct(pages: seq<MapPage>) {
    (forall i :: 0 <= i < |pages| ==> pages[i].Length == MAPSIZE) && forall i, j :: 0 <= i < j < |pages| ==>
      pages[i] != pages[j]
  }

  ghost function Contents(pages: seq<MapPage>): (r: seq<seq<bv8>>)
    requires Distinct(pages)
    reads pages
    ensures |r| == |pages| && forall i :: 0 <= i < |r| ==> |r[i]| == MAPSIZE
  {
    seq(|pages|, i requires 0 <= i < |pages| reads pages => pages[i][..])
  }

  /** Zero the tail of a map page, from block `n` of the heap on. */
  method ClearTail(m: MapPage, n: nat)
    requires m.Length == MAPSIZE
    modifies m
    ensures forall b: nat :: b / HEAPBLOCKS_PER_PAGE == n / HEAPBLOCKS_PER_PAGE ==>
      OnPage(m[..], b) == if b < n then old(OnPage(m[..], b)) else 0
  {
    var byte, k := n % HEAPBLOCKS_PER_PAGE / 4, n % 4;
    ghost var was := m[..];
    for j := byte + 1 to MAPSIZE
      invariant forall i :: 0 <= i <= byte ==> m[i] == was[i]
      invariant forall i :: byte < i < j ==> m[i] == 0
    {
      m[j] := 0;
    }
    m[byte] := m[byte] & Below(k);
    forall j | 0 <= j < 4 ensures Pair(m[byte], j) == if j < k then Pair(was[byte], j) else 0 {
      TruncPair(was[byte], k, j);
    }
    TailCleared(was, m[..], n);
  }

  lemma TailCleared(was: seq<bv8>, m: seq<bv8>, n: nat)
    requires |was| == |m| == MAPSIZE
    requires var byte := n % HEAPBLOCKS_PER_PAGE / 4;
      && (forall i :: 0 <= i < byte ==> m[i] == was[i]) && (forall i :: byte < i < MAPSIZE ==> m[i] == 0)
      && (forall j :: 0 <= j < 4 ==> Pair(m[byte], j) == if j < n % 4 then Pair(was[byte], j) else 0)
    ensures forall b: nat :: b / HEAPBLOCKS_PER_PAGE == n / HEAPBLOCKS_PER_PAGE ==>
      OnPage(m, b) == if b < n then OnPage(was, b) else 0
  {
    forall b: nat | b / HEAPBLOCKS_PER_PAGE == n / HEAPBLOCKS_PER_PAGE
      ensures OnPage(m, b) == if b < n then OnPage(was, b) else 0
    {
      PlaceOrder(n, b);
    }
  }

  /** On one map page, earlier blocks are in earlier bytes, or in earlier places of the same byte. */
  lemma PlaceOrder(n: nat, b: nat)
    requires b / HEAPBLOCKS_PER_PAGE == n / HEAPBLOCKS_PER_PAGE
    ensures var x, y := b % HEAPBLOCKS_PER_PAGE / 4, n % HEAPBLOCKS_PER_PAGE / 4;
      b < n <==> x < y || (x == y && b % 4 < n % 4)
    ensures b % HEAPBLOCKS_PER_PAGE / 4 < MAPSIZE
  {
    PlaceOf(b);
    PlaceOf(n);
    ByteOrder(b % HEAPBLOCKS_PER_PAGE, n % HEAPBLOCKS_PER_PAGE);
  }

  lemma PlaceOf(b: nat)
    ensures b == b / HEAPBLOCKS_PER_PAGE * HEAPBLOCKS_PER_PAGE + b % HEAPBLOCKS_PER_PAGE
    ensures b % 4 == b % HEAPBLOCKS_PER_PAGE % 4 && b % HEAPBLOCKS_PER_PAGE / 4 < MAPSIZE
  {
    var q, r := b / HEAPBLOCKS_PER_PAGE, b % HEAPBLOCKS_PER_PAGE;
    var k, z := MAPSIZE * q + r / 4, r % 4;
    assert b == 4 * k + z;
    PlaceIs(b, k, z);
  }

  lemma PlaceIs(b: nat, k: nat, z: nat)
    requires b == 4 * k + z && z < 4
    ensures b % 4 == z
  {
  }

  lemma ByteOrder(r: nat, s: nat)
    ensures r < s <==> r / 4 < s / 4 || (r / 4 == s / 4 && r % 4 < s % 4)
  {
  }

  /** pg_tde_visibilitymap_prepare_truncate, and the truncation that its caller then does. Exactly the bits of
      heap blocks at or past the new size are gone. */
  method Truncate(pages: seq<MapPage>, nheapblocks: nat) returns (newBlocks: Option<nat>, left: seq<MapPage>)
    requires Distinct(pages)
    modifies pages
    ensures Distinct(left) && left <= pages && (newBlocks.Some? ==> |left| == newBlocks.value < |pages|) &&
      (newBlocks.None? ==> left == pages)
    ensures forall b: nat :: Bits(Contents(left), b) == if b < nheapblocks then old(Bits(Contents(pages), b)) else 0
  {
    var truncBlock := nheapblocks / HEAPBLOCKS_PER_PAGE;
    var n := truncBlock;
    if nheapblocks % HEAPBLOCKS_PER_PAGE != 0 {
      n := truncBlock + 1;
      if truncBlock >= |pages| {
        return None, pages;
      }
      ClearTail(pages[truncBlock], nheapblocks);
    }
    if |pages| <= n {
      return None, pages;
    }
    return Some(n), pages[..n];
  }
}
