/** The tuple cipher: AES in counter mode (section 6.5 of NIST SP 800-38A), hand-written over
    single-block encryption so that any byte range of a file can be processed on its own.
    The block cipher itself is an arbitrary function on 16-byte blocks. */
module Crypt {
  import opened Base

  type Bytes = seq<bv8>

  /** A counter block, each byte given by its value. */
  type CounterBlock = seq<nat>

  /** What the machine makes of shifting an `int` by 32 to 56 bits: `wide(block, i)` is the value of
      `block >> 8 * i`, which the language leaves undefined. */
  type WideShift = (nat, nat) -> nat

  /** The block cipher under one key, and the machine it runs on. */
  datatype Cipher = Cipher(block: CounterBlock -> Bytes, wide: WideShift)

  type Positive = n: nat | n > 0 witness 1

  // AES_BLOCK_SIZE is 16 throughout

  /** 100 in enc_aes.h; nothing depends on the value. */
  const NUM_AES_BLOCKS_IN_BATCH: Positive
  const DATA_BYTES_PER_AES_BATCH: nat := NUM_AES_BLOCKS_IN_BATCH * 16

  /** The counter loop runs over an `int`. */
  const MAX_AES_BLOCKS: nat := 0x8000_0000

  ghost predicate IsBlockCipher(e: Cipher) {
    forall b: CounterBlock :: |e.block(b)| == 16
  }

  function Pow256(n: nat): (r: nat)
    ensures r > 0
  {
    if n == 0 then 1 else 256 * Pow256(n - 1)
  }

  /** Byte `i` of the block number, lowest first. */
  function CounterByte(block: nat, i: nat): (r: nat)
    ensures r < 256
  {
    block / Pow256(i) % 256
  }

  /** Byte `i` of it, for `i` from 4 to 7. */
  function WideByte(wide: WideShift, block: nat, i: nat): (r: nat)
    ensures r < 256
  {
    wide(block, i) % 256
  }

  /** The counter block: the block number in the last four bytes, big-endian, and before it four bytes
      that come from shifts beyond the width of the counter. */
  function Counter(wide: WideShift, block: nat): (c: CounterBlock)
    ensures |c| == 16
  {
    seq(16, k requires 0 <= k < 16 => if k < 8 then 0 else if k < 12 then WideByte(wide, block, 15 - k)
        else CounterByte(block, 15 - k))
  }

  /** Distinct block numbers of 31 bits have distinct counter blocks, whatever wide shifts give.  So two file
      positions share a keystream block only if they are in the same 16 bytes; see `SamePositionIff` for which
      places of a file have the same position. */
  lemma CountersAreDistinct(wide: WideShift, a: nat, b: nat)
    requires a < MAX_AES_BLOCKS && b < MAX_AES_BLOCKS && Counter(wide, a) == Counter(wide, b)
    ensures a == b
  {
    forall i | 0 <= i < 4 ensures a / Pow256(i) % 256 == b / Pow256(i) % 256 {
      assert Counter(wide, a)[15 - i] == CounterByte(a, i);
      assert Counter(wide, b)[15 - i] == CounterByte(b, i);
    }
    assert Pow256(4) == 0x1_0000_0000;
    SameDigits(a, b, 4);
  }

  lemma {:induction false} SameDigits(a: nat, b: nat, n: nat)
    requires a < Pow256(n) && b < Pow256(n)
    requires forall i :: 0 <= i < n ==> a / Pow256(i) % 256 == b / Pow256(i) % 256
    ensures a == b
  {
    if n > 0 {
      assert Pow256(0) == 1;
      assert a % 256 == b % 256 by {
        assert a / Pow256(0) % 256 == b / Pow256(0) % 256;
      }
      var a', b' := a / 256, b / 256;
      forall i | 0 <= i < n - 1 ensures a' / Pow256(i) % 256 == b' / Pow256(i) % 256 {
        DivDiv(a, Pow256(i));
        DivDiv(b, Pow256(i));
        assert a / Pow256(i + 1) % 256 == b / Pow256(i + 1) % 256;
      }
      SameDigits(a', b', n - 1);
    }
  }

  lemma DivDiv(x: nat, d: nat)
    requires d > 0
    ensures x / (256 * d) == x / 256 / d
  {
    var q := x / 256 / d;
    var r := x / 256 % d;
    assert x / 256 == q * d + r;
    assert x == 256 * (q * d + r) + x % 256;
    var s := 256 * r + x % 256;
    assert 256 * (q * d) == q * (256 * d);
    assert x == q * (256 * d) + s;
    assert 0 <= s < 256 * d;
    DivUnique(x, 256 * d, q, s);
  }

  lemma DivUnique(x: nat, d: nat, q: nat, s: nat)
    requires d > 0 && x == q * d + s && s < d
    ensures x / d == q
  {
    var k: int := x / d - q;
    var dd: int := d;
    assert k * dd == s - x % d;
    assert k >= 1 ==> k * dd >= dd;
    assert k <= -1 ==> k * dd <= -dd;
  }

  /** The keystream byte for byte position `pos` of the file. */
  function KeyByte(e: Cipher, pos: nat): bv8
    requires IsBlockCipher(e)
  {
    e.block(Counter(e.wide, pos / 16))[pos % 16]
  }

  /** Encrypt, or decrypt, a byte string that starts at file position `start`. */
  function Crypted(e: Cipher, start: nat, s: Bytes): (r: Bytes)
    requires IsBlockCipher(e)
    ensures |r| == |s|
  {
    seq(|s|, i requires 0 <= i < |s| => s[i] ^ KeyByte(e, start + i))
  }

  // --------------------------------------------------------------- laws of the cipher

  /** Decryption is encryption. */
  lemma CryptIsInvolution(e: Cipher, start: nat, s: Bytes)
    requires IsBlockCipher(e)
    ensures Crypted(e, start, Crypted(e, start, s)) == s
  {
  }

  /** Any part of a ciphertext can be decrypted on its own, at its own position. */
  lemma CryptCommutesWithSlicing(e: Cipher, start: nat, s: Bytes, a: nat, b: nat)
    requires IsBlockCipher(e) && a <= b <= |s|
    ensures Crypted(e, start, s)[a..b] == Crypted(e, start + a, s[a..b])
  {
  }

  lemma CryptOfConcat(e: Cipher, start: nat, s: Bytes, t: Bytes)
    requires IsBlockCipher(e)
    ensures Crypted(e, start, s + t) == Crypted(e, start, s) + Crypted(e, start + |s|, t)
  {
  }

  /** Re-encrypting for another position keeps the plaintext. */
  lemma ReEncryptionKeepsPlaintext(e: Cipher, from: nat, to: nat, c: Bytes)
    requires IsBlockCipher(e)
    ensures Crypted(e, to, Crypted(e, to, Crypted(e, from, c))) == Crypted(e, from, c)
  {
  }

  // --------------------------------------------------------------- the code

  /** The `b`-th 16-byte block of `s`. */
  function Chunk(s: seq<nat>, b: nat): CounterBlock
    requires 16 * b + 16 <= |s|
  {
    s[16*b..16*b+16]
  }

  /** Write the counter block of `block` at index `base`. */
  method WriteCounter(wide: WideShift, data: array<nat>, base: nat, block: nat)
    requires base + 16 <= data.Length && forall k :: base <= k < base + 16 ==> data[k] == 0
    modifies data
    ensures data[base..base+16] == Counter(wide, block)
    ensures forall k :: 0 <= k < data.Length && !(base <= k < base + 16) ==> data[k] == old(data[k])
  {
    for i := 0 to 8
      invariant forall k :: 0 <= k < data.Length && !(base + 16 - i <= k < base + 16) ==> data[k] == old(data[k])
      invariant forall k :: base + 16 - i <= k < base + 16 ==> data[k] == Counter(wide, block)[k - base]
    {
      data[base + 15 - i] := if i < 4 then CounterByte(block, i) else WideByte(wide, block, i);
    }
  }

  /** The plaintext of one batch: consecutive counter blocks. */
  method FillCounters(wide: WideShift, data: array<nat>, block1: nat, block2: nat)
    requires block1 <= block2 && 16 * (block2 - block1) <= data.Length
    requires forall k :: 0 <= k < data.Length ==> data[k] == 0
    modifies data
    ensures forall b :: 0 <= b < block2 - block1 ==> Chunk(data[..], b) == Counter(wide, block1 + b)
  {
    var j := block1;
    while j < block2
      invariant block1 <= j <= block2
      invariant forall b :: 0 <= b < j - block1 ==> Chunk(data[..], b) == Counter(wide, block1 + b)
      invariant forall k :: 16 * (j - block1) <= k < data.Length ==> data[k] == 0
    {
      ghost var before := data[..];
      WriteCounter(wide, data, 16 * (j - block1), j);
      forall b | 0 <= b < j - block1 ensures Chunk(data[..], b) == Counter(wide, block1 + b) {
        assert Chunk(data[..], b) == Chunk(before, b);
      }
      assert Chunk(data[..], j - block1) == data[16 * (j - block1)..16 * (j - block1) + 16];
      j := j + 1;
    }
  }

  method CopyBlock(block: Bytes, out: array<bv8>, base: nat)
    requires |block| == 16 && base + 16 <= out.Length
    modifies out
    ensures out[base..base+16] == block
    ensures forall k :: 0 <= k < out.Length && !(base <= k < base + 16) ==> out[k] == old(out[k])
  {
    for i := 0 to 16
      invariant forall k :: 0 <= k < out.Length && !(base <= k < base + i) ==> out[k] == old(out[k])
      invariant forall k :: base <= k < base + i ==> out[k] == block[k - base]
    {
      out[base + i] := block[i];
    }
  }

  /** Aes128EncryptedZeroBlocks: the keystream of blocks `block1` up to `block2`. */
  method EncryptedZeroBlocks(e: Cipher, block1: nat, block2: nat, out: array<bv8>)
    requires IsBlockCipher(e) && block1 <= block2 <= MAX_AES_BLOCKS
    requires block2 - block1 <= NUM_AES_BLOCKS_IN_BATCH && out.Length == DATA_BYTES_PER_AES_BATCH
    modifies out
    ensures forall i :: 0 <= i < 16 * (block2 - block1) ==> out[i] == KeyByte(e, 16 * block1 + i)
  {
    var data := new nat[DATA_BYTES_PER_AES_BATCH](_ => 0);
    FillCounters(e.wide, data, block1, block2);
    // one ECB call over the counter blocks
    ghost var counters := data[..];
    var n := 0;
    while n < block2 - block1
      invariant data[..] == counters
      invariant 0 <= n <= block2 - block1
      invariant forall i :: 0 <= i < 16 * n ==> out[i] == KeyByte(e, 16 * block1 + i)
    {
      assert data[16*n..16*n+16] == Chunk(counters, n) == Counter(e.wide, block1 + n);
      var block := e.block(data[16*n..16*n+16]);
      ghost var before := out[..];
      CopyBlock(block, out, 16 * n);
      assert forall i :: 0 <= i < 16 * n ==> out[i] == before[i];
      forall i | 16 * n <= i < 16 * (n + 1) ensures out[i] == KeyByte(e, 16 * block1 + i) {
        assert out[i] == out[16*n..16*n+16][i - 16*n] == block[i - 16*n];
        assert (16 * block1 + i) / 16 == block1 + n && (16 * block1 + i) % 16 == i - 16*n;
      }
      n := n + 1;
    }
  }

  // --------------------------------------------------------------- pg_tde_crypt

  /** The buffers that are `was` with the first `done` bytes of `want` written at `pos`. */
  ghost function Written(want: Bytes, was: Bytes, pos: nat, done: nat): iset<Bytes>
    requires done <= |want| && pos + |want| <= |was|
  {
    iset now: Bytes | |now| == |was| &&
      forall y :: 0 <= y < |now| ==> now[y] == if pos <= y < pos + done then want[y - pos] else was[y]
  }

  /** The buffers in which `src`, at `pos`, can still be read from byte `done` on. */
  ghost function Readable(src: Bytes, pos: nat, done: nat): iset<Bytes> {
    iset buf: Bytes | pos + |src| <= |buf| && forall i :: done <= i < |src| ==> src[i] == buf[pos + i]
  }

  lemma NoneWritten(want: Bytes, was: Bytes, pos: nat)
    requires pos + |want| <= |was|
    ensures was in Written(want, was, pos, 0)
  {
  }

  lemma AllReadable(buf: Bytes, pos: nat, n: nat)
    requires pos + n <= |buf|
    ensures buf in Readable(buf[pos..pos+n], pos, 0)
  {
  }

  lemma OneWritten(want: Bytes, was: Bytes, now: Bytes, pos: nat, i: nat)
    requires i < |want| && pos + |want| <= |was| && now in Written(want, was, pos, i)
    ensures now[pos + i := want[i]] in Written(want, was, pos, i + 1)
  {
  }

  /** Bytes `done` up to `next` are written on top. */
  lemma MoreWritten(want: Bytes, part: Bytes, was: Bytes, before: Bytes, now: Bytes, pos: nat, done: nat, next: nat)
    requires done <= next <= |want| && pos + |want| <= |was| == |before| && part == want[done..next]
    requires before in Written(want, was, pos, done) && now in Written(part, before, pos + done, next - done)
    ensures now in Written(want, was, pos, next)
  {
  }

  lemma AllWritten(want: Bytes, was: Bytes, now: Bytes, pos: nat)
    requires pos + |want| <= |was|
    ensures now in Written(want, was, pos, |want|) <==> now == was[..pos] + want + was[pos+|want|..]
  {
  }

  lemma Advance(buf: Bytes, src: Bytes, pos: nat, done: nat, next: nat)
    requires done <= next <= |src| && buf in Readable(src, pos, done)
    ensures pos + |src| <= |buf| && buf[pos+done..pos+next] == src[done..next]
    ensures buf in Readable(src, pos, next)
  {
  }

  lemma NextReadable(buf: Bytes, src: Bytes, pos: nat, i: nat)
    requires i < |src| && buf in Readable(src, pos, i)
    ensures pos + |src| <= |buf| && buf[pos + i] == src[i] && buf in Readable(src, pos, i + 1)
  {
  }

  lemma StillReadable(buf: Bytes, b: bv8, src: Bytes, pos: nat, i: nat)
    requires i < |src| && buf in Readable(src, pos, i + 1) && pos + i < |buf|
    ensures buf[pos + i := b] in Readable(src, pos, i + 1)
  {
  }

  /** What is left to read stays so if the buffer is not written, or only before it. */
  lemma StillUnread(part: Bytes, before: Bytes, now: Bytes, pos: nat, src: Bytes, unread: Bytes, left: Bytes, rpos: nat,
                    done: nat, next: nat)
    requires unread in Readable(src, rpos, next) && done <= next <= |src| && |part| == next - done
    requires pos + next <= |before| && now in Written(part, before, pos + done, next - done)
    requires left == unread || (unread == before && left == now && rpos == pos)
    ensures left in Readable(src, rpos, next)
  {
  }

  /** `out` may be `data` itself when both start at the same index: encryption in place. */
  ghost predicate MayAlias(data: array<bv8>, dataPos: nat, out: array<bv8>, outPos: nat) {
    data == out ==> dataPos == outPos
  }

  function Xored(s: Bytes, k: Bytes): (r: Bytes)
    requires |s| == |k|
    ensures |r| == |s|
  {
    seq(|s|, i requires 0 <= i < |s| => s[i] ^ k[i])
  }

  /** One batch: XOR `count` bytes with the keystream bytes from `keyIndex` on. */
  method XorBatch(data: array<bv8>, dataPos: nat, out: array<bv8>, outPos: nat, key: array<bv8>, keyIndex: nat,
                  count: nat)
    requires dataPos + count <= data.Length && outPos + count <= out.Length && keyIndex + count <= key.Length
    requires MayAlias(data, dataPos, out, outPos) && key != out && key != data
    modifies out
    ensures out[..] in
      Written(Xored(old(data[dataPos..dataPos+count]), key[keyIndex..keyIndex+count]), old(out[..]), outPos, count)
  {
    ghost var src, was, ks := data[dataPos..dataPos+count], out[..], key[keyIndex..keyIndex+count];
    ghost var want := Xored(src, ks);
    NoneWritten(want, was, outPos);
    AllReadable(data[..], dataPos, count);
    for i := 0 to count
      invariant out[..] in Written(want, was, outPos, i)
      invariant data[..] in Readable(src, dataPos, i)
      invariant key[keyIndex..keyIndex+count] == ks
    {
      ghost var before, unread := out[..], data[..];
      NextReadable(data[..], src, dataPos, i);
      assert key[keyIndex + i] == ks[i];
      out[outPos + i] := data[dataPos + i] ^ key[keyIndex + i];
      assert out[..] == before[outPos + i := want[i]];
      OneWritten(want, was, before, outPos, i);
      if data == out {
        StillReadable(unread, want[i], src, dataPos, i);
      } else {
        assert data[..] == unread;
      }
    }
  }

  /** One round of the batch loop: bytes `done` up to `done + bytes`, whose keystream starts at
      byte `skip` of block `batchStart`. */
  method CryptBatch(e: Cipher, start: nat, data: array<bv8>, dataPos: nat, out: array<bv8>, outPos: nat,
                    encKey: array<bv8>, batchStart: nat, batchEnd: nat, skip: nat, bytes: nat, ghost src: Bytes)
    requires IsBlockCipher(e) && batchStart <= batchEnd <= MAX_AES_BLOCKS
    requires batchEnd - batchStart <= NUM_AES_BLOCKS_IN_BATCH && encKey.Length == DATA_BYTES_PER_AES_BATCH
    requires skip + bytes <= 16 * (batchEnd - batchStart) && 16 * batchStart + skip == start
    requires dataPos + bytes <= data.Length && outPos + bytes <= out.Length
    requires MayAlias(data, dataPos, out, outPos) && encKey != out && encKey != data
    requires src == data[dataPos..dataPos+bytes]
    modifies out, encKey
    ensures out[..] in Written(Crypted(e, start, src), old(out[..]), outPos, bytes)
    ensures data != out ==> data[..] == old(data[..])
  {
    EncryptedZeroBlocks(e, batchStart, batchEnd, encKey);
    ghost var key := encKey[skip..skip+bytes];
    forall i | 0 <= i < bytes ensures key[i] == KeyByte(e, start + i) {
      assert encKey[skip + i] == KeyByte(e, 16 * batchStart + (skip + i));
    }
    assert Xored(src, key) == Crypted(e, start, src);
    XorBatch(data, dataPos, out, outPos, encKey, skip, bytes);
  }

  /** How far the batch loop has come: `done` bytes, and block `batchStart` is next. */
  predicate AtBatch(start: nat, len: nat, batchNo: nat, batchStart: nat, done: nat) {
    && done <= len
    && (batchNo == 0 ==> batchStart == start / 16 && done == 0)
    && (batchNo > 0 ==>
        start <= 16 * batchStart && (done == 16 * batchStart - start ||
                                     (done == len && start + len <= 16 * batchStart)))
  }

  function BatchEnd(start: nat, len: nat, batchStart: nat): nat {
    var endBlock := (start + len + 15) / 16;
    if batchStart + NUM_AES_BLOCKS_IN_BATCH <= endBlock then batchStart + NUM_AES_BLOCKS_IN_BATCH else endBlock
  }

  /** The geometry of one batch: the keystream bytes used are the ones at the data's own file
      positions, no byte is skipped and none is done twice. */
  lemma NextBatch(start: nat, len: nat, batchNo: nat, batchStart: nat, done: nat, skip: nat, bytes: nat)
    requires AtBatch(start, len, batchNo, batchStart, done) && batchStart < (start + len + 15) / 16
    requires skip == if batchNo > 0 then 0 else start % 16
    requires var whole := (BatchEnd(start, len, batchStart) - batchStart) * 16 - skip;
      bytes == if done + whole > len then len - done else whole
    ensures batchStart <= BatchEnd(start, len, batchStart) <= batchStart + NUM_AES_BLOCKS_IN_BATCH
    ensures skip + bytes <= 16 * (BatchEnd(start, len, batchStart) - batchStart)
    ensures 16 * batchStart + skip == start + done
    ensures AtBatch(start, len, batchNo + 1, batchStart + NUM_AES_BLOCKS_IN_BATCH, done + bytes)
    ensures batchStart + NUM_AES_BLOCKS_IN_BATCH >= (start + len + 15) / 16 ==> done + bytes == len
  {
  }

  /** pg_tde_crypt: encrypt or decrypt `len` bytes that lie at file position `start`. */
  method Crypt(e: Cipher, start: nat, data: array<bv8>, dataPos: nat, len: nat, out: array<bv8>, outPos: nat)
    requires IsBlockCipher(e) && (start + len + 15) / 16 <= MAX_AES_BLOCKS
    requires dataPos + len <= data.Length && outPos + len <= out.Length
    requires MayAlias(data, dataPos, out, outPos)
    modifies out
    ensures out[..] == old(out[..outPos]) + Crypted(e, start, old(data[dataPos..dataPos+len])) + old(out[outPos+len..])
  {
    var startBlock := start / 16;
    var endBlock := (start + len + 15) / 16;
    ghost var src, was := data[dataPos..dataPos+len], out[..];
    ghost var want := Crypted(e, start, src);
    NoneWritten(want, was, outPos);
    AllReadable(data[..], dataPos, len);
    var encKey := new bv8[DATA_BYTES_PER_AES_BATCH];
    var batchNo: nat, done: nat, batchStart: nat := 0, 0, startBlock;
    while batchStart < endBlock
      invariant AtBatch(start, len, batchNo, batchStart, done)
      invariant batchStart >= endBlock ==> done == len
      invariant out[..] in Written(want, was, outPos, done)
      invariant data[..] in Readable(src, dataPos, done)
    {
      done := CryptNextBatch(e, start, data, dataPos, len, out, outPos, encKey, batchNo, batchStart, done, src, was);
      batchNo := batchNo + 1;
      batchStart := batchStart + NUM_AES_BLOCKS_IN_BATCH;
    }
    AllWritten(want, was, out[..], outPos);
  }

  /** The body of the batch loop. */
  method CryptNextBatch(e: Cipher, start: nat, data: array<bv8>, dataPos: nat, len: nat, out: array<bv8>, outPos: nat,
                        encKey: array<bv8>, batchNo: nat, batchStart: nat, done: nat, ghost src: Bytes,
                        ghost was: Bytes)
    returns (done': nat)
    requires IsBlockCipher(e) && (start + len + 15) / 16 <= MAX_AES_BLOCKS && encKey.Length == DATA_BYTES_PER_AES_BATCH
    requires len == |src| && MayAlias(data, dataPos, out, outPos) && encKey != out && encKey != data
    requires AtBatch(start, len, batchNo, batchStart, done) && batchStart < (start + len + 15) / 16
    requires outPos + |src| <= |was| && out[..] in Written(Crypted(e, start, src), was, outPos, done)
    requires data[..] in Readable(src, dataPos, done)
    modifies out, encKey
    ensures AtBatch(start, len, batchNo + 1, batchStart + NUM_AES_BLOCKS_IN_BATCH, done')
    ensures batchStart + NUM_AES_BLOCKS_IN_BATCH >= (start + len + 15) / 16 ==> done' == len
    ensures done' <= |src| && out[..] in Written(Crypted(e, start, src), was, outPos, done')
    ensures data[..] in Readable(src, dataPos, done')
  {
    var endBlock := (start + len + 15) / 16;
    var batchEnd := if batchStart + NUM_AES_BLOCKS_IN_BATCH <= endBlock then batchStart + NUM_AES_BLOCKS_IN_BATCH
      else endBlock;
    var skip := if batchNo > 0 then 0 else start % 16;   // the first batch skips part of a block
    var bytes := (batchEnd - batchStart) * 16 - skip;
    if done + bytes > len {
      bytes := len - done;
    }
    NextBatch(start, len, batchNo, batchStart, done, skip, bytes);
    done' := done + bytes;
    CryptRange(e, start, data, dataPos, out, outPos, encKey, batchStart, batchEnd, skip, done, done', src, was);
  }

  /** The part of the output that is done grows by one batch, from `done` to `next`. */
  method CryptRange(e: Cipher, start: nat, data: array<bv8>, dataPos: nat, out: array<bv8>, outPos: nat,
                    encKey: array<bv8>, batchStart: nat, batchEnd: nat, skip: nat, done: nat, next: nat,
                    ghost src: Bytes, ghost was: Bytes)
    requires IsBlockCipher(e) && batchStart <= batchEnd <= MAX_AES_BLOCKS && done <= next <= |src|
    requires batchEnd - batchStart <= NUM_AES_BLOCKS_IN_BATCH && encKey.Length == DATA_BYTES_PER_AES_BATCH
    requires skip + (next - done) <= 16 * (batchEnd - batchStart) && 16 * batchStart + skip == start + done
    requires MayAlias(data, dataPos, out, outPos) && encKey != out && encKey != data
    requires outPos + |src| <= |was| && out[..] in Written(Crypted(e, start, src), was, outPos, done)
    requires data[..] in Readable(src, dataPos, done)
    modifies out, encKey
    ensures out[..] in Written(Crypted(e, start, src), was, outPos, next)
    ensures data[..] in Readable(src, dataPos, next)
  {
    ghost var before, unread := out[..], data[..];
    Advance(unread, src, dataPos, done, next);
    CryptCommutesWithSlicing(e, start, src, done, next);
    CryptBatch(e, start + done, data, dataPos + done, out, outPos + done, encKey, batchStart, batchEnd, skip,
               next - done, src[done..next]);
    StillUnread(Crypted(e, start + done, src[done..next]), before, out[..], outPos, src, unread, data[..], dataPos,
                done, next);
    MoreWritten(Crypted(e, start, src), Crypted(e, start + done, src[done..next]), was, before, out[..], outPos, done,
                next);
  }

  // --------------------------------------------------------------- pg_tde_move_encrypted_data

  /** Ciphertext of position `from`, re-encrypted for position `to`. */
  function ReEncrypted(e: Cipher, from: nat, to: nat, c: Bytes): (r: Bytes)
    requires IsBlockCipher(e)
    ensures |r| == |c|
  {
    Crypted(e, to, Crypted(e, from, c))
  }

  /** Any part of it is re-encrypted on its own. */
  lemma ReEncryptedPart(e: Cipher, from: nat, to: nat, c: Bytes, a: nat, b: nat)
    requires IsBlockCipher(e) && a <= b <= |c|
    ensures ReEncrypted(e, from, to, c)[a..b] == ReEncrypted(e, from + a, to + a, c[a..b])
  {
    CryptCommutesWithSlicing(e, to, Crypted(e, from, c), a, b);
    CryptCommutesWithSlicing(e, from, c, a, b);
  }

  /** pg_tde_move_encrypted_data: re-encrypt `len` bytes from file position `from` for file
      position `to`, possibly in place. */
  method MoveEncryptedData(e: Cipher, from: nat, rdata: array<bv8>, rpos: nat, to: nat, wdata: array<bv8>, wpos: nat,
                           len: nat)
    requires IsBlockCipher(e) && (from + len + 15) / 16 <= MAX_AES_BLOCKS && (to + len + 15) / 16 <= MAX_AES_BLOCKS
    requires rpos + len <= rdata.Length && wpos + len <= wdata.Length
    requires MayAlias(rdata, rpos, wdata, wpos)
    modifies wdata
    ensures wdata[..] == old(wdata[..wpos]) + ReEncrypted(e, from, to, old(rdata[rpos..rpos+len])) +
      old(wdata[wpos+len..])
  {
    ghost var src, was := rdata[rpos..rpos+len], wdata[..];
    ghost var want := ReEncrypted(e, from, to, src);
    NoneWritten(want, was, wpos);
    AllReadable(rdata[..], rpos, len);
    MoveBatches(e, from, rdata, rpos, to, wdata, wpos, len, src, was);
    AllWritten(want, was, wdata[..], wpos);
  }

  method MoveBatches(e: Cipher, from: nat, rdata: array<bv8>, rpos: nat, to: nat, wdata: array<bv8>, wpos: nat,
                     len: nat, ghost src: Bytes, ghost was: Bytes)
    requires IsBlockCipher(e) && (from + len + 15) / 16 <= MAX_AES_BLOCKS && (to + len + 15) / 16 <= MAX_AES_BLOCKS
    requires MayAlias(rdata, rpos, wdata, wpos) && len == |src| && wpos + len <= |was|
    requires wdata[..] in Written(ReEncrypted(e, from, to, src), was, wpos, 0) && rdata[..] in Readable(src, rpos, 0)
    modifies wdata
    ensures wdata[..] in Written(ReEncrypted(e, from, to, src), was, wpos, len)
  {
    var decrypted := new bv8[DATA_BYTES_PER_AES_BATCH];
    var cur: nat, left: nat := 0, len;
    while left > 0
      invariant cur + left == len
      invariant wdata[..] in Written(ReEncrypted(e, from, to, src), was, wpos, cur)
      invariant rdata[..] in Readable(src, rpos, cur)
    {
      var n := if DATA_BYTES_PER_AES_BATCH <= len then DATA_BYTES_PER_AES_BATCH else len;
      n := if n <= left then n else left;
      MoveRange(e, from, rdata, rpos, to, wdata, wpos, decrypted, cur, cur + n, src, was);
      cur := cur + n;
      left := left - n;
    }
  }

  /** One round of the loop: bytes `cur` up to `next` are re-encrypted through the buffer. */
  method MoveRange(e: Cipher, from: nat, rdata: array<bv8>, rpos: nat, to: nat, wdata: array<bv8>, wpos: nat,
                   decrypted: array<bv8>, cur: nat, next: nat, ghost src: Bytes, ghost was: Bytes)
    requires IsBlockCipher(e) && (from + next + 15) / 16 <= MAX_AES_BLOCKS && (to + next + 15) / 16 <= MAX_AES_BLOCKS
    requires cur <= next <= |src| && next - cur <= decrypted.Length
    requires MayAlias(rdata, rpos, wdata, wpos) && decrypted != rdata && decrypted != wdata
    requires wpos + |src| <= |was| && wdata[..] in Written(ReEncrypted(e, from, to, src), was, wpos, cur)
    requires rdata[..] in Readable(src, rpos, cur)
    modifies wdata, decrypted
    ensures wdata[..] in Written(ReEncrypted(e, from, to, src), was, wpos, next)
    ensures rdata[..] in Readable(src, rpos, next)
  {
    ghost var before, unread := wdata[..], rdata[..];
    Advance(unread, src, rpos, cur, next);
    ReEncryptedPart(e, from, to, src, cur, next);
    RecryptPart(e, from + cur, rdata, rpos + cur, to + cur, wdata, wpos + cur, next - cur, decrypted, src[cur..next]);
    StillUnread(ReEncrypted(e, from + cur, to + cur, src[cur..next]), before, wdata[..], wpos, src, unread, rdata[..],
                rpos, cur, next);
    MoreWritten(ReEncrypted(e, from, to, src), ReEncrypted(e, from + cur, to + cur, src[cur..next]), was, before,
                wdata[..], wpos, cur, next);
  }

  /** Decrypt `n` bytes into the buffer and encrypt them from there. */
  method RecryptPart(e: Cipher, from: nat, rdata: array<bv8>, rpos: nat, to: nat, wdata: array<bv8>, wpos: nat, n: nat,
                     decrypted: array<bv8>, ghost c: Bytes)
    requires IsBlockCipher(e) && (from + n + 15) / 16 <= MAX_AES_BLOCKS && (to + n + 15) / 16 <= MAX_AES_BLOCKS
    requires rpos + n <= rdata.Length && wpos + n <= wdata.Length && n <= decrypted.Length
    requires decrypted != rdata && decrypted != wdata && c == rdata[rpos..rpos+n]
    modifies wdata, decrypted
    ensures wdata[..] in Written(ReEncrypted(e, from, to, c), old(wdata[..]), wpos, n)
    ensures rdata != wdata ==> rdata[..] == old(rdata[..])
  {
    ghost var was := wdata[..];
    Crypt(e, from, rdata, rpos, n, decrypted, 0);
    assert decrypted[0..n] == Crypted(e, from, c);
    Crypt(e, to, decrypted, 0, n, wdata, wpos);
    AllWritten(ReEncrypted(e, from, to, c), was, wdata[..], wpos);
  }

  // --------------------------------------------------------------- tuples

  /** File position of a page offset.  The source computes `bn * BLCKSZ` in 32 bits. */
  function FileOffset(bn: nat, off: nat): (r: nat)
    ensures off <= r < 0x1_0000_0000 + off
  {
    bn * BLCKSZ % 0x1_0000_0000 + off
  }

  /** Two places of a relation have the same file position, and with it the same keystream, if and only if
      they have the same offset in blocks that are a multiple of 2^19 apart. */
  lemma SamePositionIff(bn: nat, off: nat, bn': nat, off': nat)
    requires off < BLCKSZ && off' < BLCKSZ
    ensures FileOffset(bn, off) == FileOffset(bn', off') <==> off == off' && bn % 524288 == bn' % 524288
  {
    BlockPosition(bn);
    BlockPosition(bn');
  }

  lemma BlockPosition(bn: nat)
    ensures bn * BLCKSZ % 0x1_0000_0000 == bn % 524288 * BLCKSZ
  {
    var q, r := bn / 524288, bn % 524288;
    assert bn * BLCKSZ == q * 0x1_0000_0000 + r * BLCKSZ;
    RemainderIs(bn * BLCKSZ, 0x1_0000_0000, q, r * BLCKSZ);
  }

  lemma RemainderIs(x: nat, d: nat, q: nat, r: nat)
    requires x == q * d + r && r < d
    ensures x % d == r
  {
    DivUnique(x, d, q, r);
  }

  /** So block 0 and the block 4 GB behind it are encrypted with the same bytes. */
  lemma PositionsRepeat(e: Cipher, off: nat, s: Bytes)
    requires IsBlockCipher(e)
    ensures FileOffset(524288, off) == FileOffset(0, off)
    ensures Crypted(e, FileOffset(524288, off), s) == Crypted(e, FileOffset(0, off), s)
  {
  }

  /** A tuple as it is stored at page offset `off` of block `bn`: the header is left alone, the
      data behind it is encrypted from the position of the tuple's start. */
  function OnPage(e: Cipher, bn: nat, off: nat, tuple: Bytes, hoff: nat): (r: Bytes)
    requires IsBlockCipher(e) && hoff <= |tuple|
    ensures |r| == |tuple|
  {
    tuple[..hoff] + Crypted(e, FileOffset(bn, off), tuple[hoff..])
  }

  /** Storing a tuple (PGTdePageAddItemExtended) and reading it back (pg_tde_crypt_tuple) at the
      same place returns it, header and data. */
  lemma StoreThenRead(e: Cipher, bn: nat, off: nat, tuple: Bytes, hoff: nat)
    requires IsBlockCipher(e) && hoff <= |tuple|
    ensures OnPage(e, bn, off, OnPage(e, bn, off, tuple, hoff), hoff) == tuple
  {
  }

  /** A tuple image whose data part alone was crypted is the image as it is on the page. */
  lemma Assemble(e: Cipher, bn: nat, off: nat, image: Bytes, hoff: nat, before: Bytes, after: Bytes, now: Bytes)
    requires IsBlockCipher(e) && hoff <= |image|
    requires now == (before + image[..hoff]) + Crypted(e, FileOffset(bn, off), image[hoff..]) + after
    ensures now == before + OnPage(e, bn, off, image, hoff) + after
  {
  }

  /** Copy `n` bytes between distinct buffers (memcpy). */
  method CopyBytes(src: array<bv8>, from: nat, dst: array<bv8>, to: nat, n: nat)
    requires src != dst && from + n <= src.Length && to + n <= dst.Length
    modifies dst
    ensures dst[..] == old(dst[..to]) + src[from..from+n] + old(dst[to+n..])
  {
    ghost var was := dst[..];
    for i := 0 to n
      invariant forall k :: 0 <= k < dst.Length ==> dst[k] == if to <= k < to + i then src[from + (k - to)] else was[k]
    {
      dst[to + i] := src[from + i];
    }
  }

  /** PGTdePageAddItemExtended: store `item` at `upper` and encrypt what follows its header. */
  method AddItem(e: Cipher, bn: nat, page: array<bv8>, upper: nat, item: array<bv8>, hoff: nat)
    requires IsBlockCipher(e) && page != item && hoff <= item.Length && upper + item.Length <= page.Length <= BLCKSZ
    modifies page
    ensures page[..] == old(page[..upper]) + OnPage(e, bn, upper, item[..], hoff) + old(page[upper+item.Length..])
  {
    ghost var was := page[..];
    CopyBytes(item, 0, page, upper, item.Length);
    ghost var mid := page[..];
    Crypt(e, FileOffset(bn, upper), item, hoff, item.Length - hoff, page, upper + hoff);
    assert mid[..upper+hoff] == was[..upper] + item[..hoff];
    assert mid[upper+item.Length..] == was[upper+item.Length..];
    assert item[hoff..hoff+(item.Length-hoff)] == item[..][hoff..];
    Assemble(e, bn, upper, item[..], hoff, was[..upper], was[upper+item.Length..], page[..]);
  }

  /** pg_tde_crypt_tuple, reading: copy the tuple at `off` out of the page and decrypt it. */
  method ReadTuple(e: Cipher, bn: nat, page: array<bv8>, off: nat, len: nat, hoff: nat) returns (tuple: array<bv8>)
    requires IsBlockCipher(e) && off + len <= page.Length <= BLCKSZ && hoff <= len
    ensures fresh(tuple) && tuple[..] == OnPage(e, bn, off, page[off..off+len], hoff)
  {
    tuple := new bv8[len];
    CopyBytes(page, off, tuple, 0, len);
    assert tuple[..hoff] == page[off..off+len][..hoff];
    DecryptData(e, FileOffset(bn, off), page, off + hoff, tuple, hoff);
    ReadBack(e, bn, off, page[..], len, hoff, tuple[..]);
  }

  lemma ReadBack(e: Cipher, bn: nat, off: nat, page: Bytes, len: nat, hoff: nat, tuple: Bytes)
    requires IsBlockCipher(e) && off + len <= |page| && hoff <= len == |tuple|
    requires tuple[..hoff] == page[off..off+len][..hoff] &&
      tuple[hoff..] == Crypted(e, FileOffset(bn, off), page[off+hoff..off+len])
    ensures tuple == OnPage(e, bn, off, page[off..off+len], hoff)
  {
  }

  method DecryptData(e: Cipher, start: nat, page: array<bv8>, from: nat, tuple: array<bv8>, hoff: nat)
    requires IsBlockCipher(e) && tuple != page && hoff <= tuple.Length && from + (tuple.Length - hoff) <= page.Length
    requires (start + tuple.Length - hoff + 15) / 16 <= MAX_AES_BLOCKS
    modifies tuple
    ensures tuple[..hoff] == old(tuple[..hoff])
    ensures tuple[hoff..] == Crypted(e, start, page[from..from+(tuple.Length-hoff)])
  {
    Crypt(e, start, page, from, tuple.Length - hoff, tuple, hoff);
  }
}
