/** Out-of-line values: encrypted from offset 0 on before they are cut into chunks, and decrypted
    chunk by chunk when a slice of them is fetched. */
module Toast {
  import opened Crypt
  import CompactSafety

  const TOAST_MAX_CHUNK_SIZE: nat := 1996
  const COMPRESS_HEADER: nat := 4
  const MAX_SIZE: nat := 0x4000_0000

  datatype Kind = Plain | Short | Compressed

  datatype FetchError = UnexpectedChunk | ChunkOutOfRange | UnexpectedSize | MissingChunk

  datatype Outcome = Fetched | Failed(error: FetchError)

  /** A row of the toast table: a chunk's number and data. */
  datatype Row = Row(number: nat, data: Bytes)

  /** What is stored of a value: a compressed one keeps its compression header. */
  function Stored(e: Cipher, kind: Kind, plain: Bytes): Bytes
    requires IsBlockCipher(e) && (kind.Compressed? ==> COMPRESS_HEADER <= |plain|)
  {
    if kind.Compressed? then plain[..COMPRESS_HEADER] + Crypted(e, 0, plain[COMPRESS_HEADER..])
      else Crypted(e, 0, plain)
  }

  /** What fetching the slice from `off` on, `len` bytes long, makes of what is stored: the keystream
      starts at the slice, not at the value. */
  function SliceByte(e: Cipher, kind: Kind, value: Bytes, off: nat, i: int): bv8
    requires IsBlockCipher(e) && 0 <= i && off + i < |value|
  {
    if !kind.Compressed? then value[off+i] ^ KeyByte(e, i)
    else if i < COMPRESS_HEADER then value[off+i]
    else value[off+i] ^ KeyByte(e, i - COMPRESS_HEADER)
  }

  function Slice(e: Cipher, kind: Kind, value: Bytes, off: nat, len: nat): (r: Bytes)
    requires IsBlockCipher(e) && off + len <= |value|
    ensures |r| == len
  {
    seq(len, i requires 0 <= i < len => SliceByte(e, kind, value, off, i))
  }

  /** A prefix comes back as it was, whatever the kind and however many chunks it spans. */
  lemma PrefixRoundTrip(e: Cipher, kind: Kind, plain: Bytes, len: nat)
    requires IsBlockCipher(e) && (kind.Compressed? ==> COMPRESS_HEADER <= |plain|) && len <= |plain|
    ensures Slice(e, kind, Stored(e, kind, plain), 0, len) == plain[..len]
  {
  }

  lemma XorTwice(x: bv8, k: bv8)
    ensures (x ^ k) ^ k == x && (x ^ 0) ^ 1 != x
  {
  }

  /** A slice of an uncompressed value that does not start at 0 reads right only by accident. */
  lemma SliceIsRightIff(wide: WideShift, kind: Kind, plain: Bytes, off: nat, len: nat)
    requires !kind.Compressed? && 0 < len && off + len <= |plain| < MAX_SIZE
    ensures (forall e :: IsBlockCipher(e) && e.wide == wide ==>
              Slice(e, kind, Stored(e, kind, plain), off, len) == plain[off..off+len]) <==> off == 0
  {
    if off == 0 {
      forall e | IsBlockCipher(e) && e.wide == wide
        ensures Slice(e, kind, Stored(e, kind, plain), off, len) == plain[off..off+len]
      {
        PrefixRoundTrip(e, kind, plain, len);
      }
    } else {
      var e := CompactSafety.UnitCipher(wide, 0);
      CompactSafety.UnitKeyByte(wide, 0, 0);
      CompactSafety.UnitKeyByte(wide, 0, off);
      var s := Slice(e, kind, Stored(e, kind, plain), off, len);
      XorTwice(plain[off], 0);
      assert s[0] == (plain[off] ^ 0) ^ 1;
      assert s[0] != plain[off..off+len][0];
    }
  }

  /** pg_tde_toast_tuple_externalize: encrypt the datum in place. */
  method Externalize(e: Cipher, kind: Kind, datum: array<bv8>)
    requires IsBlockCipher(e) && (kind.Compressed? ==> COMPRESS_HEADER <= datum.Length) && datum.Length <= MAX_SIZE
    modifies datum
    ensures datum[..] == Stored(e, kind, old(datum[..]))
  {
    var from := if kind.Compressed? then COMPRESS_HEADER else 0;
    var size := datum.Length - from;
    var encrypted := new bv8[size];
    ghost var was := datum[..];
    Crypt.Crypt(e, 0, datum, from, size, encrypted, 0);
    assert encrypted[0..0+size] == Crypted(e, 0, was[from..]);
    CopyBytes(encrypted, 0, datum, from, size);
    assert datum[..] == was[..from] + Crypted(e, 0, was[from..]);
  }

  function ChunkCount(size: nat): nat
    requires size > 0
  {
    (size - 1) / TOAST_MAX_CHUNK_SIZE + 1
  }

  function ChunkSize(size: nat, n: nat): nat
    requires size > 0 && n < ChunkCount(size)
  {
    if n < ChunkCount(size) - 1 then TOAST_MAX_CHUNK_SIZE else size - (ChunkCount(size) - 1) * TOAST_MAX_CHUNK_SIZE
  }

  /** The rows are the chunks asked for, in order. */
  predicate RowsFit(rows: seq<Row>, size: nat, first: nat, last: nat)
    requires size > 0 && last < ChunkCount(size)
  {
    |rows| == last + 1 - first && forall i :: 0 <= i < |rows| ==> RowFits(rows[i], size, first + i)
  }

  predicate RowFits(row: Row, size: nat, n: nat)
    requires size > 0
  {
    row.number == n && n < ChunkCount(size) && |row.data| == ChunkSize(size, n)
  }

  /** The toast table holds pieces of this value only. */
  ghost predicate RowsOf(rows: seq<Row>, value: Bytes) {
    forall i :: 0 <= i < |rows| ==> RowOf(rows[i], value)
  }

  ghost predicate RowOf(row: Row, value: Bytes) {
    var at := row.number * TOAST_MAX_CHUNK_SIZE;
    at + |row.data| <= |value| ==> row.data == value[at..at+|row.data|]
  }

  /** How much of the slice is done once chunks below `n` are. */
  function Done(n: nat, first: nat, off: nat, len: nat): nat
    requires n >= first && first == off / TOAST_MAX_CHUNK_SIZE
  {
    if n == first then 0 else var d := n * TOAST_MAX_CHUNK_SIZE - off; if d < len then d else len
  }

  /** The part of chunk `n` that the slice needs: from StartIn to EndIn, the latter included. */
  function StartIn(n: nat, first: nat, off: nat): nat {
    if n == first then off % TOAST_MAX_CHUNK_SIZE else 0
  }

  function EndIn(n: nat, last: nat, off: nat, len: nat, size: nat): int
    requires 0 < len
  {
    if n == last then (off + len - 1) % TOAST_MAX_CHUNK_SIZE else size - 1
  }

  /** The parts that chunks contribute to a slice lie end to end. */
  lemma PartsMeet(n: nat, first: nat, last: nat, off: nat, len: nat, total: nat)
    requires 0 < len && off + len <= total && first == off / TOAST_MAX_CHUNK_SIZE &&
      last == (off + len - 1) / TOAST_MAX_CHUNK_SIZE
    requires first <= n <= last && n < ChunkCount(total)
    ensures var at, size := n * TOAST_MAX_CHUNK_SIZE, ChunkSize(total, n);
      && at + StartIn(n, first, off) == off + Done(n, first, off, len)
      && at + EndIn(n, last, off, len, size) + 1 == off + Done(n + 1, first, off, len)
      && StartIn(n, first, off) <= EndIn(n, last, off, len, size) < size &&
           Done(n, first, off, len) <= Done(n + 1, first, off, len) <= len
      && at + size <= total && size <= TOAST_MAX_CHUNK_SIZE
  {
  }

  /** Where the keystream for byte `pos` of the slice starts. */
  function KeyPos(kind: Kind, pos: nat): nat
    requires kind.Compressed? ==> COMPRESS_HEADER <= pos
  {
    if kind.Compressed? then pos - COMPRESS_HEADER else pos
  }

  lemma SliceIsCrypted(e: Cipher, kind: Kind, value: Bytes, off: nat, pos: nat, i: nat, key: nat)
    requires IsBlockCipher(e) && off + pos + i < |value|
    requires (kind.Compressed? ==> COMPRESS_HEADER <= pos) && key == KeyPos(kind, pos)
    ensures SliceByte(e, kind, value, off, pos + i) == value[off + pos + i] ^ KeyByte(e, key + i)
  {
  }

  /** Decrypting a stretch of what is stored gives the same stretch of the slice. */
  lemma DecryptedPart(e: Cipher, kind: Kind, value: Bytes, off: nat, len: nat, pos: nat, n: nat)
    requires IsBlockCipher(e) && off + len <= |value| && pos + n <= len && (kind.Compressed? ==> COMPRESS_HEADER <= pos)
    ensures Crypted(e, KeyPos(kind, pos), value[off+pos..off+pos+n]) == Slice(e, kind, value, off, len)[pos..pos+n]
  {
    var key := KeyPos(kind, pos);
    var a, b := Crypted(e, key, value[off+pos..off+pos+n]), Slice(e, kind, value, off, len)[pos..pos+n];
    forall i | 0 <= i < n ensures a[i] == b[i] {
      SliceIsCrypted(e, kind, value, off, pos, i, key);
    }
  }

  /** Decrypt what the slice needs of one chunk into its place. */
  method CopyChunk(e: Cipher, kind: Kind, row: Row, off: nat, len: nat, first: nat, last: nat, result: array<bv8>,
                   ghost value: Bytes)
    requires IsBlockCipher(e) && RowOf(row, value) && 0 < len == result.Length && off + len <= |value| <= MAX_SIZE
    requires kind.Compressed? ==> off == 0 && COMPRESS_HEADER <= len
    requires first == off / TOAST_MAX_CHUNK_SIZE && last == (off + len - 1) / TOAST_MAX_CHUNK_SIZE
    requires first <= row.number <= last && |row.data| == ChunkSize(|value|, row.number)
    requires result[..Done(row.number, first, off, len)] ==
      Slice(e, kind, value, off, len)[..Done(row.number, first, off, len)]
    modifies result
    ensures result[..Done(row.number + 1, first, off, len)] ==
      Slice(e, kind, value, off, len)[..Done(row.number + 1, first, off, len)]
  {
    PartsMeet(row.number, first, last, off, len, |value|);
    var at := row.number * TOAST_MAX_CHUNK_SIZE;
    var chunk := new bv8[|row.data|](i requires 0 <= i < |row.data| => row.data[i]);
    assert chunk[..] == row.data;
    var start, end := StartIn(row.number, first, off), EndIn(row.number, last, off, len, |row.data|);
    var encryptOffset: int := start;
    if kind.Compressed? {
      if row.number == 0 {
        CopyHeader(e, chunk, result, kind, len, value);
        start := COMPRESS_HEADER;
      } else {
        encryptOffset := encryptOffset - COMPRESS_HEADER;
      }
    }
    FinishChunk(e, kind, chunk, row.data, at, off, len, start, end - start + 1, at - off + start,
                at - off + encryptOffset, result, value);
  }

  /** Decrypt the rest of the chunk, with which so much more of the slice is right. */
  method FinishChunk(e: Cipher, kind: Kind, chunk: array<bv8>, data: Bytes, ghost at: nat, off: nat, len: nat,
                     start: nat, n: nat, pos: nat, key: nat, result: array<bv8>, ghost value: Bytes)
    requires IsBlockCipher(e) && off + len <= |value| <= MAX_SIZE && pos + n <= len == result.Length
    requires chunk[..] == data && |data| <= TOAST_MAX_CHUNK_SIZE && start + n <= |data|
    requires at + |data| <= |value| && data == value[at..at+|data|] && off + pos == at + start
    requires (kind.Compressed? ==> COMPRESS_HEADER <= pos) && key == KeyPos(kind, pos)
    requires result[..pos] == Slice(e, kind, value, off, len)[..pos]
    modifies result
    ensures result[..pos+n] == Slice(e, kind, value, off, len)[..pos+n]
  {
    ghost var goal := Slice(e, kind, value, off, len);
    DecryptRest(e, key, chunk, start, n, result, pos, data);
    assert result[..pos+n] == goal[..pos] + Crypted(e, key, data[start..start+n]);
    assert Crypted(e, key, data[start..start+n]) == goal[pos..pos+n] by {
      SubRange(value, at, |data|, start, start + n);
      DecryptedPart(e, kind, value, off, len, pos, n);
    }
    assert goal[..pos] + goal[pos..pos+n] == goal[..pos+n];
  }

  lemma SubRange(s: Bytes, at: nat, size: nat, a: nat, b: nat)
    requires at + size <= |s| && a <= b <= size
    ensures s[at..at+size][a..b] == s[at+a..at+b]
  {
    assert s[at..at+size] + s[at+size..] == s[at..];
  }

  /** The compression header is not encrypted. */
  method CopyHeader(e: Cipher, chunk: array<bv8>, result: array<bv8>, kind: Kind, len: nat, ghost value: Bytes)
    requires IsBlockCipher(e) && kind.Compressed? && COMPRESS_HEADER <= len == result.Length <= |value|
    requires chunk.Length <= |value| && chunk[..] == value[..chunk.Length] && COMPRESS_HEADER <= chunk.Length &&
      chunk != result
    modifies result
    ensures result[..COMPRESS_HEADER] == Slice(e, kind, value, 0, len)[..COMPRESS_HEADER]
  {
    CopyBytes(chunk, 0, result, 0, COMPRESS_HEADER);
    assert chunk[0..COMPRESS_HEADER] == value[..COMPRESS_HEADER];
  }

  method DecryptRest(e: Cipher, at: nat, chunk: array<bv8>, start: nat, n: nat, result: array<bv8>, pos: nat,
                     ghost data: Bytes)
    requires IsBlockCipher(e) && (at + n + 15) / 16 <= MAX_AES_BLOCKS &&
      start + n <= chunk.Length <= TOAST_MAX_CHUNK_SIZE && pos + n <= result.Length && chunk[..] == data
    modifies result
    ensures result[..pos+n] == old(result[..pos]) + Crypted(e, at, data[start..start+n])
  {
    assert chunk[start..start+n] == data[start..start+n];
    var decrypted := new bv8[TOAST_MAX_CHUNK_SIZE];
    Crypt.Crypt(e, at, chunk, start, n, decrypted, 0);
    CopyBytes(decrypted, 0, result, pos, n);
  }

  /** pg_tde_fetch_toast_slice: check each row, and take from it what the slice needs. */
  method FetchSlice(e: Cipher, kind: Kind, rows: seq<Row>, size: nat, off: nat, len: nat, result: array<bv8>,
                    ghost value: Bytes)
    returns (r: Outcome)
    requires IsBlockCipher(e) && |value| == size <= MAX_SIZE && RowsOf(rows, value)
    requires 0 < len == result.Length && off + len <= size && (kind.Compressed? ==> off == 0 && COMPRESS_HEADER <= len)
    modifies result
    ensures r.Fetched? <==> RowsFit(rows, size, off / TOAST_MAX_CHUNK_SIZE, (off + len - 1) / TOAST_MAX_CHUNK_SIZE)
    ensures r.Fetched? ==> result[..] == Slice(e, kind, value, off, len)
  {
    var total := ChunkCount(size);
    var first, last := off / TOAST_MAX_CHUNK_SIZE, (off + len - 1) / TOAST_MAX_CHUNK_SIZE;
    for i := 0 to |rows|
      invariant first + i <= last + 1
      invariant forall j :: 0 <= j < i ==> RowFits(rows[j], size, first + j)
      invariant result[..Done(first + i, first, off, len)] ==
        Slice(e, kind, value, off, len)[..Done(first + i, first, off, len)]
    {
      if rows[i].number != first + i {
        return Failed(UnexpectedChunk);
      }
      if rows[i].number > last {
        return Failed(ChunkOutOfRange);
      }
      if |rows[i].data| != ChunkSize(size, rows[i].number) {
        return Failed(UnexpectedSize);
      }
      CopyChunk(e, kind, rows[i], off, len, first, last, result, value);
    }
    if first + |rows| != last + 1 {
      return Failed(MissingChunk);
    }
    assert result[..len] == result[..];
    return Fetched;
  }
}
