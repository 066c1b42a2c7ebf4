/** Whole streams: lodepng_deflatev and the round trip through lodepng_inflatev. */
module DeflateStream {
  import opened Powers
  import opened BitStream
  import opened Lz77
  import opened HashChain
  import opened Inflate
  import opened Inflator
  import opened BlockFormat
  import opened Deflator

  // ----- Stored blocks -----

  function StoredHeader(final: bool, len: nat): (r: seq<byte>)
    requires len <= 65535
    ensures |r| == 5
  {
    var nlen := 65535 - len;
    [BitValue(final), len % 256, len / 256, nlen % 256, nlen / 256]
  }

  const UINT32: nat := 0x1_0000_0000

  /** The number of stored blocks. */
  function StoredCount(size: nat): nat { (size + 65534) / 65535 }

  /** The 32-bit input position at the start of block i. */
  function DataPos(i: nat): (p: nat)
    ensures p < UINT32
  {
    65535 * i % UINT32
  }

  /** The LEN field of block i. */
  function StoredLen(size: nat, i: nat): (len: nat)
    requires i < StoredCount(size)
    ensures 1 <= len <= 65535
  {
    StoredSizes(size, i);
    if size - DataPos(i) < 65535 then size - DataPos(i) else 65535
  }

  /**
   * The bytes the copying loop puts into block i: it ends at the end of the input only if the position can get
   * there.
   */
  function CopiedLen(size: nat, i: nat): (len: nat)
    requires i < StoredCount(size)
    ensures StoredLen(size, i) <= len <= 65535
  {
    StoredSizes(size, i);
    if size < UINT32 && size - DataPos(i) < 65535 then size - DataPos(i) else 65535
  }

  lemma StoredSizes(size: nat, i: nat)
    requires i < StoredCount(size)
    ensures DataPos(i) <= 65535 * i < size
    ensures i + 1 < StoredCount(size) ==> 65535 * (i + 1) < size
    ensures i + 1 == StoredCount(size) ==> size <= 65535 * (i + 1)
  {
  }

  /** Byte k of what the stored blocks hold: the position wraps around. */
  function StoredByte(data: seq<byte>, k: nat): byte { if k % UINT32 < |data| then data[k % UINT32] else 0 }

  /** The first n bytes of what the stored blocks hold. */
  function StoredBytes(data: seq<byte>, n: nat): (r: seq<byte>)
    ensures |r| == n
  {
    seq(n, k requires 0 <= k < n => StoredByte(data, k))
  }

  function Copied(data: seq<byte>, i: nat): (r: seq<byte>)
    requires i < StoredCount(|data|)
    ensures |r| == CopiedLen(|data|, i)
  {
    seq(CopiedLen(|data|, i), j requires 0 <= j < CopiedLen(|data|, i) => BlockByte(data, i, j))
  }

  /** Byte j of block i. */
  function BlockByte(data: seq<byte>, i: nat, j: nat): byte { StoredByte(data, 65535 * i + j) }

  /** The stored blocks from block i on. */
  function StoredBlocks(data: seq<byte>, i: nat): seq<byte>
    requires i <= StoredCount(|data|)
    decreases StoredCount(|data|) - i
  {
    if i == StoredCount(|data|) then []
    else StoredHeader(i + 1 == StoredCount(|data|), StoredLen(|data|, i)) + Copied(data, i) + StoredBlocks(data, i + 1)
  }

  /** What the decoder gets back from the stored blocks. */
  function StoredContent(data: seq<byte>): seq<byte> {
    if data == [] then [] else
      var last: nat := StoredCount(|data|) - 1;
      StoredBytes(data, 65535 * last + StoredLen(|data|, last))
  }

  lemma FiveBytes(all: seq<byte>, p: nat, h: seq<byte>)
    requires p + 5 <= |all| && all[p..p + 5] == h
    ensures all[p] == h[0] && all[p + 1] == h[1] && all[p + 2] == h[2] && all[p + 3] == h[3] && all[p + 4] == h[4]
  {
    hide *;
    forall k | 0 <= k < 5
      ensures all[p + k] == h[k]
    {
      assert all[p..p + 5][k] == all[p + k];
    }
  }

  /** The low three bits of the first byte of a stored block: BFINAL and twice 0. */
  lemma StoredType(final: bool, all: seq<byte>, p: nat)
    requires p < |all| && all[p] == BitValue(final)
    ensures 8 * p + 2 < |Bits(all)| && Bits(all)[8 * p] == final && BlockType(Bits(all), 8 * p) == 0
  {
    assert BitAt(all, 8 * p) == TestBit(all[p], 0);
    assert BitAt(all, 8 * p + 1) == TestBit(all[p], 1);
    assert BitAt(all, 8 * p + 2) == TestBit(all[p], 2);
    assert TestBit(0, 0) == TestBit(0, 1) == TestBit(0, 2) == false;
    ZeroBits(1);
    ZeroBits(2);
  }

  lemma StoredHeaderBits(final: bool, len: nat, all: seq<byte>, p: nat)
    requires len <= 65535 && p + 5 <= |all| && all[p..p + 5] == StoredHeader(final, len)
    ensures 8 * p + 2 < |Bits(all)| && Bits(all)[8 * p] == final && BlockType(Bits(all), 8 * p) == 0
    ensures TwoBytes(all[p + 1], all[p + 2]) == len && TwoBytes(all[p + 3], all[p + 4]) == 65535 - len
  {
    hide Bits, BlockType;
    FiveBytes(all, p, StoredHeader(final, len));
    StoredType(final, all, p);
  }

  /** One stored block is read back. */
  lemma StoredBlockRead(data: seq<byte>, i: nat, all: seq<byte>, p: nat, tail: seq<byte>)
    requires i < StoredCount(|data|) && p <= |all| && all[p..] == StoredBlocks(data, i) + tail
    ensures var len, final := StoredLen(|data|, i), i + 1 == StoredCount(|data|);
            && p + 5 + len <= |all|
            && (!final ==> all[p + 5 + len..] == StoredBlocks(data, i + 1) + tail)
            && InflateBlocks(all, 8 * p, StoredBytes(data, 65535 * i)) ==
               if final then Ok(StoredContent(data), 8 * (p + 5 + len))
               else InflateBlocks(all, 8 * (p + 5 + len), StoredBytes(data, 65535 * (i + 1)))
  {
    hide *;
    var len, final := StoredLen(|data|, i), i + 1 == StoredCount(|data|);
    StoredSplit(data, i, tail);
    var h, chunk := StoredHeader(final, len), Copied(data, i);
    StoredPieces(all, p, h, chunk, StoredBlocks(data, i + 1) + tail);
    StoredHeaderBits(final, len, all, p);
    FullBlock(data, i);
    StoredStep(all, p, len, final, StoredBytes(data, 65535 * i));
    ReadPart(all, p + 5, chunk, len);
  }

  lemma ReadPart(all: seq<byte>, p: nat, chunk: seq<byte>, len: nat)
    requires p + |chunk| <= |all| && all[p..p + |chunk|] == chunk && len <= |chunk|
    ensures all[p..p + len] == chunk[..len]
  {
  }

  /** What a block adds to the bytes before it; all blocks but the last are full. */
  lemma FullBlock(data: seq<byte>, i: nat)
    requires i < StoredCount(|data|)
    ensures var len, final := StoredLen(|data|, i), i + 1 == StoredCount(|data|);
            && len <= CopiedLen(|data|, i) && (!final ==> len == CopiedLen(|data|, i))
            && StoredBytes(data, 65535 * i) + Copied(data, i)[..len] ==
               if final then StoredContent(data) else StoredBytes(data, 65535 * (i + 1))
  {
    hide StoredByte;
    StoredSizes(|data|, i);
  }

  lemma StoredSplit(data: seq<byte>, i: nat, tail: seq<byte>)
    requires i < StoredCount(|data|)
    ensures StoredBlocks(data, i) + tail
            == StoredHeader(i + 1 == StoredCount(|data|), StoredLen(|data|, i)) + Copied(data, i)
               + (StoredBlocks(data, i + 1) + tail)
  {
    hide StoredHeader, StoredLen, Copied;
    var h := StoredHeader(i + 1 == StoredCount(|data|), StoredLen(|data|, i));
    StoredAppend([], h + Copied(data, i), StoredBlocks(data, i + 1), tail);
  }

  lemma StoredStep(all: seq<byte>, p: nat, len: nat, final: bool, out: seq<byte>)
    requires 1 <= len <= 65535 && p + 5 + len <= |all| && 8 * p + 2 < |Bits(all)|
    requires Bits(all)[8 * p] == final && BlockType(Bits(all), 8 * p) == 0
    requires TwoBytes(all[p + 1], all[p + 2]) == len && TwoBytes(all[p + 3], all[p + 4]) == 65535 - len
    ensures var out' := out + all[p + 5..p + 5 + len];
            InflateBlocks(all, 8 * p, out) ==
            if final then Ok(out', 8 * (p + 5 + len)) else InflateBlocks(all, 8 * (p + 5 + len), out')
  {
    hide TwoBytes, BlockType, InflateBlock, Bits;
    StoredBody(all, p, len, out);
  }

  lemma StoredBody(all: seq<byte>, p: nat, len: nat, out: seq<byte>)
    requires 1 <= len <= 65535 && p + 5 + len <= |all|
    requires TwoBytes(all[p + 1], all[p + 2]) == len && TwoBytes(all[p + 3], all[p + 4]) == 65535 - len
    ensures InflateBlock(all, 8 * p + 3, 0, out) == Ok(out + all[p + 5..p + 5 + len], 8 * (p + 5 + len))
  {
    hide TwoBytes, InflateSymbols, ReadTrees, FixedTrees;
    assert (8 * p + 3 + 7) / 8 == p + 1;
  }

  lemma StoredPieces(all: seq<byte>, p: nat, h: seq<byte>, chunk: seq<byte>, rest: seq<byte>)
    requires p <= |all| && all[p..] == h + chunk + rest && |h| == 5
    ensures p + 5 + |chunk| <= |all| && |all| == p + 5 + |chunk| + |rest|
    ensures all[p..p + 5] == h && all[p + 5..p + 5 + |chunk|] == chunk && all[p + 5 + |chunk|..] == rest
  {
    var s := all[p..];
    assert s[..5] == h && s[5..5 + |chunk|] == chunk && s[5 + |chunk|..] == rest;
    assert all[p..p + 5] == s[..5];
    assert all[p + 5..p + 5 + |chunk|] == s[5..5 + |chunk|];
    assert all[p + 5 + |chunk|..] == s[5 + |chunk|..];
  }

  /** Reading all stored blocks, whatever follows them. */
  lemma {:induction false} StoredRoundTrip(data: seq<byte>, i: nat, all: seq<byte>, p: nat, tail: seq<byte>)
    requires i < StoredCount(|data|) && p <= |all| && all[p..] == StoredBlocks(data, i) + tail
    ensures var r := InflateBlocks(all, 8 * p, StoredBytes(data, 65535 * i)); r.Ok? && r.out == StoredContent(data)
    decreases StoredCount(|data|) - i
  {
    hide *;
    StoredBlockRead(data, i, all, p, tail);
    if i + 1 < StoredCount(|data|) {
      StoredRoundTrip(data, i + 1, all, p + 5 + StoredLen(|data|, i), tail);
    }
  }

  // ----- Which inputs survive being stored -----

  /**
   * Every byte past the reach of a 32-bit position repeats the one 2^32 before it, and the last block has the
   * right length.
   */
  ghost predicate Storable(data: seq<byte>) {
    && (forall k :: UINT32 <= k < |data| ==> data[k] == data[k - UINT32])
    && (|data| <= UINT32 + 65534 || |data| % 65535 == 0)
  }

  lemma StoredSize(data: seq<byte>)
    ensures |StoredContent(data)| == |data| <==> |data| <= UINT32 + 65534 || |data| % 65535 == 0
  {
    hide StoredBytes;
    if data != [] {
      var last := StoredCount(|data|) - 1;
      StoredSizes(|data|, last);
      LastPos(|data|, last);
    }
  }

  /** The position of the last block has wrapped exactly when the input is longer than the last block can tell. */
  lemma LastPos(size: nat, last: nat)
    requires size > 0 && last + 1 == StoredCount(size)
    ensures size <= UINT32 + 65534 ==> DataPos(last) == 65535 * last
    ensures size > UINT32 + 65534 ==> size - DataPos(last) >= 65535
  {
    StoredSizes(size, last);
    assert UINT32 == 65535 * 65537 + 1;
  }

  lemma {:induction false} RepeatsBack(data: seq<byte>, k: nat)
    requires k < |data| && forall j :: UINT32 <= j < |data| ==> data[j] == data[j - UINT32]
    ensures data[k] == StoredByte(data, k)
  {
    if k >= UINT32 {
      RepeatsBack(data, k - UINT32);
      assert (k - UINT32) % UINT32 == k % UINT32;
    }
  }

  /** Storing gives the input back exactly when it is storable. */
  lemma StoredContentIs(data: seq<byte>)
    ensures StoredContent(data) == data <==> Storable(data)
  {
    hide StoredByte, StoredLen;
    StoredSize(data);
    var r := StoredContent(data);
    if Storable(data) {
      forall k | 0 <= k < |data|
        ensures r[k] == data[k]
      {
        RepeatsBack(data, k);
      }
    }
    if r == data {
      forall k | UINT32 <= k < |data|
        ensures data[k] == data[k - UINT32]
      {
        assert r[k] == StoredByte(data, k) && r[k - UINT32] == StoredByte(data, k - UINT32);
        SamePlace(data, k);
      }
    }
  }

  lemma SamePlace(data: seq<byte>, k: nat)
    requires k >= UINT32
    ensures StoredByte(data, k) == StoredByte(data, k - UINT32)
  {
    assert (k - UINT32) % UINT32 == k % UINT32;
  }

  /** One byte too many: the position has wrapped, and the first byte comes back in place of the last one. */
  lemma WrapLosesByte() returns (data: seq<byte>)
    ensures |data| == UINT32 + 1 && !Storable(data)
    ensures |StoredContent(data)| == |data| && StoredContent(data)[UINT32] == data[0] != data[UINT32]
  {
    hide StoredLen;
    data := seq(UINT32 + 1, k requires 0 <= k <= UINT32 => if k == UINT32 then 1 else 0);
    StoredSize(data);
    assert data[UINT32] != data[UINT32 - UINT32];
  }

  /** Exactly 2^32 bytes still survive, since no byte lies behind the last position. */
  lemma WrapAtEnd(data: seq<byte>)
    requires |data| <= UINT32
    ensures Storable(data)
  {
  }

  // ----- deflateNoCompression -----

  /** When the copying loop goes on. */
  lemma CopyMore(size: nat, i: nat, j: nat, pos: nat)
    requires i < StoredCount(size) && j <= CopiedLen(size, i) && pos == (65535 * i + j) % UINT32
    ensures j < 65535 && pos < size <==> j < CopiedLen(size, i)
    ensures (pos + 1) % UINT32 == (65535 * i + j + 1) % UINT32
  {
    StoredSizes(size, i);
  }

  /** The copying loop with its 32-bit position. */
  method CopyChunk(data: seq<byte>, i: nat, datapos: nat, start: seq<byte>) returns (out: seq<byte>, datapos': nat)
    requires i < StoredCount(|data|) && datapos == DataPos(i)
    ensures out == start + Copied(data, i)
    ensures i + 1 < StoredCount(|data|) ==> datapos' == DataPos(i + 1)
  {
    hide StoredByte, CopiedLen, StoredLen;
    out, datapos' := start, datapos;
    ghost var copied := Copied(data, i);
    var j := 0;
    CopyMore(|data|, i, 0, datapos);
    while j < 65535 && datapos' < |data|
      invariant j <= CopiedLen(|data|, i) && datapos' == (65535 * i + j) % UINT32
      invariant j < 65535 && datapos' < |data| <==> j < CopiedLen(|data|, i)
      invariant out == start + copied[..j]
    {
      CopyMore(|data|, i, j, datapos');
      StoredIs(data, 65535 * i + j);
      assert copied[..j + 1] == copied[..j] + [copied[j]];
      out := out + [data[datapos']];
      datapos' := (datapos' + 1) % UINT32;
      j := j + 1;
      CopyMore(|data|, i, j, datapos');
    }
    assert copied[..j] == copied;
    if i + 1 < StoredCount(|data|) {
      FullBlock(data, i);
      NotLast(|data|, i);
    }
  }

  lemma StoredIs(data: seq<byte>, k: nat)
    ensures k % UINT32 < |data| ==> StoredByte(data, k) == data[k % UINT32]
  {
  }

  lemma NotLast(size: nat, i: nat)
    requires i + 1 < StoredCount(size)
    ensures CopiedLen(size, i) == 65535
  {
    StoredSizes(size, i);
  }

  /** One turn of the loop of deflateNoCompression. */
  method WriteStored(data: seq<byte>, i: nat, datapos: nat, start: seq<byte>) returns (out: seq<byte>, datapos': nat)
    requires i < StoredCount(|data|) && datapos == DataPos(i)
    ensures out + StoredBlocks(data, i + 1) == start + StoredBlocks(data, i)
    ensures i + 1 < StoredCount(|data|) ==> datapos' == DataPos(i + 1)
  {
    hide StoredHeader, Copied;
    StoredSizes(|data|, i);
    var len := 65535;
    if |data| - datapos < 65535 {
      LengthFits(|data|, datapos);
      len := (|data| % UINT32 + UINT32 - datapos) % UINT32;
    }
    var final := i == StoredCount(|data|) - 1;
    out := start + StoredHeader(final, len);
    out, datapos' := CopyChunk(data, i, datapos, out);
    StoredAppend(start, StoredHeader(final, len), Copied(data, i), StoredBlocks(data, i + 1));
  }

  lemma StoredAppend(a: seq<byte>, b: seq<byte>, c: seq<byte>, d: seq<byte>)
    ensures ((a + b) + c) + d == a + ((b + c) + d)
  {
  }

  /** deflateNoCompression */
  method DeflateNoCompression(data: seq<byte>) returns (out: seq<byte>)
    ensures out == StoredBlocks(data, 0)
  {
    hide StoredBlocks, DataPos;
    var numdeflateblocks := StoredCount(|data|);
    var datapos: nat := 0;
    out := [];
    FirstPos();
    for i := 0 to numdeflateblocks
      invariant i < numdeflateblocks ==> datapos == DataPos(i)
      invariant out + StoredBlocks(data, i) == StoredBlocks(data, 0)
    {
      out, datapos := WriteStored(data, i, datapos, out);
    }
    NothingStored(data);
  }

  lemma FirstPos()
    ensures DataPos(0) == 0
  {
  }

  lemma NothingStored(data: seq<byte>)
    ensures StoredBlocks(data, StoredCount(|data|)) == []
  {
  }

  lemma LengthFits(size: nat, datapos: nat)
    requires datapos < UINT32 && datapos <= size < datapos + 65535
    ensures (size % UINT32 + UINT32 - datapos) % UINT32 == size - datapos
  {
  }

  // ----- Runs of blocks -----

  /**
   * Whatever follows `written`, the decoder gets through it to `data[..pos]`; `finished` says whether it then
   * stops.
   */
  ghost predicate DecodesTo(written: seq<bool>, data: seq<byte>, pos: nat, finished: bool)
    requires pos <= |data|
  {
    forall all: seq<byte> :: written <= Bits(all) ==>
      InflateAll(all) == if finished then Ok(data[..pos], |written|) else InflateBlocks(all, |written|, data[..pos])
  }

  lemma DecodesNothing(data: seq<byte>)
    ensures DecodesTo([], data, 0, false)
  {
    hide InflateBlocks;
    assert data[..0] == [];
  }

  lemma DecodesBlock(written: seq<bool>, b: Block, final: bool, data: seq<byte>, pos: nat, end: nat)
    requires pos <= |data| && DecodesTo(written, data, pos, false) && BlockFor(b, data, pos, end)
    ensures DecodesTo(written + BlockBits(b, final), data, end, final)
  {
    hide Writable, BlockBits, TokensOk, ExpandTokens, InflateBlocks, Bits, InflateAll;
    var bits := BlockBits(b, final);
    forall all: seq<byte> | written + bits <= Bits(all)
      ensures InflateAll(all) == if final then Ok(data[..end], |written + bits|)
                else InflateBlocks(all, |written + bits|, data[..end])
    {
      PrefixAt(Bits(all), written, bits);
      InflateBlockOk(all, |written|, b, final, data[..pos]);
    }
  }

  lemma PrefixAt(bits: seq<bool>, a: seq<bool>, b: seq<bool>)
    requires a + b <= bits
    ensures a <= bits && At(bits, |a|, b)
  {
    assert bits[..|a| + |b|] == a + b;
    assert bits[..|a|] == (a + b)[..|a|] == a;
    assert bits[|a|..|a| + |b|] == (a + b)[|a|..] == b;
  }

  lemma BlockBounds(size: nat, blocksize: nat, blocks: nat, i: nat)
    requires blocksize > 0 && i < blocks
    requires blocks == if size == 0 then 1 else (size + blocksize - 1) / blocksize
    ensures i * blocksize <= size
    ensures i < blocks - 1 ==> (i + 1) * blocksize <= size
    ensures i == blocks - 1 ==> i * blocksize + blocksize >= size
    ensures i * blocksize + blocksize == (i + 1) * blocksize
  {
    if size > 0 {
      var m := size + blocksize - 1;
      assert blocks * blocksize <= m < blocks * blocksize + blocksize by { DivideBounds(m, blocksize); }
      assert (i + 1) * blocksize == i * blocksize + blocksize;
      if i < blocks - 1 {
        Monotone(i + 2, blocks, blocksize);
        assert (i + 2) * blocksize == (i + 1) * blocksize + blocksize;
      }
    }
  }

  lemma DivideBounds(m: nat, d: nat)
    requires d > 0
    ensures (m / d) * d <= m < (m / d) * d + d
  {
  }

  lemma Monotone(a: nat, b: nat, c: nat)
    requires a <= b
    ensures a * c <= b * c
  {
  }

  function BlockSize(settings: Settings, insize: nat): nat {
    if settings.btype == 1 then insize
    else
      var size := insize / 8 + 8;
      if size < 65536 then 65536 else if size > 262144 then 262144 else size
  }

  function BlockCount(insize: nat, blocksize: nat): (n: nat)
    requires blocksize > 0
    ensures n > 0
  {
    var n := (insize + blocksize - 1) / blocksize;
    if n == 0 then 1 else n
  }

  lemma CountBlocks(insize: nat, blocksize: nat)
    requires blocksize > 0
    ensures BlockCount(insize, blocksize) == if insize == 0 then 1 else (insize + blocksize - 1) / blocksize
  {
  }

  /** One block of the chosen type. */
  method DeflateBlock(w: BitWriter, hash: Hash, data: seq<byte>, start: nat, end: nat, settings: Settings, final: bool)
    returns (error: nat)
    requires w.Valid() && start <= end <= |data| && HashReady(hash, settings, data, start)
    requires settings.btype != 1 ==> end - start <= 262144
    requires DecodesTo(w.Written(), data, start, false)
    modifies w, hash.head, hash.chain, hash.val, hash.headz, hash.chainz, hash.zeros
    ensures w.Valid() && error == WindowError(settings)
    ensures error == 0 ==> HashReady(hash, settings, data, end) && DecodesTo(w.Written(), data, end, final)
  {
    hide *;
    ghost var b;
    ghost var before := w.Written();
    if settings.btype == 1 {
      error, b := DeflateFixed(w, hash, data, start, end, settings, final);
    } else {
      error, b := DeflateDynamic(w, hash, data, start, end, settings, final);
    }
    if error == 0 {
      DecodesBlock(before, b, final, data, start, end);
    }
  }

  /** The Huffman coded blocks of lodepng_deflatev. */
  method DeflateBlocks(data: seq<byte>, settings: Settings) returns (defined: bool, error: nat, out: seq<byte>)
    requires settings.btype == 1 || settings.btype == 2
    ensures defined <==> !(settings.btype == 1 && data == [])
    ensures defined ==> error == WindowError(settings)
    ensures defined && error == 0 ==> forall tail: seq<byte> :: Decodes(out + tail, data)
  {
    hide DecodesTo, Hash.Valid, BitWriter.Valid, BitWriter.Written, WindowError, Decodes, BlockCount;
    var blocksize := BlockSize(settings, |data|);
    if blocksize == 0 {
      return false, 0, [];
    }
    defined := true;
    var blocks := BlockCount(|data|, blocksize);
    CountBlocks(|data|, blocksize);
    var hash := new Hash(settings.windowsize, data);
    var w := new BitWriter();
    DecodesNothing(data);
    var i, end := 0, 0;
    error := 0;
    while i != blocks && error == 0
      invariant i <= blocks && w.Valid() && fresh(w) && end <= |data|
      invariant hash.windowsize == settings.windowsize
      invariant fresh(hash.head) && fresh(hash.chain) && fresh(hash.val) && fresh(hash.headz) && fresh(hash.chainz)
      invariant fresh(hash.zeros)
      invariant i < blocks ==> end == i * blocksize
      invariant i == blocks ==> end == |data|
      invariant error == if i == 0 then 0 else WindowError(settings)
      invariant error == 0 ==> HashReady(hash, settings, data, end) && DecodesTo(w.Written(), data, end, i == blocks)
      decreases blocks - i
    {
      BlockBounds(|data|, blocksize, blocks, i);
      var start := i * blocksize;
      end := start + blocksize;
      if end > |data| {
        end := |data|;
      }
      error := DeflateBlock(w, hash, data, start, end, settings, i == blocks - 1);
      i := i + 1;
    }
    out := w.data;
    if error == 0 {
      Finished(w, data);
    }
  }

  /** Inflating the whole of `all` succeeds and gives exactly `data`. */
  ghost predicate Decodes(all: seq<byte>, data: seq<byte>) {
    InflateAll(all).Ok? && InflateAll(all).out == data
  }

  lemma Finished(w: BitWriter, data: seq<byte>)
    requires w.Valid() && DecodesTo(w.Written(), data, |data|, true)
    ensures forall tail: seq<byte> :: Decodes(w.data + tail, data)
  {
    hide InflateAll;
    forall tail: seq<byte>
      ensures Decodes(w.data + tail, data)
    {
      BitsPrefix(w.data, tail);
      assert w.Written() <= Bits(w.data + tail);
      assert data[..|data|] == data;
    }
  }

  lemma BitsPrefix(a: seq<byte>, b: seq<byte>)
    ensures Bits(a) <= Bits(a + b)
  {
    forall i | 0 <= i < 8 * |a|
      ensures Bits(a + b)[i] == Bits(a)[i]
    {
    }
  }

  // ----- The whole compressor -----

  function DeflateError(settings: Settings): nat {
    if settings.btype > 2 then 61 else if settings.btype == 0 then 0 else WindowError(settings)
  }

  lemma StoredDecodes(data: seq<byte>, tail: seq<byte>)
    requires data != []
    ensures Decodes(StoredBlocks(data, 0) + tail, StoredContent(data))
  {
    hide StoredBlocks, InflateBlocks, StoredContent;
    var all := StoredBlocks(data, 0) + tail;
    assert all[0..] == all;
    assert StoredBytes(data, 65535 * 0) == [];
    StoredRoundTrip(data, 0, all, 0, tail);
  }

  /** An empty stream is not a DEFLATE stream. */
  lemma NothingDecodes()
    ensures InflateAll([]) == Fail(52)
  {
  }

  /**
   * The input comes back: compressed always, stored if there is something to store and a 32-bit position can store
   * it.
   */
  ghost predicate Survives(data: seq<byte>, settings: Settings) {
    settings.btype != 0 || (data != [] && Storable(data))
  }

  /**
   * lodepng_deflatev. Whatever follows it, the output inflates to the input
   * exactly when the input survives; storing the empty string writes no block
   * at all, and other inputs that do not survive come back changed. With btype
   * 1 the block size is the input size, and dividing by it is not defined for the
   * empty string.
   */
  method Deflate(data: seq<byte>, settings: Settings) returns (defined: bool, error: nat, out: seq<byte>)
    ensures defined <==> !(settings.btype == 1 && data == [])
    ensures defined ==> error == DeflateError(settings)
    ensures defined && error == 0 && settings.btype == 0 && data == [] ==> out == []
    ensures defined && error == 0 && !(settings.btype == 0 && data == []) ==>
              forall tail: seq<byte> :: Decodes(out + tail, if settings.btype == 0 then StoredContent(data) else data)
    ensures defined && error == 0 ==> (Decodes(out, data) <==> Survives(data, settings))
  {
    hide StoredBlocks, Decodes, StoredContent;
    defined := true;
    if settings.btype > 2 {
      return true, 61, [];
    }
    if settings.btype == 0 {
      out := DeflateNoCompression(data);
      error := 0;
      NothingStored(data);
      forall tail: seq<byte> | data != []
        ensures Decodes(StoredBlocks(data, 0) + tail, StoredContent(data))
      {
        StoredDecodes(data, tail);
      }
      assert data != [] ==> Decodes(out + [], StoredContent(data));
    } else {
      defined, error, out := DeflateBlocks(data, settings);
      if !defined {
        return;
      }
      assert error == 0 ==> Decodes(out + [], data);
    }
    assert out + [] == out;
    SurvivesIs(data, settings, out);
  }

  /** An output that inflates to what was stored inflates to the input exactly when the input survives. */
  lemma SurvivesIs(data: seq<byte>, settings: Settings, out: seq<byte>)
    requires settings.btype == 0 && data == [] ==> out == []
    requires settings.btype == 0 && data != [] ==> Decodes(out, StoredContent(data))
    requires settings.btype == 0 || DeflateError(settings) != 0 || Decodes(out, data)
    ensures settings.btype == 0 || DeflateError(settings) == 0 ==> (Decodes(out, data) <==> Survives(data, settings))
  {
    hide InflateAll, StoredContent, Storable;
    NothingDecodes();
    StoredContentIs(data);
  }

  /** Compressing and then decompressing gives back the input exactly when it survives. */
  method RoundTrip(data: seq<byte>, settings: Settings)
    returns (defined: bool, error: nat, out: seq<byte>, error': nat, back: seq<byte>)
    ensures defined <==> !(settings.btype == 1 && data == [])
    ensures defined ==> error == DeflateError(settings)
    ensures defined && error == 0 ==> (error' == 0 && back == data <==> Survives(data, settings))
  {
    hide InflateAll, Survives;
    defined, error, out := Deflate(data, settings);
    ghost var bp;
    error', back, bp := InflateData(out);
  }

  /** The test for the end of the input counts one byte too many: a final stored block needs at least one byte. */
  lemma EmptyStoredBlock(head: byte, out: seq<byte>)
    requires head % 8 == 1
    ensures InflateBlocks([head, 0, 0, 255, 255], 0, out) == Fail(52)
  {
    var data: seq<byte> := [head, 0, 0, 255, 255];
    assert BitAt(data, 1) == TestBit(head, 1);
    assert BitAt(data, 2) == TestBit(head, 2);
    assert TestBit(head, 1) == TestBit(head / 2, 0) && TestBit(head, 2) == TestBit(head / 4, 0);
    assert BlockType(Bits(data), 0) == 0;
  }

  /** A stored block that RFC 1951 allows, at the byte boundary after bp. */
  predicate StoredAt(data: seq<byte>, bp: nat) {
    var p := (bp + 7) / 8;
    && p + 4 <= |data| && TwoBytes(data[p], data[p + 1]) + TwoBytes(data[p + 2], data[p + 3]) == 65535
    && p + 4 + TwoBytes(data[p], data[p + 1]) <= |data|
  }

  /** Of the legal stored blocks exactly those are refused that are empty and end the input. */
  lemma StoredAccepted(data: seq<byte>, bp: nat, out: seq<byte>)
    requires StoredAt(data, bp)
    ensures InflateStored(data, bp, out).Ok? <==> (bp + 7) / 8 + 4 != |data|
    ensures (bp + 7) / 8 + 4 == |data| ==>
              TwoBytes(data[(bp + 7) / 8], data[(bp + 7) / 8 + 1]) == 0 && InflateStored(data, bp, out) == Fail(52)
  {
  }
}
