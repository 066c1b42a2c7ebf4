/**
 * Hashing a message that arrives in pieces, as sha1.c and sha512.c do it: full
 * blocks go to the block function, the rest waits in a buffer, and the length
 * is counted in two words. Nothing here depends on what the block function is.
 */
module HashStream {
  import opened Powers
  import opened BitStream

  /** The block function folded over all full blocks. */
  function Fold<S>(compress: (S, seq<byte>) -> S, block: nat, state: S, data: seq<byte>): S
    requires block > 0
    decreases |data|
  {
    if |data| < block then state else Fold(compress, block, compress(state, data[..block]), data[block..])
  }

  lemma FoldStep<S>(compress: (S, seq<byte>) -> S, block: nat, state: S, data: seq<byte>)
    requires block > 0
    ensures |data| < block ==> Fold(compress, block, state, data) == state
    ensures |data| >= block ==>
              Fold(compress, block, state, data) == Fold(compress, block, compress(state, data[..block]), data[block..])
  {
  }

  lemma {:induction false} FoldAppend<S>(compress: (S, seq<byte>) -> S, block: nat, state: S, a: seq<byte>,
                                         b: seq<byte>)
    requires block > 0 && |a| % block == 0
    ensures Fold(compress, block, state, a + b) == Fold(compress, block, Fold(compress, block, state, a), b)
    decreases |a|
  {
    hide Fold;
    FoldStep(compress, block, state, a);
    if |a| < block {
      assert a == [] && a + b == b;
    } else {
      FoldStep(compress, block, state, a + b);
      SplitFirst(a, b, block);
      LessBlock(|a|, block);
      FoldAppend(compress, block, compress(state, a[..block]), a[block..], b);
    }
  }

  lemma SplitFirst(a: seq<byte>, b: seq<byte>, block: nat)
    requires block <= |a|
    ensures (a + b)[..block] == a[..block] && (a + b)[block..] == a[block..] + b
  {
  }

  lemma LessBlock(n: nat, block: nat)
    requires block > 0 && n >= block
    ensures (n - block) % block == n % block
  {
    assert n == block * (n / block) + n % block;
    assert n - block == block * (n / block - 1) + n % block;
    ModUnique(n - block, block, n / block - 1, n % block);
  }

  /** One block. */
  lemma FoldOne<S>(compress: (S, seq<byte>) -> S, block: nat, state: S, data: seq<byte>)
    requires block > 0 && |data| == block
    ensures Fold(compress, block, state, data) == compress(state, data)
  {
    assert data[..block] == data && data[block..] == [];
  }

  // ----- Padding -----

  /** The number n most significant byte first in `count` bytes. */
  function BigEndian(n: nat, count: nat): (b: seq<byte>)
    ensures |b| == count
  {
    if count == 0 then [] else BigEndian(n / 256, count - 1) + [n % 256]
  }

  function Zeros(n: nat): seq<byte> { seq(n, _ => 0) }

  /** How many padding bytes come before the length field of `field` bytes. */
  function PadLength(block: nat, field: nat, length: nat): nat
    requires block >= field > 0
  {
    var last := length % block;
    if last < block - field then block - field - last else 2 * block - field - last
  }

  /** It is the least number, at least one, that leaves exactly the length field to fill the last block. */
  lemma PadLengthLeast(block: nat, field: nat, length: nat, n: nat)
    requires block > field > 0
    ensures var p := PadLength(block, field, length); 1 <= p <= block && (length + p + field) % block == 0
    ensures 1 <= n < PadLength(block, field, length) ==> (length + n + field) % block != 0
  {
    hide PadLength;
    var last, q := length % block, length / block;
    DivMod(length, block);
    PadIsOne(block, field, length);
    if last < block - field {
      ShortPad(block, field, last, q, length, n);
    } else {
      LongPad(block, field, last, q, length, n);
    }
  }

  lemma PadIsOne(block: nat, field: nat, length: nat)
    requires block > field > 0
    ensures var last := length % block;
            PadLength(block, field, length) == if last < block - field then block - field - last
              else 2 * block - field - last
  {
  }

  lemma ShortPad(block: nat, field: nat, last: nat, q: nat, length: nat, n: nat)
    requires length == block * q + last && last < block - field && block > field > 0
    ensures var p := block - field - last; (length + p + field) % block == 0
    ensures 1 <= n < block - field - last ==> (length + n + field) % block != 0
  {
    assert block * (q + 1) == block * q + block;
    ModUnique(length + (block - field - last) + field, block, q + 1, 0);
    if 1 <= n < block - field - last {
      ModUnique(length + n + field, block, q, last + n + field);
    }
  }

  lemma LongPad(block: nat, field: nat, last: nat, q: nat, length: nat, n: nat)
    requires length == block * q + last && block - field <= last < block && block > field > 0
    ensures var p := 2 * block - field - last; (length + p + field) % block == 0
    ensures 1 <= n < 2 * block - field - last ==> (length + n + field) % block != 0
  {
    assert block * (q + 2) == block * q + 2 * block;
    ModUnique(length + (2 * block - field - last) + field, block, q + 2, 0);
    if 1 <= n < 2 * block - field - last {
      assert block * (q + 1) == block * q + block;
      ModUnique(length + n + field, block, q + 1, last + n + field - block);
    }
  }

  /** A message with a one bit, zero bits and `length` in bits. */
  function PaddedAs(msg: seq<byte>, block: nat, field: nat, length: nat): seq<byte>
    requires block >= field > 0
  {
    msg + [0x80] + Zeros(PadLength(block, field, |msg|) - 1) + BigEndian(8 * length, field)
  }

  /** The padded message as the standards define it. */
  function Padded(msg: seq<byte>, block: nat, field: nat): seq<byte>
    requires block >= field > 0
  {
    PaddedAs(msg, block, field, |msg|)
  }

  // ----- The context -----

  /** The part of the message that fills whole blocks, and the rest. */
  function Whole(n: nat, block: nat): (w: nat)
    requires block > 0
    ensures w <= n && n - w == n % block
  {
    n - n % block
  }

  lemma WholeBlocks(n: nat, block: nat)
    requires block > 0
    ensures Whole(n, block) % block == 0
  {
    assert Whole(n, block) == block * (n / block) + 0;
    ModUnique(Whole(n, block), block, n / block, 0);
  }

  /** The two words of the counter after `ilen` more bytes, as one number. */
  function NextTotal(t0: nat, t1: nat, ilen: nat, word: nat): nat
    requires word > 0
  {
    Mod(t0 + word * t1 + ilen % word, word * word)
  }

  /** The two words hold `counted`, as far as they reach. */
  predicate TotalIs(t0: nat, t1: nat, counted: nat, word: nat)
    requires word > 0
  {
    t0 < word && t1 < word && t0 + word * t1 == Mod(counted, word * word)
  }

  class Context<S(==)> {
    const block: nat
    /** The length field in bytes; total[0] and total[1] are words of half that size. */
    const field: nat
    /** The number of values of a word of the counter. */
    const word: nat
    const compress: (S, seq<byte>) -> S
    var total0: nat
    var total1: nat
    var state: S
    const buffer: array<byte>
    ghost const start: S
    /** Everything hashed so far. */
    ghost var msg: seq<byte>
    /** The bytes that were counted: each piece counts with its length cut to a word. */
    ghost var counted: nat

    ghost predicate Sizes()
    {
      (block == 64 && field == 8 && word == 0x1_0000_0000)
        || (block == 128 && field == 16 && word == 0x1_0000_0000_0000_0000)
    }

    /** The bytes of the last, unfinished block wait in the buffer. */
    ghost predicate Valid()
      reads this, buffer
    {
      && Sizes() && buffer.Length == block
      && total0 == Mod(|msg|, word) && TotalIs(total0, total1, counted, word)
      && buffer[..|msg| % block] == msg[Whole(|msg|, block)..]
      && state == Fold(compress, block, start, msg[..Whole(|msg|, block)])
    }

    /** mbedtls_sha1_starts and mbedtls_sha512_starts */
    constructor (block: nat, field: nat, word: nat, compress: (S, seq<byte>) -> S, init: S)
      requires (block == 64 && field == 8 && word == 0x1_0000_0000)
               || (block == 128 && field == 16 && word == 0x1_0000_0000_0000_0000)
      ensures this.block == block && this.field == field && this.word == word && this.compress == compress
      ensures start == init
      ensures Valid() && msg == [] && counted == 0 && fresh(buffer)
    {
      hide TotalIs, Mod, Fold, Whole;
      NothingYet(block, word, compress, init);
      this.block, this.field, this.word, this.compress := block, field, word, compress;
      total0, total1 := 0, 0;
      state, start := init, init;
      buffer := new byte[block];
      msg, counted := [], 0;
    }

    /** Counts the bytes: the length is cut to a word, and a carry goes into the second word. */
    method Count(ilen: nat)
      requires Sizes() && total0 == Mod(|msg|, word) && TotalIs(total0, total1, counted, word)
      modifies this`total0, this`total1
      ensures total0 == Mod(|msg| + ilen, word) && TotalIs(total0, total1, counted + Mod(ilen, word), word)
    {
      hide TotalIs, NextTotal;
      CountedLength(|msg|, ilen, word);
      CountedWords(counted, total0, total1, word);
      total0 := (total0 + ilen % word) % word;
      if total0 < ilen % word {
        total1 := (total1 + 1) % word;
      }
      CountStep(old(total0), old(total1), ilen, word, total0, total1);
      NextTotalIs(counted, old(total0), old(total1), ilen, word, total0, total1);
    }

    /** mbedtls_sha1_update and mbedtls_sha512_update */
    method Update(input: seq<byte>)
      requires Valid()
      modifies this`total0, this`total1, this`state, this`msg, this`counted, buffer
      ensures Valid() && msg == old(msg) + input && counted == old(counted) + Mod(|input|, word)
    {
      hide Fold, Context.Valid, Context.Hashed, Mod, TotalIs;
      ValidHashed(this, input);
      if input == [] {
        assert msg + input == msg;
        ModSmall(0, word);
        return;
      }
      var left := total0 % block;
      LeftIs(|msg|, block, word);
      Count(|input|);
      ghost var all := msg + input;
      ghost var d := Absorb(input, left, all, Whole(|msg|, block));
      msg, counted := all, counted + Mod(|input|, word);
      HashedValid(this, d);
    }

    /** mbedtls_sha1_finish and mbedtls_sha512_finish, up to writing out the state */
    method Finish()
      requires Valid()
      modifies this`total0, this`total1, this`state, this`msg, this`counted, buffer
      ensures state == Fold(compress, block, start, PaddedAs(old(msg), block, field, old(counted)))
    {
      hide Fold, Context.Valid, BigEndian, PadLength, Mod, TotalIs;
      ValidHashed(this, []);
      ghost var m := msg;
      var msglen := LengthBytes();
      var last := total0 % block;
      LeftIs(|m|, block, word);
      var padn := if last < block - field then block - field - last else 2 * block - field - last;
      PadIs(block, field, |m|, last, padn);
      Update([0x80] + Zeros(padn - 1));
      Update(msglen);
      assert msg == m + [0x80] + Zeros(padn - 1) + msglen;
      FoldWhole(this);
    }

    /** The length in bits, from the two words of the counter. */
    method LengthBytes() returns (msglen: seq<byte>)
      requires Valid()
      ensures |msglen| == field && msglen == BigEndian(8 * counted, field)
    {
      hide Fold, BigEndian, High, Low, TotalIs, Context.Valid;
      ValidCounts(this);
      msglen := BigEndian(High(total0, total1, word), field / 2) + BigEndian(Low(total0, word), field / 2);
      LengthField(counted, total0, total1, word, field);
    }

    /** The message `all` is hashed up to position d, and `at` more bytes wait in the buffer. */
    ghost predicate Hashed(all: seq<byte>, d: nat, at: nat)
      reads this`state, buffer
    {
      && Sizes() && buffer.Length == block && at < block && d % block == 0 && d + at <= |all|
      && state == Fold(compress, block, start, all[..d]) && buffer[..at] == all[d..d + at]
    }

    /** Completes the block in the buffer if the input reaches that far. */
    method FillBuffer(input: seq<byte>, left: nat, ghost all: seq<byte>, ghost d: nat)
      returns (pos: nat, at: nat, ghost d': nat)
      requires Hashed(all, d, left) && all[d + left..] == input
      modifies this`state, buffer
      ensures pos <= |input| && Hashed(all, d', at) && d' + at == d + left + pos
      ensures at > 0 ==> |input| - pos < block - at
    {
      hide Fold;
      var fill := block - left;
      pos, at, d' := 0, left, d;
      if left > 0 && |input| >= fill {
        CopyIn(left, input[..fill]);
        JoinSlices(all, d, left, fill);
        NextBlock(compress, block, start, all, d);
        state := compress(state, buffer[..]);
        pos, at, d' := fill, 0, d + block;
      }
    }

    /** memcpy into the buffer */
    method CopyIn(at: nat, bytes: seq<byte>)
      requires at + |bytes| <= buffer.Length
      modifies buffer
      ensures buffer[..at + |bytes|] == old(buffer[..at]) + bytes
      ensures at + |bytes| == buffer.Length ==> buffer[..] == old(buffer[..at]) + bytes
    {
      forall k | 0 <= k < |bytes| {
        buffer[at + k] := bytes[k];
      }
      assert buffer[..at + |bytes|] == old(buffer[..at]) + bytes;
    }

    /** Full blocks are hashed, starting with the one in the buffer; the rest is kept. */
    method Absorb(input: seq<byte>, left: nat, ghost all: seq<byte>, ghost start': nat) returns (ghost d: nat)
      requires Hashed(all, start', left) && all[start' + left..] == input
      modifies this`state, buffer
      ensures |all| - block < d <= |all| && Hashed(all, d, |all| - d)
    {
      hide Fold, Context.Hashed;
      HashedBounds(this, all, start', left);
      var pos, at;
      pos, at, d := FillBuffer(input, left, all, start');
      HashedBounds(this, all, d, at);
      while |input| - pos >= block
        invariant pos <= |input| && Hashed(all, d, at) && d + at == start' + left + pos && at < block
        invariant at > 0 ==> |input| - pos < block - at
      {
        assert input[pos..pos + block] == all[d..d + block];
        HashBlock(input[pos..pos + block], all, d);
        pos, d := pos + block, d + block;
      }
      if |input| > pos {
        assert input[pos..] == all[d + at..];
        KeepRest(at, input[pos..], all, d);
      }
    }

    /** One full block of the input. */
    method HashBlock(bytes: seq<byte>, ghost all: seq<byte>, ghost d: nat)
      requires Hashed(all, d, 0) && d + block <= |all| && bytes == all[d..d + block]
      modifies this`state
      ensures Hashed(all, d + block, 0)
    {
      hide Fold;
      NextBlock(compress, block, start, all, d);
      state := compress(state, bytes);
    }

    /** The bytes after the last full block. */
    method KeepRest(at: nat, rest: seq<byte>, ghost all: seq<byte>, ghost d: nat)
      requires Hashed(all, d, at) && at + |rest| < block && rest == all[d + at..]
      modifies buffer
      ensures Hashed(all, d, |all| - d)
    {
      hide Fold;
      CopyIn(at, rest);
      assert all[d..d + at] + rest == all[d..];
    }
  }

  // ----- The length field -----

  function Pow256(n: nat): (p: nat)
    ensures p > 0
  {
    if n == 0 then 1 else 256 * Pow256(n - 1)
  }

  /** A field of n bytes holds a number modulo 256 to the n. */
  lemma {:induction false} BigEndianWraps(n: nat, k: nat, count: nat)
    ensures BigEndian(n + Pow256(count) * k, count) == BigEndian(n, count)
  {
    if count > 0 {
      var p := Pow256(count - 1);
      var m: nat := p * k;
      Regroup(p, k);
      ShiftByte(n, m);
      BigEndianWraps(n / 256, k, count - 1);
    }
  }

  lemma ShiftByte(n: nat, m: nat)
    ensures (n + 256 * m) % 256 == n % 256 && (n + 256 * m) / 256 == n / 256 + m
  {
  }

  /** A number is written as its high and its low word. */
  lemma {:induction false} BigEndianWords(high: nat, low: nat, a: nat, b: nat)
    requires low < Pow256(b)
    ensures BigEndian(high * Pow256(b) + low, a + b) == BigEndian(high, a) + BigEndian(low, b)
  {
    if b == 0 {
      assert BigEndian(high, a) + [] == BigEndian(high, a);
    } else {
      var p := Pow256(b - 1);
      var m: nat := high * p;
      Regroup(p, high);
      ShiftByte(low, m);
      BigEndianWords(high, low / 256, a, b - 1);
      assert BigEndian(high, a) + (BigEndian(low / 256, b - 1) + [low % 256]) ==
        (BigEndian(high, a) + BigEndian(low / 256, b - 1)) + [low % 256];
    }
  }

  /** The two words of the length in bits: total << 3 across both words. */
  function High(t0: nat, t1: nat, word: nat): nat
    requires word >= 8
  {
    t0 / (word / 8) + 8 * t1 % word
  }

  function Low(t0: nat, word: nat): nat
    requires word >= 8
  {
    8 * t0 % word
  }

  lemma BitLength32(t0: nat, t1: nat) returns (k: nat)
    requires t0 < 0x1_0000_0000
    ensures 8 * (t0 + 0x1_0000_0000 * t1) ==
            (t0 / 0x2000_0000 + 8 * t1 % 0x1_0000_0000) * 0x1_0000_0000 + 8 * t0 % 0x1_0000_0000
            + 0x1_0000_0000 * 0x1_0000_0000 * k
  {
    k := 8 * t1 / 0x1_0000_0000;
    assert 8 * t1 == 0x1_0000_0000 * k + 8 * t1 % 0x1_0000_0000;
    assert 8 * t0 == 0x1_0000_0000 * (t0 / 0x2000_0000) + 8 * t0 % 0x1_0000_0000;
  }

  lemma BitLength64(t0: nat, t1: nat) returns (k: nat)
    requires t0 < 0x1_0000_0000_0000_0000
    ensures 8 * (t0 + 0x1_0000_0000_0000_0000 * t1) ==
            (t0 / 0x2000_0000_0000_0000 + 8 * t1 % 0x1_0000_0000_0000_0000) * 0x1_0000_0000_0000_0000
            + 8 * t0 % 0x1_0000_0000_0000_0000 + 0x1_0000_0000_0000_0000 * 0x1_0000_0000_0000_0000 * k
  {
    k := 8 * t1 / 0x1_0000_0000_0000_0000;
    assert 8 * t1 == 0x1_0000_0000_0000_0000 * k + 8 * t1 % 0x1_0000_0000_0000_0000;
    assert 8 * t0 == 0x1_0000_0000_0000_0000 * (t0 / 0x2000_0000_0000_0000) + 8 * t0 % 0x1_0000_0000_0000_0000;
  }

  lemma BitLength(t0: nat, t1: nat, word: nat) returns (k: nat)
    requires (word == 0x1_0000_0000 || word == 0x1_0000_0000_0000_0000) && t0 < word && t1 < word
    ensures 8 * (t0 + word * t1) == High(t0, t1, word) * word + Low(t0, word) + word * word * k
  {
    if word == 0x1_0000_0000 {
      k := BitLength32(t0, t1);
    } else {
      k := BitLength64(t0, t1);
    }
  }

  lemma Regroup(p: nat, k: nat)
    ensures 256 * p * k == 256 * (p * k) && k * (256 * p) == 256 * (k * p)
  {
  }

  /** The two words are the length field of the padding. */
  lemma LengthField(length: nat, t0: nat, t1: nat, word: nat, field: nat)
    requires (field == 8 && word == 0x1_0000_0000) || (field == 16 && word == 0x1_0000_0000_0000_0000)
    requires TotalIs(t0, t1, length, word)
    ensures BigEndian(High(t0, t1, word), field / 2) + BigEndian(Low(t0, word), field / 2) ==
            BigEndian(8 * length, field)
  {
    hide BigEndian, Pow256, High, Low;
    FieldSizesAre();
    var k := BitLength(t0, t1, word);
    LowSmall(t0, word);
    BigEndianWords(High(t0, t1, word), Low(t0, word), field / 2, field / 2);
    var n: nat := High(t0, t1, word) * word + Low(t0, word);
    BigEndianWraps(n, k, field);
    var q := length / (word * word);
    assert length == word * word * q + (t0 + word * t1);
    BigEndianWraps(8 * (t0 + word * t1), 8 * q, field);
    assert 8 * length == 8 * (t0 + word * t1) + word * word * (8 * q);
  }

  lemma FieldSizesAre()
    ensures Pow256(4) == 0x1_0000_0000 && Pow256(8) == 0x1_0000_0000_0000_0000
    ensures Pow256(16) == 0x1_0000_0000_0000_0000 * 0x1_0000_0000_0000_0000
  {
    assert Pow256(2) == 65536;
    assert Pow256(4) == 0x1_0000_0000;
    assert Pow256(6) == 65536 * 0x1_0000_0000;
    assert Pow256(8) == 0x1_0000_0000_0000_0000;
    assert Pow256(10) == 65536 * Pow256(8);
    assert Pow256(12) == 65536 * Pow256(10);
    assert Pow256(14) == 65536 * Pow256(12);
    assert Pow256(16) == 65536 * Pow256(14);
  }

  lemma LowSmall(t0: nat, word: nat)
    requires word >= 8
    ensures Low(t0, word) < word
  {
  }

  lemma PadIs(block: nat, field: nat, length: nat, last: nat, padn: nat)
    requires block > field > 0 && last == length % block
    requires padn == if last < block - field then block - field - last else 2 * block - field - last
    ensures padn == PadLength(block, field, length) && padn >= 1 && (length + padn + field) % block == 0
  {
    PadLengthLeast(block, field, length, 1);
  }

  lemma FoldWhole<S>(c: Context<S>)
    requires c.Valid()
    ensures |c.msg| % c.block == 0 ==> c.state == Fold(c.compress, c.block, c.start, c.msg)
  {
    hide Fold;
    assert c.msg[..|c.msg|] == c.msg;
  }

  lemma HashedBounds<S>(c: Context<S>, all: seq<byte>, d: nat, at: nat)
    requires c.Hashed(all, d, at)
    ensures c.Sizes() && at < c.block && d + at <= |all|
  {
  }

  lemma ValidHashed<S>(c: Context<S>, input: seq<byte>)
    requires c.Valid()
    ensures c.Hashed(c.msg + input, Whole(|c.msg|, c.block), |c.msg| % c.block)
    ensures c.Sizes() && c.total0 == Mod(|c.msg|, c.word) && TotalIs(c.total0, c.total1, c.counted, c.word)
  {
    hide Fold;
    WholeBlocks(|c.msg|, c.block);
    var w := Whole(|c.msg|, c.block);
    assert (c.msg + input)[..w] == c.msg[..w] && (c.msg + input)[w..w + |c.msg| % c.block] == c.msg[w..];
  }

  lemma HashedValid<S>(c: Context<S>, d: nat)
    requires c.Sizes() && |c.msg| - c.block < d <= |c.msg| && c.Hashed(c.msg, d, |c.msg| - d)
    requires c.total0 == Mod(|c.msg|, c.word) && TotalIs(c.total0, c.total1, c.counted, c.word)
    ensures c.Valid()
  {
    hide Fold;
    WholeIs(|c.msg|, c.block, d);
    assert c.msg[d..d + (|c.msg| - d)] == c.msg[d..];
  }

  lemma ValidCounts<S>(c: Context<S>)
    requires c.Valid()
    ensures c.Sizes() && TotalIs(c.total0, c.total1, c.counted, c.word)
  {
  }

  lemma NothingYet<S>(block: nat, word: nat, compress: (S, seq<byte>) -> S, init: S)
    requires block > 0 && word > 0
    ensures Mod(0, word) == 0 && TotalIs(0, 0, 0, word) && 0 % block == 0
    ensures Whole(0, block) == 0 && Fold(compress, block, init, []) == init
  {
    assert word * 0 == 0;
    ModUnique(0, word, 0, 0);
    ModUnique(0, block, 0, 0);
    NoneOf(word * word);
  }

  lemma NoneOf(wide: nat)
    ensures wide > 0 ==> Mod(0, wide) == 0
  {
    if wide > 0 {
      ModUnique(0, wide, 0, 0);
    }
  }

  lemma CountedWords(counted: nat, t0: nat, t1: nat, word: nat)
    requires word > 0 && TotalIs(t0, t1, counted, word)
    ensures t0 < word && t1 < word
  {
  }

  lemma NextTotalIs(counted: nat, t0: nat, t1: nat, ilen: nat, word: nat, r0: nat, r1: nat)
    requires word > 0 && TotalIs(t0, t1, counted, word) && r0 < word && r1 < word
    requires r0 + word * r1 == NextTotal(t0, t1, ilen, word)
    ensures TotalIs(r0, r1, counted + Mod(ilen, word), word)
  {
    ModAdd(counted, ilen % word, word * word);
  }

  lemma ModSmall(n: nat, word: nat)
    requires n < word
    ensures Mod(n, word) == n
  {
    ModUnique(n, word, 0, n);
  }

  lemma JoinSlices(all: seq<byte>, d: nat, left: nat, fill: nat)
    requires d + left + fill <= |all|
    ensures all[d..d + left] + all[d + left..][..fill] == all[d..d + left + fill]
  {
  }

  lemma NextBlock<S>(compress: (S, seq<byte>) -> S, block: nat, start: S, all: seq<byte>, n: nat)
    requires block > 0 && n % block == 0 && n + block <= |all|
    ensures (n + block) % block == 0
    ensures Fold(compress, block, start, all[..n + block]) ==
            compress(Fold(compress, block, start, all[..n]), all[n..n + block])
  {
    hide Fold;
    assert all[..n + block] == all[..n] + all[n..n + block];
    FoldAppend(compress, block, start, all[..n], all[n..n + block]);
    FoldOne(compress, block, Fold(compress, block, start, all[..n]), all[n..n + block]);
    LessBlock(n + block, block);
  }

  lemma WholeIs(n: nat, block: nat, d: nat)
    requires block > 0 && d % block == 0 && d <= n < d + block
    ensures Whole(n, block) == d && n % block == n - d
  {
    assert d == block * (d / block) + 0;
    ModUnique(n, block, d / block, n - d);
  }

  lemma CountStep(t0: nat, t1: nat, ilen: nat, word: nat, r0: nat, r1: nat)
    requires t0 < word && t1 < word && r0 == (t0 + ilen % word) % word
    requires r1 == if r0 < ilen % word then (t1 + 1) % word else t1
    ensures r0 == Mod(t0 + ilen, word) && r0 < word && r1 < word
    ensures r0 + word * r1 == NextTotal(t0, t1, ilen, word)
  {
    var a := ilen % word;
    CountLow(t0, ilen, word);
    if t0 + a < word {
      SmallSum(r0, t1, word);
    } else {
      if t1 + 1 < word {
        ModUnique(t1 + 1, word, 0, t1 + 1);
        assert word * (t1 + 1) == word * t1 + word;
        SmallSum(r0, t1 + 1, word);
      } else {
        ModUnique(word, word, 1, 0);
        assert word * word == word * t1 + word;
        WideSum(r0, word);
      }
    }
  }

  lemma CountLow(t0: nat, ilen: nat, word: nat)
    requires t0 < word
    ensures var a := ilen % word;
            (t0 + a) % word == (t0 + ilen) % word == if t0 + a < word then t0 + a else t0 + a - word
  {
    var a, q := ilen % word, ilen / word;
    assert ilen == word * q + a;
    if t0 + a < word {
      ModUnique(t0 + a, word, 0, t0 + a);
      ModUnique(t0 + ilen, word, q, t0 + a);
    } else {
      ModUnique(t0 + a, word, 1, t0 + a - word);
      assert word * (q + 1) == word * q + word;
      ModUnique(t0 + ilen, word, q + 1, t0 + a - word);
    }
  }

  lemma SmallSum(t0: nat, t1: nat, word: nat)
    requires t0 < word && t1 < word
    ensures t0 + word * t1 == (t0 + word * t1) % (word * word)
  {
    MulMonotone(word, t1 + 1, word);
    assert word * (t1 + 1) == word * t1 + word;
    var n: nat := t0 + word * t1;
    ModUnique(n, word * word, 0, n);
  }

  lemma WideSum(r: nat, word: nat)
    requires r < word
    ensures (r + word * word) % (word * word) == r
  {
    MulMonotone(word, 1, word);
    ModUnique(r + word * word, word * word, 1, r);
  }

  lemma LeftIs(n: nat, block: nat, word: nat)
    requires (block == 64 && word == 0x1_0000_0000) || (block == 128 && word == 0x1_0000_0000_0000_0000)
    ensures Mod(n, word) % block == n % block
  {
    if block == 64 {
      AddMultiple(n % word, 64, 0x400_0000 * (n / word));
    } else {
      AddMultiple(n % word, 128, 0x200_0000_0000_0000 * (n / word));
    }
  }

  lemma CountedLength(n: nat, ilen: nat, word: nat)
    requires word == 0x1_0000_0000 || word == 0x1_0000_0000_0000_0000
    ensures Mod(Mod(n, word) + ilen, word) == Mod(n + ilen, word)
  {
    if word == 0x1_0000_0000 {
    } else {
    }
  }

  lemma AddMultiple(x: nat, word: nat, q: nat)
    requires word > 0
    ensures (x + word * q) % word == x % word
  {
    var q', r := x / word, x % word;
    assert x == word * q' + r;
    assert word * (q' + q) == word * q' + word * q;
    ModUnique(x + word * q, word, q' + q, r);
  }

  // ----- Any split of a message -----

  lemma ModAdd(n: nat, r: nat, wide: nat)
    requires wide > 0
    ensures Mod(Mod(n, wide) + r, wide) == Mod(n + r, wide)
  {
    DivMod(n, wide);
    AddMultiple(n % wide + r, wide, n / wide);
  }

  function Concat(pieces: seq<seq<byte>>): seq<byte> {
    if pieces == [] then [] else Concat(pieces[..|pieces| - 1]) + pieces[|pieces| - 1]
  }

  /** What the counter gets to see: the lengths of the pieces, each cut to a word. */
  function Counted(pieces: seq<seq<byte>>, word: nat): nat
    requires word > 0
  {
    if pieces == [] then 0 else Counted(pieces[..|pieces| - 1], word) + Mod(|pieces[|pieces| - 1]|, word)
  }

  /** How many full words of bytes it does not get to see. */
  function Uncounted(pieces: seq<seq<byte>>, word: nat): nat
    requires word > 0
  {
    if pieces == [] then 0 else Uncounted(pieces[..|pieces| - 1], word) + |pieces[|pieces| - 1]| / word
  }

  lemma {:induction false} CountedLengthIs(pieces: seq<seq<byte>>, word: nat)
    requires word > 0
    ensures |Concat(pieces)| == Counted(pieces, word) + word * Uncounted(pieces, word)
  {
    hide Mod;
    if pieces != [] {
      var init, last := pieces[..|pieces| - 1], |pieces[|pieces| - 1]|;
      CountedLengthIs(init, word);
      Divided(last, word);
      Distribute(word, Uncounted(init, word), last / word);
    }
  }

  lemma Distribute(w: nat, a: nat, b: nat)
    ensures w * (a + b) == w * a + w * b
  {
  }

  /** Pieces shorter than a word are counted in full. */
  lemma {:induction false} ShortPieces(pieces: seq<seq<byte>>, word: nat)
    requires word > 0 && forall i :: 0 <= i < |pieces| ==> |pieces[i]| < word
    ensures Uncounted(pieces, word) == 0
  {
    if pieces != [] {
      ShortPieces(pieces[..|pieces| - 1], word);
    }
  }

  /** Two numbers with the same bytes differ by a multiple of what the field can hold. */
  lemma {:induction false} SameBytes(n: nat, more: nat, count: nat) returns (k: nat)
    requires BigEndian(n + more, count) == BigEndian(n, count)
    ensures more == Pow256(count) * k
  {
    if count == 0 {
      k := more;
    } else {
      var a, b := BigEndian((n + more) / 256, count - 1), BigEndian(n / 256, count - 1);
      assert BigEndian(n + more, count)[count - 1] == (n + more) % 256 && BigEndian(n, count)[count - 1] == n % 256;
      assert a == BigEndian(n + more, count)[..count - 1] && b == BigEndian(n, count)[..count - 1];
      Carried(n, more);
      k := SameBytes(n / 256, more / 256, count - 1);
      Regroup(Pow256(count - 1), k);
    }
  }

  lemma Carried(n: nat, more: nat)
    requires (n + more) % 256 == n % 256
    ensures more == 256 * (more / 256) && (n + more) / 256 == n / 256 + more / 256
  {
  }

  /** The length field shows the length in bits unless the uncounted words leave a remainder by word / 8. */
  lemma LengthShown(length: nat, uncounted: nat, word: nat, field: nat)
    requires (field == 8 && word == 0x1_0000_0000) || (field == 16 && word == 0x1_0000_0000_0000_0000)
    ensures BigEndian(8 * (length + word * uncounted), field) == BigEndian(8 * length, field)
       <==> uncounted % (word / 8) == 0
  {
    hide BigEndian, Pow256;
    FieldSizesAre();
    var more: nat := 8 * (word * uncounted);
    assert 8 * (length + word * uncounted) == 8 * length + more;
    if BigEndian(8 * length + more, field) == BigEndian(8 * length, field) {
      var k := SameBytes(8 * length, more, field);
      EighthDivides(uncounted, word, k);
    }
    if uncounted % (word / 8) == 0 {
      EighthDivides(uncounted, word, uncounted / (word / 8));
      BigEndianWraps(8 * length, uncounted / (word / 8), field);
    }
  }

  lemma EighthDivides(uncounted: nat, word: nat, k: nat)
    requires word == 0x1_0000_0000 || word == 0x1_0000_0000_0000_0000
    ensures 8 * (word * uncounted) == word * word * k <==> uncounted % (word / 8) == 0 && k == uncounted / (word / 8)
  {
    if word == 0x1_0000_0000 {
      assert 8 * (0x1_0000_0000 * uncounted) == 0x1_0000_0000 * 0x1_0000_0000 * k <==> uncounted == 0x2000_0000 * k;
    } else {
      assert word * word * k == 0x1_0000_0000_0000_0000 * 0x1_0000_0000_0000_0000 * k;
      assert 8 * (word * uncounted) == word * word * k <==> uncounted == 0x2000_0000_0000_0000 * k;
    }
  }

  /** The text that is hashed is the padded message exactly when the uncounted words are a multiple of word / 8. */
  lemma TextIsPadded(pieces: seq<seq<byte>>, block: nat, field: nat, word: nat)
    requires block >= field
    requires (field == 8 && word == 0x1_0000_0000) || (field == 16 && word == 0x1_0000_0000_0000_0000)
    ensures PaddedAs(Concat(pieces), block, field, Counted(pieces, word)) == Padded(Concat(pieces), block, field)
       <==> Uncounted(pieces, word) % (word / 8) == 0
  {
    hide BigEndian, PadLength;
    var msg, counted := Concat(pieces), Counted(pieces, word);
    CountedLengthIs(pieces, word);
    LengthShown(counted, Uncounted(pieces, word), word, field);
    PadAtLeastOne(block, field, |msg|);
    var front := msg + [0x80] + Zeros(PadLength(block, field, |msg|) - 1);
    SameEnd(front, BigEndian(8 * counted, field), BigEndian(8 * |msg|, field));
  }

  lemma PadAtLeastOne(block: nat, field: nat, length: nat)
    requires block >= field > 0
    ensures PadLength(block, field, length) >= 1
  {
  }

  lemma SameEnd(front: seq<byte>, a: seq<byte>, b: seq<byte>)
    requires |a| == |b|
    ensures front + a == front + b <==> a == b
  {
    assert a == (front + a)[|front|..] && b == (front + b)[|front|..];
  }

  /** Hashing the pieces of a message one after the other hashes the whole message, padded with what was counted. */
  method HashPieces<S(==)>(c: Context<S>, pieces: seq<seq<byte>>) returns (digest: S)
    requires c.Valid() && c.msg == [] && c.counted == 0
    modifies c, c.buffer
    ensures digest == Fold(c.compress, c.block, c.start,
                           PaddedAs(Concat(pieces), c.block, c.field, Counted(pieces, c.word)))
  {
    hide Fold, PaddedAs, Context.Valid, Mod;
    ValidCounts(c);
    for i := 0 to |pieces|
      invariant c.Valid() && c.Sizes() && c.msg == Concat(pieces[..i]) && c.counted == Counted(pieces[..i], c.word)
    {
      c.Update(pieces[i]);
      assert pieces[..i + 1][..i] == pieces[..i];
    }
    assert pieces[..|pieces|] == pieces;
    c.Finish();
    digest := c.state;
  }
}
