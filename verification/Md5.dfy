/**
 * MD5 over a message that arrives in pieces: a byte by byte path, and a fast
 * path that hands aligned blocks of the input directly to the block function.
 * Nothing here depends on what the block function is.
 */
module Md5 {
  import opened Powers
  import opened BitStream
  import opened HashStream

  const UINT4: nat := 0x1_0000_0000

  // ----- Words of bytes, least significant first -----

  function WordAt(b: seq<byte>, i: nat): nat
    requires 4 * i + 4 <= |b|
  {
    (b[4 * i] as nat) + 256 * (b[4 * i + 1] as nat) + 65536 * (b[4 * i + 2] as nat) + 16777216 * (b[4 * i + 3] as nat)
  }

  /** The first `count` words: what the byte path assembles, and what a little-endian machine reads from memory. */
  function WordsOf(b: seq<byte>, count: nat): (w: seq<nat>)
    requires 4 * count <= |b|
    ensures |w| == count && forall i :: 0 <= i < count ==> w[i] == WordAt(b, i)
  {
    seq(count, i requires 0 <= i < count => WordAt(b, i))
  }

  function LittleEndian8(n: nat): (b: seq<byte>)
    ensures |b| == 8
  {
    [n % 256, n / 256 % 256, n / 65536 % 256, n / 16777216 % 256,
     n / UINT4 % 256, n / UINT4 / 256 % 256, n / UINT4 / 65536 % 256, n / UINT4 / 16777216 % 256]
  }

  lemma FourBytes(n: nat)
    ensures n % 256 + 256 * (n / 256 % 256) + 65536 * (n / 65536 % 256) + 16777216 * (n / 16777216 % 256) == n % UINT4
  {
    var a := n / 256;
    var b := a / 256;
    assert n / 65536 == b && n / 16777216 == b / 256;
  }

  /** The bytes of the length read back as its two words. */
  lemma LengthWords(n: nat)
    ensures WordAt(LittleEndian8(n), 0) == n % UINT4 && WordAt(LittleEndian8(n), 1) == n / UINT4 % UINT4
  {
    FourBytes(n);
    FourBytes(n / UINT4);
  }

  /** Step 1 and 2 of section 3 of RFC 1321. */
  function Md5Padded(msg: seq<byte>): seq<byte> {
    msg + [0x80] + Zeros(PadLength(64, 8, |msg|) - 1) + LittleEndian8(8 * |msg|)
  }

  /** The block function on a block of bytes. */
  function OnBytes<S>(transform: (S, seq<nat>) -> S): (S, seq<byte>) -> S {
    (s: S, b: seq<byte>) => if |b| == 64 then transform(s, WordsOf(b, 16)) else s
  }

  // ----- The counter -----

  /** The two words hold the length in bits. */
  predicate BitsCounted(i0: nat, i1: nat, length: nat) {
    i0 < UINT4 && i1 < UINT4 && i0 == 8 * length % UINT4 && i1 == 8 * length / UINT4 % UINT4
  }

  /** Adding the low words and carrying into the high word counts 8 bits for each byte. */
  lemma CountBits(i0: nat, i1: nat, length: nat, inLen: nat, r0: nat, carry: nat)
    requires BitsCounted(i0, i1, length) && inLen < UINT4
    requires r0 == (i0 + 8 * inLen % UINT4) % UINT4 && carry == if r0 < i0 then 1 else 0
    ensures BitsCounted(r0, ((i1 + carry) % UINT4 + inLen / 0x2000_0000) % UINT4, length + inLen)
  {
    var low, high, q := 8 * inLen % UINT4, inLen / 0x2000_0000, 8 * length / UINT4;
    Shifted(inLen);
    QuotientIs(8 * length, q, i0);
    assert i0 + low == UINT4 * carry + r0;
    QuotientIs(8 * (length + inLen), q + high + carry, r0);
    HighWord(q, carry, high);
  }

  /** What the shift by three drops from the low word goes into the high word. */
  lemma Shifted(inLen: nat)
    ensures 8 * inLen == UINT4 * (inLen / 0x2000_0000) + 8 * inLen % UINT4
  {
  }

  lemma QuotientIs(x: nat, q: nat, r: nat)
    requires r < UINT4
    ensures x == UINT4 * q + r <==> x / UINT4 == q && x % UINT4 == r
  {
  }

  lemma HighWord(q: nat, carry: nat, high: nat)
    ensures ((q % UINT4 + carry) % UINT4 + high) % UINT4 == (q + high + carry) % UINT4
  {
  }

  lemma BytesBuffered(i0: nat, i1: nat, length: nat)
    requires BitsCounted(i0, i1, length)
    ensures i0 / 8 % 64 == length % 64
  {
    EighthMod(length);
    MultipleOf64(length, length / 0x2000_0000);
  }

  lemma EighthMod(length: nat)
    ensures 8 * length % UINT4 == 8 * (length % 0x2000_0000)
  {
  }

  lemma MultipleOf64(length: nat, q: nat)
    requires length == 0x2000_0000 * q + length % 0x2000_0000
    ensures length % 0x2000_0000 % 64 == length % 64
  {
  }

  // ----- The context -----

  class Md5Context<S(==)> {
    const transform: (S, seq<nat>) -> S
    var i0: nat
    var i1: nat
    var buf: S
    const bytes: array<byte>
    ghost const start: S
    /** Everything hashed so far. */
    ghost var msg: seq<byte>

    /** The message `all` is hashed up to position d, and `at` more bytes wait in the buffer. */
    ghost predicate Hashed(all: seq<byte>, d: nat, at: nat)
      reads this`buf, bytes
    {
      && bytes.Length == 64 && at < 64 && d % 64 == 0 && d + at <= |all|
      && buf == Fold(OnBytes(transform), 64, start, all[..d]) && bytes[..at] == all[d..d + at]
    }

    ghost predicate Valid()
      reads this, bytes
    {
      BitsCounted(i0, i1, |msg|) && Hashed(msg, Whole(|msg|, 64), |msg| % 64)
    }

    /** MD5Init */
    constructor (transform: (S, seq<nat>) -> S, init: S)
      ensures Valid() && msg == [] && fresh(bytes) && this.transform == transform && start == init
    {
      this.transform := transform;
      i0, i1 := 0, 0;
      buf, start := init, init;
      bytes := new byte[64];
      msg := [];
    }

    /** One block of sixteen words. */
    method Transform(words: seq<nat>, ghost block: seq<byte>, ghost all: seq<byte>, ghost d: nat)
      requires d % 64 == 0 && d + 64 <= |all| && block == all[d..d + 64] && words == WordsOf(block, 16)
      requires buf == Fold(OnBytes(transform), 64, start, all[..d])
      modifies this`buf
      ensures (d + 64) % 64 == 0 && buf == Fold(OnBytes(transform), 64, start, all[..d + 64])
    {
      hide Fold, WordsOf;
      NextBlock(OnBytes(transform), 64, start, all, d);
      buf := transform(buf, words);
    }

    /** The byte path takes one byte. */
    method AddByte(b: byte, mdi: nat, ghost all: seq<byte>, ghost d: nat) returns (mdi': nat, ghost d': nat)
      requires Hashed(all, d, mdi) && d + mdi < |all| && b == all[d + mdi]
      modifies this`buf, bytes
      ensures Hashed(all, d', mdi') && d' + mdi' == d + mdi + 1
    {
      hide Fold, WordsOf;
      bytes[mdi] := b;
      assert bytes[..mdi + 1] == all[d..d + mdi + 1];
      mdi', d' := mdi + 1, d;
      if mdi' == 64 {
        assert bytes[..] == all[d..d + 64];
        Transform(WordsOf(bytes[..], 16), bytes[..], all, d);
        mdi', d' := 0, d + 64;
      }
    }

    /** The fast path: whole blocks straight from the input. */
    method FastBlocks(input: seq<byte>, ghost all: seq<byte>, ghost d: nat) returns (pos: nat)
      requires Hashed(all, d, 0) && all[d..] == input
      modifies this`buf
      ensures pos <= |input| && Hashed(all, d + pos, 0)
    {
      hide Fold, WordsOf;
      pos := 0;
      while |input| - pos >= 64
        invariant pos <= |input| && Hashed(all, d + pos, 0)
      {
        assert input[pos..pos + 64] == all[d + pos..d + pos + 64];
        Transform(WordsOf(input[pos..pos + 64], 16), input[pos..pos + 64], all, d + pos);
        pos := pos + 64;
      }
    }

    /** MD5Update: the result does not depend on where the input lies in memory */
    method Update(input: seq<byte>, aligned: bool)
      requires Valid() && |input| < UINT4
      modifies this`i0, this`i1, this`buf, this`msg, bytes
      ensures Valid() && msg == old(msg) + input
    {
      hide Fold, BitsCounted, WordsOf;
      BytesBuffered(i0, i1, |msg|);
      var mdi := i0 / 8 % 64;
      var low := (i0 + 8 * |input| % UINT4) % UINT4;
      var carry := if low < i0 then 1 else 0;
      CountBits(i0, i1, |msg|, |input|, low, carry);
      i1 := ((i1 + carry) % UINT4 + |input| / 0x2000_0000) % UINT4;
      i0 := low;
      ghost var all := msg + input;
      Grown(this, msg, all, Whole(|msg|, 64), mdi);
      ghost var d := Absorb(input, mdi, aligned, all, Whole(|msg|, 64));
      msg := all;
      WholeIs(|msg|, 64, d);
    }

    /** MD5Final, up to writing out the state */
    method Final()
      requires Valid()
      modifies this`i0, this`i1, this`buf, this`msg, bytes
      ensures buf == Fold(OnBytes(transform), 64, start, Md5Padded(old(msg)))
    {
      hide Fold, BitsCounted, WordsOf, PadLength, LittleEndian8;
      ghost var m := msg;
      var low, high := i0, i1;
      BytesBuffered(i0, i1, |msg|);
      LengthIs(i0, i1, |msg|);
      var mdi := i0 / 8 % 64;
      var padLen := if mdi < 56 then 56 - mdi else 120 - mdi;
      PadIs(64, 8, |m|, mdi, padLen);
      Update([0x80] + Zeros(padLen - 1), false);
      ghost var all := msg + LittleEndian8(8 * |m|);
      LastBlock(|msg|);
      ghost var d := Whole(|msg|, 64);
      Grown(this, msg, all, d, 56);
      ghost var block := bytes[..56] + LittleEndian8(8 * |m|);
      LastSlice(msg, LittleEndian8(8 * |m|), d, bytes[..56]);
      LastWords(bytes[..], block, LittleEndian8(8 * |m|));
      Transform(WordsOf(bytes[..], 14) + [low, high], block, all, d);
      assert all == Md5Padded(m);
    }

    method Absorb(input: seq<byte>, left: nat, aligned: bool, ghost all: seq<byte>, ghost start': nat)
      returns (ghost d: nat)
      requires Hashed(all, start', left) && all[start' + left..] == input
      modifies this`buf, bytes
      ensures d <= |all| < d + 64 && Hashed(all, d, |all| - d)
    {
      hide Fold, Md5Context.Hashed;
      Bounds(this, all, start', left);
      var mdi, pos := left, 0;
      d := start';
      if mdi == 0 && aligned {
        pos := FastBlocks(input, all, d);
        d := d + pos;
      }
      while pos < |input|
        invariant pos <= |input| && Hashed(all, d, mdi) && d + mdi == start' + left + pos
      {
        assert input[pos] == all[d + mdi];
        mdi, d := AddByte(input[pos], mdi, all, d);
        pos := pos + 1;
      }
      Bounds(this, all, d, mdi);
    }
  }

  lemma LengthIs(i0: nat, i1: nat, length: nat)
    requires BitsCounted(i0, i1, length)
    ensures i0 == WordAt(LittleEndian8(8 * length), 0) && i1 == WordAt(LittleEndian8(8 * length), 1)
  {
    hide LittleEndian8, WordAt;
    LengthWords(8 * length);
  }

  lemma LastSlice(msg: seq<byte>, length: seq<byte>, d: nat, rest: seq<byte>)
    requires |length| == 8 && d + 56 == |msg| && rest == msg[d..d + 56]
    ensures (msg + length)[d..d + 64] == rest + length && (msg + length)[..d + 64] == msg + length
  {
  }

  lemma LastBlock(n: nat)
    requires (n + 8) % 64 == 0
    ensures n % 64 == 56 && Whole(n, 64) == n - 56 && Whole(n, 64) % 64 == 0
  {
  }

  /** Fourteen words of the buffer and the two words of the length are the words of the last block. */
  lemma LastWords(bytes: seq<byte>, block: seq<byte>, length: seq<byte>)
    requires |bytes| == 64 && |length| == 8 && block == bytes[..56] + length
    ensures WordsOf(bytes, 14) + [WordAt(length, 0), WordAt(length, 1)] == WordsOf(block, 16)
  {
    forall i | 0 <= i < 16
      ensures WordAt(block, i) == if i < 14 then WordAt(bytes, i) else WordAt(length, i - 14)
    {
    }
  }

  lemma Bounds<S>(c: Md5Context<S>, all: seq<byte>, d: nat, at: nat)
    requires c.Hashed(all, d, at)
    ensures at < 64 && d + at <= |all| && d % 64 == 0
  {
  }

  lemma Grown<S>(c: Md5Context<S>, msg: seq<byte>, all: seq<byte>, d: nat, at: nat)
    requires c.Hashed(msg, d, at) && msg <= all
    ensures c.Hashed(all, d, at)
  {
    hide Fold;
    assert all[..d] == msg[..d] && all[d..d + at] == msg[d..d + at];
  }

  /** MD5Init, any number of MD5Updates of inputs at any addresses, MD5Final: the hash of the whole message. */
  method HashMessage<S(==)>(transform: (S, seq<nat>) -> S, init: S, pieces: seq<(seq<byte>, bool)>) returns (digest: S)
    requires forall i :: 0 <= i < |pieces| ==> |pieces[i].0| < UINT4
    ensures digest == Fold(OnBytes(transform), 64, init, Md5Padded(Joined(pieces)))
  {
    hide Fold, OnBytes, Md5Padded, Md5Context.Valid;
    var c := new Md5Context(transform, init);
    for i := 0 to |pieces|
      invariant c.Valid() && c.msg == Joined(pieces[..i]) && fresh(c) && fresh(c.bytes)
    {
      c.Update(pieces[i].0, pieces[i].1);
      assert pieces[..i + 1][..i] == pieces[..i];
    }
    assert pieces[..|pieces|] == pieces;
    c.Final();
    digest := c.buf;
  }

  /** The inputs, whatever their alignment. */
  function Joined(pieces: seq<(seq<byte>, bool)>): seq<byte> {
    if pieces == [] then [] else Joined(pieces[..|pieces| - 1]) + pieces[|pieces| - 1].0
  }
}
