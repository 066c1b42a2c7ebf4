/**
 * The block function of SHA-1: a schedule of sixteen words used in a circle and
 * five registers that are renamed instead of moved, against section 6.1.2 of FIPS 180-4.
 */
module Sha1 {
  import opened BitStream
  import opened HashStream

  type Word = bv32

  // ----- FIPS 180-4 -----

  function Rotl(x: Word, n: nat): Word
    requires 0 < n < 32
  {
    x.RotateLeft(n)
  }

  function Ch(x: Word, y: Word, z: Word): Word { (x & y) ^ (!x & z) }

  function Parity(x: Word, y: Word, z: Word): Word { x ^ y ^ z }

  function Maj(x: Word, y: Word, z: Word): Word { (x & y) ^ (x & z) ^ (y & z) }

  function Xor4(x: Word, y: Word, z: Word, u: Word): Word { x ^ y ^ z ^ u }

  /** Addition modulo 2 to the 32. */
  function Plus(x: Word, y: Word): Word { x + y }

  /** The function of round t. */
  function Round(t: nat, x: Word, y: Word, z: Word): Word {
    if t < 20 then Ch(x, y, z) else if t < 40 then Parity(x, y, z) else if t < 60 then Maj(x, y, z) else Parity(x, y, z)
  }

  function K(t: nat): Word {
    if t < 20 then 0x5A827999 else if t < 40 then 0x6ED9EBA1 else if t < 60 then 0x8F1BBCDC else 0xCA62C1D6
  }

  /** Word i of a block. */
  function BlockWord(data: seq<byte>, i: nat): Word
    requires 4 * i + 4 <= |data|
  {
    ((data[4 * i] as bv32) << 24) | ((data[4 * i + 1] as bv32) << 16) | ((data[4 * i + 2] as bv32) << 8) |
      (data[4 * i + 3] as bv32)
  }

  /** Word t of the message schedule. */
  function W(data: seq<byte>, t: nat): Word
    requires |data| == 64
  {
    if t < 16 then BlockWord(data, t)
    else Rotl(Xor4(W(data, t - 3), W(data, t - 8), W(data, t - 14), W(data, t - 16)), 1)
  }

  datatype Registers = Registers(a: Word, b: Word, c: Word, d: Word, e: Word)

  /** The sum of the five terms of a round. */
  function Temporary(t: nat, r: Registers, w: Word): Word {
    Plus(r.e, Plus(Plus(Plus(Rotl(r.a, 5), Round(t, r.b, r.c, r.d)), K(t)), w))
  }

  /** The registers after t rounds. */
  function After(h: Registers, data: seq<byte>, t: nat): Registers
    requires |data| == 64
  {
    if t == 0 then h
    else
      var r := After(h, data, t - 1);
      Registers(Temporary(t - 1, r, W(data, t - 1)), r.a, Rotl(r.b, 30), r.c, r.d)
  }

  function Compress(h: Registers, data: seq<byte>): Registers {
    if |data| != 64 then h
    else
      var r := After(h, data, 80);
      Registers(Plus(h.a, r.a), Plus(h.b, r.b), Plus(h.c, r.c), Plus(h.d, r.d), Plus(h.e, r.e))
  }

  // ----- mbedtls_sha1_process -----

  /** The macro S */
  function S(x: Word, n: nat): (r: Word)
    requires n in {1, 5, 30}
    ensures r == Rotl(x, n)
  {
    if n == 1 then (x << 1) | (x >> 31) else if n == 5 then (x << 5) | (x >> 27) else (x << 30) | (x >> 2)
  }

  lemma ChSame(x: Word, y: Word, z: Word)
    ensures z ^ (x & (y ^ z)) == (x & y) ^ (!x & z)
  {
  }

  lemma MajSame(x: Word, y: Word, z: Word)
    ensures (x & y) | (z & (x | y)) == (x & y) ^ (x & z) ^ (y & z)
  {
  }

  /** The macro F of the first and of the third quarter of the rounds */
  function FirstF(x: Word, y: Word, z: Word): (r: Word)
    ensures r == Ch(x, y, z)
  {
    ChSame(x, y, z);
    z ^ (x & (y ^ z))
  }

  function ThirdF(x: Word, y: Word, z: Word): (r: Word)
    ensures r == Maj(x, y, z)
  {
    MajSame(x, y, z);
    (x & y) | (z & (x | y))
  }

  function F(t: nat, x: Word, y: Word, z: Word): (r: Word)
    ensures r == Round(t, x, y, z)
  {
    hide Ch, Maj, Parity, FirstF, ThirdF;
    if t < 20 then FirstF(x, y, z) else if t < 40 then Parity(x, y, z) else if t < 60 then ThirdF(x, y, z)
      else Parity(x, y, z)
  }

  /** The register that has role `role` in round t: A, B, C, D and E change roles from round to round. */
  function Reg(role: nat, t: nat): (i: nat)
    requires role < 5
    ensures i < 5
  {
    var turn := t % 5;
    if role >= turn then role - turn else role + 5 - turn
  }

  /** What the five variables hold after t rounds. */
  ghost predicate Holds(v: seq<Word>, r: Registers, t: nat) {
    |v| == 5 && v[Reg(0, t)] == r.a && v[Reg(1, t)] == r.b && v[Reg(2, t)] == r.c && v[Reg(3, t)] == r.d
      && v[Reg(4, t)] == r.e
  }

  /** In the next round every role moves to the next variable, and the last one becomes the first. */
  lemma Roles(t: nat)
    ensures Reg(0, t + 1) == Reg(4, t) && Reg(1, t + 1) == Reg(0, t) && Reg(2, t + 1) == Reg(1, t)
    ensures Reg(3, t + 1) == Reg(2, t) && Reg(4, t + 1) == Reg(3, t)
    ensures Reg(1, t) != Reg(4, t) && Reg(0, t) != Reg(1, t) && Reg(0, t) != Reg(4, t) && Reg(2, t) != Reg(1, t)
    ensures Reg(2, t) != Reg(4, t) && Reg(3, t) != Reg(1, t) && Reg(3, t) != Reg(4, t)
  {
    assert (t + 1) % 5 == if t % 5 == 4 then 0 else t % 5 + 1;
  }

  /** The last sixteen words of the schedule before word t stand in the circle. */
  ghost predicate Circle(w: seq<Word>, data: seq<byte>, t: nat)
    requires |data| == 64
  {
    |w| == 16 && forall i: nat :: t <= i + 16 && i < t ==> w[i % 16] == W(data, i)
  }

  /** R(t): the next word of the schedule replaces the oldest one. */
  method NextWord(w: array<Word>, data: seq<byte>, t: nat) returns (x: Word)
    requires |data| == 64 && w.Length == 16 && t >= 16 && Circle(w[..], data, t)
    modifies w
    ensures x == W(data, t) && Circle(w[..], data, t + 1)
  {
    hide W, S, Rotl, Xor4, Circle;
    ghost var before := w[..];
    CircleAt(before, data, t);
    var temp := Xor4(w[(t - 3) % 16], w[(t - 8) % 16], w[(t - 14) % 16], w[t % 16]);
    x := S(temp, 1);
    w[t % 16] := x;
    CircleNext(before, w[..], data, t);
  }

  lemma CircleAt(w: seq<Word>, data: seq<byte>, t: nat)
    requires |data| == 64 && t >= 16 && Circle(w, data, t)
    ensures |w| == 16 && w[(t - 3) % 16] == W(data, t - 3) && w[(t - 8) % 16] == W(data, t - 8)
    ensures w[(t - 14) % 16] == W(data, t - 14) && w[t % 16] == W(data, t - 16)
    ensures W(data, t) == Rotl(Xor4(W(data, t - 3), W(data, t - 8), W(data, t - 14), W(data, t - 16)), 1)
  {
    hide Rotl, Xor4, W, Circle;
    NextInSchedule(data, t);
    CircleOne(w, data, t, t - 3);
    CircleOne(w, data, t, t - 8);
    CircleOne(w, data, t, t - 14);
    CircleOne(w, data, t, t - 16);
    assert (t - 16) % 16 == t % 16;
  }

  lemma NextInSchedule(data: seq<byte>, t: nat)
    requires |data| == 64 && t >= 16
    ensures W(data, t) == Rotl(Xor4(W(data, t - 3), W(data, t - 8), W(data, t - 14), W(data, t - 16)), 1)
  {
    hide Rotl, Xor4, BlockWord;
  }

  lemma CircleOne(w: seq<Word>, data: seq<byte>, t: nat, i: nat)
    requires |data| == 64 && t <= i + 16 && i < t && Circle(w, data, t)
    ensures |w| == 16 && w[i % 16] == W(data, i)
  {
    hide W;
  }

  lemma OtherPlace(i: nat, t: nat)
    requires i < t < i + 16
    ensures i % 16 != t % 16
  {
  }

  lemma CircleNext(before: seq<Word>, after: seq<Word>, data: seq<byte>, t: nat)
    requires |data| == 64 && t >= 16 && Circle(before, data, t) && after == before[t % 16 := W(data, t)]
    ensures Circle(after, data, t + 1)
  {
    hide W;
    forall i: nat | t + 1 <= i + 16 && i < t + 1
      ensures after[i % 16] == W(data, i)
    {
      if i < t {
        OtherPlace(i, t);
      }
    }
  }

  /** P: one round on the five variables */
  method RoundStep(v: array<Word>, x: Word, ghost h: Registers, ghost data: seq<byte>, t: nat)
    requires v.Length == 5 && |data| == 64 && x == W(data, t) && Holds(v[..], After(h, data, t), t)
    modifies v
    ensures Holds(v[..], After(h, data, t + 1), t + 1)
  {
    hide W, F, S, K, Rotl, Round, Reg, Plus;
    Roles(t);
    var a, b, c, d, e := v[Reg(0, t)], v[Reg(1, t)], v[Reg(2, t)], v[Reg(3, t)], v[Reg(4, t)];
    v[Reg(4, t)] := Plus(e, Plus(Plus(Plus(S(a, 5), F(t, b, c, d)), K(t)), x));
    v[Reg(1, t)] := S(b, 30);
  }

  /** mbedtls_sha1_process */
  method Process(h: Registers, data: seq<byte>) returns (r: Registers)
    requires |data| == 64
    ensures r == Compress(h, data)
  {
    hide W, BlockWord, After, Plus, Circle, Holds;
    var w := new Word[16](i requires 0 <= i < 16 => BlockWord(data, i));
    var v := new Word[5];
    v[0], v[1], v[2], v[3], v[4] := h.a, h.b, h.c, h.d, h.e;
    FirstWords(w[..], data);
    AtStart(v[..], h, data);
    for t := 0 to 80
      invariant Circle(w[..], data, if t < 16 then 16 else t)
      invariant Holds(v[..], After(h, data, t), t)
    {
      var x;
      if t < 16 {
        FirstWord(w[..], data, t);
        x := w[t];
      } else {
        x := NextWord(w, data, t);
      }
      RoundStep(v, x, h, data, t);
    }
    AtEnd(v[..], After(h, data, 80));
    r := Registers(Plus(h.a, v[0]), Plus(h.b, v[1]), Plus(h.c, v[2]), Plus(h.d, v[3]), Plus(h.e, v[4]));
  }

  lemma FirstWords(w: seq<Word>, data: seq<byte>)
    requires |data| == 64 && |w| == 16 && forall i :: 0 <= i < 16 ==> w[i] == BlockWord(data, i)
    ensures Circle(w, data, 16)
  {
    hide BlockWord;
  }

  lemma FirstWord(w: seq<Word>, data: seq<byte>, t: nat)
    requires |data| == 64 && t < 16 && Circle(w, data, 16)
    ensures |w| == 16 && w[t] == W(data, t)
  {
    hide W;
    assert t % 16 == t;
  }

  lemma AtStart(v: seq<Word>, h: Registers, data: seq<byte>)
    requires |data| == 64 && v == [h.a, h.b, h.c, h.d, h.e]
    ensures Holds(v, After(h, data, 0), 0)
  {
  }

  lemma AtEnd(v: seq<Word>, r: Registers)
    requires Holds(v, r, 80)
    ensures v == [r.a, r.b, r.c, r.d, r.e]
  {
  }

  // ----- Whole messages -----

  function Start(): Registers { Registers(0x67452301, 0xEFCDAB89, 0x98BADCFE, 0x10325476, 0xC3D2E1F0) }

  /** PUT_UINT32_BE */
  function WordBytes(x: Word): seq<byte> { BigEndian(x as nat, 4) }

  function Output(r: Registers): (bytes: seq<byte>)
    ensures |bytes| == 20
  {
    WordBytes(r.a) + WordBytes(r.b) + WordBytes(r.c) + WordBytes(r.d) + WordBytes(r.e)
  }

  /** SHA-1 of a message: the block function folded over the padded message. */
  function Digest(msg: seq<byte>): seq<byte> {
    Output(Fold(Compress, 64, Start(), Padded(msg, 64, 8)))
  }

  /** The text that is hashed when the message comes in these pieces. */
  function Text(pieces: seq<seq<byte>>): seq<byte> {
    PaddedAs(Concat(pieces), 64, 8, Counted(pieces, 0x1_0000_0000))
  }

  /**
   * Starts, any number of updates, finish. The text that is hashed is the padded
   * message unless the counter lost words of 2^32 bytes, other than 2^29 at a time.
   */
  method DigestPieces(pieces: seq<seq<byte>>) returns (output: seq<byte>)
    ensures output == Output(Fold(Compress, 64, Start(), Text(pieces)))
    ensures Text(pieces) == Padded(Concat(pieces), 64, 8) <==> Uncounted(pieces, 0x1_0000_0000) % 0x2000_0000 == 0
    ensures Uncounted(pieces, 0x1_0000_0000) % 0x2000_0000 == 0 ==> output == Digest(Concat(pieces))
  {
    hide Fold, Padded, PaddedAs, Compress, Output, Uncounted, Counted;
    var c := new Context<Registers>(64, 8, 0x1_0000_0000, Compress, Start());
    var r := HashPieces(c, pieces);
    TextIsPadded(pieces, 64, 8, 0x1_0000_0000);
    output := Output(r);
  }

  /** One update with 2^32 bytes: what is hashed is not the padded message. */
  lemma LongPieceLost(piece: seq<byte>)
    requires |piece| == 0x1_0000_0000
    ensures Text([piece]) != Padded(piece, 64, 8)
  {
    hide Padded, PaddedAs;
    TextIsPadded([piece], 64, 8, 0x1_0000_0000);
    assert [piece][..0] == [] && Concat([piece]) == piece;
  }
}
