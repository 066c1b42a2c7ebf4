/** The block function of MD5: sixty-four macros with the registers in turn, against section 3.4 of RFC 1321. */
module Md5Block {
  import opened BitStream
  import opened HashStream
  import opened Md5

  type Word = bv32

  // ----- RFC 1321 -----

  function F(x: Word, y: Word, z: Word): Word { (x & y) | (!x & z) }

  function G(x: Word, y: Word, z: Word): Word { (x & z) | (y & !z) }

  function H(x: Word, y: Word, z: Word): Word { x ^ y ^ z }

  function I(x: Word, y: Word, z: Word): Word { y ^ (x | !z) }

  function Plus(x: Word, y: Word): Word { x + y }

  /** x <<< n */
  function Rotl(x: Word, n: nat): Word
    requires 0 < n < 32
  {
    (x << n) | (x >> (32 - n))
  }

  /** The function of step t, the word of the block it uses, and the rotation. */
  function Mix(t: nat, x: Word, y: Word, z: Word): Word {
    if t < 16 then F(x, y, z) else if t < 32 then G(x, y, z) else if t < 48 then H(x, y, z) else I(x, y, z)
  }

  function Pick(t: nat): (k: nat)
    requires t < 64
    ensures k < 16
  {
    if t < 16 then t else if t < 32 then (5 * (t - 16) + 1) % 16 else if t < 48 then (3 * (t - 32) + 5) % 16
    else 7 * (t - 48) % 16
  }

  function Turn(t: nat): (n: nat)
    ensures 0 < n < 32
  {
    if t < 16 then [7, 12, 17, 22][t % 4] else if t < 32 then [5, 9, 14, 20][t % 4]
      else if t < 48 then [4, 11, 16, 23][t % 4] else [6, 10, 15, 21][t % 4]
  }

  /** The constants, in rows of sixteen: the whole part of 2^32 times the absolute value of the sine of t + 1. */
  function SineRow(i: nat): (r: seq<Word>)
    requires i < 4
    ensures |r| == 16
  {
    if i == 0 then
      [0xd76aa478, 0xe8c7b756, 0x242070db, 0xc1bdceee, 0xf57c0faf, 0x4787c62a, 0xa8304613, 0xfd469501,
       0x698098d8, 0x8b44f7af, 0xffff5bb1, 0x895cd7be, 0x6b901122, 0xfd987193, 0xa679438e, 0x49b40821]
    else if i == 1 then
      [0xf61e2562, 0xc040b340, 0x265e5a51, 0xe9b6c7aa, 0xd62f105d, 0x02441453, 0xd8a1e681, 0xe7d3fbc8,
       0x21e1cde6, 0xc33707d6, 0xf4d50d87, 0x455a14ed, 0xa9e3e905, 0xfcefa3f8, 0x676f02d9, 0x8d2a4c8a]
    else if i == 2 then
      [0xfffa3942, 0x8771f681, 0x6d9d6122, 0xfde5380c, 0xa4beea44, 0x4bdecfa9, 0xf6bb4b60, 0xbebfbc70,
       0x289b7ec6, 0xeaa127fa, 0xd4ef3085, 0x04881d05, 0xd9d4d039, 0xe6db99e5, 0x1fa27cf8, 0xc4ac5665]
    else
      [0xf4292244, 0x432aff97, 0xab9423a7, 0xfc93a039, 0x655b59c3, 0x8f0ccc92, 0xffeff47d, 0x85845dd1,
       0x6fa87e4f, 0xfe2ce6e0, 0xa3014314, 0x4e0811a1, 0xf7537e82, 0xbd3af235, 0x2ad7d2bb, 0xeb86d391]
  }

  function Sine(t: nat): Word
    requires t < 64
  {
    SineRow(t / 16)[t % 16]
  }

  datatype Registers = Registers(a: Word, b: Word, c: Word, d: Word)

  /** b + ((a + mix + x + ac) <<< s) */
  function Op(mix: Word, a: Word, b: Word, x: Word, s: nat, ac: Word): Word
    requires 0 < s < 32
  {
    Plus(b, Rotl(Plus(a, Plus(Plus(mix, x), ac)), s))
  }

  /** Step t; then the registers change roles. */
  function Step(t: nat, r: Registers, x: seq<Word>): Registers
    requires t < 64 && |x| == 16
  {
    Registers(r.d, Op(Mix(t, r.b, r.c, r.d), r.a, r.b, x[Pick(t)], Turn(t), Sine(t)), r.b, r.c)
  }

  /** The registers after t steps. */
  function After(h: Registers, x: seq<Word>, t: nat): Registers
    requires t <= 64 && |x| == 16
  {
    if t == 0 then h else Step(t - 1, After(h, x, t - 1), x)
  }

  function Compress(h: Registers, x: seq<Word>): Registers
    requires |x| == 16
  {
    var r := After(h, x, 64);
    Registers(Plus(h.a, r.a), Plus(h.b, r.b), Plus(h.c, r.c), Plus(h.d, r.d))
  }

  // ----- MD5Transform -----

  lemma PlusCommutes(x: Word, y: Word)
    ensures Plus(x, y) == Plus(y, x)
  {
  }

  /** What the macros FF, GG, HH and II have in common */
  function Macro(mix: Word, a: Word, b: Word, x: Word, s: nat, ac: Word): (r: Word)
    requires 0 < s < 32
    ensures r == Op(mix, a, b, x, s, ac)
  {
    hide Plus, Rotl;
    PlusCommutes(Rotl(Plus(a, Plus(Plus(mix, x), ac)), s), b);
    Plus(Rotl(Plus(a, Plus(Plus(mix, x), ac)), s), b)
  }

  /** S11 to S44 */
  function Shift(t: nat): (n: nat)
    ensures n == Turn(t)
  {
    var j := t % 4;
    if t < 16 then (if j == 0 then 7 else if j == 1 then 12 else if j == 2 then 17 else 22)
    else if t < 32 then (if j == 0 then 5 else if j == 1 then 9 else if j == 2 then 14 else 20)
    else if t < 48 then (if j == 0 then 4 else if j == 1 then 11 else if j == 2 then 16 else 23)
    else (if j == 0 then 6 else if j == 1 then 10 else if j == 2 then 15 else 21)
  }

  /** The words that each round gives to its macros, in order. */
  function Second(i: nat): (k: nat)
    requires i < 16
    ensures k == (5 * i + 1) % 16
  {
    [1, 6, 11, 0, 5, 10, 15, 4, 9, 14, 3, 8, 13, 2, 7, 12][i]
  }

  function Third(i: nat): (k: nat)
    requires i < 16
    ensures k == (3 * i + 5) % 16
  {
    [5, 8, 11, 14, 1, 4, 7, 10, 13, 0, 3, 6, 9, 12, 15, 2][i]
  }

  function Fourth(i: nat): (k: nat)
    requires i < 16
    ensures k == 7 * i % 16
  {
    [0, 7, 14, 5, 12, 3, 10, 1, 8, 15, 6, 13, 4, 11, 2, 9][i]
  }

  function Input(t: nat): (k: nat)
    requires t < 64
    ensures k == Pick(t)
  {
    hide Second, Third, Fourth;
    if t < 16 then t else if t < 32 then Second(t - 16) else if t < 48 then Third(t - 32) else Fourth(t - 48)
  }

  /** The variable that has role `role` in step t: a, b, c and d change roles from step to step. */
  function Reg(role: nat, t: nat): (i: nat)
    requires role < 4
    ensures i < 4
  {
    (role + 4 - t % 4) % 4
  }

  /** What the four variables hold after t steps. */
  ghost predicate Holds(v: seq<Word>, r: Registers, t: nat) {
    |v| == 4 && v[Reg(0, t)] == r.a && v[Reg(1, t)] == r.b && v[Reg(2, t)] == r.c && v[Reg(3, t)] == r.d
  }

  lemma Roles(t: nat)
    ensures Reg(0, t + 1) == Reg(3, t) && Reg(1, t + 1) == Reg(0, t) && Reg(2, t + 1) == Reg(1, t)
    ensures Reg(3, t + 1) == Reg(2, t)
    ensures Reg(0, t) != Reg(1, t) && Reg(0, t) != Reg(2, t) && Reg(0, t) != Reg(3, t)
  {
    assert (t + 1) % 4 == if t % 4 == 3 then 0 else t % 4 + 1;
  }

  /** One of the sixty-four macros */
  method Apply(v: array<Word>, x: seq<Word>, t: nat, ghost h: Registers)
    requires v.Length == 4 && |x| == 16 && t < 64 && Holds(v[..], After(h, x, t), t)
    modifies v
    ensures Holds(v[..], After(h, x, t + 1), t + 1)
  {
    hide Mix, Op, Macro, Sine, Turn, Shift, Pick, Reg, Plus, Input;
    Roles(t);
    var a, b, c, d := v[Reg(0, t)], v[Reg(1, t)], v[Reg(2, t)], v[Reg(3, t)];
    v[Reg(0, t)] := Macro(Mix(t, b, c, d), a, b, x[Input(t)], Shift(t), Sine(t));
  }

  /** MD5Transform */
  method Transform(buf: Registers, x: seq<Word>) returns (r: Registers)
    requires |x| == 16
    ensures r == Compress(buf, x)
  {
    hide After, Plus, Holds;
    var v := new Word[4];
    v[0], v[1], v[2], v[3] := buf.a, buf.b, buf.c, buf.d;
    AtStart(v[..], buf, x);
    for t := 0 to 64
      invariant Holds(v[..], After(buf, x, t), t)
    {
      Apply(v, x, t, buf);
    }
    AtEnd(v[..], After(buf, x, 64));
    r := Registers(Plus(buf.a, v[0]), Plus(buf.b, v[1]), Plus(buf.c, v[2]), Plus(buf.d, v[3]));
  }

  lemma AtStart(v: seq<Word>, h: Registers, x: seq<Word>)
    requires |x| == 16 && v == [h.a, h.b, h.c, h.d]
    ensures Holds(v, After(h, x, 0), 0)
  {
  }

  lemma AtEnd(v: seq<Word>, r: Registers)
    requires Holds(v, r, 64)
    ensures v == [r.a, r.b, r.c, r.d]
  {
  }

  // ----- Whole messages -----

  function Start(): Registers { Registers(0x67452301, 0xefcdab89, 0x98badcfe, 0x10325476) }

  /** The block function on words that are numbers. */
  function OnWords(h: Registers, words: seq<nat>): Registers {
    if |words| != 16 then h else Compress(h, seq(16, i requires 0 <= i < 16 => (words[i] % UINT4) as Word))
  }

  /** A word, least significant byte first. */
  function WordBytes(x: Word): seq<byte> {
    var n := x as nat;
    [n % 256, n / 256 % 256, n / 65536 % 256, n / 16777216 % 256]
  }

  function Output(r: Registers): (bytes: seq<byte>)
    ensures |bytes| == 16
  {
    WordBytes(r.a) + WordBytes(r.b) + WordBytes(r.c) + WordBytes(r.d)
  }

  /** MD5 of a message: section 3 of RFC 1321. */
  function Digest(msg: seq<byte>): seq<byte> { Output(Fold(OnBytes(OnWords), 64, Start(), Md5Padded(msg))) }

  /** MD5Init, updates with pieces at any addresses, MD5Final: MD5 of the message. */
  method DigestPieces(pieces: seq<(seq<byte>, bool)>) returns (digest: seq<byte>)
    requires forall i :: 0 <= i < |pieces| ==> |pieces[i].0| < UINT4
    ensures digest == Digest(Joined(pieces))
  {
    hide Fold, OnBytes, Md5Padded, OnWords, Start, Output, Joined;
    var r := HashMessage(OnWords, Start(), pieces);
    digest := Output(r);
  }
}
