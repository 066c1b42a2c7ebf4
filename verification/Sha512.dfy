/** The block function of SHA-512 and SHA-384 with eight renamed registers, against section 6.4.2 of FIPS 180-4. */
module Sha512 {
  import opened BitStream
  import opened HashStream

  type Word = bv64

  // ----- FIPS 180-4 -----

  function Rotr(x: Word, n: nat): Word
    requires 0 < n < 64
  {
    x.RotateRight(n)
  }

  function Xor3(x: Word, y: Word, z: Word): Word { x ^ y ^ z }

  function Shift(x: Word, n: nat): Word
    requires n < 64
  {
    x >> n
  }

  function Plus(x: Word, y: Word): Word { x + y }

  function Ch(x: Word, y: Word, z: Word): Word { (x & y) ^ (!x & z) }

  function Maj(x: Word, y: Word, z: Word): Word { (x & y) ^ (x & z) ^ (y & z) }

  function BigSigma0(x: Word): Word { Xor3(Rotr(x, 28), Rotr(x, 34), Rotr(x, 39)) }

  function BigSigma1(x: Word): Word { Xor3(Rotr(x, 14), Rotr(x, 18), Rotr(x, 41)) }

  function SmallSigma0(x: Word): Word { Xor3(Rotr(x, 1), Rotr(x, 8), Shift(x, 7)) }

  function SmallSigma1(x: Word): Word { Xor3(Rotr(x, 19), Rotr(x, 61), Shift(x, 6)) }

  function BlockWord(data: seq<byte>, i: nat): Word
    requires 8 * i + 8 <= |data|
  {
    ((data[8 * i] as bv64) << 56) | ((data[8 * i + 1] as bv64) << 48) | ((data[8 * i + 2] as bv64) << 40) |
      ((data[8 * i + 3] as bv64) << 32)
    | ((data[8 * i + 4] as bv64) << 24) | ((data[8 * i + 5] as bv64) << 16) | ((data[8 * i + 6] as bv64) << 8) |
      (data[8 * i + 7] as bv64)
  }

  /** Word t of the message schedule. */
  function W(data: seq<byte>, t: nat): Word
    requires |data| == 128
  {
    if t < 16 then BlockWord(data, t)
    else Plus(Plus(Plus(SmallSigma1(W(data, t - 2)), W(data, t - 7)), SmallSigma0(W(data, t - 15))), W(data, t - 16))
  }

  datatype Registers = Registers(a: Word, b: Word, c: Word, d: Word, e: Word, f: Word, g: Word, h: Word)

  function T1(r: Registers, k: Word, w: Word): Word {
    Plus(Plus(Plus(Plus(r.h, BigSigma1(r.e)), Ch(r.e, r.f, r.g)), k), w)
  }

  function T2(r: Registers): Word { Plus(BigSigma0(r.a), Maj(r.a, r.b, r.c)) }

  /** The registers after t rounds, with round constants k. */
  function After(s: Registers, data: seq<byte>, k: seq<Word>, t: nat): Registers
    requires |data| == 128 && t <= |k|
  {
    if t == 0 then s
    else
      var r := After(s, data, k, t - 1);
      var t1 := T1(r, k[t - 1], W(data, t - 1));
      Registers(Plus(t1, T2(r)), r.a, r.b, r.c, Plus(r.d, t1), r.e, r.f, r.g)
  }

  function Compress(s: Registers, data: seq<byte>, k: seq<Word>): Registers
    requires |k| == 80
  {
    if |data| != 128 then s
    else
      var r := After(s, data, k, 80);
      Registers(Plus(s.a, r.a), Plus(s.b, r.b), Plus(s.c, r.c), Plus(s.d, r.d), Plus(s.e, r.e), Plus(s.f, r.f),
                Plus(s.g, r.g), Plus(s.h, r.h))
  }

  // ----- mbedtls_sha512_process -----

  lemma ChSame(x: Word, y: Word, z: Word)
    ensures z ^ (x & (y ^ z)) == (x & y) ^ (!x & z)
  {
  }

  lemma MajSame(x: Word, y: Word, z: Word)
    ensures (x & y) | (z & (x | y)) == (x & y) ^ (x & z) ^ (y & z)
  {
  }

  /** The macros F1 and F0 */
  function F1(x: Word, y: Word, z: Word): (r: Word)
    ensures r == Ch(x, y, z)
  {
    ChSame(x, y, z);
    z ^ (x & (y ^ z))
  }

  function F0(x: Word, y: Word, z: Word): (r: Word)
    ensures r == Maj(x, y, z)
  {
    MajSame(x, y, z);
    (x & y) | (z & (x | y))
  }

  /** The macro ROTR */
  function RotrMacro(x: Word, n: nat): (r: Word)
    requires n in {1, 8, 14, 18, 19, 28, 34, 39, 41, 61}
    ensures r == Rotr(x, n)
  {
    if n == 1 then (x >> 1) | (x << 63) else if n == 8 then (x >> 8) | (x << 56)
    else if n == 14 then (x >> 14) | (x << 50) else if n == 18 then (x >> 18) | (x << 46)
    else if n == 19 then (x >> 19) | (x << 45) else if n == 28 then (x >> 28) | (x << 36)
    else if n == 34 then (x >> 34) | (x << 30) else if n == 39 then (x >> 39) | (x << 25)
    else if n == 41 then (x >> 41) | (x << 23)
    else (x >> 61) | (x << 3)
  }

  /** The macros S0 to S3 */
  function S0(x: Word): (r: Word)
    ensures r == SmallSigma0(x)
  {
    hide Rotr, RotrMacro, Shift, Xor3;
    Xor3(RotrMacro(x, 1), RotrMacro(x, 8), Shift(x, 7))
  }

  function S1(x: Word): (r: Word)
    ensures r == SmallSigma1(x)
  {
    hide Rotr, RotrMacro, Shift, Xor3;
    Xor3(RotrMacro(x, 19), RotrMacro(x, 61), Shift(x, 6))
  }

  function S2(x: Word): (r: Word)
    ensures r == BigSigma0(x)
  {
    hide Rotr, RotrMacro, Xor3;
    Xor3(RotrMacro(x, 28), RotrMacro(x, 34), RotrMacro(x, 39))
  }

  function S3(x: Word): (r: Word)
    ensures r == BigSigma1(x)
  {
    hide Rotr, RotrMacro, Xor3;
    Xor3(RotrMacro(x, 14), RotrMacro(x, 18), RotrMacro(x, 41))
  }

  /** The variable that has role `role` in round t. */
  function Reg(role: nat, t: nat): (i: nat)
    requires role < 8
    ensures i < 8
  {
    var turn := t % 8;
    if role >= turn then role - turn else role + 8 - turn
  }

  function Role(r: Registers, role: nat): Word
    requires role < 8
  {
    if role == 0 then r.a else if role == 1 then r.b else if role == 2 then r.c else if role == 3 then r.d
    else if role == 4 then r.e else if role == 5 then r.f else if role == 6 then r.g else r.h
  }

  /** What the eight variables hold after t rounds. */
  ghost predicate Holds(v: seq<Word>, r: Registers, t: nat) {
    |v| == 8 && forall role: nat :: role < 8 ==> v[Reg(role, t)] == Role(r, role)
  }

  /** In the next round every role moves to the next variable, and the last one becomes the first. */
  lemma NextRole(role: nat, t: nat)
    requires role < 8
    ensures Reg(role, t + 1) == Reg(if role == 0 then 7 else role - 1, t)
  {
    assert (t + 1) % 8 == if t % 8 == 7 then 0 else t % 8 + 1;
  }

  lemma RolesDiffer(a: nat, b: nat, t: nat)
    requires a < 8 && b < 8 && a != b
    ensures Reg(a, t) != Reg(b, t)
  {
  }

  /** What a round leaves in the variables. */
  lemma RoundDone(v: seq<Word>, r: Registers, t: nat, x: Word, y: Word, v': seq<Word>)
    requires |v| == 8 && Holds(v, r, t) && v' == v[Reg(3, t) := x][Reg(7, t) := y]
    ensures Holds(v', Registers(y, r.a, r.b, r.c, x, r.e, r.f, r.g), t + 1)
  {
    hide Reg, Role, Holds;
    forall role: nat | role < 8
      ensures v'[Reg(role, t + 1)] == Role(Registers(y, r.a, r.b, r.c, x, r.e, r.f, r.g), role)
    {
      RoleDone(v, r, t, x, y, v', role);
    }
    RolesHold(v', Registers(y, r.a, r.b, r.c, x, r.e, r.f, r.g), t + 1);
  }

  lemma RolesHold(v: seq<Word>, r: Registers, t: nat)
    requires |v| == 8 && forall role: nat :: role < 8 ==> v[Reg(role, t)] == Role(r, role)
    ensures Holds(v, r, t)
  {
  }

  lemma RoleShift(r: Registers, x: Word, y: Word, role: nat)
    requires role < 8
    ensures Role(Registers(y, r.a, r.b, r.c, x, r.e, r.f, r.g), role) ==
            if role == 0 then y else if role == 4 then x else Role(r, role - 1)
  {
    hide Role;
    var r' := Registers(y, r.a, r.b, r.c, x, r.e, r.f, r.g);
    if role < 4 {
      FirstRoles(r);
      FirstRoles(r');
    } else {
      LastRoles(r);
      LastRoles(r');
    }
  }

  lemma FirstRoles(r: Registers)
    ensures Role(r, 0) == r.a && Role(r, 1) == r.b && Role(r, 2) == r.c && Role(r, 3) == r.d
  {
  }

  lemma LastRoles(r: Registers)
    ensures Role(r, 3) == r.d && Role(r, 4) == r.e && Role(r, 5) == r.f && Role(r, 6) == r.g && Role(r, 7) == r.h
  {
  }

  lemma RoleDone(v: seq<Word>, r: Registers, t: nat, x: Word, y: Word, v': seq<Word>, role: nat)
    requires |v| == 8 && Holds(v, r, t) && v' == v[Reg(3, t) := x][Reg(7, t) := y] && role < 8
    ensures v'[Reg(role, t + 1)] == Role(Registers(y, r.a, r.b, r.c, x, r.e, r.f, r.g), role)
  {
    hide Reg, Role;
    NextRole(role, t);
    RolesDiffer(3, 7, t);
    RoleShift(r, x, y, role);
    var was := if role == 0 then 7 else role - 1;
    if was != 3 && was != 7 {
      RolesDiffer(was, 3, t);
      RolesDiffer(was, 7, t);
      assert v[Reg(was, t)] == Role(r, was);
    }
  }

  lemma RoleValues(v: seq<Word>, r: Registers, t: nat)
    requires Holds(v, r, t)
    ensures v[Reg(0, t)] == r.a && v[Reg(1, t)] == r.b && v[Reg(2, t)] == r.c && v[Reg(3, t)] == r.d
    ensures v[Reg(4, t)] == r.e && v[Reg(5, t)] == r.f && v[Reg(6, t)] == r.g && v[Reg(7, t)] == r.h
  {
    hide Reg;
  }

  /** P: one round on the eight variables */
  method RoundStep(v: array<Word>, k: Word, x: Word, ghost s: Registers, ghost data: seq<byte>, ghost ks: seq<Word>,
                   t: nat)
    requires v.Length == 8 && |data| == 128 && t < |ks| && k == ks[t] && x == W(data, t)
    requires Holds(v[..], After(s, data, ks, t), t)
    modifies v
    ensures Holds(v[..], After(s, data, ks, t + 1), t + 1)
  {
    hide W, F0, F1, S2, S3, Ch, Maj, BigSigma0, BigSigma1, Reg, Plus;
    ghost var before, r := v[..], After(s, data, ks, t);
    RoleValues(before, r, t);
    RolesDiffer(3, 7, t);
    var temp1 := Plus(Plus(Plus(Plus(v[Reg(7, t)], S3(v[Reg(4, t)])),
                                F1(v[Reg(4, t)], v[Reg(5, t)], v[Reg(6, t)])), k), x);
    var temp2 := Plus(S2(v[Reg(0, t)]), F0(v[Reg(0, t)], v[Reg(1, t)], v[Reg(2, t)]));
    v[Reg(3, t)] := Plus(v[Reg(3, t)], temp1);
    v[Reg(7, t)] := Plus(temp1, temp2);
    RoundDone(before, r, t, Plus(r.d, temp1), Plus(temp1, temp2), v[..]);
  }

  /** The whole schedule, computed before the rounds. */
  method Schedule(data: seq<byte>) returns (w: seq<Word>)
    requires |data| == 128
    ensures |w| == 80 && forall i: nat :: i < 80 ==> w[i] == W(data, i)
  {
    hide BlockWord, Plus, S0, S1, SmallSigma0, SmallSigma1;
    w := [];
    for i := 0 to 80
      invariant |w| == i && forall j: nat :: j < i ==> w[j] == W(data, j)
    {
      w := w + [if i < 16 then BlockWord(data, i)
                else Plus(Plus(Plus(S1(w[i - 2]), w[i - 7]), S0(w[i - 15])), w[i - 16])];
    }
  }

  /** A to H */
  method Variables(s: Registers) returns (v: array<Word>)
    ensures fresh(v) && v[..] == [s.a, s.b, s.c, s.d, s.e, s.f, s.g, s.h]
  {
    v := new Word[8](role requires 0 <= role < 8 => Role(s, role));
  }

  /** mbedtls_sha512_process */
  method Process(s: Registers, data: seq<byte>, k: seq<Word>) returns (r: Registers)
    requires |data| == 128 && |k| == 80
    ensures r == Compress(s, data, k)
  {
    hide W, After, Plus, Holds;
    var w := Schedule(data);
    var v := Variables(s);
    AtStart(v[..], s, data, k);
    for t := 0 to 80
      invariant Holds(v[..], After(s, data, k, t), t)
    {
      RoundStep(v, k[t], w[t], s, data, k, t);
    }
    AtEnd(v[..], After(s, data, k, 80));
    r := AddUp(s, v);
  }

  /** The sums that end the block function. */
  method AddUp(s: Registers, v: array<Word>) returns (r: Registers)
    requires v.Length == 8
    ensures r == Registers(Plus(s.a, v[0]), Plus(s.b, v[1]), Plus(s.c, v[2]), Plus(s.d, v[3]), Plus(s.e, v[4]),
                           Plus(s.f, v[5]), Plus(s.g, v[6]), Plus(s.h, v[7]))
  {
    hide Plus;
    r := Registers(Plus(s.a, v[0]), Plus(s.b, v[1]), Plus(s.c, v[2]), Plus(s.d, v[3]), Plus(s.e, v[4]), Plus(s.f, v[5]),
                   Plus(s.g, v[6]), Plus(s.h, v[7]));
  }

  lemma AtStart(v: seq<Word>, s: Registers, data: seq<byte>, k: seq<Word>)
    requires |data| == 128 && v == [s.a, s.b, s.c, s.d, s.e, s.f, s.g, s.h]
    ensures Holds(v, After(s, data, k, 0), 0)
  {
    hide W, T1, T2, Plus;
    assert forall role: nat :: role < 8 ==> Reg(role, 0) == role;
  }

  lemma AtEnd(v: seq<Word>, r: Registers)
    requires Holds(v, r, 80)
    ensures v == [r.a, r.b, r.c, r.d, r.e, r.f, r.g, r.h]
  {
    RoleValues(v, r, 80);
  }

  // ----- Whole messages -----

  function Start(is384: bool): Registers {
    if is384 then
      Registers(0xCBBB9D5DC1059ED8, 0x629A292A367CD507, 0x9159015A3070DD17, 0x152FECD8F70E5939,
                0x67332667FFC00B31, 0x8EB44A8768581511, 0xDB0C2E0D64F98FA7, 0x47B5481DBEFA4FA4)
    else
      Registers(0x6A09E667F3BCC908, 0xBB67AE8584CAA73B, 0x3C6EF372FE94F82B, 0xA54FF53A5F1D36F1,
                0x510E527FADE682D1, 0x9B05688C2B3E6C1F, 0x1F83D9ABFB41BD6B, 0x5BE0CD19137E2179)
  }

  /** PUT_UINT64_BE */
  function WordBytes(x: Word): seq<byte> { BigEndian(x as nat, 8) }

  /** SHA-384 leaves out the last two words. */
  function Output(r: Registers, is384: bool): (bytes: seq<byte>)
    ensures |bytes| == if is384 then 48 else 64
  {
    WordBytes(r.a) + WordBytes(r.b) + WordBytes(r.c) + WordBytes(r.d) + WordBytes(r.e) + WordBytes(r.f)
    + if is384 then [] else WordBytes(r.g) + WordBytes(r.h)
  }

  /** The table K, in rows of sixteen */
  function ConstantRow(i: nat): (k: seq<Word>)
    requires i < 5
    ensures |k| == 16
  {
    if i == 0 then
      [0x428A2F98D728AE22, 0x7137449123EF65CD, 0xB5C0FBCFEC4D3B2F, 0xE9B5DBA58189DBBC,
       0x3956C25BF348B538, 0x59F111F1B605D019, 0x923F82A4AF194F9B, 0xAB1C5ED5DA6D8118,
       0xD807AA98A3030242, 0x12835B0145706FBE, 0x243185BE4EE4B28C, 0x550C7DC3D5FFB4E2,
       0x72BE5D74F27B896F, 0x80DEB1FE3B1696B1, 0x9BDC06A725C71235, 0xC19BF174CF692694]
    else if i == 1 then
      [0xE49B69C19EF14AD2, 0xEFBE4786384F25E3, 0x0FC19DC68B8CD5B5, 0x240CA1CC77AC9C65,
       0x2DE92C6F592B0275, 0x4A7484AA6EA6E483, 0x5CB0A9DCBD41FBD4, 0x76F988DA831153B5,
       0x983E5152EE66DFAB, 0xA831C66D2DB43210, 0xB00327C898FB213F, 0xBF597FC7BEEF0EE4,
       0xC6E00BF33DA88FC2, 0xD5A79147930AA725, 0x06CA6351E003826F, 0x142929670A0E6E70]
    else if i == 2 then
      [0x27B70A8546D22FFC, 0x2E1B21385C26C926, 0x4D2C6DFC5AC42AED, 0x53380D139D95B3DF,
       0x650A73548BAF63DE, 0x766A0ABB3C77B2A8, 0x81C2C92E47EDAEE6, 0x92722C851482353B,
       0xA2BFE8A14CF10364, 0xA81A664BBC423001, 0xC24B8B70D0F89791, 0xC76C51A30654BE30,
       0xD192E819D6EF5218, 0xD69906245565A910, 0xF40E35855771202A, 0x106AA07032BBD1B8]
    else if i == 3 then
      [0x19A4C116B8D2D0C8, 0x1E376C085141AB53, 0x2748774CDF8EEB99, 0x34B0BCB5E19B48A8,
       0x391C0CB3C5C95A63, 0x4ED8AA4AE3418ACB, 0x5B9CCA4F7763E373, 0x682E6FF3D6B2B8A3,
       0x748F82EE5DEFB2FC, 0x78A5636F43172F60, 0x84C87814A1F0AB72, 0x8CC702081A6439EC,
       0x90BEFFFA23631E28, 0xA4506CEBDE82BDE9, 0xBEF9A3F7B2C67915, 0xC67178F2E372532B]
    else
      [0xCA273ECEEA26619C, 0xD186B8C721C0C207, 0xEADA7DD6CDE0EB1E, 0xF57D4F7FEE6ED178,
       0x06F067AA72176FBA, 0x0A637DC5A2C898A6, 0x113F9804BEF90DAE, 0x1B710B35131C471B,
       0x28DB77F523047D84, 0x32CAAB7B40C72493, 0x3C9EBE0A15C9BEBC, 0x431D67C49C100D4C,
       0x4CC5D4BECB3E42B6, 0x597F299CFC657E2A, 0x5FCB6FAB3AD6FAEC, 0x6C44198C4A475817]
  }

  function RoundConstants(): (k: seq<Word>)
    ensures |k| == 80
  {
    ConstantRow(0) + ConstantRow(1) + ConstantRow(2) + ConstantRow(3) + ConstantRow(4)
  }

  /** The block function with these constants. */
  function CompressBlock(s: Registers, data: seq<byte>): Registers {
    Compress(s, data, RoundConstants())
  }

  /** SHA-512 or SHA-384 of a message. */
  function Digest(msg: seq<byte>, is384: bool): seq<byte> {
    Output(Fold(CompressBlock, 128, Start(is384), Padded(msg, 128, 16)), is384)
  }

  lemma DigestIs(msg: seq<byte>, is384: bool)
    ensures Digest(msg, is384) == Output(Fold(CompressBlock, 128, Start(is384), Padded(msg, 128, 16)), is384)
  {
    hide Fold, CompressBlock, Start, Padded, Output;
  }

  lemma NoneUncounted(pieces: seq<seq<byte>>)
    ensures (forall i :: 0 <= i < |pieces| ==> |pieces[i]| < 0x1_0000_0000_0000_0000) ==>
              Uncounted(pieces, 0x1_0000_0000_0000_0000) % (0x1_0000_0000_0000_0000 / 8) == 0
  {
    hide Uncounted;
    if forall i :: 0 <= i < |pieces| ==> |pieces[i]| < 0x1_0000_0000_0000_0000 {
      ShortPieces(pieces, 0x1_0000_0000_0000_0000);
    }
  }

  /** Starts, any number of updates, finish; no piece can be as long as 2^64 bytes. */
  method DigestPieces(pieces: seq<seq<byte>>, is384: bool) returns (output: seq<byte>)
    ensures (forall i :: 0 <= i < |pieces| ==> |pieces[i]| < 0x1_0000_0000_0000_0000) ==>
              output == Digest(Concat(pieces), is384)
  {
    hide *;
    DigestIs(Concat(pieces), is384);
    var c := new Context<Registers>(128, 16, 0x1_0000_0000_0000_0000, CompressBlock, Start(is384));
    var r := HashPieces(c, pieces);
    TextIsPadded(pieces, 128, 16, 0x1_0000_0000_0000_0000);
    NoneUncounted(pieces);
    output := Output(r, is384);
  }
}
