/**
 * The tables of the DEFLATE format in closed form, and the codes that follow
 * from them, as sections 3.2.2 to 3.2.7 of RFC 1951 lay them down for every
 * encoder and decoder.
 */
module DeflateTables {
  import opened Powers
  import opened BitStream
  import opened PrefixCode
  import opened HuffmanTree
  import opened Lz77
  import opened CodeLengthRle
  import opened Inflate
  import opened LengthsFormat

  // ----- The code length alphabet -----

  /** Field i of the n fields of three bits that store its lengths; fields that are left out are 0. */
  function Field(bits: seq<bool>, bp: nat, n: nat, i: nat): nat
    requires bp + 3 * n <= |bits|
  {
    if i < n then Value(bits[bp + 3 * i..bp + 3 * (i + 1)]) else 0
  }

  lemma {:induction false} FieldRead(bits: seq<bool>, bp: nat, n: nat, k: nat, i: nat)
    requires i < k <= 19 && n <= 19 && bp + 3 * n <= |bits|
    ensures ReadClcl(bits, bp, n, k)[ClclOrder()[i]] == Field(bits, bp, n, i)
  {
    hide ClclOrder, Value;
    if i < k - 1 {
      FieldRead(bits, bp, n, k - 1, i);
      if ClclOrder()[i] == ClclOrder()[k - 1] {
        OrderInjective(i, k - 1);
      }
    }
  }

  lemma OrderIs(j: nat)
    requires j < 8
    ensures ClclOrder()[0] == 16 && ClclOrder()[1] == 17 && ClclOrder()[2] == 18 && ClclOrder()[3] == 0
    ensures ClclOrder()[4 + 2 * j] == 8 + j && (j < 7 ==> ClclOrder()[5 + 2 * j] == 7 - j)
  {
  }

  /**
   * The three repeat symbols and length 0 come first; then the lengths from 8
   * upwards in turn with those from 7 downwards.
   */
  lemma ClclPositions(bits: seq<bool>, bp: nat, n: nat)
    requires n <= 19 && bp + 3 * n <= |bits|
    ensures var r := ReadClcl(bits, bp, n, 19);
            && r[16] == Field(bits, bp, n, 0) && r[17] == Field(bits, bp, n, 1)
            && r[18] == Field(bits, bp, n, 2) && r[0] == Field(bits, bp, n, 3)
            && (forall j :: 0 <= j < 8 ==> r[8 + j] == Field(bits, bp, n, 4 + 2 * j))
            && (forall j :: 0 <= j < 7 ==> r[7 - j] == Field(bits, bp, n, 5 + 2 * j))
  {
    hide ClclOrder, ReadClcl, Field;
    OrderIs(0);
    FieldRead(bits, bp, n, 19, 0);
    FieldRead(bits, bp, n, 19, 1);
    FieldRead(bits, bp, n, 19, 2);
    FieldRead(bits, bp, n, 19, 3);
    forall j | 0 <= j < 8
      ensures ReadClcl(bits, bp, n, 19)[8 + j] == Field(bits, bp, n, 4 + 2 * j)
    {
      OrderIs(j);
      FieldRead(bits, bp, n, 19, 4 + 2 * j);
    }
    forall j | 0 <= j < 7
      ensures ReadClcl(bits, bp, n, 19)[7 - j] == Field(bits, bp, n, 5 + 2 * j)
    {
      OrderIs(j);
      FieldRead(bits, bp, n, 19, 5 + 2 * j);
    }
  }

  /** What a repeat symbol of the code length alphabet stands for. */
  lemma RepeatSymbols(cl: seq<nat>, cl2d: seq<nat>, bits: seq<bool>, bp: nat, out: seq<nat>)
    requires |cl2d| == 2 * |cl| && 0 < |cl| && bp <= |bits|
    ensures var s, r := DecodeSymbol(cl, cl2d, bits, bp), ReadRun(cl, cl2d, bits, bp, out);
            && (r.GotRun? ==> 0 <= s.symbol <= 18 && s.bp <= r.bp <= |bits|)
            && (r.GotRun? && s.symbol <= 15 ==> r.value == s.symbol && r.count == 1 && r.bp == s.bp)
            && (r.GotRun? && s.symbol == 16 ==>
                  out != [] && r.value == out[|out| - 1] && 3 <= r.count <= 6 && r.bp == s.bp + 2)
            && (r.GotRun? && s.symbol == 17 ==> r.value == 0 && 3 <= r.count <= 10 && r.bp == s.bp + 3)
            && (r.GotRun? && s.symbol == 18 ==> r.value == 0 && 11 <= r.count <= 138 && r.bp == s.bp + 7)
  {
    hide DecodeSymbol, Value;
    var s := DecodeSymbol(cl, cl2d, bits, bp);
    FieldSizes();
    if s.bp + 2 <= |bits| { ValueBound(bits[s.bp..s.bp + 2]); }
    if s.bp + 3 <= |bits| { ValueBound(bits[s.bp..s.bp + 3]); }
    if s.bp + 7 <= |bits| { ValueBound(bits[s.bp..s.bp + 7]); }
  }

  // ----- Lengths and distances -----

  /** Extra bits grow by one every four length symbols; the last symbol has none. */
  lemma LengthExtras(i: nat)
    requires i < 29
    ensures LengthExtra()[i] == if i < 4 || i == 28 then 0 else i / 4 - 1
  {
  }

  /** A length symbol covers the lengths up to the next one; the longest length has a symbol of its own. */
  lemma LengthSymbols(i: nat)
    requires i < 29
    ensures LengthBase()[0] == 3 && LengthBase()[28] == 258
    ensures LengthExtra()[i] == if i < 4 || i == 28 then 0 else i / 4 - 1
    ensures i < 27 ==> LengthBase()[i + 1] == LengthBase()[i] + Pow2(LengthExtra()[i])
  {
    hide Pow2;
    PowersTo13();
    LengthExtras(i);
  }

  lemma DistanceExtras(i: nat)
    requires i < 30
    ensures DistanceExtra()[i] == if i < 2 then 0 else i / 2 - 1
  {
  }

  lemma DistanceSymbols(i: nat)
    requires i < 30
    ensures DistanceBase()[0] == 1
    ensures DistanceExtra()[i] == if i < 2 then 0 else i / 2 - 1
    ensures i < 29 ==> DistanceBase()[i + 1] == DistanceBase()[i] + Pow2(DistanceExtra()[i])
  {
    hide Pow2;
    PowersTo13();
    DistanceExtras(i);
  }

  // ----- The fixed code -----

  lemma {:induction false} FixedShort(n: nat)
    requires n <= 288
    ensures KraftTo(FixedLitLen(), n, 6) == 0
    ensures KraftTo(FixedLitLen(), n, 7) == if n <= 256 then 0 else if n <= 280 then n - 256 else 24
    ensures KraftTo(FixedLitLen(), n, 8) ==
            if n <= 144 then n else if n <= 256 then 144 else if n <= 280 then 144 + 2 * (n - 256) else n - 88
  {
    if n > 0 {
      FixedShort(n - 1);
      assert Share(7, 8) == 2 && Share(8, 8) == 1 && Share(7, 7) == 1;
    }
  }

  lemma {:induction false} FixedCounts(n: nat)
    requires n <= 288
    ensures Count(FixedLitLen(), n, 7) == if n <= 256 then 0 else if n <= 280 then n - 256 else 24
    ensures Count(FixedLitLen(), n, 8) == if n <= 144 then n else if n <= 280 then 144 else n - 136
    ensures Count(FixedLitLen(), n, 9) == if n <= 144 then 0 else if n <= 256 then n - 144 else 112
  {
    if n > 0 {
      FixedCounts(n - 1);
    }
  }

  /** The four ranges of section 3.2.6 of RFC 1951. */
  lemma FixedCodes(s: nat)
    requires s < 288
    ensures FixedLitLen()[s] > 0
    ensures CodeBits(FixedLitLen(), s) ==
            if s <= 143 then HighBits(0x30 + s, 8) else if s <= 255 then HighBits(0x190 + (s - 144), 9)
              else if s <= 279 then HighBits(s - 256, 7) else HighBits(0xC0 + (s - 280), 8)
  {
    hide KraftTo, Count, HighBits;
    FixedShort(288);
    FixedCounts(s);
  }

  lemma {:induction false} FixedDistCounts(n: nat)
    requires n <= 32
    ensures KraftTo(FixedDist(), n, 4) == 0 && Count(FixedDist(), n, 5) == n
  {
    if n > 0 {
      FixedDistCounts(n - 1);
    }
  }

  /** Distances have codes of five bits, their own numbers. */
  lemma FixedDistCodes(s: nat)
    requires s < 32
    ensures FixedDist()[s] > 0 && CodeBits(FixedDist(), s) == HighBits(s, 5)
  {
    hide KraftTo, Count, HighBits;
    FixedDistCounts(32);
    FixedDistCounts(s);
  }

  // ----- Canonical codes -----

  /**
   * The two rules of section 3.2.2 of RFC 1951: codes of one length are
   * consecutive numbers in the order of their symbols, and shorter codes come
   * before longer ones.
   */
  lemma CanonicalRules(lengths: seq<nat>, s: nat, t: nat)
    requires s < |lengths| && t < |lengths| && 0 < lengths[s] && 0 < lengths[t]
    ensures lengths[s] == lengths[t] && s < t && Count(lengths, s + 1, lengths[s]) == Count(lengths, t, lengths[s]) ==>
              Canon(lengths, t) == Canon(lengths, s) + 1
    ensures lengths[s] < lengths[t] ==> Canon(lengths, s) < Prefix(lengths, t, lengths[s])
  {
    if lengths[s] < lengths[t] {
      CanonBelow(lengths, s);
      PrefixBeyond(lengths, t, lengths[s]);
    }
  }
}
