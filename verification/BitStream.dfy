/**
 * Bit-level input and output of lodepng: bits are packed into bytes starting
 * at the least significant bit.
 */
module BitStream {
  import opened Powers

  type byte = b: int | 0 <= b < 256

  /** Bit i of a byte string. */
  predicate BitAt(data: seq<byte>, i: nat)
    requires i < 8 * |data|
  {
    TestBit(data[i / 8], i % 8)
  }

  /** A byte string as the stream of bits the codec reads and writes. */
  function Bits(data: seq<byte>): (bits: seq<bool>)
    ensures |bits| == 8 * |data|
    ensures forall i :: 0 <= i < |bits| ==> bits[i] == BitAt(data, i)
  {
    seq(8 * |data|, i requires 0 <= i < 8 * |data| => BitAt(data, i))
  }

  /** The low n bits of v, least significant first. */
  function LowBits(v: nat, n: nat): (bits: seq<bool>)
    ensures |bits| == n
    ensures forall i :: 0 <= i < n ==> bits[i] == TestBit(v, i)
  {
    seq(n, i requires 0 <= i < n => TestBit(v, i))
  }

  /** The low n bits of v, most significant first, as Huffman codes are stored. */
  function HighBits(v: nat, n: nat): (bits: seq<bool>)
    ensures |bits| == n
    ensures forall i :: 0 <= i < n ==> bits[i] == TestBit(v, n - 1 - i)
  {
    seq(n, i requires 0 <= i < n => TestBit(v, n - 1 - i))
  }

  /** The number whose bits, least significant first, are given. */
  function Value(bits: seq<bool>): nat {
    if bits == [] then 0 else BitValue(bits[0]) + 2 * Value(bits[1..])
  }

  /** Reading back a field that is wide enough returns the number written. */
  lemma {:induction false} ValueOfLowBits(v: nat, n: nat)
    requires v < Pow2(n)
    ensures Value(LowBits(v, n)) == v
  {
    if n > 0 {
      ValueOfLowBits(v / 2, n - 1);
      assert LowBits(v, n)[1..] == LowBits(v / 2, n - 1);
    }
  }

  lemma {:induction false} ValueAppend(bits: seq<bool>, b: bool)
    ensures Value(bits + [b]) == Value(bits) + BitValue(b) * Pow2(|bits|)
  {
    if bits == [] {
      assert bits + [b] == [b];
      assert [b][1..] == [];
    } else {
      ValueAppend(bits[1..], b);
      assert (bits + [b])[1..] == bits[1..] + [b];
    }
  }

  lemma {:induction false} ValueBound(bits: seq<bool>)
    ensures Value(bits) < Pow2(|bits|)
  {
    if bits != [] {
      ValueBound(bits[1..]);
    }
  }

  /** `piece` stands in the stream at bit position `bp`. */
  predicate At(bits: seq<bool>, bp: nat, piece: seq<bool>) {
    bp + |piece| <= |bits| && bits[bp..bp + |piece|] == piece
  }

  lemma AtConcat(bits: seq<bool>, bp: nat, a: seq<bool>, b: seq<bool>)
    ensures At(bits, bp, a + b) <==> At(bits, bp, a) && At(bits, bp + |a|, b)
  {
    if At(bits, bp, a + b) {
      assert a == (a + b)[..|a|];
      assert b == (a + b)[|a|..];
    }
    if At(bits, bp, a) && At(bits, bp + |a|, b) {
      assert bits[bp..bp + |a + b|] == bits[bp..bp + |a|] + bits[bp + |a|..bp + |a| + |b|];
    }
  }

  lemma NothingRead(bits: seq<bool>, bp: nat)
    requires bp <= |bits|
    ensures Value(bits[bp..bp]) == 0 && Pow2(0) == 1
  {
  }

  lemma OneRead(data: seq<byte>, bp: nat, i: nat)
    requires bp + i < 8 * |data|
    ensures Value(Bits(data)[bp..bp + i + 1]) == Value(Bits(data)[bp..bp + i]) + if BitAt(data, bp + i) then Pow2(i)
              else 0
    ensures Pow2(i + 1) == 2 * Pow2(i)
  {
    hide Value, BitAt;
    var bits := Bits(data);
    ValueAppend(bits[bp..bp + i], bits[bp + i]);
    assert bits[bp..bp + i] + [bits[bp + i]] == bits[bp..bp + i + 1];
  }

  /** readBitsFromStream: collects n bits, least significant first. */
  method ReadBits(data: seq<byte>, bp: nat, n: nat) returns (result: nat, bp': nat)
    requires bp + n <= 8 * |data|
    ensures result == Value(Bits(data)[bp..bp + n])
    ensures bp' == bp + n
  {
    hide Bits, BitAt, Value, Pow2;
    ghost var bits := Bits(data);
    NothingRead(bits, bp);
    result, bp' := 0, bp;
    var weight := 1;
    for i := 0 to n
      invariant bp' == bp + i
      invariant weight == Pow2(i)
      invariant result == Value(bits[bp..bp + i])
    {
      OneRead(data, bp, i);
      if BitAt(data, bp') {
        result := result + weight;
      }
      weight := 2 * weight;
      bp' := bp' + 1;
    }
  }

  /** A growing output buffer (ucvector) together with its bit pointer. */
  class BitWriter {
    var data: seq<byte>
    var bp: nat

    /** The last byte is open while bp is inside it, and its unwritten bits are 0. */
    ghost predicate Valid()
      reads this
    {
      Open(data, bp)
    }

    /** Everything written so far. */
    ghost function Written(): (bits: seq<bool>)
      requires Valid()
      reads this
      ensures |bits| == bp
    {
      Bits(data)[..bp]
    }

    constructor ()
      ensures Valid() && Written() == []
    {
      data := [];
      bp := 0;
    }

    /** addBitToStream */
    method AddBit(bit: bool)
      requires Valid()
      modifies this
      ensures Valid() && Written() == old(Written()) + [bit]
    {
      hide BitAt, OrBit, Bits;
      BitAdded(data, bp, bit);
      if bp % 8 == 0 {
        data := data + [0];
      }
      if bit {
        var last := |data| - 1;
        data := data[last := OrBit(data[last], bp % 8)];
      }
      bp := bp + 1;
    }

    /** addBitsToStream */
    method AddBits(value: nat, nbits: nat)
      requires Valid()
      modifies this
      ensures Valid() && Written() == old(Written()) + LowBits(value, nbits)
    {
      for i := 0 to nbits
        invariant Valid() && Written() == old(Written()) + LowBits(value, nbits)[..i]
      {
        AddBit(TestBit(value, i));
        assert LowBits(value, nbits)[..i + 1] == LowBits(value, nbits)[..i] + [TestBit(value, i)];
      }
      assert LowBits(value, nbits)[..nbits] == LowBits(value, nbits);
    }

    /** addBitsToStreamReversed */
    method AddBitsReversed(value: nat, nbits: nat)
      requires Valid()
      modifies this
      ensures Valid() && Written() == old(Written()) + HighBits(value, nbits)
    {
      for i := 0 to nbits
        invariant Valid() && Written() == old(Written()) + HighBits(value, nbits)[..i]
      {
        AddBit(TestBit(value, nbits - 1 - i));
        assert HighBits(value, nbits)[..i + 1] == HighBits(value, nbits)[..i] + [TestBit(value, nbits - 1 - i)];
      }
      assert HighBits(value, nbits)[..nbits] == HighBits(value, nbits);
    }
  }

  lemma OrBitIsByte(b: byte, k: nat)
    requires k < 8
    ensures OrBit(b, k) < 256
  {
    assert Pow2(4) == 16;
    assert Pow2(8) == 256;
    OrBitBound(b, k, 8);
  }

  /** The open byte is there and the bits from bp on are 0. */
  ghost predicate Open(data: seq<byte>, bp: nat) {
    |data| == (bp + 7) / 8 && forall i :: bp <= i < 8 * |data| ==> !BitAt(data, i)
  }

  /** Setting the next bit of the open byte, or of a new byte, appends it. */
  lemma BitAdded(data: seq<byte>, bp: nat, bit: bool)
    requires Open(data, bp)
    ensures var data1 := if bp % 8 == 0 then data + [0] else data;
            var last := |data1| - 1;
            && last == bp / 8 && OrBit(data1[last], bp % 8) < 256
            && var data2 := if bit then data1[last := OrBit(data1[last], bp % 8)] else data1;
            Open(data2, bp + 1) && Bits(data2)[..bp + 1] == Bits(data)[..bp] + [bit]
  {
    hide BitAt, OrBit;
    var data1: seq<byte> := if bp % 8 == 0 then data + [0] else data;
    var last := |data1| - 1;
    if bp % 8 == 0 {
      ZeroByte(data, bp);
    }
    OrBitIsByte(data1[last], bp % 8);
    SetOneBit(data1, bp);
  }

  lemma ZeroByte(data: seq<byte>, bp: nat)
    requires bp == 8 * |data|
    ensures forall i :: 0 <= i < bp ==> BitAt(data + [0], i) == BitAt(data, i)
    ensures forall i :: bp <= i < bp + 8 ==> !BitAt(data + [0], i)
  {
    forall i | bp <= i < bp + 8
      ensures !BitAt(data + [0], i)
    {
      ZeroBits(i % 8);
    }
  }

  lemma SetOneBit(data: seq<byte>, bp: nat)
    requires bp / 8 < |data|
    requires OrBit(data[bp / 8], bp % 8) < 256
    ensures var data' := data[bp / 8 := OrBit(data[bp / 8], bp % 8)];
            forall i :: 0 <= i < 8 * |data| ==> BitAt(data', i) == (i == bp || BitAt(data, i))
  {
    var data' := data[bp / 8 := OrBit(data[bp / 8], bp % 8)];
    forall i | 0 <= i < 8 * |data|
      ensures BitAt(data', i) == (i == bp || BitAt(data, i))
    {
      OrBitTest(data[bp / 8], bp % 8, i % 8);
    }
  }
}
