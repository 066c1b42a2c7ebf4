/**
 * A stream as another encoder writes it, to fix what no round trip can fix: the
 * order of bits in a byte, of BFINAL and BTYPE, and of the bits of a code.
 */
module KnownStream {
  import opened Powers
  import opened BitStream
  import opened HuffmanTree
  import opened PrefixCode
  import opened Lz77
  import opened Inflate
  import opened StreamFormat
  import opened BlockFormat
  import opened Zlib
  import opened AdlerForm
  import DeflateTables

  /** The letter `a` in a fixed block. */
  function OneLetter(): seq<byte> { [0x4b, 0x04, 0x00] }

  function Letter(): Token { Literal(0x61) }

  lemma BitStep(v: nat, n: nat)
    ensures TestBit(v, n + 1) == TestBit(v / 2, n) && (TestBit(v, 0) <==> v % 2 == 1)
  {
  }

  /** Bits 0 to 7 of a number. */
  lemma EightBits(v: nat)
    ensures (TestBit(v, 0) <==> v % 2 == 1) && (TestBit(v, 1) <==> v / 2 % 2 == 1)
    ensures (TestBit(v, 2) <==> v / 4 % 2 == 1) && (TestBit(v, 3) <==> v / 8 % 2 == 1)
    ensures (TestBit(v, 4) <==> v / 16 % 2 == 1) && (TestBit(v, 5) <==> v / 32 % 2 == 1)
    ensures (TestBit(v, 6) <==> v / 64 % 2 == 1) && (TestBit(v, 7) <==> v / 128 % 2 == 1)
  {
    hide TestBit;
    FourBits(v);
    FourBits(v / 16);
    FourHigher(v, 0);
    FourHigher(v, 1);
    FourHigher(v, 2);
    FourHigher(v, 3);
  }

  lemma FourHigher(v: nat, n: nat)
    ensures TestBit(v, n + 4) == TestBit(v / 16, n)
  {
    hide TestBit;
    BitStep(v, n + 3);
    BitStep(v / 2, n + 2);
    BitStep(v / 2 / 2, n + 1);
    BitStep(v / 2 / 2 / 2, n);
    assert v / 2 / 2 / 2 / 2 == v / 16;
  }

  lemma FourBits(v: nat)
    ensures (TestBit(v, 0) <==> v % 2 == 1) && (TestBit(v, 1) <==> v / 2 % 2 == 1)
    ensures (TestBit(v, 2) <==> v / 4 % 2 == 1) && (TestBit(v, 3) <==> v / 8 % 2 == 1)
  {
    hide TestBit;
    BitStep(v, 0);
    BitStep(v, 1);
    BitStep(v, 2);
    BitStep(v / 2, 0);
    BitStep(v / 2, 1);
    BitStep(v / 2 / 2, 0);
    BitStep(v / 2 / 2 / 2, 0);
  }

  lemma StreamBit(tail: seq<byte>, j: nat)
    requires j < 24
    ensures |OneLetter() + tail| == 3 + |tail|
    ensures Bits(OneLetter() + tail)[j] == TestBit(if j < 8 then 0x4b else if j < 16 then 0x04 else 0x00, j % 8)
  {
  }

  /** The code of the letter and the end code follow the three bits of the block header. */
  lemma StreamBody(tail: seq<byte>, i: nat)
    requires i < 15
    ensures |OneLetter() + tail| == 3 + |tail|
    ensures Bits(OneLetter() + tail)[3 + i] == TestBit(if i < 8 then 0x91 else 0, if i < 8 then 7 - i else 14 - i)
  {
    hide Bits, TestBit;
    StreamBit(tail, 3 + i);
    EightBits(0x4b);
    EightBits(0x04);
    EightBits(0x00);
    EightBits(0x91);
  }

  lemma StreamHeader(tail: seq<byte>)
    ensures |OneLetter() + tail| == 3 + |tail|
    ensures var bits := Bits(OneLetter() + tail); bits[0] && bits[1] && !bits[2]
  {
    hide Bits, TestBit;
    StreamBit(tail, 0);
    StreamBit(tail, 1);
    StreamBit(tail, 2);
    EightBits(0x4b);
  }

  lemma LetterWritable()
    ensures Writable(Fixed([Letter()])) && TokensOk([], [Letter()]) && ExpandTokens([], [Letter()]) == [0x61]
    ensures BodyBits(Fixed([Letter()])) == HighBits(0x91, 8) + HighBits(0, 7)
  {
    hide CodeBits, HighBits;
    DeflateTables.FixedCodes(0x61);
    DeflateTables.FixedCodes(256);
    var ts := [Letter()];
    assert ts[1..] == [];
    assert ExpandTokens([0x61], []) == [0x61];
  }

  /** The decoder reads it, whatever follows. */
  lemma LetterInflates(tail: seq<byte>)
    ensures InflateAll(OneLetter() + tail) == Ok([0x61], 18)
  {
    hide InflateBlock, BodyBits, Writable, TokensOk, ExpandTokens, Bits, HighBits, OneLetter;
    var d, b := OneLetter() + tail, Fixed([Letter()]);
    LetterWritable();
    StreamHeader(tail);
    forall i | 0 <= i < 15
      ensures Bits(d)[3 + i] == BodyBits(b)[i]
    {
      StreamBody(tail, i);
    }
    assert Bits(d)[3..18] == BodyBits(b);
    InflateFixed(d, 3, [Letter()], []);
    AllBlocks(d);
    BlocksStep(d, 0, []);
  }

  /** The same letter in a stored block: the length comes least significant byte first, then its complement. */
  lemma StoredLetter()
    ensures InflateAll([0x01, 0x01, 0x00, 0xfe, 0xff, 0x61]) == Ok([0x61], 48)
  {
    hide BitAt, InflateBlock;
    var d: seq<byte> := [0x01, 0x01, 0x00, 0xfe, 0xff, 0x61];
    FirstBits(d);
    AllBlocks(d);
    BlocksStep(d, 0, []);
    StoredBlock(d);
  }

  lemma FirstBits(d: seq<byte>)
    requires |d| >= 1 && d[0] == 0x01
    ensures BitAt(d, 0) && !BitAt(d, 1) && !BitAt(d, 2)
  {
    hide TestBit;
    EightBits(0x01);
  }

  lemma StoredBlock(d: seq<byte>)
    requires d == [0x01, 0x01, 0x00, 0xfe, 0xff, 0x61]
    ensures InflateBlock(d, 3, 0, []) == Ok([0x61], 48)
  {
    assert d[5..6] == [0x61];
  }

  /** The letter in a zlib stream: header, deflated data, and the checksum most significant byte first. */
  lemma LetterUnzips()
    ensures Unzip([0x78, 0x01, 0x4b, 0x04, 0x00, 0x00, 0x62, 0x00, 0x62], false) == Ok([0x61], 18)
  {
    hide InflateAll, Adler;
    var d: seq<byte> := [0x78, 0x01, 0x4b, 0x04, 0x00, 0x00, 0x62, 0x00, 0x62];
    assert d[2..] == OneLetter() + [0x00, 0x62, 0x00, 0x62];
    LetterInflates([0x00, 0x62, 0x00, 0x62]);
    assert d[5..] == [0x00, 0x62, 0x00, 0x62];
    LetterChecksum();
  }

  lemma LetterChecksum()
    ensures Checksum([0x61]) == 0x0062_0062
  {
    var b: seq<byte> := [0x61];
    AdlerIs(b);
    assert b[..1] == b;
  }
}
