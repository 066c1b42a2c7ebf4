/** Arithmetic in the field of the AES and its substitution tables. */
module AesField {
  type Byte = bv8

  // ----- The substitution tables -----

  /** sbox, by the two digits of the index */
  function Sbox(x: Byte): Byte {
    match x >> 4
    case 0 => (match x & 15
        case 0 => 0x63 case 1 => 0x7c case 2 => 0x77 case 3 => 0x7b case 4 => 0xf2 case 5 => 0x6b
        case 6 => 0x6f case 7 => 0xc5 case 8 => 0x30 case 9 => 0x01 case 10 => 0x67
        case 11 => 0x2b case 12 => 0xfe case 13 => 0xd7 case 14 => 0xab case _ => 0x76)
    case 1 => (match x & 15
        case 0 => 0xca case 1 => 0x82 case 2 => 0xc9 case 3 => 0x7d case 4 => 0xfa case 5 => 0x59
        case 6 => 0x47 case 7 => 0xf0 case 8 => 0xad case 9 => 0xd4 case 10 => 0xa2
        case 11 => 0xaf case 12 => 0x9c case 13 => 0xa4 case 14 => 0x72 case _ => 0xc0)
    case 2 => (match x & 15
        case 0 => 0xb7 case 1 => 0xfd case 2 => 0x93 case 3 => 0x26 case 4 => 0x36 case 5 => 0x3f
        case 6 => 0xf7 case 7 => 0xcc case 8 => 0x34 case 9 => 0xa5 case 10 => 0xe5
        case 11 => 0xf1 case 12 => 0x71 case 13 => 0xd8 case 14 => 0x31 case _ => 0x15)
    case 3 => (match x & 15
        case 0 => 0x04 case 1 => 0xc7 case 2 => 0x23 case 3 => 0xc3 case 4 => 0x18 case 5 => 0x96
        case 6 => 0x05 case 7 => 0x9a case 8 => 0x07 case 9 => 0x12 case 10 => 0x80
        case 11 => 0xe2 case 12 => 0xeb case 13 => 0x27 case 14 => 0xb2 case _ => 0x75)
    case 4 => (match x & 15
        case 0 => 0x09 case 1 => 0x83 case 2 => 0x2c case 3 => 0x1a case 4 => 0x1b case 5 => 0x6e
        case 6 => 0x5a case 7 => 0xa0 case 8 => 0x52 case 9 => 0x3b case 10 => 0xd6
        case 11 => 0xb3 case 12 => 0x29 case 13 => 0xe3 case 14 => 0x2f case _ => 0x84)
    case 5 => (match x & 15
        case 0 => 0x53 case 1 => 0xd1 case 2 => 0x00 case 3 => 0xed case 4 => 0x20 case 5 => 0xfc
        case 6 => 0xb1 case 7 => 0x5b case 8 => 0x6a case 9 => 0xcb case 10 => 0xbe
        case 11 => 0x39 case 12 => 0x4a case 13 => 0x4c case 14 => 0x58 case _ => 0xcf)
    case 6 => (match x & 15
        case 0 => 0xd0 case 1 => 0xef case 2 => 0xaa case 3 => 0xfb case 4 => 0x43 case 5 => 0x4d
        case 6 => 0x33 case 7 => 0x85 case 8 => 0x45 case 9 => 0xf9 case 10 => 0x02
        case 11 => 0x7f case 12 => 0x50 case 13 => 0x3c case 14 => 0x9f case _ => 0xa8)
    case 7 => (match x & 15
        case 0 => 0x51 case 1 => 0xa3 case 2 => 0x40 case 3 => 0x8f case 4 => 0x92 case 5 => 0x9d
        case 6 => 0x38 case 7 => 0xf5 case 8 => 0xbc case 9 => 0xb6 case 10 => 0xda
        case 11 => 0x21 case 12 => 0x10 case 13 => 0xff case 14 => 0xf3 case _ => 0xd2)
    case 8 => (match x & 15
        case 0 => 0xcd case 1 => 0x0c case 2 => 0x13 case 3 => 0xec case 4 => 0x5f case 5 => 0x97
        case 6 => 0x44 case 7 => 0x17 case 8 => 0xc4 case 9 => 0xa7 case 10 => 0x7e
        case 11 => 0x3d case 12 => 0x64 case 13 => 0x5d case 14 => 0x19 case _ => 0x73)
    case 9 => (match x & 15
        case 0 => 0x60 case 1 => 0x81 case 2 => 0x4f case 3 => 0xdc case 4 => 0x22 case 5 => 0x2a
        case 6 => 0x90 case 7 => 0x88 case 8 => 0x46 case 9 => 0xee case 10 => 0xb8
        case 11 => 0x14 case 12 => 0xde case 13 => 0x5e case 14 => 0x0b case _ => 0xdb)
    case 10 => (match x & 15
        case 0 => 0xe0 case 1 => 0x32 case 2 => 0x3a case 3 => 0x0a case 4 => 0x49 case 5 => 0x06
        case 6 => 0x24 case 7 => 0x5c case 8 => 0xc2 case 9 => 0xd3 case 10 => 0xac
        case 11 => 0x62 case 12 => 0x91 case 13 => 0x95 case 14 => 0xe4 case _ => 0x79)
    case 11 => (match x & 15
        case 0 => 0xe7 case 1 => 0xc8 case 2 => 0x37 case 3 => 0x6d case 4 => 0x8d case 5 => 0xd5
        case 6 => 0x4e case 7 => 0xa9 case 8 => 0x6c case 9 => 0x56 case 10 => 0xf4
        case 11 => 0xea case 12 => 0x65 case 13 => 0x7a case 14 => 0xae case _ => 0x08)
    case 12 => (match x & 15
        case 0 => 0xba case 1 => 0x78 case 2 => 0x25 case 3 => 0x2e case 4 => 0x1c case 5 => 0xa6
        case 6 => 0xb4 case 7 => 0xc6 case 8 => 0xe8 case 9 => 0xdd case 10 => 0x74
        case 11 => 0x1f case 12 => 0x4b case 13 => 0xbd case 14 => 0x8b case _ => 0x8a)
    case 13 => (match x & 15
        case 0 => 0x70 case 1 => 0x3e case 2 => 0xb5 case 3 => 0x66 case 4 => 0x48 case 5 => 0x03
        case 6 => 0xf6 case 7 => 0x0e case 8 => 0x61 case 9 => 0x35 case 10 => 0x57
        case 11 => 0xb9 case 12 => 0x86 case 13 => 0xc1 case 14 => 0x1d case _ => 0x9e)
    case 14 => (match x & 15
        case 0 => 0xe1 case 1 => 0xf8 case 2 => 0x98 case 3 => 0x11 case 4 => 0x69 case 5 => 0xd9
        case 6 => 0x8e case 7 => 0x94 case 8 => 0x9b case 9 => 0x1e case 10 => 0x87
        case 11 => 0xe9 case 12 => 0xce case 13 => 0x55 case 14 => 0x28 case _ => 0xdf)
    case _ => (match x & 15
        case 0 => 0x8c case 1 => 0xa1 case 2 => 0x89 case 3 => 0x0d case 4 => 0xbf case 5 => 0xe6
        case 6 => 0x42 case 7 => 0x68 case 8 => 0x41 case 9 => 0x99 case 10 => 0x2d
        case 11 => 0x0f case 12 => 0xb0 case 13 => 0x54 case 14 => 0xbb case _ => 0x16)
  }

  /** isbox */
  function InvSbox(x: Byte): Byte {
    match x >> 4
    case 0 => (match x & 15
        case 0 => 0x52 case 1 => 0x09 case 2 => 0x6a case 3 => 0xd5 case 4 => 0x30 case 5 => 0x36
        case 6 => 0xa5 case 7 => 0x38 case 8 => 0xbf case 9 => 0x40 case 10 => 0xa3
        case 11 => 0x9e case 12 => 0x81 case 13 => 0xf3 case 14 => 0xd7 case _ => 0xfb)
    case 1 => (match x & 15
        case 0 => 0x7c case 1 => 0xe3 case 2 => 0x39 case 3 => 0x82 case 4 => 0x9b case 5 => 0x2f
        case 6 => 0xff case 7 => 0x87 case 8 => 0x34 case 9 => 0x8e case 10 => 0x43
        case 11 => 0x44 case 12 => 0xc4 case 13 => 0xde case 14 => 0xe9 case _ => 0xcb)
    case 2 => (match x & 15
        case 0 => 0x54 case 1 => 0x7b case 2 => 0x94 case 3 => 0x32 case 4 => 0xa6 case 5 => 0xc2
        case 6 => 0x23 case 7 => 0x3d case 8 => 0xee case 9 => 0x4c case 10 => 0x95
        case 11 => 0x0b case 12 => 0x42 case 13 => 0xfa case 14 => 0xc3 case _ => 0x4e)
    case 3 => (match x & 15
        case 0 => 0x08 case 1 => 0x2e case 2 => 0xa1 case 3 => 0x66 case 4 => 0x28 case 5 => 0xd9
        case 6 => 0x24 case 7 => 0xb2 case 8 => 0x76 case 9 => 0x5b case 10 => 0xa2
        case 11 => 0x49 case 12 => 0x6d case 13 => 0x8b case 14 => 0xd1 case _ => 0x25)
    case 4 => (match x & 15
        case 0 => 0x72 case 1 => 0xf8 case 2 => 0xf6 case 3 => 0x64 case 4 => 0x86 case 5 => 0x68
        case 6 => 0x98 case 7 => 0x16 case 8 => 0xd4 case 9 => 0xa4 case 10 => 0x5c
        case 11 => 0xcc case 12 => 0x5d case 13 => 0x65 case 14 => 0xb6 case _ => 0x92)
    case 5 => (match x & 15
        case 0 => 0x6c case 1 => 0x70 case 2 => 0x48 case 3 => 0x50 case 4 => 0xfd case 5 => 0xed
        case 6 => 0xb9 case 7 => 0xda case 8 => 0x5e case 9 => 0x15 case 10 => 0x46
        case 11 => 0x57 case 12 => 0xa7 case 13 => 0x8d case 14 => 0x9d case _ => 0x84)
    case 6 => (match x & 15
        case 0 => 0x90 case 1 => 0xd8 case 2 => 0xab case 3 => 0x00 case 4 => 0x8c case 5 => 0xbc
        case 6 => 0xd3 case 7 => 0x0a case 8 => 0xf7 case 9 => 0xe4 case 10 => 0x58
        case 11 => 0x05 case 12 => 0xb8 case 13 => 0xb3 case 14 => 0x45 case _ => 0x06)
    case 7 => (match x & 15
        case 0 => 0xd0 case 1 => 0x2c case 2 => 0x1e case 3 => 0x8f case 4 => 0xca case 5 => 0x3f
        case 6 => 0x0f case 7 => 0x02 case 8 => 0xc1 case 9 => 0xaf case 10 => 0xbd
        case 11 => 0x03 case 12 => 0x01 case 13 => 0x13 case 14 => 0x8a case _ => 0x6b)
    case 8 => (match x & 15
        case 0 => 0x3a case 1 => 0x91 case 2 => 0x11 case 3 => 0x41 case 4 => 0x4f case 5 => 0x67
        case 6 => 0xdc case 7 => 0xea case 8 => 0x97 case 9 => 0xf2 case 10 => 0xcf
        case 11 => 0xce case 12 => 0xf0 case 13 => 0xb4 case 14 => 0xe6 case _ => 0x73)
    case 9 => (match x & 15
        case 0 => 0x96 case 1 => 0xac case 2 => 0x74 case 3 => 0x22 case 4 => 0xe7 case 5 => 0xad
        case 6 => 0x35 case 7 => 0x85 case 8 => 0xe2 case 9 => 0xf9 case 10 => 0x37
        case 11 => 0xe8 case 12 => 0x1c case 13 => 0x75 case 14 => 0xdf case _ => 0x6e)
    case 10 => (match x & 15
        case 0 => 0x47 case 1 => 0xf1 case 2 => 0x1a case 3 => 0x71 case 4 => 0x1d case 5 => 0x29
        case 6 => 0xc5 case 7 => 0x89 case 8 => 0x6f case 9 => 0xb7 case 10 => 0x62
        case 11 => 0x0e case 12 => 0xaa case 13 => 0x18 case 14 => 0xbe case _ => 0x1b)
    case 11 => (match x & 15
        case 0 => 0xfc case 1 => 0x56 case 2 => 0x3e case 3 => 0x4b case 4 => 0xc6 case 5 => 0xd2
        case 6 => 0x79 case 7 => 0x20 case 8 => 0x9a case 9 => 0xdb case 10 => 0xc0
        case 11 => 0xfe case 12 => 0x78 case 13 => 0xcd case 14 => 0x5a case _ => 0xf4)
    case 12 => (match x & 15
        case 0 => 0x1f case 1 => 0xdd case 2 => 0xa8 case 3 => 0x33 case 4 => 0x88 case 5 => 0x07
        case 6 => 0xc7 case 7 => 0x31 case 8 => 0xb1 case 9 => 0x12 case 10 => 0x10
        case 11 => 0x59 case 12 => 0x27 case 13 => 0x80 case 14 => 0xec case _ => 0x5f)
    case 13 => (match x & 15
        case 0 => 0x60 case 1 => 0x51 case 2 => 0x7f case 3 => 0xa9 case 4 => 0x19 case 5 => 0xb5
        case 6 => 0x4a case 7 => 0x0d case 8 => 0x2d case 9 => 0xe5 case 10 => 0x7a
        case 11 => 0x9f case 12 => 0x93 case 13 => 0xc9 case 14 => 0x9c case _ => 0xef)
    case 14 => (match x & 15
        case 0 => 0xa0 case 1 => 0xe0 case 2 => 0x3b case 3 => 0x4d case 4 => 0xae case 5 => 0x2a
        case 6 => 0xf5 case 7 => 0xb0 case 8 => 0xc8 case 9 => 0xeb case 10 => 0xbb
        case 11 => 0x3c case 12 => 0x83 case 13 => 0x53 case 14 => 0x99 case _ => 0x61)
    case _ => (match x & 15
        case 0 => 0x17 case 1 => 0x2b case 2 => 0x04 case 3 => 0x7e case 4 => 0xba case 5 => 0x77
        case 6 => 0xd6 case 7 => 0x26 case 8 => 0xe1 case 9 => 0x69 case 10 => 0x14
        case 11 => 0x63 case 12 => 0x55 case 13 => 0x21 case 14 => 0x0c case _ => 0x7d)
  }

  /** One table undoes the other. */
  lemma SboxInverse(x: Byte)
    ensures InvSbox(Sbox(x)) == x
  {
    hide Sbox, InvSbox;
    if x < 0x40 {
      SboxRows0(x);
    } else if x < 0x80 {
      SboxRows4(x);
    } else if x < 0xc0 {
      SboxRows8(x);
    } else {
      SboxRows12(x);
    }
  }

  lemma SboxRows0(x: Byte)
    requires x < 0x40
    ensures InvSbox(Sbox(x)) == x
  {
  }

  lemma SboxRows4(x: Byte)
    requires 0x40 <= x < 0x80
    ensures InvSbox(Sbox(x)) == x
  {
  }

  lemma SboxRows8(x: Byte)
    requires 0x80 <= x < 0xc0
    ensures InvSbox(Sbox(x)) == x
  {
  }

  lemma SboxRows12(x: Byte)
    requires 0xc0 <= x
    ensures InvSbox(Sbox(x)) == x
  {
  }

  // ----- Multiplication -----

  /** Multiplication by x modulo the field polynomial: section 4.2.1 of FIPS 197. */
  function Times2(x: Byte): Byte { Xor(Left(x), Reduction(x)) }

  function Left(x: Byte): Byte { x << 1 }

  function Reduction(x: Byte): Byte { if x & 0x80 != 0 then 0x1b else 0 }

  function Times4(x: Byte): Byte { Times2(Times2(x)) }

  function Times8(x: Byte): Byte { Times2(Times4(x)) }

  function Xor(x: Byte, y: Byte): Byte { x ^ y }

  /** The macros f2, f4 and f8 reduce in one step. */
  function F2(x: Byte): (r: Byte)
    ensures r == Times2(x)
  {
    (((x as bv16) << 1) ^ ((((x as bv16) >> 7) & 1) * 0x11b)) as Byte
  }

  function F4(x: Byte): (r: Byte)
    ensures r == Times4(x)
  {
    (((x as bv16) << 2) ^ ((((x as bv16) >> 6) & 1) * 0x11b) ^ ((((x as bv16) >> 6) & 2) * 0x11b)) as Byte
  }

  function F8(x: Byte): (r: Byte)
    ensures r == Times8(x)
  {
    (((x as bv16) << 3) ^ ((((x as bv16) >> 5) & 1) * 0x11b) ^ ((((x as bv16) >> 5) & 2) * 0x11b) ^
     ((((x as bv16) >> 5) & 4) * 0x11b)) as Byte
  }

  function Xor3(x: Byte, y: Byte, z: Byte): Byte { Xor(Xor(x, y), z) }

  function Xor4(x: Byte, y: Byte, z: Byte, u: Byte): Byte { Xor(Xor3(x, y, z), u) }

  /** The macros f3, f9, fb, fd and fe. */
  function F3(x: Byte): Byte { Xor(F2(x), x) }

  function F9(x: Byte): Byte { Xor(F8(x), x) }

  function Fb(x: Byte): Byte { Xor3(F8(x), F2(x), x) }

  function Fd(x: Byte): Byte { Xor3(F8(x), F4(x), x) }

  function Fe(x: Byte): Byte { Xor3(F8(x), F4(x), F2(x)) }

  /** The macro d2: division by x. */
  function D2(x: Byte): Byte { (x >> 1) ^ (if x & 1 != 0 then 0x8d else 0) }

  lemma HalfOfDouble(x: Byte)
    ensures D2(F2(x)) == x
  {
  }

  // ----- Sums, where the order does not matter -----

  lemma XorCommutes(a: Byte, b: Byte)
    ensures Xor(a, b) == Xor(b, a)
  {
  }

  lemma XorAssociates(a: Byte, b: Byte, c: Byte)
    ensures Xor(Xor(a, b), c) == Xor(a, Xor(b, c))
  {
  }

  lemma XorCancels(a: Byte)
    ensures Xor(a, a) == 0 && Xor(a, 0) == a && Xor(0, a) == a
  {
  }

  lemma Interchange(a: Byte, b: Byte, c: Byte, d: Byte)
    ensures Xor(Xor(a, b), Xor(c, d)) == Xor(Xor(a, c), Xor(b, d))
  {
    hide Xor;
    XorAssociates(a, b, Xor(c, d));
    XorAssociates(b, c, d);
    XorCommutes(b, c);
    XorAssociates(c, b, d);
    XorAssociates(a, c, Xor(b, d));
  }

  lemma LeftAdds(x: Byte, y: Byte)
    ensures Left(Xor(x, y)) == Xor(Left(x), Left(y))
  {
  }

  lemma ReductionAdds(x: Byte, y: Byte)
    ensures Reduction(Xor(x, y)) == Xor(Reduction(x), Reduction(y))
  {
  }

  lemma Times2Adds(x: Byte, y: Byte)
    ensures Times2(Xor(x, y)) == Xor(Times2(x), Times2(y))
  {
    hide Xor, Left, Reduction;
    LeftAdds(x, y);
    ReductionAdds(x, y);
    Interchange(Left(x), Left(y), Reduction(x), Reduction(y));
  }

  lemma SumOfPairs(a: Byte, b: Byte, c: Byte, d: Byte, e: Byte, f: Byte)
    ensures Xor(Xor(a, b), Xor(c, d)) == Xor(Xor(a, c), Xor(b, d))
    ensures Xor3(Xor(a, b), Xor(c, d), Xor(e, f)) == Xor(Xor3(a, c, e), Xor3(b, d, f))
  {
    hide Xor;
    Interchange(a, b, c, d);
    Interchange(Xor(a, c), Xor(b, d), e, f);
  }

  lemma AddRows(a: Byte, b: Byte, c: Byte, d: Byte, a': Byte, b': Byte, c': Byte, d': Byte)
    ensures Xor(Xor4(a, b, c, d), Xor4(a', b', c', d')) == Xor4(Xor(a, a'), Xor(b, b'), Xor(c, c'), Xor(d, d'))
  {
    hide Xor;
    Interchange(Xor3(a, b, c), d, Xor3(a', b', c'), d');
    Interchange(Xor(a, b), c, Xor(a', b'), c');
    Interchange(a, b, a', b');
  }

  lemma Turn(a: Byte, b: Byte, c: Byte, d: Byte)
    ensures Xor4(b, c, d, a) == Xor4(a, b, c, d)
  {
    hide Xor;
    XorCommutes(Xor3(b, c, d), a);
    XorAssociates(Xor(b, c), d, a);
    XorAssociates(a, Xor(b, c), d);
    XorAssociates(a, b, c);
  }

  /** A sum of sixteen terms by rows and by columns. */
  lemma SumOfSums(a1: Byte, a2: Byte, a3: Byte, a4: Byte, b1: Byte, b2: Byte, b3: Byte, b4: Byte,
                  c1: Byte, c2: Byte, c3: Byte, c4: Byte, d1: Byte, d2: Byte, d3: Byte, d4: Byte)
    ensures Xor4(Xor4(a1, b1, c1, d1), Xor4(b2, c2, d2, a2), Xor4(c3, d3, a3, b3), Xor4(d4, a4, b4, c4))
            == Xor4(Xor4(a1, a2, a3, a4), Xor4(b1, b2, b3, b4), Xor4(c1, c2, c3, c4), Xor4(d1, d2, d3, d4))
  {
    hide Xor;
    Turn(a2, b2, c2, d2);
    Turn(a3, b3, c3, d3);
    Turn(b3, c3, d3, a3);
    Turn(a4, b4, c4, d4);
    Turn(b4, c4, d4, a4);
    Turn(c4, d4, a4, b4);
    AddRows(a1, b1, c1, d1, a2, b2, c2, d2);
    AddRows(Xor(a1, a2), Xor(b1, b2), Xor(c1, c2), Xor(d1, d2), a3, b3, c3, d3);
    AddRows(Xor3(a1, a2, a3), Xor3(b1, b2, b3), Xor3(c1, c2, c3), Xor3(d1, d2, d3), a4, b4, c4, d4);
  }

  // ----- Sums of x and its doubles -----

  /** Which of x, 2x, 4x, 8x and 16x are in a sum. */
  datatype Mask = Mask(b0: bool, b1: bool, b2: bool, b3: bool, b4: bool)

  function Sum(m: Mask, n: Mask): Mask { Mask(m.b0 != n.b0, m.b1 != n.b1, m.b2 != n.b2, m.b3 != n.b3, m.b4 != n.b4) }

  function Part(b: bool, v: Byte): Byte { if b then v else 0 }

  function Double(x: Byte, n: nat): Byte { if n == 0 then x else Times2(Double(x, n - 1)) }

  function Combination(m: Mask, x: Byte): Byte {
    Xor(Xor4(Part(m.b0, Double(x, 0)), Part(m.b1, Double(x, 1)), Part(m.b2, Double(x, 2)), Part(m.b3, Double(x, 3))),
        Part(m.b4, Double(x, 4)))
  }

  lemma PartsAdd(b: bool, c: bool, v: Byte)
    ensures Xor(Part(b, v), Part(c, v)) == Part(b != c, v)
  {
    hide Xor;
    XorCancels(v);
    XorCancels(0);
  }

  /** Adding two sums of doubles: what is in both cancels. */
  lemma CombinationsAdd(m: Mask, n: Mask, x: Byte)
    ensures Xor(Combination(m, x), Combination(n, x)) == Combination(Sum(m, n), x)
  {
    hide Xor, Xor4, Part, Double;
    var p0, p1, p2, p3, p4 := Double(x, 0), Double(x, 1), Double(x, 2), Double(x, 3), Double(x, 4);
    Interchange(Xor4(Part(m.b0, p0), Part(m.b1, p1), Part(m.b2, p2), Part(m.b3, p3)), Part(m.b4, p4),
                Xor4(Part(n.b0, p0), Part(n.b1, p1), Part(n.b2, p2), Part(n.b3, p3)), Part(n.b4, p4));
    AddRows(Part(m.b0, p0), Part(m.b1, p1), Part(m.b2, p2), Part(m.b3, p3), Part(n.b0, p0), Part(n.b1, p1),
            Part(n.b2, p2), Part(n.b3, p3));
    PartsAdd(m.b0, n.b0, p0);
    PartsAdd(m.b1, n.b1, p1);
    PartsAdd(m.b2, n.b2, p2);
    PartsAdd(m.b3, n.b3, p3);
    PartsAdd(m.b4, n.b4, p4);
  }

  function Only(n: nat): Mask { Mask(n == 0, n == 1, n == 2, n == 3, n == 4) }

  lemma OneDouble(n: nat, x: Byte)
    ensures n <= 4 ==> Combination(Only(n), x) == Double(x, n)
    ensures n > 4 ==> Combination(Only(n), x) == 0
  {
    hide Xor, Xor4, Double;
    if n <= 4 {
      Alone(Double(x, n));
    } else {
      Alone(0);
    }
  }

  lemma Alone(v: Byte)
    ensures Xor(Xor4(v, 0, 0, 0), 0) == v && Xor(Xor4(0, v, 0, 0), 0) == v && Xor(Xor4(0, 0, v, 0), 0) == v
    ensures Xor(Xor4(0, 0, 0, v), 0) == v && Xor(Xor4(0, 0, 0, 0), v) == v
  {
    hide Xor;
    XorCancels(0);
    XorCancels(v);
  }

  lemma TwoDoubles(m: nat, n: nat, x: Byte)
    requires m <= 4 && n <= 4
    ensures Xor(Double(x, m), Double(x, n)) == Combination(Sum(Only(m), Only(n)), x)
  {
    hide Xor, Combination, Double;
    OneDouble(m, x);
    OneDouble(n, x);
    CombinationsAdd(Only(m), Only(n), x);
  }

  lemma ThreeDoubles(m: nat, n: nat, k: nat, x: Byte)
    requires m <= 4 && n <= 4 && k <= 4
    ensures Xor3(Double(x, m), Double(x, n), Double(x, k)) == Combination(Sum(Sum(Only(m), Only(n)), Only(k)), x)
  {
    hide Xor, Combination, Double;
    TwoDoubles(m, n, x);
    OneDouble(k, x);
    CombinationsAdd(Sum(Only(m), Only(n)), Only(k), x);
  }

  lemma FourCombinations(m: Mask, n: Mask, k: Mask, l: Mask, x: Byte)
    ensures Xor4(Combination(m, x), Combination(n, x), Combination(k, x), Combination(l, x)) ==
            Combination(Sum(Sum(Sum(m, n), k), l), x)
  {
    hide Xor, Combination, Sum;
    CombinationsAdd(m, n, x);
    CombinationsAdd(Sum(m, n), k, x);
    CombinationsAdd(Sum(Sum(m, n), k), l, x);
  }

  /** Products by constants add. */
  lemma ProductsAdd(x: Byte, y: Byte)
    ensures Fe(Xor(x, y)) == Xor(Fe(x), Fe(y)) && Fb(Xor(x, y)) == Xor(Fb(x), Fb(y))
    ensures Fd(Xor(x, y)) == Xor(Fd(x), Fd(y)) && F9(Xor(x, y)) == Xor(F9(x), F9(y))
  {
    hide Times2, F2, F4, F8, Xor, Xor3;
    Times2Adds(x, y);
    Times2Adds(Times2(x), Times2(y));
    Times2Adds(Times4(x), Times4(y));
    SumOfPairs(F8(x), F8(y), F4(x), F4(y), F2(x), F2(y));
    SumOfPairs(F8(x), F8(y), F2(x), F2(y), x, y);
    SumOfPairs(F8(x), F8(y), F4(x), F4(y), x, y);
    SumOfPairs(F8(x), F8(y), x, y, x, y);
  }

  lemma ProductMasks(x: Byte)
    ensures Fe(x) == Combination(Mask(false, true, true, true, false), x)
    ensures Fb(x) == Combination(Mask(true, true, false, true, false), x)
    ensures Fd(x) == Combination(Mask(true, false, true, true, false), x)
    ensures F9(x) == Combination(Mask(true, false, false, true, false), x)
  {
    hide Combination, Times2, Xor;
    Doubles(x);
    ThreeDoubles(3, 2, 1, x);
    ThreeDoubles(3, 1, 0, x);
    ThreeDoubles(3, 2, 0, x);
    TwoDoubles(3, 0, x);
  }

  lemma DoubleMasks(x: Byte)
    ensures Fe(F2(x)) == Combination(Mask(false, false, true, true, true), x)
    ensures Fb(F2(x)) == Combination(Mask(false, true, true, false, true), x)
    ensures Fd(F2(x)) == Combination(Mask(false, true, false, true, true), x)
    ensures F9(F2(x)) == Combination(Mask(false, true, false, false, true), x)
  {
    hide Combination, Times2, Xor;
    Doubles(x);
    ThreeDoubles(4, 3, 2, x);
    ThreeDoubles(4, 2, 1, x);
    ThreeDoubles(4, 3, 1, x);
    TwoDoubles(4, 1, x);
  }

  lemma Doubles(x: Byte)
    ensures Double(x, 0) == x && Double(x, 1) == F2(x) && Double(x, 2) == F4(x) == F2(F2(x))
    ensures Double(x, 3) == F8(x) == F4(F2(x))
    ensures Double(x, 4) == F8(F2(x))
  {
    hide Times2, F2, F4, F8;
    assert Double(x, 2) == Times2(Double(x, 1));
    assert Double(x, 4) == Times2(Double(x, 3));
  }

  /**
   * The coefficients of the inverse matrix times those of the matrix of MixColumns: one on the diagonal, zero
   * elsewhere.
   */
  lemma MatrixProduct(x: Byte)
    ensures Xor4(Fe(F2(x)), Fb(x), Fd(x), F9(F3(x))) == x
    ensures Xor4(Fe(F3(x)), Fb(F2(x)), Fd(x), F9(x)) == 0
    ensures Xor4(Fe(x), Fb(F3(x)), Fd(F2(x)), F9(x)) == 0
    ensures Xor4(Fe(x), Fb(x), Fd(F3(x)), F9(F2(x))) == 0
  {
    hide F2, Fe, Fb, Fd, F9, Xor, Xor4, Combination, Double;
    ProductMasks(x);
    DoubleMasks(x);
    ProductsAdd(F2(x), x);
    var e, b, d, n := Mask(false, true, true, true, false), Mask(true, true, false, true, false),
                      Mask(true, false, true, true, false), Mask(true, false, false, true, false);
    var e2, b2, d2, n2 := Mask(false, false, true, true, true), Mask(false, true, true, false, true),
                          Mask(false, true, false, true, true), Mask(false, true, false, false, true);
    CombinationsAdd(e2, e, x);
    CombinationsAdd(b2, b, x);
    CombinationsAdd(d2, d, x);
    CombinationsAdd(n2, n, x);
    FourCombinations(e2, b, d, Sum(n2, n), x);
    FourCombinations(Sum(e2, e), b2, d, n, x);
    FourCombinations(e, Sum(b2, b), d2, n, x);
    FourCombinations(e, b, Sum(d2, d), n2, x);
    OneDouble(0, x);
    OneDouble(5, x);
    Doubles(x);
  }

  // ----- Columns -----

  /** One row of MixColumns, and of its inverse. */
  function MixRow(a: Byte, b: Byte, c: Byte, d: Byte): Byte { Xor4(F2(a), F3(b), c, d) }

  function InvMixRow(a: Byte, b: Byte, c: Byte, d: Byte): Byte { Xor4(Fe(a), Fb(b), Fd(c), F9(d)) }

  lemma FourTerms(p: Byte, q: Byte, r: Byte, s: Byte)
    ensures Fe(Xor4(p, q, r, s)) == Xor4(Fe(p), Fe(q), Fe(r), Fe(s))
    ensures Fb(Xor4(p, q, r, s)) == Xor4(Fb(p), Fb(q), Fb(r), Fb(s))
    ensures Fd(Xor4(p, q, r, s)) == Xor4(Fd(p), Fd(q), Fd(r), Fd(s))
    ensures F9(Xor4(p, q, r, s)) == Xor4(F9(p), F9(q), F9(r), F9(s))
  {
    hide Xor, Fe, Fb, Fd, F9;
    ProductsAdd(p, q);
    ProductsAdd(Xor(p, q), r);
    ProductsAdd(Xor3(p, q, r), s);
  }

  lemma OneLeft(a: Byte)
    ensures Xor4(a, 0, 0, 0) == a
  {
    hide Xor;
    XorCancels(a);
  }

  /** The inverse of MixColumns undoes it; the other rows are the same with the column turned. */
  lemma MixInverse(a: Byte, b: Byte, c: Byte, d: Byte)
    ensures InvMixRow(MixRow(a, b, c, d), MixRow(b, c, d, a), MixRow(c, d, a, b), MixRow(d, a, b, c)) == a
  {
    hide F2, F3, Fe, Fb, Fd, F9, Xor4;
    FourTerms(F2(a), F3(b), c, d);
    FourTerms(F2(b), F3(c), d, a);
    FourTerms(F2(c), F3(d), a, b);
    FourTerms(F2(d), F3(a), b, c);
    SumOfSums(Fe(F2(a)), Fb(a), Fd(a), F9(F3(a)), Fe(F3(b)), Fb(F2(b)), Fd(b), F9(b),
              Fe(c), Fb(F3(c)), Fd(F2(c)), F9(c), Fe(d), Fb(d), Fd(F3(d)), F9(F2(d)));
    MatrixProduct(a);
    MatrixProduct(b);
    MatrixProduct(c);
    MatrixProduct(d);
    OneLeft(a);
  }
}
