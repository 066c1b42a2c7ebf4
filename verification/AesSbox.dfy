/** The substitution table as the inverse in the field followed by an affine map. */
module AesSbox {
  import opened AesField
  import opened AesProduct

  /** fwd_affine, in 16 bits */
  function FwdAffine(x: Byte): Byte {
    var u := x as bv16;
    var w := u ^ (u << 1) ^ (u << 2) ^ (u << 3) ^ (u << 4);
    0x63 ^ (((w ^ (w >> 8)) & 0xff) as Byte)
  }

  /** inv_affine, in 16 bits */
  function InvAffine(x: Byte): Byte {
    var u := x as bv16;
    var w := (u << 1) ^ (u << 3) ^ (u << 6);
    0x05 ^ (((w ^ (w >> 8)) & 0xff) as Byte)
  }

  lemma AffineInverse(x: Byte)
    ensures FwdAffine(InvAffine(x)) == x && InvAffine(FwdAffine(x)) == x
  {
  }

  /** The inverse in the field that the affine map turns into the table's entry; 0 for 0. */
  function Inverse(x: Byte): Byte { InvAffine(Sbox(x)) }

  /** Section 5.1.1 of FIPS 197: every entry is the affine map of the inverse. */
  lemma SboxIsAffine(x: Byte)
    ensures Sbox(x) == FwdAffine(Inverse(x))
    ensures if x == 0 then Inverse(x) == 0 else Product(x, Inverse(x)) == 1
  {
    hide Sbox, FwdAffine, InvAffine, Product;
    AffineInverse(Sbox(x));
    InverseOf(x);
  }

  lemma InverseOf(x: Byte)
    ensures if x == 0 then Inverse(x) == 0 else Product(x, Inverse(x)) == 1
  {
    hide Sbox, InvAffine, Product, FlatProduct, Inverse;
    FlatIs(x, Inverse(x));
    if x == 0 {
      InverseOfZero();
    } else if x < 0x20 {
      InverseRows0(x);
    } else if x < 0x40 {
      InverseRows2(x);
    } else if x < 0x60 {
      InverseRows4(x);
    } else if x < 0x80 {
      InverseRows6(x);
    } else if x < 0xa0 {
      InverseRows8(x);
    } else if x < 0xc0 {
      InverseRows10(x);
    } else if x < 0xe0 {
      InverseRows12(x);
    } else {
      InverseRows14(x);
    }
  }

  lemma InverseOfZero()
    ensures Inverse(0) == 0
  {
  }

  lemma InverseRows0(x: Byte)
    requires 0 < x < 0x20
    ensures FlatProduct(x, Inverse(x)) == 1
  {
  }

  lemma InverseRows2(x: Byte)
    requires 0x20 <= x < 0x40
    ensures FlatProduct(x, Inverse(x)) == 1
  {
  }

  lemma InverseRows4(x: Byte)
    requires 0x40 <= x < 0x60
    ensures FlatProduct(x, Inverse(x)) == 1
  {
  }

  lemma InverseRows6(x: Byte)
    requires 0x60 <= x < 0x80
    ensures FlatProduct(x, Inverse(x)) == 1
  {
  }

  lemma InverseRows8(x: Byte)
    requires 0x80 <= x < 0xa0
    ensures FlatProduct(x, Inverse(x)) == 1
  {
  }

  lemma InverseRows10(x: Byte)
    requires 0xa0 <= x < 0xc0
    ensures FlatProduct(x, Inverse(x)) == 1
  {
  }

  lemma InverseRows12(x: Byte)
    requires 0xc0 <= x < 0xe0
    ensures FlatProduct(x, Inverse(x)) == 1
  {
  }

  lemma InverseRows14(x: Byte)
    requires 0xe0 <= x
    ensures FlatProduct(x, Inverse(x)) == 1
  {
  }

  /** It is an inverse from the left too: the inverse of the inverse is the element itself. */
  lemma InverseLeft(x: Byte)
    requires x != 0
    ensures Product(Inverse(x), x) == 1 && Inverse(Inverse(x)) == x
  {
    hide Product, Inverse;
    var y := Inverse(x);
    InverseOf(x);
    ProductZero(x);
    InverseOf(y);
    ProductAssociates(x, y, Inverse(y));
    ProductOne(x);
    ProductOne(Inverse(y));
  }

  /** There is no other inverse. */
  lemma OnlyInverse(x: Byte, y: Byte)
    requires x != 0 && Product(x, y) == 1
    ensures y == Inverse(x)
  {
    hide Product, Inverse;
    InverseLeft(x);
    ProductAssociates(Inverse(x), x, y);
    ProductOne(y);
    ProductOne(Inverse(x));
  }

  /** A product is only zero if a factor is. */
  lemma NoProductIsZero(x: Byte, y: Byte)
    requires Product(x, y) == 0 && x != 0
    ensures y == 0
  {
    hide Product, Inverse;
    InverseLeft(x);
    ProductAssociates(Inverse(x), x, y);
    ProductZero(Inverse(x));
    ProductOne(y);
  }
}
