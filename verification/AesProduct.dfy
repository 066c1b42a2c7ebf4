/** The product in the field of the AES: section 4.2 of FIPS 197. */
module AesProduct {
  import opened AesField

  /** A term of a product: v when the bit of b is set. */
  function Term(b: Byte, bit: Byte, v: Byte): Byte { if b & bit != 0 then v else 0 }

  /** A sum of eight terms. */
  function Xor8(a: Byte, b: Byte, c: Byte, d: Byte, e: Byte, f: Byte, g: Byte, h: Byte): Byte {
    Xor(Xor4(a, b, c, d), Xor4(e, f, g, h))
  }

  /** The sum of the multiples of a by the powers of x that b has. */
  function Product(a: Byte, b: Byte): Byte {
    Xor8(Term(b, 1, Double(a, 0)), Term(b, 2, Double(a, 1)), Term(b, 4, Double(a, 2)), Term(b, 8, Double(a, 3)),
         Term(b, 16, Double(a, 4)), Term(b, 32, Double(a, 5)), Term(b, 64, Double(a, 6)), Term(b, 128, Double(a, 7)))
  }

  /** The product with the doublings written out. */
  function FlatProduct(a: Byte, b: Byte): Byte {
    var a8 := Times8(a);
    Xor8(Term(b, 1, a), Term(b, 2, Times2(a)), Term(b, 4, Times4(a)), Term(b, 8, a8),
         Term(b, 16, Times2(a8)), Term(b, 32, Times4(a8)), Term(b, 64, Times8(a8)), Term(b, 128, Times8(Times2(a8))))
  }

  lemma FlatIs(a: Byte, b: Byte)
    ensures FlatProduct(a, b) == Product(a, b)
  {
    hide Times2, Term, Xor8, Double;
    FlatDoubles(a);
  }

  lemma FlatDoubles(a: Byte)
    ensures Double(a, 0) == a && Double(a, 1) == Times2(a) && Double(a, 2) == Times4(a) && Double(a, 3) == Times8(a)
    ensures Double(a, 4) == Times2(Times8(a)) && Double(a, 5) == Times4(Times8(a))
    ensures Double(a, 6) == Times8(Times8(a)) && Double(a, 7) == Times2(Times8(Times8(a)))
  {
    hide Times2;
    assert Double(a, 2) == Times2(Double(a, 1));
    assert Double(a, 4) == Times2(Double(a, 3));
    assert Double(a, 6) == Times2(Double(a, 5));
  }

  lemma TermAdds(b: Byte, c: Byte, bit: Byte, v: Byte)
    requires bit == 1 || bit == 2 || bit == 4 || bit == 8 || bit == 16 || bit == 32 || bit == 64 || bit == 128
    ensures Term(Xor(b, c), bit, v) == Xor(Term(b, bit, v), Term(c, bit, v))
  {
    hide Xor;
    BitAdds(b, c, bit);
    XorCancels(v);
    XorCancels(0);
  }

  lemma BitAdds(b: Byte, c: Byte, bit: Byte)
    requires bit == 1 || bit == 2 || bit == 4 || bit == 8 || bit == 16 || bit == 32 || bit == 64 || bit == 128
    ensures Xor(b, c) & bit != 0 <==> (b & bit != 0) != (c & bit != 0)
  {
  }

  lemma AddEights(a: Byte, b: Byte, c: Byte, d: Byte, e: Byte, f: Byte, g: Byte, h: Byte, a': Byte, b': Byte, c': Byte,
                  d': Byte, e': Byte, f': Byte, g': Byte, h': Byte)
    ensures Xor(Xor8(a, b, c, d, e, f, g, h), Xor8(a', b', c', d', e', f', g', h')) ==
            Xor8(Xor(a, a'), Xor(b, b'), Xor(c, c'), Xor(d, d'), Xor(e, e'), Xor(f, f'), Xor(g, g'), Xor(h, h'))
  {
    hide Xor, Xor4;
    AddRows(a, b, c, d, a', b', c', d');
    AddRows(e, f, g, h, e', f', g', h');
    Interchange(Xor4(a, b, c, d), Xor4(e, f, g, h), Xor4(a', b', c', d'), Xor4(e', f', g', h'));
  }

  lemma ProductAdds(a: Byte, b: Byte, c: Byte)
    ensures Product(a, Xor(b, c)) == Xor(Product(a, b), Product(a, c))
  {
    hide Term, Xor, Xor8, Double;
    TermAdds(b, c, 1, Double(a, 0));
    TermAdds(b, c, 2, Double(a, 1));
    TermAdds(b, c, 4, Double(a, 2));
    TermAdds(b, c, 8, Double(a, 3));
    TermAdds(b, c, 16, Double(a, 4));
    TermAdds(b, c, 32, Double(a, 5));
    TermAdds(b, c, 64, Double(a, 6));
    TermAdds(b, c, 128, Double(a, 7));
    AddEights(Term(b, 1, Double(a, 0)), Term(b, 2, Double(a, 1)), Term(b, 4, Double(a, 2)), Term(b, 8, Double(a, 3)),
              Term(b, 16, Double(a, 4)), Term(b, 32, Double(a, 5)), Term(b, 64, Double(a, 6)),
              Term(b, 128, Double(a, 7)),
              Term(c, 1, Double(a, 0)), Term(c, 2, Double(a, 1)), Term(c, 4, Double(a, 2)), Term(c, 8, Double(a, 3)),
              Term(c, 16, Double(a, 4)), Term(c, 32, Double(a, 5)), Term(c, 64, Double(a, 6)),
              Term(c, 128, Double(a, 7)));
  }

  lemma ProductZero(a: Byte)
    ensures Product(a, 0) == 0
  {
    hide Double;
  }

  lemma ProductOne(a: Byte)
    ensures Product(a, 1) == a && Product(1, a) == a
  {
    OneTimes(a);
    assert Double(a, 0) == a;
  }

  lemma OneTimes(a: Byte)
    ensures Product(1, a) == a
  {
    assert Double(1, 2) == 4;
    assert Double(1, 4) == 16;
    assert Double(1, 6) == 64;
  }

  // ----- Multiplying a factor by x -----

  lemma Times2Zero()
    ensures Times2(0) == 0
  {
  }

  lemma Times2Term(b: Byte, bit: Byte, v: Byte)
    ensures Times2(Term(b, bit, v)) == Term(b, bit, Times2(v))
  {
    hide Times2;
    Times2Zero();
  }

  lemma Times2Sum(a: Byte, b: Byte, c: Byte, d: Byte, e: Byte, f: Byte, g: Byte, h: Byte)
    ensures Times2(Xor8(a, b, c, d, e, f, g, h)) ==
            Xor8(Times2(a), Times2(b), Times2(c), Times2(d), Times2(e), Times2(f), Times2(g), Times2(h))
  {
    hide Times2, Xor;
    Times2Adds(Xor4(a, b, c, d), Xor4(e, f, g, h));
    Times2Adds(Xor3(a, b, c), d);
    Times2Adds(Xor(a, b), c);
    Times2Adds(a, b);
    Times2Adds(Xor3(e, f, g), h);
    Times2Adds(Xor(e, f), g);
    Times2Adds(e, f);
  }

  /** Twice the product, term by term. */
  lemma Times2Product(a: Byte, b: Byte)
    ensures Times2(Product(a, b)) ==
            Xor8(Term(b, 1, Double(a, 1)), Term(b, 2, Double(a, 2)), Term(b, 4, Double(a, 3)), Term(b, 8, Double(a, 4)),
                 Term(b, 16, Double(a, 5)), Term(b, 32, Double(a, 6)), Term(b, 64, Double(a, 7)),
                 Term(b, 128, Double(a, 8)))
  {
    hide Times2, Xor8, Term, Double;
    NextDoubles(a);
    Times2Term(b, 1, Double(a, 0));
    Times2Term(b, 2, Double(a, 1));
    Times2Term(b, 4, Double(a, 2));
    Times2Term(b, 8, Double(a, 3));
    Times2Term(b, 16, Double(a, 4));
    Times2Term(b, 32, Double(a, 5));
    Times2Term(b, 64, Double(a, 6));
    Times2Term(b, 128, Double(a, 7));
    Times2Sum(Term(b, 1, Double(a, 0)), Term(b, 2, Double(a, 1)), Term(b, 4, Double(a, 2)), Term(b, 8, Double(a, 3)),
              Term(b, 16, Double(a, 4)), Term(b, 32, Double(a, 5)), Term(b, 64, Double(a, 6)),
              Term(b, 128, Double(a, 7)));
  }

  lemma NextDoubles(a: Byte)
    ensures forall n: nat :: n < 8 ==> Double(a, n + 1) == Times2(Double(a, n))
  {
    hide Times2;
  }

  /** The bits of Left(b) are those of b, one place higher. */
  lemma LeftTerms(b: Byte, v: Byte)
    ensures Term(Left(b), 1, v) == 0 && Term(Left(b), 2, v) == Term(b, 1, v) && Term(Left(b), 4, v) == Term(b, 2, v)
    ensures Term(Left(b), 8, v) == Term(b, 4, v) && Term(Left(b), 16, v) == Term(b, 8, v)
    ensures Term(Left(b), 32, v) == Term(b, 16, v) && Term(Left(b), 64, v) == Term(b, 32, v)
    ensures Term(Left(b), 128, v) == Term(b, 64, v)
  {
  }

  lemma Rotated(b: Byte, c: Byte, d: Byte, e: Byte, f: Byte, g: Byte, h: Byte, last: Byte)
    ensures Xor8(b, c, d, e, f, g, h, last) == Xor(Xor8(0, b, c, d, e, f, g, h), last)
  {
    hide Xor;
    var x, y := Xor3(b, c, d), Xor3(f, g, h);
    XorCancels(b);
    XorAssociates(e, Xor(f, g), h);
    XorAssociates(e, f, g);
    XorAssociates(x, e, y);
    XorAssociates(Xor(x, e), y, last);
  }

  /** Shifting the second factor doubles the product, but for the bit that is shifted out. */
  lemma ProductLeft(a: Byte, b: Byte)
    ensures Times2(Product(a, b)) == Xor(Product(a, Left(b)), Term(b, 128, Double(a, 8)))
  {
    hide Times2, Xor, Xor8, Term, Left, Double;
    Times2Product(a, b);
    LeftTerms(b, Double(a, 0));
    LeftTerms(b, Double(a, 1));
    LeftTerms(b, Double(a, 2));
    LeftTerms(b, Double(a, 3));
    LeftTerms(b, Double(a, 4));
    LeftTerms(b, Double(a, 5));
    LeftTerms(b, Double(a, 6));
    LeftTerms(b, Double(a, 7));
    Rotated(Term(b, 1, Double(a, 1)), Term(b, 2, Double(a, 2)), Term(b, 4, Double(a, 3)), Term(b, 8, Double(a, 4)),
            Term(b, 16, Double(a, 5)), Term(b, 32, Double(a, 6)), Term(b, 64, Double(a, 7)),
            Term(b, 128, Double(a, 8)));
  }

  /** x to the eighth is the rest of the field polynomial. */
  lemma EighthDouble(a: Byte)
    ensures Double(a, 8) == Product(a, 0x1b)
  {
    hide Times2;
    SumOfFour(Double(a, 0), Double(a, 1), Double(a, 3), Double(a, 4));
    EightTimes(a);
    assert Double(a, 2) == Times2(Double(a, 1));
    assert Double(a, 4) == Times2(Double(a, 3));
    assert Double(a, 6) == Times2(Double(a, 5));
    assert Double(a, 8) == Times2(Double(a, 7));
  }

  lemma SumOfFour(p: Byte, q: Byte, r: Byte, s: Byte)
    ensures Xor8(p, q, 0, r, s, 0, 0, 0) == Xor4(p, q, r, s)
  {
  }

  lemma EightTimes(a: Byte)
    ensures Times8(Times8(Times4(a))) == Xor4(a, Times2(a), Times8(a), Times2(Times8(a)))
  {
  }

  /** Doubling the second factor doubles the product. */
  lemma ProductTimes2(a: Byte, b: Byte)
    ensures Product(a, Times2(b)) == Times2(Product(a, b))
  {
    hide Xor, Product, Double, Left;
    ProductLeft(a, b);
    ProductAdds(a, Left(b), Reduction(b));
    EighthDouble(a);
    ProductZero(a);
  }

  lemma {:induction false} ProductDouble(a: Byte, b: Byte, n: nat)
    ensures Product(a, Double(b, n)) == Double(Product(a, b), n)
  {
    hide Product, Times2;
    if n > 0 {
      ProductDouble(a, b, n - 1);
      ProductTimes2(a, Double(b, n - 1));
    }
  }

  // ----- The product is associative -----

  lemma ProductSum(a: Byte, b: Byte, c: Byte, d: Byte, e: Byte, f: Byte, g: Byte, h: Byte, i: Byte)
    ensures Product(a, Xor8(b, c, d, e, f, g, h, i)) ==
            Xor8(Product(a, b), Product(a, c), Product(a, d), Product(a, e), Product(a, f), Product(a, g),
                 Product(a, h), Product(a, i))
  {
    hide Product, Xor;
    ProductAdds(a, Xor4(b, c, d, e), Xor4(f, g, h, i));
    ProductAdds(a, Xor3(b, c, d), e);
    ProductAdds(a, Xor(b, c), d);
    ProductAdds(a, b, c);
    ProductAdds(a, Xor3(f, g, h), i);
    ProductAdds(a, Xor(f, g), h);
    ProductAdds(a, f, g);
  }

  lemma ProductTerm(a: Byte, b: Byte, c: Byte, bit: Byte, n: nat)
    ensures Product(a, Term(c, bit, Double(b, n))) == Term(c, bit, Double(Product(a, b), n))
  {
    hide Product, Double;
    ProductZero(a);
    ProductDouble(a, b, n);
  }

  lemma ProductAssociates(a: Byte, b: Byte, c: Byte)
    ensures Product(a, Product(b, c)) == Product(Product(a, b), c)
  {
    hide Xor8, Term, Double, Product;
    ProductIs(b, c);
    ProductIs(Product(a, b), c);
    ProductTerm(a, b, c, 1, 0);
    ProductTerm(a, b, c, 2, 1);
    ProductTerm(a, b, c, 4, 2);
    ProductTerm(a, b, c, 8, 3);
    ProductTerm(a, b, c, 16, 4);
    ProductTerm(a, b, c, 32, 5);
    ProductTerm(a, b, c, 64, 6);
    ProductTerm(a, b, c, 128, 7);
    ProductSum(a, Term(c, 1, Double(b, 0)), Term(c, 2, Double(b, 1)), Term(c, 4, Double(b, 2)),
               Term(c, 8, Double(b, 3)), Term(c, 16, Double(b, 4)), Term(c, 32, Double(b, 5)),
               Term(c, 64, Double(b, 6)), Term(c, 128, Double(b, 7)));
  }

  lemma ProductIs(a: Byte, b: Byte)
    ensures Product(a, b) ==
            Xor8(Term(b, 1, Double(a, 0)), Term(b, 2, Double(a, 1)), Term(b, 4, Double(a, 2)), Term(b, 8, Double(a, 3)),
                 Term(b, 16, Double(a, 4)), Term(b, 32, Double(a, 5)), Term(b, 64, Double(a, 6)),
                 Term(b, 128, Double(a, 7)))
  {
    hide Xor8, Term, Double;
  }

  // ----- The columns -----

  /**
   * MixColumns multiplies a column, as a polynomial with coefficients in the
   * field, by 3x^3 + x^2 + x + 2, and its inverse by 11x^3 + 13x^2 + 9x + 14:
   * sections 5.1.3 and 5.3.3 of FIPS 197.
   */
  lemma MixCoefficients(a: Byte, b: Byte, c: Byte, d: Byte)
    ensures MixRow(a, b, c, d) == Xor4(Product(a, 2), Product(b, 3), c, d)
    ensures InvMixRow(a, b, c, d) == Xor4(Product(a, 14), Product(b, 11), Product(c, 13), Product(d, 9))
  {
    hide Product, F2, F3, Fe, Fb, Fd, F9, Xor4;
    Multiples(a);
    Multiples(b);
    Multiples(c);
    Multiples(d);
  }

  lemma Multiples(a: Byte)
    ensures F2(a) == Product(a, 2) && F3(a) == Product(a, 3)
    ensures Fe(a) == Product(a, 14) && Fb(a) == Product(a, 11) && Fd(a) == Product(a, 13) && F9(a) == Product(a, 9)
  {
    hide F2, F4, F8, Times2, Xor8;
    FlatDoubles(a);
    SmallProducts(a);
    FewTerms(a, F2(a), F4(a), F8(a));
  }

  lemma SmallProducts(a: Byte)
    ensures Product(a, 2) == Xor8(0, Double(a, 1), 0, 0, 0, 0, 0, 0)
    ensures Product(a, 3) == Xor8(Double(a, 0), Double(a, 1), 0, 0, 0, 0, 0, 0)
    ensures Product(a, 14) == Xor8(0, Double(a, 1), Double(a, 2), Double(a, 3), 0, 0, 0, 0)
    ensures Product(a, 11) == Xor8(Double(a, 0), Double(a, 1), 0, Double(a, 3), 0, 0, 0, 0)
    ensures Product(a, 13) == Xor8(Double(a, 0), 0, Double(a, 2), Double(a, 3), 0, 0, 0, 0)
    ensures Product(a, 9) == Xor8(Double(a, 0), 0, 0, Double(a, 3), 0, 0, 0, 0)
  {
    hide Double, Xor8;
  }

  lemma FewTerms(x: Byte, y: Byte, z: Byte, u: Byte)
    ensures Xor8(0, y, 0, 0, 0, 0, 0, 0) == y && Xor8(x, y, 0, 0, 0, 0, 0, 0) == Xor(y, x)
    ensures Xor8(0, y, z, u, 0, 0, 0, 0) == Xor3(u, z, y) && Xor8(x, y, 0, u, 0, 0, 0, 0) == Xor3(u, y, x)
    ensures Xor8(x, 0, z, u, 0, 0, 0, 0) == Xor3(u, z, x) && Xor8(x, 0, 0, u, 0, 0, 0, 0) == Xor(u, x)
  {
    hide Xor;
    XorCancels(0);
    XorCancels(x);
    XorCancels(y);
    XorCancels(Xor(x, y));
    XorCommutes(x, y);
    XorCommutes(x, u);
    Reversed(y, z, u);
    Reversed(x, y, u);
    Reversed(x, z, u);
    XorCancels(Xor3(u, z, y));
    XorCancels(Xor3(u, y, x));
    XorCancels(Xor3(u, z, x));
    XorCancels(Xor(u, x));
  }

  lemma Reversed(x: Byte, y: Byte, z: Byte)
    ensures Xor3(x, y, z) == Xor3(z, y, x)
  {
    hide Xor;
    XorCommutes(x, y);
    XorCommutes(Xor(x, y), z);
    XorAssociates(z, y, x);
  }
}
