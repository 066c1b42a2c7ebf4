/**
 * gf_inv: the inverse in the field by the extended Euclidean algorithm on
 * polynomials, and the S-box without tables.
 */
module AesInverse {
  import opened AesField
  import opened AesProduct
  import opened AesSbox

  // ----- Degrees -----

  /** The degree of a polynomial other than zero. */
  function Deg(x: Byte): (d: nat)
    ensures d <= 7
  {
    if x >= 0x80 then 7 else if x >= 0x40 then 6 else if x >= 0x20 then 5 else if x >= 0x10 then 4
    else if x >= 8 then 3 else if x >= 4 then 2 else if x >= 2 then 1 else 0
  }

  function Shl(x: Byte, k: nat): Byte { if k == 0 then x else Left(Shl(x, k - 1)) }

  /** The power of two. */
  function Power(k: nat): Byte
    requires k <= 7
  {
    if k == 0 then 1 else if k == 1 then 2 else if k == 2 then 4 else if k == 3 then 8 else if k == 4 then 16
    else if k == 5 then 32 else if k == 6 then 64 else 128
  }

  /** hibit: the highest power in x, shifted right by one */
  function Hibit(x: Byte): (n: Byte)
    ensures n == if Deg(x) == 0 then 0 else Power(Deg(x) - 1)
  {
    var r := (x >> 1) | (x >> 2);
    var r2 := r | (r >> 2);
    var r3 := r2 | (r2 >> 4);
    (r3 + 1) >> 1
  }

  lemma LeftDegree(x: Byte)
    requires x != 0 && Deg(x) < 7
    ensures Left(x) != 0 && Deg(Left(x)) == Deg(x) + 1 && Times2(x) == Left(x) && x < 0x80
  {
  }

  lemma TopDegree(x: Byte)
    requires Deg(x) == 7
    ensures Times2(x) == Xor(0x1b, Left(x))
  {
  }

  /** Without a carry out of the byte, shifting is multiplying by a power of x. */
  lemma {:induction false} ShlDegree(x: Byte, k: nat)
    requires x != 0 && Deg(x) + k <= 7
    ensures Shl(x, k) != 0 && Deg(Shl(x, k)) == Deg(x) + k && Double(x, k) == Shl(x, k)
  {
    hide Deg, Left, Times2;
    if k > 0 {
      ShlDegree(x, k - 1);
      LeftDegree(Shl(x, k - 1));
    }
  }

  /** With a carry of the highest bit, the rest of the field polynomial is added. */
  lemma ShlTop(x: Byte, k: nat)
    requires x != 0 && Deg(x) + k == 8
    ensures Double(x, k) == Xor(0x1b, Shl(x, k))
  {
    hide Deg, Left, Times2, Xor;
    ShlDegree(x, k - 1);
    TopDegree(Shl(x, k - 1));
  }

  lemma SameDegree(a: Byte, b: Byte)
    requires a != 0 && b != 0 && Deg(a) == Deg(b) && Xor(a, b) != 0
    ensures Deg(Xor(a, b)) < Deg(a)
  {
  }

  lemma LargerDegree(a: Byte, b: Byte)
    requires b != 0 && (a == 0 || Deg(a) < Deg(b))
    ensures Xor(a, b) != 0 && Deg(Xor(a, b)) == Deg(b)
  {
  }

  // ----- Powers of two as numbers -----

  /** A product of numbers, cut to a byte. */
  function Times(x: Byte, n: Byte): Byte { x * n }

  predicate AtLeast(m: Byte, n: Byte) { m >= n }

  function Over(m: Byte, n: Byte): Byte
    requires n != 0
  {
    m / n
  }

  lemma PowersDivide(a: nat, b: nat)
    requires b <= a <= 7
    ensures Power(b) != 0 && Over(Power(a), Power(b)) == Power(a - b)
  {
  }

  lemma PowersOrdered(a: nat, b: nat)
    requires a <= 7 && b <= 7
    ensures Power(a) != 0 && (Power(a) <= Power(b) <==> a <= b)
  {
  }

  lemma {:induction false} TimesPower(x: Byte, k: nat)
    requires k <= 7
    ensures Times(x, Power(k)) == Shl(x, k)
  {
    hide Power, Left, Times;
    if k > 0 {
      TimesPower(x, k - 1);
      TimesTwice(x, Power(k - 1));
      PowerNext(k);
    } else {
      TimesOne(x);
    }
  }

  lemma TimesOne(x: Byte)
    ensures Times(x, Power(0)) == x
  {
  }

  lemma PowerNext(k: nat)
    requires 0 < k <= 7
    ensures Power(k) == Left(Power(k - 1))
  {
  }

  lemma TimesTwice(x: Byte, y: Byte)
    ensures Times(x, Left(y)) == Left(Times(x, y))
  {
  }

  // ----- The states of the algorithm -----

  /** One of the two polynomials, its multiplier, its degree, and half its highest power. */
  datatype Row = Row(p: Byte, v: Byte, n: Byte, d: nat)

  /** p is x times v in the field. */
  ghost predicate RowOk(x: Byte, r: Row) {
    r.p != 0 && r.v != 0 && r.d == Deg(r.p) && r.n == Hibit(r.p) && Product(x, r.v) == r.p
  }

  /** The field polynomial, of degree 8: its highest power does not fit in the byte. */
  predicate IsModulus(r: Row) { r == Row(0x1b, 0, 0x80, 8) }

  /** Before the row b is reduced by a. */
  ghost predicate Ready(x: Byte, a: Row, b: Row) {
    && RowOk(x, a) && (RowOk(x, b) || IsModulus(b))
    && a.d < b.d && Deg(a.v) + b.d == 8 && (b.v == 0 || Deg(b.v) < Deg(a.v))
  }

  /** After at least one step: the multiplier of b has the degree it will keep. */
  ghost predicate Reduced(x: Byte, a: Row, b: Row) {
    RowOk(x, a) && RowOk(x, b) && Deg(a.v) < Deg(b.v) && Deg(b.v) + a.d == 8 && Deg(a.v) + b.d < 8
  }

  /** b without its highest power: the multiple of a that has it is subtracted. */
  function Subtract(a: Row, b: Row): Row
    requires b.d >= a.d
  {
    var p := Xor(b.p, Shl(a.p, b.d - a.d));
    Row(p, Xor(b.v, Shl(a.v, b.d - a.d)), Hibit(p), Deg(p))
  }

  /** One step of the division. */
  lemma StepReduces(x: Byte, a: Row, b: Row)
    requires x != 0 && a.d >= 1 && a.d <= b.d && (Ready(x, a, b) || Reduced(x, a, b))
    ensures Reduced(x, a, Subtract(a, b)) && Subtract(a, b).d < b.d
  {
    hide Product, Xor, Deg, Hibit, Shl;
    var k := b.d - a.d;
    StepMultiplier(x, a, b);
    StepMultiple(x, a, b);
    var c := Subtract(a, b);
    if c.p == 0 {
      NoProductIsZero(x, c.v);
    }
    StepDegree(a, b);
  }

  /** The first step gives the multiplier its degree, the others leave it. */
  lemma StepMultiplier(x: Byte, a: Row, b: Row)
    requires a.d >= 1 && a.d <= b.d && (Ready(x, a, b) || Reduced(x, a, b))
    ensures Subtract(a, b).v != 0 && Deg(Subtract(a, b).v) + a.d == 8
    ensures Deg(a.v) < Deg(Subtract(a, b).v) && Deg(a.v) + b.d <= 8
  {
    hide Product, Xor, Deg, Hibit, Shl;
    var k := b.d - a.d;
    ShlDegree(a.v, k);
    if Ready(x, a, b) {
      LargerDegree(b.v, Shl(a.v, k));
    } else {
      LargerDegree(Shl(a.v, k), b.v);
      XorCommutes(b.v, Shl(a.v, k));
    }
  }

  lemma StepDegree(a: Row, b: Row)
    requires a.p != 0 && a.d == Deg(a.p) <= b.d && (b.d == 8 || (b.p != 0 && b.d == Deg(b.p)))
    ensures Subtract(a, b).p != 0 ==> Subtract(a, b).d < b.d
  {
    hide Xor, Deg, Hibit, Shl;
    var k := b.d - a.d;
    if b.d < 8 && Subtract(a, b).p != 0 {
      ShlDegree(a.p, k);
      SameDegree(b.p, Shl(a.p, k));
    }
  }

  /** The new polynomial is x times the new multiplier. */
  lemma StepMultiple(x: Byte, a: Row, b: Row)
    requires RowOk(x, a) && (RowOk(x, b) || IsModulus(b)) && a.d <= b.d && Deg(a.v) + b.d - a.d <= 7
    ensures Product(x, Subtract(a, b).v) == Subtract(a, b).p
  {
    hide Product, Xor, Deg, Hibit, Shl, Double;
    var k := b.d - a.d;
    ShlDegree(a.v, k);
    ProductDouble(x, a.v, k);
    ProductAdds(x, b.v, Shl(a.v, k));
    if IsModulus(b) {
      ShlTop(a.p, k);
      ProductZero(x);
      XorCancels(Shl(a.v, k));
      XorCancels(Product(x, Shl(a.v, k)));
    } else {
      ShlDegree(a.p, k);
    }
  }

  // ----- The numbers the loops compare and divide -----

  /** Comparing, dividing and multiplying by the highest powers works on degrees and multiples. */
  lemma StepNumbers(a: Row, b: Row)
    requires 1 <= a.d <= 7 && b.d <= 8 && a.n == Power(a.d - 1) && b.n == if b.d == 0 then 0 else Power(b.d - 1)
    ensures a.n != 0 && (b.n >= a.n <==> b.d >= a.d)
    ensures b.d >= a.d ==>
              var q := Over(b.n, a.n);
              Times(a.p, q) == Shl(a.p, b.d - a.d) && Times(a.v, q) == Shl(a.v, b.d - a.d)
  {
    hide Power, Times, Over, Shl;
    if b.d > 0 {
      PowersOrdered(a.d - 1, b.d - 1);
      if b.d >= a.d {
        PowersDivide(b.d - 1, a.d - 1);
        TimesPower(a.p, b.d - a.d);
        TimesPower(a.v, b.d - a.d);
      }
    } else {
      PowersOrdered(a.d - 1, a.d - 1);
    }
  }

  lemma RowNumber(x: Byte, r: Row)
    requires RowOk(x, r) || IsModulus(r)
    ensures r.d <= 8 && (RowOk(x, r) ==> r.d <= 7) && r.n == if r.d == 0 then 0 else Power(r.d - 1)
    ensures r.n == 0 <==> r.d == 0
  {
    hide Product, Hibit;
  }

  // ----- gf_inv -----

  lemma OneLeft(x: Byte, r: Row)
    requires x != 0 && RowOk(x, r) && r.d == 0
    ensures r.v == Inverse(x)
  {
    hide Product, Inverse, Hibit;
    DegreeZero(r.p);
    OnlyInverse(x, r.v);
  }

  lemma DegreeZero(p: Byte)
    requires p != 0 && Deg(p) == 0
    ensures p == 1
  {
  }

  lemma AtStart(x: Byte)
    requires x >= 2
    ensures Ready(x, Row(x, 1, Hibit(x), Deg(x)), Row(0x1b, 0, 0x80, 8))
  {
    hide Product, Hibit;
    ProductOne(x);
  }

  lemma SmallInverses()
    ensures Inverse(0) == 0 && Inverse(1) == 1
  {
    hide Product, Inverse;
    InverseOf(0);
    ProductOne(1);
    OnlyInverse(1, 1);
  }

  /** One of the two inner loops: it divides the second polynomial by the first as long as it can. */
  method Divide(p1: Byte, n1: Byte, v1: Byte, p2: Byte, n2: Byte, v2: Byte, ghost a: Row, ghost b: Row, ghost x: Byte)
    returns (p: Byte, n: Byte, v: Byte, ghost c: Row)
    requires x != 0 && Ready(x, a, b) && a.d >= 1
    requires a == Row(p1, v1, n1, a.d) && b == Row(p2, v2, n2, b.d)
    ensures Reduced(x, a, c) && c.d < a.d < b.d && c == Row(p, v, n, c.d)
  {
    hide *;
    p, n, v, c := p2, n2, v2, b;
    RowsCompare(x, a, b);
    while AtLeast(n, n1)
      invariant c == Row(p, v, n, c.d) && (Ready(x, a, c) || Reduced(x, a, c))
      invariant n1 != 0 && (AtLeast(n, n1) <==> c.d >= a.d)
      decreases c.d
    {
      OneStep(x, a, c);
      n := Over(n, n1);
      p, v := Xor(p, Times(p1, n)), Xor(v, Times(v1, n));
      n := Hibit(p);
      c := Subtract(a, c);
      RowsCompare(x, a, c);
    }
    NotReady(x, a, c);
  }

  lemma RowsCompare(x: Byte, a: Row, b: Row)
    requires (Ready(x, a, b) || Reduced(x, a, b)) && a.d >= 1
    ensures a.n != 0 && (AtLeast(b.n, a.n) <==> b.d >= a.d) && (Ready(x, a, b) ==> a.d < b.d)
  {
    hide Ready, Reduced, Power, RowOk;
    BothRows(x, a, b);
    StepNumbers(a, b);
  }

  lemma OneStep(x: Byte, a: Row, b: Row)
    requires (Ready(x, a, b) || Reduced(x, a, b)) && a.d >= 1 && b.d >= a.d && x != 0 && a.n != 0
    ensures Reduced(x, a, Subtract(a, b)) && Subtract(a, b).d < b.d
    ensures var q := Over(b.n, a.n);
            var p := Xor(b.p, Times(a.p, q));
            Subtract(a, b) == Row(p, Xor(b.v, Times(a.v, q)), Hibit(p), Subtract(a, b).d)
  {
    hide Ready, Reduced, Times, Over, Shl, Xor, Power, RowOk, Hibit;
    BothRows(x, a, b);
    StepNumbers(a, b);
    StepReduces(x, a, b);
  }

  lemma NotReady(x: Byte, a: Row, b: Row)
    requires b.d < a.d
    ensures !Ready(x, a, b)
  {
  }

  lemma BothRows(x: Byte, a: Row, b: Row)
    requires Ready(x, a, b) || Reduced(x, a, b)
    ensures RowOk(x, a) && a.d <= 7 && b.d <= 8 && (Ready(x, a, b) ==> a.d < b.d)
    ensures a.n == if a.d == 0 then 0 else Power(a.d - 1)
    ensures b.n == if b.d == 0 then 0 else Power(b.d - 1)
    ensures a.n == 0 <==> a.d == 0
  {
    hide RowOk, Power;
    RowNumber(x, a);
    RowNumber(x, b);
  }

  lemma Turned(x: Byte, a: Row, b: Row)
    requires Reduced(x, a, b) && b.d < a.d
    ensures Ready(x, b, a)
  {
    hide Product, Deg, Hibit;
  }

  /** gf_inv: the inverse in the field, and 0 for 0. */
  method GfInv(x: Byte) returns (r: Byte)
    ensures r == Inverse(x)
  {
    hide Ready, Reduced, Product, Inverse, RowOk, Hibit, Deg;
    var p1, p2, n1, n2, v1, v2 := x, 0x1b, Hibit(x), 0x80, 1, 0;
    SmallInverses();
    if x < 2 {
      return x;
    }
    ghost var a, b := Row(x, 1, Hibit(x), Deg(x)), Row(0x1b, 0, 0x80, 8);
    AtStart(x);
    while true
      invariant Ready(x, a, b) && a == Row(p1, v1, n1, a.d) && b == Row(p2, v2, n2, b.d)
      decreases a.d + b.d
    {
      BothRows(x, a, b);
      if n1 == 0 {
        OneLeft(x, a);
        return v1;
      }
      p2, n2, v2, b := Divide(p1, n1, v1, p2, n2, v2, a, b, x);
      Turned(x, a, b);
      BothRows(x, b, a);
      if n2 == 0 {
        OneLeft(x, b);
        return v2;
      }
      p1, n1, v1, a := Divide(p2, n2, v2, p1, n1, v1, b, a, x);
      Turned(x, b, a);
    }
  }

  // ----- The S-box without tables -----

  /** s_box */
  method SBox(x: Byte) returns (y: Byte)
    ensures y == Sbox(x)
  {
    hide Sbox, FwdAffine, Inverse;
    var i := GfInv(x);
    y := FwdAffine(i);
    SboxIsAffine(x);
  }

  /** is_box */
  method IsBox(y: Byte) returns (x: Byte)
    ensures x == InvSbox(y)
  {
    hide Sbox, InvSbox, FwdAffine, InvAffine, Inverse;
    x := GfInv(InvAffine(y));
    InverseTwice(InvAffine(y));
    SboxIsAffine(x);
    AffineInverse(y);
    SboxInverse(x);
  }

  lemma InverseTwice(x: Byte)
    ensures Inverse(Inverse(x)) == x
  {
    hide Inverse;
    if x == 0 {
      SmallInverses();
    } else {
      InverseLeft(x);
    }
  }
}
