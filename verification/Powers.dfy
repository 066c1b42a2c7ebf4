/**
 * C's shifts on unsigned values, one bit at a time: `x << n` is `x * Pow2(n)`,
 * `x >> n` is `Shr(x, n)`, `(x >> n) & 1` is `TestBit(x, n)` and
 * `x | (1 << n)` is `OrBit(x, n)`.
 */
module Powers {

  function Pow2(n: nat): (p: nat)
    ensures p >= 1
  {
    if n == 0 then 1 else 2 * Pow2(n - 1)
  }

  function Shr(v: nat, n: nat): nat {
    if n == 0 then v else Shr(v / 2, n - 1)
  }

  predicate TestBit(v: nat, n: nat) {
    if n == 0 then v % 2 == 1 else TestBit(v / 2, n - 1)
  }

  function OrBit(v: nat, n: nat): nat {
    if n == 0 then (if v % 2 == 1 then v else v + 1)
    else 2 * OrBit(v / 2, n - 1) + v % 2
  }

  function BitValue(b: bool): nat {
    if b then 1 else 0
  }

  lemma {:induction false} Pow2Add(a: nat, b: nat)
    ensures Pow2(a + b) == Pow2(a) * Pow2(b)
  {
    if a == 0 {
    } else {
      Pow2Add(a - 1, b);
      assert Pow2(a + b) == 2 * (Pow2(a - 1) * Pow2(b));
    }
  }

  lemma {:induction false} Pow2Monotone(a: nat, b: nat)
    requires a <= b
    ensures Pow2(a) <= Pow2(b)
  {
    if a < b {
      Pow2Monotone(a, b - 1);
    }
  }

  /** One bit less of a right shift: v >> n is twice v >> (n+1) plus bit n. */
  lemma {:induction false} ShrStep(v: nat, n: nat)
    ensures Shr(v, n) == 2 * Shr(v, n + 1) + BitValue(TestBit(v, n))
  {
    if n > 0 {
      ShrStep(v / 2, n - 1);
    }
  }

  lemma {:induction false} ShrSmall(v: nat, n: nat)
    requires v < Pow2(n)
    ensures Shr(v, n) == 0
  {
    if n > 0 {
      ShrSmall(v / 2, n - 1);
    }
  }

  /** Setting bit n sets bit n and leaves every other bit alone. */
  lemma {:induction false} OrBitTest(v: nat, n: nat, j: nat)
    ensures TestBit(OrBit(v, n), j) <==> j == n || TestBit(v, j)
  {
    if n > 0 {
      assert OrBit(v, n) / 2 == OrBit(v / 2, n - 1);
      if j > 0 {
        OrBitTest(v / 2, n - 1, j - 1);
      }
    } else if j > 0 {
      assert OrBit(v, 0) / 2 == v / 2;
    }
  }

  lemma {:induction false} OrBitBound(v: nat, n: nat, w: nat)
    requires v < Pow2(w) && n < w
    ensures OrBit(v, n) < Pow2(w)
  {
    hide Pow2;
    Pow2Double(w);
    if n == 0 {
      EvenBound(v, Pow2(w - 1));
    } else {
      HalfBound(v, Pow2(w - 1));
      OrBitBound(v / 2, n - 1, w - 1);
    }
  }

  lemma Pow2Double(w: nat)
    requires w > 0
    ensures Pow2(w) == 2 * Pow2(w - 1)
  {
  }

  lemma EvenBound(v: nat, half: nat)
    requires v < 2 * half
    ensures v % 2 == 0 ==> v + 1 < 2 * half
  {
  }

  lemma HalfBound(v: nat, half: nat)
    requires v < 2 * half
    ensures v / 2 < half && v % 2 <= 1
  {
  }

  lemma {:induction false} ZeroBits(n: nat)
    ensures !TestBit(0, n)
  {
    if n > 0 {
      ZeroBits(n - 1);
    }
  }

  // ----- Remainders by a variable -----

  lemma {:induction false} MulMonotone(d: nat, a: nat, b: nat)
    requires a <= b
    ensures d * a <= d * b
  {
    if a < b {
      MulMonotone(d, a, b - 1);
      assert d * b == d * (b - 1) + d;
    }
  }

  lemma ModUnique(x: nat, w: nat, q: nat, r: nat)
    requires w > 0 && x == w * q + r && r < w
    ensures x % w == r
  {
    var q' := x / w;
    assert x == w * q' + x % w;
    if q' < q {
      MulMonotone(w, q' + 1, q);
    } else if q < q' {
      MulMonotone(w, q + 1, q');
    }
  }

  lemma ModStep(x: nat, w: nat)
    requires w > 0
    ensures (x + 1) % w == if x % w + 1 == w then 0 else x % w + 1
  {
    var q, r := x / w, x % w;
    assert x == w * q + r;
    if r + 1 == w {
      assert x + 1 == w * (q + 1);
      ModUnique(x + 1, w, q + 1, 0);
    } else {
      ModUnique(x + 1, w, q, r + 1);
    }
  }

  lemma Halves(u: nat, half: nat, r: nat)
    requires u == 2 * half + r
    ensures u / 2 == half + r / 2 && u % 2 == r % 2
  {
  }

  /** The remainder, where its definition is better left out of a proof. */
  function Mod(n: nat, w: nat): nat
    requires w > 0
  {
    n % w
  }

  lemma Divided(x: nat, w: nat)
    requires w > 0
    ensures x == w * (x / w) + Mod(x, w) && Mod(x, w) < w
  {
  }

  lemma ModHalf(u: nat, m: nat)
    requires m > 0
    ensures Mod(u, 2 * m) / 2 == Mod(u / 2, m) && Mod(u, 2 * m) % 2 == u % 2
  {
    hide Mod;
    var w: nat := 2 * m;
    var q, r := Quotient(u, w);
    HalfOf(u, m, q, r);
  }

  lemma Quotient(x: nat, w: nat) returns (q: nat, r: nat)
    requires w > 0
    ensures x == w * q + r && r == Mod(x, w) < w
  {
    q, r := x / w, x % w;
  }

  lemma DivMod(x: nat, w: nat)
    requires w > 0
    ensures x == w * (x / w) + x % w
  {
  }

  lemma MulOrdered(d: nat, a: nat, b: nat)
    requires d > 0
    ensures a < b ==> d * a + d <= d * b
    ensures b < a ==> d * b + d <= d * a
  {
    if a < b {
      MulMonotone(d, a + 1, b);
      assert d * (a + 1) == d * a + d;
    } else if b < a {
      MulMonotone(d, b + 1, a);
      assert d * (b + 1) == d * b + d;
    }
  }

  /** A quotient is at least q exactly when the number is at least q times the divisor. */
  lemma DivAtLeast(x: nat, d: nat, q: nat)
    requires d > 0
    ensures x / d >= q <==> x >= d * q
  {
    DivMod(x, d);
    MulOrdered(d, x / d, q);
  }

  lemma DivUnique(x: nat, d: nat, q: nat, r: nat)
    requires d > 0 && x == d * q + r && r < d
    ensures x / d == q && x % d == r
  {
    ModUnique(x, d, q, r);
    DivMod(x, d);
    MulOrdered(d, x / d, q);
  }

  lemma HalfOf(u: nat, m: nat, q: nat, r: nat)
    requires m > 0 && u == 2 * m * q + r && r < 2 * m
    ensures Mod(u / 2, m) == r / 2 && u % 2 == r % 2
  {
    var half: nat := m * q;
    assert 2 * m * q == 2 * half;
    Halves(u, half, r);
    ModUnique(u / 2, m, q, r / 2);
  }

  lemma ModOne(v: nat)
    ensures Mod(v, 1) == 0
  {
  }

  /** A mask keeps the low bits. */
  lemma {:induction false} ModTest(v: nat, n: nat, j: nat)
    ensures TestBit(Mod(v, Pow2(n)), j) == (j < n && TestBit(v, j))
  {
    hide Mod;
    if n == 0 {
      ModOne(v);
      ZeroBits(j);
    } else {
      ModHalf(v, Pow2(n - 1));
      if j > 0 {
        ModTest(v / 2, n - 1, j - 1);
      }
    }
  }
}
