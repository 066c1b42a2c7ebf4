/** Bits of numbers most significant first, and reading them through a 32-bit cache. */
module VlcBits {
  import opened Powers
  import opened BitStream
  import opened ReversedBits

  // ----- Shifts and single bits -----

  lemma {:induction false} ShrTest(v: nat, k: nat, j: nat)
    ensures TestBit(Shr(v, k), j) == TestBit(v, j + k)
  {
    if k > 0 {
      ShrTest(v / 2, k - 1, j);
    }
  }

  lemma {:induction false} ShlTest(v: nat, k: nat, j: nat)
    ensures TestBit(v * Pow2(k), j) == (j >= k && TestBit(v, j - k))
  {
    if k > 0 {
      var m: nat := v * Pow2(k - 1);
      assert v * Pow2(k) == 2 * m;
      if j > 0 {
        ShlTest(v, k - 1, j - 1);
      }
    }
  }

  lemma {:induction false} ShrBound(v: nat, k: nat, n: nat)
    requires v < Pow2(n + k)
    ensures Shr(v, k) < Pow2(n)
  {
    if k > 0 {
      assert Pow2(n + k) == 2 * Pow2(n + k - 1);
      ShrBound(v / 2, k - 1, n);
    }
  }

  /** Numbers of n bits are equal when their bits are. */
  lemma SameHighBits(u: nat, v: nat, n: nat)
    requires u < Pow2(n) && v < Pow2(n)
    ensures HighBits(u, n) == HighBits(v, n) <==> u == v
  {
    hide HighBits;
    if HighBits(u, n) == HighBits(v, n) {
      forall j | 0 <= j < n
        ensures TestBit(u, j) == TestBit(v, j)
      {
        assert HighBits(u, n)[n - 1 - j] == HighBits(v, n)[n - 1 - j];
      }
      BitsDetermine(u, v, n);
    }
  }

  /** A right shift keeps the first bits. */
  lemma ShrHighBits(v: nat, n: nat, k: nat)
    requires k <= n
    ensures HighBits(Shr(v, k), n - k) == HighBits(v, n)[..n - k]
  {
    hide HighBits, Shr, TestBit;
    forall i | 0 <= i < n - k
      ensures HighBits(Shr(v, k), n - k)[i] == HighBits(v, n)[i]
    {
      ShrTest(v, k, n - k - 1 - i);
    }
  }

  /** A mask keeps the last bits. */
  lemma ModHighBits(v: nat, n: nat, k: nat)
    requires k <= n
    ensures HighBits(v % Pow2(k), k) == HighBits(v, n)[n - k..]
  {
    hide HighBits, Pow2, TestBit;
    var a, b := HighBits(v % Pow2(k), k), HighBits(v, n)[n - k..];
    forall i | 0 <= i < k
      ensures a[i] == b[i]
    {
      ModTest(v, k, k - 1 - i);
    }
  }

  // ----- The value of bits -----

  /** The number whose bits, most significant first, are given. */
  function Index(bits: seq<bool>): nat {
    if bits == [] then 0 else 2 * Index(bits[..|bits| - 1]) + BitValue(bits[|bits| - 1])
  }

  lemma {:induction false} IndexBits(bits: seq<bool>)
    ensures Index(bits) < Pow2(|bits|) && HighBits(Index(bits), |bits|) == bits
  {
    if bits != [] {
      var n := |bits| - 1;
      IndexBits(bits[..n]);
      var v := Index(bits);
      assert v / 2 == Index(bits[..n]);
      forall i | 0 <= i < |bits|
        ensures HighBits(v, |bits|)[i] == bits[i]
      {
        if i < n {
          assert TestBit(v, n - i) == TestBit(v / 2, n - 1 - i);
          assert HighBits(v / 2, n)[i] == bits[..n][i];
        }
      }
    }
  }

  // ----- unaligned32_be, UPDATE_CACHE and SHOW_UBITS -----

  function Unaligned32(b: seq<byte>): nat
    requires |b| == 4
  {
    16777216 * (b[0] as nat) + 65536 * (b[1] as nat) + 256 * (b[2] as nat) + (b[3] as nat)
  }

  /** One more byte below a number. */
  lemma {:induction false} ByteBelow(v: nat, b: byte, j: nat)
    ensures TestBit(256 * v + b, j) == if j < 8 then TestBit(b, j) else TestBit(v, j - 8)
  {
    hide TestBit, Shr, Pow2, Mod;
    EightBits(v, b);
    if j < 8 {
      ModTest(256 * v + b, 8, j);
      ModTest(b, 8, j);
    } else {
      ShrTest(256 * v + b, 8, j - 8);
      ShrIsDiv(256 * v + b, 8);
    }
  }

  lemma EightBits(v: nat, b: byte)
    ensures Pow2(8) == 256 && Mod(256 * v + b, Pow2(8)) == Mod(b, Pow2(8)) && (256 * v + b) / Pow2(8) == v
  {
    assert Pow2(4) == 16;
    assert Pow2(8) == 256;
    assert b as int / 256 == 0;
  }

  lemma {:induction false} ShrIsDiv(v: nat, k: nat)
    ensures Shr(v, k) == v / Pow2(k)
  {
    if k > 0 {
      ShrIsDiv(v / 2, k - 1);
      DivTwice(v, Pow2(k - 1));
    }
  }

  lemma DivTwice(v: nat, m: nat)
    requires m > 0
    ensures v / 2 / m == v / (2 * m)
  {
    var q, r := v / (2 * m), v % (2 * m);
    assert v == 2 * (m * q) + r by { assert 2 * m * q == 2 * (m * q); }
    assert v / 2 == m * q + r / 2;
    QuotientIs(v / 2, m, q, r / 2);
  }

  lemma QuotientIs(x: nat, m: nat, q: nat, r: nat)
    requires m > 0 && x == m * q + r && r < m
    ensures x / m == q
  {
    ModUnique(x, m, q, r);
    var q' := x / m;
    assert x == m * q' + x % m;
    if q' < q {
      MulMonotone(m, q' + 1, q);
    } else if q < q' {
      MulMonotone(m, q + 1, q');
    }
  }

  lemma Word32Bits(b: seq<byte>, i: nat)
    requires |b| == 4 && i < 32
    ensures TestBit(Unaligned32(b), 31 - i) == RBit(b, i)
  {
    hide TestBit;
    var v3: nat := b[0];
    var v2: nat := 256 * v3 + b[1] as nat;
    var v1: nat := 256 * v2 + b[2] as nat;
    assert Unaligned32(b) == 256 * v1 + b[3] as nat;
    ByteBelow(v1, b[3], 31 - i);
    if i < 24 {
      ByteBelow(v2, b[2], 23 - i);
    }
    if i < 16 {
      ByteBelow(v3, b[1], 15 - i);
    }
  }

  /** The next n bits of the stream, from the four bytes at the current position. */
  method ShowBits(buffer: seq<byte>, index: nat, n: nat) returns (v: nat)
    requires 0 < n <= 25 && index / 8 + 4 <= |buffer|
    ensures v < Pow2(n) && HighBits(v, n) == RBits(buffer)[index..index + n]
  {
    hide Pow2, Shr, Unaligned32, RBits, HighBits;
    var p := index / 8;
    var cache: nat := Unaligned32(buffer[p..p + 4]) * Pow2(index % 8) % Pow2(32);
    v := Shr(cache, 32 - n);
    ShrBound(cache, 32 - n, n);
    CacheBits(buffer, index, n, cache, v);
  }

  lemma CacheBits(buffer: seq<byte>, index: nat, n: nat, cache: nat, v: nat)
    requires 0 < n <= 25 && index / 8 + 4 <= |buffer|
    requires cache == Unaligned32(buffer[index / 8..index / 8 + 4]) * Pow2(index % 8) % Pow2(32)
    requires v == Shr(cache, 32 - n)
    ensures HighBits(v, n) == RBits(buffer)[index..index + n]
  {
    hide Pow2, Shr, Unaligned32, TestBit;
    var a, b := HighBits(v, n), RBits(buffer)[index..index + n];
    forall i | 0 <= i < n
      ensures a[i] == b[i]
    {
      CacheBit(buffer, index, n, cache, v, i);
    }
  }

  lemma CacheBit(buffer: seq<byte>, index: nat, n: nat, cache: nat, v: nat, i: nat)
    requires i < n <= 25 && index / 8 + 4 <= |buffer|
    requires cache == Unaligned32(buffer[index / 8..index / 8 + 4]) * Pow2(index % 8) % Pow2(32)
    requires v == Shr(cache, 32 - n)
    ensures TestBit(v, n - 1 - i) == RBit(buffer, index + i)
  {
    hide Pow2, Shr, Unaligned32, TestBit, RBit;
    var p, k := index / 8, index % 8;
    var word := Unaligned32(buffer[p..p + 4]);
    var j := n - 1 - i;
    ShrTest(cache, 32 - n, j);
    ModTest(word * Pow2(k), 32, j + (32 - n));
    ShlTest(word, k, j + (32 - n));
    Word32Bits(buffer[p..p + 4], k + i);
    SliceBit(buffer, p, k + i);
  }

  lemma SliceBit(buffer: seq<byte>, p: nat, i: nat)
    requires p + 4 <= |buffer| && i < 32
    ensures RBit(buffer[p..p + 4], i) == RBit(buffer, 8 * p + i)
  {
    assert (8 * p + i) / 8 == p + i / 8 && (8 * p + i) % 8 == i % 8;
  }
}
