/** Where the constants of SHA-1, SHA-384 and SHA-512 come from: sections 4.2 and 5.3 of FIPS 180-4. */
module HashConstants {
  import S1 = Sha1
  import S5 = Sha512

  /** The first eighty prime numbers, in rows of sixteen. */
  function PrimeRow(i: nat): (p: seq<nat>)
    requires i < 5
    ensures |p| == 16
  {
    if i == 0 then [2, 3, 5, 7, 11, 13, 17, 19, 23, 29, 31, 37, 41, 43, 47, 53]
    else if i == 1 then [59, 61, 67, 71, 73, 79, 83, 89, 97, 101, 103, 107, 109, 113, 127, 131]
    else if i == 2 then [137, 139, 149, 151, 157, 163, 167, 173, 179, 181, 191, 193, 197, 199, 211, 223]
    else if i == 3 then [227, 229, 233, 239, 241, 251, 257, 263, 269, 271, 277, 281, 283, 293, 307, 311]
    else [313, 317, 331, 337, 347, 349, 353, 359, 367, 373, 379, 383, 389, 397, 401, 409]
  }

  const WORD: nat := 0x1_0000_0000_0000_0000

  /** The integer part of the cube root. */
  function CubeFloor(p: nat): nat {
    if p < 8 then 1 else if p < 27 then 2 else if p < 64 then 3 else if p < 125 then 4
    else if p < 216 then 5 else if p < 343 then 6 else 7
  }

  /** k holds the first 64 bits of the fractional part of the cube root of p. */
  predicate CubeRoot(k: S5.Word, p: nat) {
    var x := WORD * CubeFloor(p) + k as nat;
    x * x * x <= p * (WORD * WORD * WORD) < (x + 1) * (x + 1) * (x + 1)
  }

  lemma Cube(k: S5.Word, p: nat, x: nat)
    requires x == WORD * CubeFloor(p) + k as nat
    requires x * x * x <= p * (WORD * WORD * WORD) < (x + 1) * (x + 1) * (x + 1)
    ensures CubeRoot(k, p)
  {
  }

  lemma Row0()
    ensures CubeRoot(0x428A2F98D728AE22, 2)
    ensures CubeRoot(0x7137449123EF65CD, 3)
    ensures CubeRoot(0xB5C0FBCFEC4D3B2F, 5)
    ensures CubeRoot(0xE9B5DBA58189DBBC, 7)
    ensures CubeRoot(0x3956C25BF348B538, 11)
    ensures CubeRoot(0x59F111F1B605D019, 13)
    ensures CubeRoot(0x923F82A4AF194F9B, 17)
    ensures CubeRoot(0xAB1C5ED5DA6D8118, 19)
    ensures CubeRoot(0xD807AA98A3030242, 23)
    ensures CubeRoot(0x12835B0145706FBE, 29)
    ensures CubeRoot(0x243185BE4EE4B28C, 31)
    ensures CubeRoot(0x550C7DC3D5FFB4E2, 37)
    ensures CubeRoot(0x72BE5D74F27B896F, 41)
    ensures CubeRoot(0x80DEB1FE3B1696B1, 43)
    ensures CubeRoot(0x9BDC06A725C71235, 47)
    ensures CubeRoot(0xC19BF174CF692694, 53)
  {
    hide CubeRoot;
    Cube(0x428A2F98D728AE22, 2, 0x1428a2f98d728ae22);
    Cube(0x7137449123EF65CD, 3, 0x17137449123ef65cd);
    Cube(0xB5C0FBCFEC4D3B2F, 5, 0x1b5c0fbcfec4d3b2f);
    Cube(0xE9B5DBA58189DBBC, 7, 0x1e9b5dba58189dbbc);
    Cube(0x3956C25BF348B538, 11, 0x23956c25bf348b538);
    Cube(0x59F111F1B605D019, 13, 0x259f111f1b605d019);
    Cube(0x923F82A4AF194F9B, 17, 0x2923f82a4af194f9b);
    Cube(0xAB1C5ED5DA6D8118, 19, 0x2ab1c5ed5da6d8118);
    Cube(0xD807AA98A3030242, 23, 0x2d807aa98a3030242);
    Cube(0x12835B0145706FBE, 29, 0x312835b0145706fbe);
    Cube(0x243185BE4EE4B28C, 31, 0x3243185be4ee4b28c);
    Cube(0x550C7DC3D5FFB4E2, 37, 0x3550c7dc3d5ffb4e2);
    Cube(0x72BE5D74F27B896F, 41, 0x372be5d74f27b896f);
    Cube(0x80DEB1FE3B1696B1, 43, 0x380deb1fe3b1696b1);
    Cube(0x9BDC06A725C71235, 47, 0x39bdc06a725c71235);
    Cube(0xC19BF174CF692694, 53, 0x3c19bf174cf692694);
  }

  lemma Row1()
    ensures CubeRoot(0xE49B69C19EF14AD2, 59)
    ensures CubeRoot(0xEFBE4786384F25E3, 61)
    ensures CubeRoot(0x0FC19DC68B8CD5B5, 67)
    ensures CubeRoot(0x240CA1CC77AC9C65, 71)
    ensures CubeRoot(0x2DE92C6F592B0275, 73)
    ensures CubeRoot(0x4A7484AA6EA6E483, 79)
    ensures CubeRoot(0x5CB0A9DCBD41FBD4, 83)
    ensures CubeRoot(0x76F988DA831153B5, 89)
    ensures CubeRoot(0x983E5152EE66DFAB, 97)
    ensures CubeRoot(0xA831C66D2DB43210, 101)
    ensures CubeRoot(0xB00327C898FB213F, 103)
    ensures CubeRoot(0xBF597FC7BEEF0EE4, 107)
    ensures CubeRoot(0xC6E00BF33DA88FC2, 109)
    ensures CubeRoot(0xD5A79147930AA725, 113)
    ensures CubeRoot(0x06CA6351E003826F, 127)
    ensures CubeRoot(0x142929670A0E6E70, 131)
  {
    hide CubeRoot;
    Cube(0xE49B69C19EF14AD2, 59, 0x3e49b69c19ef14ad2);
    Cube(0xEFBE4786384F25E3, 61, 0x3efbe4786384f25e3);
    Cube(0x0FC19DC68B8CD5B5, 67, 0x40fc19dc68b8cd5b5);
    Cube(0x240CA1CC77AC9C65, 71, 0x4240ca1cc77ac9c65);
    Cube(0x2DE92C6F592B0275, 73, 0x42de92c6f592b0275);
    Cube(0x4A7484AA6EA6E483, 79, 0x44a7484aa6ea6e483);
    Cube(0x5CB0A9DCBD41FBD4, 83, 0x45cb0a9dcbd41fbd4);
    Cube(0x76F988DA831153B5, 89, 0x476f988da831153b5);
    Cube(0x983E5152EE66DFAB, 97, 0x4983e5152ee66dfab);
    Cube(0xA831C66D2DB43210, 101, 0x4a831c66d2db43210);
    Cube(0xB00327C898FB213F, 103, 0x4b00327c898fb213f);
    Cube(0xBF597FC7BEEF0EE4, 107, 0x4bf597fc7beef0ee4);
    Cube(0xC6E00BF33DA88FC2, 109, 0x4c6e00bf33da88fc2);
    Cube(0xD5A79147930AA725, 113, 0x4d5a79147930aa725);
    Cube(0x06CA6351E003826F, 127, 0x506ca6351e003826f);
    Cube(0x142929670A0E6E70, 131, 0x5142929670a0e6e70);
  }

  lemma Row2()
    ensures CubeRoot(0x27B70A8546D22FFC, 137)
    ensures CubeRoot(0x2E1B21385C26C926, 139)
    ensures CubeRoot(0x4D2C6DFC5AC42AED, 149)
    ensures CubeRoot(0x53380D139D95B3DF, 151)
    ensures CubeRoot(0x650A73548BAF63DE, 157)
    ensures CubeRoot(0x766A0ABB3C77B2A8, 163)
    ensures CubeRoot(0x81C2C92E47EDAEE6, 167)
    ensures CubeRoot(0x92722C851482353B, 173)
    ensures CubeRoot(0xA2BFE8A14CF10364, 179)
    ensures CubeRoot(0xA81A664BBC423001, 181)
    ensures CubeRoot(0xC24B8B70D0F89791, 191)
    ensures CubeRoot(0xC76C51A30654BE30, 193)
    ensures CubeRoot(0xD192E819D6EF5218, 197)
    ensures CubeRoot(0xD69906245565A910, 199)
    ensures CubeRoot(0xF40E35855771202A, 211)
    ensures CubeRoot(0x106AA07032BBD1B8, 223)
  {
    hide CubeRoot;
    Cube(0x27B70A8546D22FFC, 137, 0x527b70a8546d22ffc);
    Cube(0x2E1B21385C26C926, 139, 0x52e1b21385c26c926);
    Cube(0x4D2C6DFC5AC42AED, 149, 0x54d2c6dfc5ac42aed);
    Cube(0x53380D139D95B3DF, 151, 0x553380d139d95b3df);
    Cube(0x650A73548BAF63DE, 157, 0x5650a73548baf63de);
    Cube(0x766A0ABB3C77B2A8, 163, 0x5766a0abb3c77b2a8);
    Cube(0x81C2C92E47EDAEE6, 167, 0x581c2c92e47edaee6);
    Cube(0x92722C851482353B, 173, 0x592722c851482353b);
    Cube(0xA2BFE8A14CF10364, 179, 0x5a2bfe8a14cf10364);
    Cube(0xA81A664BBC423001, 181, 0x5a81a664bbc423001);
    Cube(0xC24B8B70D0F89791, 191, 0x5c24b8b70d0f89791);
    Cube(0xC76C51A30654BE30, 193, 0x5c76c51a30654be30);
    Cube(0xD192E819D6EF5218, 197, 0x5d192e819d6ef5218);
    Cube(0xD69906245565A910, 199, 0x5d69906245565a910);
    Cube(0xF40E35855771202A, 211, 0x5f40e35855771202a);
    Cube(0x106AA07032BBD1B8, 223, 0x6106aa07032bbd1b8);
  }

  lemma Row3()
    ensures CubeRoot(0x19A4C116B8D2D0C8, 227)
    ensures CubeRoot(0x1E376C085141AB53, 229)
    ensures CubeRoot(0x2748774CDF8EEB99, 233)
    ensures CubeRoot(0x34B0BCB5E19B48A8, 239)
    ensures CubeRoot(0x391C0CB3C5C95A63, 241)
    ensures CubeRoot(0x4ED8AA4AE3418ACB, 251)
    ensures CubeRoot(0x5B9CCA4F7763E373, 257)
    ensures CubeRoot(0x682E6FF3D6B2B8A3, 263)
    ensures CubeRoot(0x748F82EE5DEFB2FC, 269)
    ensures CubeRoot(0x78A5636F43172F60, 271)
    ensures CubeRoot(0x84C87814A1F0AB72, 277)
    ensures CubeRoot(0x8CC702081A6439EC, 281)
    ensures CubeRoot(0x90BEFFFA23631E28, 283)
    ensures CubeRoot(0xA4506CEBDE82BDE9, 293)
    ensures CubeRoot(0xBEF9A3F7B2C67915, 307)
    ensures CubeRoot(0xC67178F2E372532B, 311)
  {
    hide CubeRoot;
    Cube(0x19A4C116B8D2D0C8, 227, 0x619a4c116b8d2d0c8);
    Cube(0x1E376C085141AB53, 229, 0x61e376c085141ab53);
    Cube(0x2748774CDF8EEB99, 233, 0x62748774cdf8eeb99);
    Cube(0x34B0BCB5E19B48A8, 239, 0x634b0bcb5e19b48a8);
    Cube(0x391C0CB3C5C95A63, 241, 0x6391c0cb3c5c95a63);
    Cube(0x4ED8AA4AE3418ACB, 251, 0x64ed8aa4ae3418acb);
    Cube(0x5B9CCA4F7763E373, 257, 0x65b9cca4f7763e373);
    Cube(0x682E6FF3D6B2B8A3, 263, 0x6682e6ff3d6b2b8a3);
    Cube(0x748F82EE5DEFB2FC, 269, 0x6748f82ee5defb2fc);
    Cube(0x78A5636F43172F60, 271, 0x678a5636f43172f60);
    Cube(0x84C87814A1F0AB72, 277, 0x684c87814a1f0ab72);
    Cube(0x8CC702081A6439EC, 281, 0x68cc702081a6439ec);
    Cube(0x90BEFFFA23631E28, 283, 0x690befffa23631e28);
    Cube(0xA4506CEBDE82BDE9, 293, 0x6a4506cebde82bde9);
    Cube(0xBEF9A3F7B2C67915, 307, 0x6bef9a3f7b2c67915);
    Cube(0xC67178F2E372532B, 311, 0x6c67178f2e372532b);
  }

  lemma Row4()
    ensures CubeRoot(0xCA273ECEEA26619C, 313)
    ensures CubeRoot(0xD186B8C721C0C207, 317)
    ensures CubeRoot(0xEADA7DD6CDE0EB1E, 331)
    ensures CubeRoot(0xF57D4F7FEE6ED178, 337)
    ensures CubeRoot(0x06F067AA72176FBA, 347)
    ensures CubeRoot(0x0A637DC5A2C898A6, 349)
    ensures CubeRoot(0x113F9804BEF90DAE, 353)
    ensures CubeRoot(0x1B710B35131C471B, 359)
    ensures CubeRoot(0x28DB77F523047D84, 367)
    ensures CubeRoot(0x32CAAB7B40C72493, 373)
    ensures CubeRoot(0x3C9EBE0A15C9BEBC, 379)
    ensures CubeRoot(0x431D67C49C100D4C, 383)
    ensures CubeRoot(0x4CC5D4BECB3E42B6, 389)
    ensures CubeRoot(0x597F299CFC657E2A, 397)
    ensures CubeRoot(0x5FCB6FAB3AD6FAEC, 401)
    ensures CubeRoot(0x6C44198C4A475817, 409)
  {
    hide CubeRoot;
    Cube(0xCA273ECEEA26619C, 313, 0x6ca273eceea26619c);
    Cube(0xD186B8C721C0C207, 317, 0x6d186b8c721c0c207);
    Cube(0xEADA7DD6CDE0EB1E, 331, 0x6eada7dd6cde0eb1e);
    Cube(0xF57D4F7FEE6ED178, 337, 0x6f57d4f7fee6ed178);
    Cube(0x06F067AA72176FBA, 347, 0x706f067aa72176fba);
    Cube(0x0A637DC5A2C898A6, 349, 0x70a637dc5a2c898a6);
    Cube(0x113F9804BEF90DAE, 353, 0x7113f9804bef90dae);
    Cube(0x1B710B35131C471B, 359, 0x71b710b35131c471b);
    Cube(0x28DB77F523047D84, 367, 0x728db77f523047d84);
    Cube(0x32CAAB7B40C72493, 373, 0x732caab7b40c72493);
    Cube(0x3C9EBE0A15C9BEBC, 379, 0x73c9ebe0a15c9bebc);
    Cube(0x431D67C49C100D4C, 383, 0x7431d67c49c100d4c);
    Cube(0x4CC5D4BECB3E42B6, 389, 0x74cc5d4becb3e42b6);
    Cube(0x597F299CFC657E2A, 397, 0x7597f299cfc657e2a);
    Cube(0x5FCB6FAB3AD6FAEC, 401, 0x75fcb6fab3ad6faec);
    Cube(0x6C44198C4A475817, 409, 0x76c44198c4a475817);
  }

  lemma RowRoots0(j: nat)
    requires j < 16
    ensures CubeRoot(S5.ConstantRow(0)[j], PrimeRow(0)[j])
  {
    hide CubeRoot;
    Row0();
  }

  lemma RowRoots1(j: nat)
    requires j < 16
    ensures CubeRoot(S5.ConstantRow(1)[j], PrimeRow(1)[j])
  {
    hide CubeRoot;
    Row1();
  }

  lemma RowRoots2(j: nat)
    requires j < 16
    ensures CubeRoot(S5.ConstantRow(2)[j], PrimeRow(2)[j])
  {
    hide CubeRoot;
    Row2();
  }

  lemma RowRoots3(j: nat)
    requires j < 16
    ensures CubeRoot(S5.ConstantRow(3)[j], PrimeRow(3)[j])
  {
    hide CubeRoot;
    Row3();
  }

  lemma RowRoots4(j: nat)
    requires j < 16
    ensures CubeRoot(S5.ConstantRow(4)[j], PrimeRow(4)[j])
  {
    hide CubeRoot;
    Row4();
  }

  /** Every round constant of SHA-512 comes from its prime. */
  lemma RoundConstants(i: nat, j: nat)
    requires i < 5 && j < 16
    ensures |S5.RoundConstants()| == 80 && S5.RoundConstants()[16 * i + j] == S5.ConstantRow(i)[j]
    ensures CubeRoot(S5.ConstantRow(i)[j], PrimeRow(i)[j])
  {
    hide CubeRoot, PrimeRow, S5.ConstantRow;
    if i == 0 {
      RowRoots0(j);
    } else if i == 1 {
      RowRoots1(j);
    } else if i == 2 {
      RowRoots2(j);
    } else if i == 3 {
      RowRoots3(j);
    } else {
      RowRoots4(j);
    }
  }

  // ----- Initial values -----

  function SquareFloor(p: nat): nat {
    if p < 4 then 1 else if p < 9 then 2 else if p < 16 then 3 else if p < 25 then 4
    else if p < 36 then 5 else if p < 49 then 6 else 7
  }

  /** k holds the first 64 bits of the fractional part of the square root of p. */
  predicate SquareRoot(k: S5.Word, p: nat) {
    var x := WORD * SquareFloor(p) + k as nat;
    x * x <= p * (WORD * WORD) < (x + 1) * (x + 1)
  }

  lemma Square(k: S5.Word, p: nat, x: nat)
    requires x == WORD * SquareFloor(p) + k as nat && x * x <= p * (WORD * WORD) < (x + 1) * (x + 1)
    ensures SquareRoot(k, p)
  {
  }

  /** SHA-512 starts from the first eight primes. */
  lemma Initial512()
    ensures var r := S5.Start(false);
            && SquareRoot(r.a, 2) && SquareRoot(r.b, 3) && SquareRoot(r.c, 5) && SquareRoot(r.d, 7)
            && SquareRoot(r.e, 11) && SquareRoot(r.f, 13) && SquareRoot(r.g, 17) && SquareRoot(r.h, 19)
  {
    hide SquareRoot;
    Square(0x6A09E667F3BCC908, 2, 0x16a09e667f3bcc908);
    Square(0xBB67AE8584CAA73B, 3, 0x1bb67ae8584caa73b);
    Square(0x3C6EF372FE94F82B, 5, 0x23c6ef372fe94f82b);
    Square(0xA54FF53A5F1D36F1, 7, 0x2a54ff53a5f1d36f1);
    Square(0x510E527FADE682D1, 11, 0x3510e527fade682d1);
    Square(0x9B05688C2B3E6C1F, 13, 0x39b05688c2b3e6c1f);
    Square(0x1F83D9ABFB41BD6B, 17, 0x41f83d9abfb41bd6b);
    Square(0x5BE0CD19137E2179, 19, 0x45be0cd19137e2179);
  }

  /** SHA-384 starts from the next eight. */
  lemma Initial384()
    ensures var r := S5.Start(true);
            && SquareRoot(r.a, 23) && SquareRoot(r.b, 29) && SquareRoot(r.c, 31) && SquareRoot(r.d, 37)
            && SquareRoot(r.e, 41) && SquareRoot(r.f, 43) && SquareRoot(r.g, 47) && SquareRoot(r.h, 53)
  {
    hide SquareRoot;
    Square(0xCBBB9D5DC1059ED8, 23, 0x4cbbb9d5dc1059ed8);
    Square(0x629A292A367CD507, 29, 0x5629a292a367cd507);
    Square(0x9159015A3070DD17, 31, 0x59159015a3070dd17);
    Square(0x152FECD8F70E5939, 37, 0x6152fecd8f70e5939);
    Square(0x67332667FFC00B31, 41, 0x667332667ffc00b31);
    Square(0x8EB44A8768581511, 43, 0x68eb44a8768581511);
    Square(0xDB0C2E0D64F98FA7, 47, 0x6db0c2e0d64f98fa7);
    Square(0x47B5481DBEFA4FA4, 53, 0x747b5481dbefa4fa4);
  }

  // ----- SHA-1 -----

  /** k is the whole part of 2^30 times the square root of n. */
  predicate Root30(k: S1.Word, n: nat) {
    var x := k as nat;
    x * x <= n * 0x1000_0000_0000_0000 < (x + 1) * (x + 1)
  }

  /** The constants of the four quarters of the rounds come from 2, 3, 5 and 10. */
  lemma Sha1Constants(t: nat)
    requires t < 80
    ensures Root30(S1.K(t), if t < 20 then 2 else if t < 40 then 3 else if t < 60 then 5 else 10)
  {
    assert Root30(0x5A827999, 2);
    assert Root30(0x6ED9EBA1, 3);
    assert Root30(0x8F1BBCDC, 5);
    assert Root30(0xCA62C1D6, 10);
  }
}
