/** Where the constants of MD5 come from: the sines of the numbers from 1 to 64, section 3.4 of RFC 1321. */
module SineConstants {
  import M5 = Md5Block

  const UNIT: int := 0x1_0000_0000_0000_0000

  // ----- Sine and cosine of 1 -----

  /** The sine and twice the cosine of 1, in units of 2^-64, rounded down. */
  const SINE: int := 0xd76aa47848677020
  const TWICE_COSINE: int := 0x114a280fb5068b923

  /** Term k of the series of the sine of 1, and of the cosine. */
  function Term(k: nat): real {
    if k == 0 then 1.0 else -Term(k - 1) / ((2 * k * (2 * k + 1)) as real)
  }

  function CosTerm(k: nat): real {
    if k == 0 then 1.0 else -CosTerm(k - 1) / (((2 * k - 1) * (2 * k)) as real)
  }

  function SinSum(n: nat): real { if n == 0 then 0.0 else SinSum(n - 1) + Term(n - 1) }

  function CosSum(n: nat): real { if n == 0 then 0.0 else CosSum(n - 1) + CosTerm(n - 1) }

  lemma SineTerms()
    ensures Term(0) == 1.0 / 1.0 && Term(1) == -1.0 / 6.0 && Term(2) == 1.0 / 120.0
    ensures Term(3) == -1.0 / 5040.0 && Term(4) == 1.0 / 362880.0 && Term(5) == -1.0 / 39916800.0
    ensures Term(6) == 1.0 / 6227020800.0 && Term(7) == -1.0 / 1307674368000.0 && Term(8) == 1.0 / 355687428096000.0
    ensures Term(9) == -1.0 / 121645100408832000.0 && Term(10) == 1.0 / 51090942171709440000.0
    ensures Term(11) == -1.0 / 25852016738884976640000.0
  {
    hide Term;
    TermStep(0);
    TermStep(1);
    TermStep(2);
    TermStep(3);
    TermStep(4);
    TermStep(5);
    TermStep(6);
    TermStep(7);
    TermStep(8);
    TermStep(9);
    TermStep(10);
    TermStep(11);
  }

  lemma CosineTerms()
    ensures CosTerm(0) == 1.0 / 1.0 && CosTerm(1) == -1.0 / 2.0 && CosTerm(2) == 1.0 / 24.0
    ensures CosTerm(3) == -1.0 / 720.0 && CosTerm(4) == 1.0 / 40320.0 && CosTerm(5) == -1.0 / 3628800.0
    ensures CosTerm(6) == 1.0 / 479001600.0 && CosTerm(7) == -1.0 / 87178291200.0
    ensures CosTerm(8) == 1.0 / 20922789888000.0
    ensures CosTerm(9) == -1.0 / 6402373705728000.0 && CosTerm(10) == 1.0 / 2432902008176640000.0
    ensures CosTerm(11) == -1.0 / 1124000727777607680000.0
    ensures CosTerm(12) == 1.0 / 620448401733239439360000.0 && CosTerm(13) == -1.0 / 403291461126605635584000000.0
  {
    hide CosTerm;
    CosTermStep(0);
    CosTermStep(1);
    CosTermStep(2);
    CosTermStep(3);
    CosTermStep(4);
    CosTermStep(5);
    CosTermStep(6);
    CosTermStep(7);
    CosTermStep(8);
    CosTermStep(9);
    CosTermStep(10);
    CosTermStep(11);
    CosTermStep(12);
    CosTermStep(13);
  }

  lemma TermStep(k: nat)
    ensures Term(k) == if k == 0 then 1.0 else -Term(k - 1) / ((2 * k * (2 * k + 1)) as real)
  {
  }

  lemma CosTermStep(k: nat)
    ensures CosTerm(k) == if k == 0 then 1.0 else -CosTerm(k - 1) / (((2 * k - 1) * (2 * k)) as real)
  {
  }

  /** Partial sums of even length are below the limit, those of odd length above it. */
  lemma SineOfOne()
    ensures SINE as real <= SinSum(12) * (UNIT as real) && SinSum(11) * (UNIT as real) < (SINE + 1) as real
  {
    hide Term;
    SineTerms();
  }

  lemma CosineOfOne()
    ensures TWICE_COSINE as real <= 2.0 * CosSum(14) * (UNIT as real)
    ensures 2.0 * CosSum(13) * (UNIT as real) < (TWICE_COSINE + 1) as real
  {
    hide CosTerm;
    CosineTerms();
  }

  // ----- The sines of all numbers -----

  /**
   * The sine of i in the same units: sin i = 2 cos 1 sin (i - 1) - sin (i - 2),
   * rounded down at every step.
   */
  function Turned(i: nat): int {
    if i == 0 then 0 else if i == 1 then SINE else TWICE_COSINE * Turned(i - 1) / UNIT - Turned(i - 2)
  }

  /** The whole part of 2^32 times the absolute value. */
  function Whole(x: int): int { (if x < 0 then -x else x) / 0x1_0000_0000 }

  lemma Turn1()
    ensures Turned(1) == 0xd76aa47848677020
    ensures Turned(2) == 0xe8c7b7568da22efc
    ensures Turned(3) == 0x242070db6daab69d
    ensures Turned(4) == -0xc1bdceeee0f57387
  {
    hide Turned;
    TurnStep(0);
    TurnStep(1);
    TurnStep(2);
    TurnStep(3);
    TurnStep(4);
  }

  lemma Turn5()
    requires Turned(3) == 0x242070db6daab69d && Turned(4) == -0xc1bdceeee0f57387
    ensures Turned(5) == -0xf57c0faf04c99913
    ensures Turned(6) == -0x4787c62ac28b00e9
    ensures Turned(7) == 0xa83046136850421e
    ensures Turned(8) == 0xfd469501467bd74f
  {
    hide Turned;
    TurnStep(5);
    TurnStep(6);
    TurnStep(7);
    TurnStep(8);
  }

  lemma Turn9()
    requires Turned(7) == 0xa83046136850421e && Turned(8) == 0xfd469501467bd74f
    ensures Turned(9) == 0x698098d830be4247
    ensures Turned(10) == -0x8b44f7af9a7a92d0
    ensures Turned(11) == -0xffff5bb1749f56ae
    ensures Turned(12) == -0x895cd7bebb2d2a4d
  {
    hide Turned;
    TurnStep(9);
    TurnStep(10);
    TurnStep(11);
    TurnStep(12);
  }

  lemma Turn13()
    requires Turned(11) == -0xffff5bb1749f56ae && Turned(12) == -0x895cd7bebb2d2a4d
    ensures Turned(13) == 0x6b9011220714186b
    ensures Turned(14) == 0xfd987193e2f224ea
    ensures Turned(15) == 0xa679438e761742e7
    ensures Turned(16) == -0x49b408217c83df93
  {
    hide Turned;
    TurnStep(13);
    TurnStep(14);
    TurnStep(15);
    TurnStep(16);
  }

  lemma Turn17()
    requires Turned(15) == 0xa679438e761742e7 && Turned(16) == -0x49b408217c83df93
    ensures Turned(17) == -0xf61e256214415b77
    ensures Turned(18) == -0xc040b34098f1339b
    ensures Turned(19) == 0x265e5a51eb099d0c
    ensures Turned(20) == 0xe9b6c7aae9e6ff25
  {
    hide Turned;
    TurnStep(17);
    TurnStep(18);
    TurnStep(19);
    TurnStep(20);
  }

  lemma Turn21()
    requires Turned(19) == 0x265e5a51eb099d0c && Turned(20) == 0xe9b6c7aae9e6ff25
    ensures Turned(21) == 0xd62f105d86bf6567
    ensures Turned(22) == -0x2441453edd73e80
    ensures Turned(23) == -0xd8a1e68123e80fdb
    ensures Turned(24) == -0xe7d3fbc8c8a0747d
  {
    hide Turned;
    TurnStep(21);
    TurnStep(22);
    TurnStep(23);
    TurnStep(24);
  }

  lemma Turn25()
    requires Turned(23) == -0xd8a1e68123e80fdb && Turned(24) == -0xe7d3fbc8c8a0747d
    ensures Turned(25) == -0x21e1cde63d0139e8
    ensures Turned(26) == 0xc33707d6192c1b75
    ensures Turned(27) == 0xf4d50d872dd17ee7
    ensures Turned(28) == 0x455a14ed14535638
  {
    hide Turned;
    TurnStep(25);
    TurnStep(26);
    TurnStep(27);
    TurnStep(28);
  }

  lemma Turn29()
    requires Turned(27) == 0xf4d50d872dd17ee7 && Turned(28) == 0x455a14ed14535638
    ensures Turned(29) == -0xa9e3e905364f3550
    ensures Turned(30) == -0xfcefa3f8e481e55c
    ensures Turned(31) == -0x676f02d903f202f8
    ensures Turned(32) == 0x8d2a4c8a132b2d78
  {
    hide Turned;
    TurnStep(29);
    TurnStep(30);
    TurnStep(31);
    TurnStep(32);
  }

  lemma Turn33()
    requires Turned(31) == -0x676f02d903f202f8 && Turned(32) == 0x8d2a4c8a132b2d78
    ensures Turned(33) == 0xfffa39420b11bd77
    ensures Turned(34) == 0x8771f681c3ed05fa
    ensures Turned(35) == -0x6d9d6122332f9e8e
    ensures Turned(36) == -0xfde5380c670e1cbe
  {
    hide Turned;
    TurnStep(33);
    TurnStep(34);
    TurnStep(35);
    TurnStep(36);
  }

  lemma Turn37()
    requires Turned(35) == -0x6d9d6122332f9e8e && Turned(36) == -0xfde5380c670e1cbe
    ensures Turned(37) == -0xa4beea447f48754e
    ensures Turned(38) == 0x4bdecfa91e6a73b5
    ensures Turned(39) == 0xf6bb4b6020374db8
    ensures Turned(40) == 0xbebfbc7013f7fc83
  {
    hide Turned;
    TurnStep(37);
    TurnStep(38);
    TurnStep(39);
    TurnStep(40);
  }

  lemma Turn41()
    requires Turned(39) == 0xf6bb4b6020374db8 && Turned(40) == 0xbebfbc7013f7fc83
    ensures Turned(41) == -0x289b7ec6eba38ff4
    ensures Turned(42) == -0xeaa127fa607f683a
    ensures Turned(43) == -0xd4ef30853a88976c
    ensures Turned(44) == 0x4881d05676c1051
  {
    hide Turned;
    TurnStep(41);
    TurnStep(42);
    TurnStep(43);
    TurnStep(44);
  }

  lemma Turn45()
    requires Turned(43) == -0xd4ef30853a88976c && Turned(44) == 0x4881d05676c1051
    ensures Turned(45) == 0xd9d4d039ecd8170c
    ensures Turned(46) == 0xe6db99e510c5858d
    ensures Turned(47) == 0x1fa27cf8daf6f62b
    ensures Turned(48) == -0xc4ac5665627c0674
  {
    hide Turned;
    TurnStep(45);
    TurnStep(46);
    TurnStep(47);
    TurnStep(48);
  }

  lemma Turn49()
    requires Turned(47) == 0x1fa27cf8daf6f62b && Turned(48) == -0xc4ac5665627c0674
    ensures Turned(49) == -0xf4292244133eb580
    ensures Turned(50) == -0x432aff97f37f2146
    ensures Turned(51) == 0xab9423a712841187
    ensures Turned(52) == 0xfc93a03925263538
  {
    hide Turned;
    TurnStep(49);
    TurnStep(50);
    TurnStep(51);
    TurnStep(52);
  }

  lemma Turn53()
    requires Turned(51) == 0xab9423a712841187 && Turned(52) == 0xfc93a03925263538
    ensures Turned(53) == 0x655b59c3b1e2c155
    ensures Turned(54) == -0x8f0ccc922e3e4d03
    ensures Turned(55) == -0xffeff47d95035ed1
    ensures Turned(56) == -0x85845dd128c8d1f6
  {
    hide Turned;
    TurnStep(53);
    TurnStep(54);
    TurnStep(55);
    TurnStep(56);
  }

  lemma Turn57()
    requires Turned(55) == -0xffeff47d95035ed1 && Turned(56) == -0x85845dd128c8d1f6
    ensures Turned(57) == 0x6fa87e4f750e8141
    ensures Turned(58) == 0xfe2ce6e09db26f99
    ensures Turned(59) == 0xa3014314c8665943
    ensures Turned(60) == -0x4e0811a11b8309a9
  {
    hide Turned;
    TurnStep(57);
    TurnStep(58);
    TurnStep(59);
    TurnStep(60);
  }

  lemma Turn61()
    requires Turned(59) == 0xa3014314c8665943 && Turned(60) == -0x4e0811a11b8309a9
    ensures Turned(61) == -0xf7537e82453f5089
    ensures Turned(62) == -0xbd3af235f1627be7
    ensures Turned(63) == 0x2ad7d2bb99881a8f
    ensures Turned(64) == 0xeb86d391860ec3e1
  {
    hide Turned;
    TurnStep(61);
    TurnStep(62);
    TurnStep(63);
    TurnStep(64);
  }

  lemma Row0()
    ensures Turned(15) == 0xa679438e761742e7 && Turned(16) == -0x49b408217c83df93
    ensures forall j :: 0 <= j < 16 ==> M5.SineRow(0)[j] as nat == Whole(Turned(1 + j))
  {
    hide Turned;
    Turn1();
    Turn5();
    Turn9();
    Turn13();
  }

  lemma Row1()
    ensures Turned(31) == -0x676f02d903f202f8 && Turned(32) == 0x8d2a4c8a132b2d78
    ensures forall j :: 0 <= j < 16 ==> M5.SineRow(1)[j] as nat == Whole(Turned(17 + j))
  {
    hide Turned;
    Row0();
    Turn17();
    Turn21();
    Turn25();
    Turn29();
  }

  lemma Row2()
    ensures Turned(47) == 0x1fa27cf8daf6f62b && Turned(48) == -0xc4ac5665627c0674
    ensures forall j :: 0 <= j < 16 ==> M5.SineRow(2)[j] as nat == Whole(Turned(33 + j))
  {
    hide Turned;
    Row1();
    Turn33();
    Turn37();
    Turn41();
    Turn45();
  }

  lemma Row3()
    ensures Turned(63) == 0x2ad7d2bb99881a8f && Turned(64) == 0xeb86d391860ec3e1
    ensures forall j :: 0 <= j < 16 ==> M5.SineRow(3)[j] as nat == Whole(Turned(49 + j))
  {
    hide Turned;
    Row2();
    Turn49();
    Turn53();
    Turn57();
    Turn61();
  }

  /** Every constant of MD5 is the whole part of 2^32 times the sine of its number. */
  lemma Constants(t: nat)
    requires t < 64
    ensures M5.Sine(t) as nat == Whole(Turned(t + 1))
  {
    hide Turned, Whole, M5.SineRow;
    var j := t % 16;
    if t < 16 {
      Row0();
    } else if t < 32 {
      Row1();
    } else if t < 48 {
      Row2();
    } else {
      Row3();
    }
  }

  lemma TurnStep(i: nat)
    ensures Turned(i) == if i == 0 then 0 else if i == 1 then SINE
                         else TWICE_COSINE * Turned(i - 1) / UNIT - Turned(i - 2)
  {
  }
}
