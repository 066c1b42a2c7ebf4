/** The zlib container: a two-byte header, a DEFLATE stream and an Adler-32 checksum. */
module Zlib {
  import opened Powers
  import opened BitStream
  import opened PrefixCode
  import opened HuffmanTree
  import opened TreeInvariant
  import opened Lz77
  import opened Inflate
  import opened Inflator
  import opened BlockFormat
  import opened Deflator
  import opened DeflateStream

  // ----- Adler-32 -----

  const BASE: nat := 65521

  /** The two sums of section 2.2 of RFC 1950, reduced after every byte. */
  function Sums(s1: nat, s2: nat, data: seq<byte>): (nat, nat) {
    if data == [] then (s1, s2)
    else
      var n := |data| - 1;
      var (a, b) := Sums(s1, s2, data[..n]);
      var a' := (a + data[n]) % BASE;
      (a', (b + a') % BASE)
  }

  function Adler(adler: nat, data: seq<byte>): nat {
    var (s1, s2) := Sums(adler % 65536, adler / 65536 % 65536, data);
    65536 * s2 + s1
  }

  lemma SumsReduced(s1: nat, s2: nat, data: seq<byte>)
    requires s1 < 65536 && s2 < 65536
    ensures Sums(s1, s2, data).0 < 65536 && Sums(s1, s2, data).1 < 65536
    ensures data != [] ==> Sums(s1, s2, data).0 < BASE && Sums(s1, s2, data).1 < BASE
  {
  }

  lemma SumsOfNothing(s1: nat, s2: nat)
    ensures Sums(s1, s2, []) == (s1, s2)
  {
  }

  /** One more byte. */
  function Summed(sums: (nat, nat), b: byte): (nat, nat) {
    var a := (sums.0 + b) % BASE;
    (a, (sums.1 + a) % BASE)
  }

  lemma SumsOneMore(s1: nat, s2: nat, data: seq<byte>)
    requires data != []
    ensures var n := |data| - 1; Sums(s1, s2, data) == Summed(Sums(s1, s2, data[..n]), data[n])
  {
  }

  lemma {:induction false} SumsChain(s1: nat, s2: nat, a: seq<byte>, b: seq<byte>)
    ensures Sums(s1, s2, a + b) == Sums(Sums(s1, s2, a).0, Sums(s1, s2, a).1, b)
  {
    hide Sums, Summed;
    if b == [] {
      assert a + b == a;
      SumsOfNothing(Sums(s1, s2, a).0, Sums(s1, s2, a).1);
    } else {
      var n := |b| - 1;
      SumsChain(s1, s2, a, b[..n]);
      assert (a + b)[..|a| + n] == a + b[..n] && (a + b)[|a| + n] == b[n];
      SumsOneMore(s1, s2, a + b);
      SumsOneMore(Sums(s1, s2, a).0, Sums(s1, s2, a).1, b);
    }
  }

  /** A checksum can be continued: the checksum of a concatenation from the checksum of its first part. */
  lemma AdlerChain(adler: nat, a: seq<byte>, b: seq<byte>)
    requires adler < UINT32
    ensures Adler(Adler(adler, a), b) == Adler(adler, a + b)
    ensures Adler(adler, a) < UINT32
  {
    hide Sums;
    var s1, s2 := adler % 65536, adler / 65536 % 65536;
    SumsChain(s1, s2, a, b);
    SumsReduced(s1, s2, a);
    WordHalves(Sums(s1, s2, a).0, Sums(s1, s2, a).1);
  }

  lemma WordHalves(x: nat, y: nat)
    requires x < 65536 && y < 65536
    ensures (65536 * y + x) % 65536 == x && (65536 * y + x) / 65536 % 65536 == y && 65536 * y + x < UINT32
  {
  }

  /** Adding before or after reducing makes no difference. */
  lemma ReduceAdd(x: nat, y: nat, b: nat)
    requires x % BASE == y % BASE
    ensures (x + b) % BASE == (y + b) % BASE
  {
    assert x - y == BASE * (x / BASE - y / BASE);
    MultipleApart(x + b, y + b, x / BASE - y / BASE);
  }

  lemma MultipleApart(x: nat, y: nat, k: int)
    requires x - y == BASE * k
    ensures x % BASE == y % BASE
  {
    assert x == BASE * (k + y / BASE) + y % BASE;
  }

  lemma ReduceTwo(x: nat, y: nat, a: nat, b: nat)
    requires x % BASE == y % BASE && a % BASE == b % BASE
    ensures (x + a) % BASE == (y + b) % BASE
  {
    ReduceAdd(x, y, a);
    ReduceAdd(a, b, y);
  }

  ghost predicate Same(x: nat, y: nat) {
    x % BASE == y % BASE
  }

  /** A step of the unreduced sums stays congruent to the reduced ones. */
  lemma SumsStep(s1: nat, s2: nat, data: seq<byte>, n: nat, x: nat, y: nat)
    requires n < |data|
    requires Same(x, Sums(s1, s2, data[..n]).0) && Same(y, Sums(s1, s2, data[..n]).1)
    ensures Same(x + data[n], Sums(s1, s2, data[..n + 1]).0)
    ensures Same(y + (x + data[n]), Sums(s1, s2, data[..n + 1]).1)
  {
    hide Sums;
    var (a, b) := Sums(s1, s2, data[..n]);
    SumsLast(s1, s2, data, n);
    ReduceAdd(x, a, data[n]);
    ReducedTwice(a + data[n]);
    ReduceTwo(y, b, x + data[n], (a + data[n]) % BASE);
    ReducedTwice(b + (a + data[n]) % BASE);
  }

  lemma SumsLast(s1: nat, s2: nat, data: seq<byte>, n: nat)
    requires n < |data|
    ensures var (a, b) := Sums(s1, s2, data[..n]);
            Sums(s1, s2, data[..n + 1]) == ((a + data[n]) % BASE, (b + (a + data[n]) % BASE) % BASE)
  {
    assert data[..n + 1][..n] == data[..n];
  }

  lemma ReducedTwice(x: nat)
    ensures x % BASE % BASE == x % BASE
  {
  }

  /** What the sums can have grown to after k bytes. */
  ghost predicate SmallSums(s1: nat, s2: nat, k: nat, x: nat, y: nat) {
    x <= s1 + 255 * k && 2 * y <= 2 * s2 + 2 * s1 * k + 255 * k * (k + 1)
  }

  /** After 5550 bytes both sums still fit in 32 bits, whatever they started from. */
  lemma SumsFit(s1: nat, s2: nat, k: nat, x: nat, y: nat, b: byte)
    requires s1 < 65536 && s2 < 65536 && k < 5550 && SmallSums(s1, s2, k, x, y)
    ensures SmallSums(s1, s2, k + 1, x + b, y + (x + b))
    ensures (x + b) % UINT32 == x + b && (y + (x + b)) % UINT32 == y + (x + b)
  {
    assert 255 * (k + 1) * (k + 2) == 255 * k * (k + 1) + 2 * (255 * (k + 1));
    assert 2 * s1 * (k + 1) == 2 * s1 * k + 2 * s1;
    FewBytes(s1, k + 1);
  }

  lemma FewBytes(s1: nat, k: nat)
    requires s1 < 65536 && k <= 5550
    ensures s1 * k <= 65535 * 5550 && k * (k + 1) <= 5550 * 5551 && UINT32 == 4294967296
    ensures 2 * 65535 + 2 * s1 * k + 255 * k * (k + 1) < 2 * UINT32
  {
    assert s1 * k <= 65535 * k by { Monotone(s1, 65535, k); }
    assert k * (k + 1) <= 5550 * (k + 1) by { Monotone(k, 5550, k + 1); }
    assert 255 * k * (k + 1) == 255 * (k * (k + 1));
    assert 2 * s1 * k == 2 * (s1 * k);
  }

  /** The bytes between two reductions, with 32-bit sums. */
  method AddAmount(s1: nat, s2: nat, data: seq<byte>, from: nat, amount: nat) returns (x: nat, y: nat)
    requires s1 < 65536 && s2 < 65536 && from + amount <= |data| && amount <= 5550
    ensures var (a, b) := Sums(s1, s2, data[from..from + amount]); Same(x, a) && Same(y, b)
    ensures amount == 0 ==> x == s1 && y == s2
  {
    hide Sums, SmallSums, Same;
    ghost var part := data[from..from + amount];
    x, y := s1, s2;
    SumsNothing(s1, s2);
    for k := 0 to amount
      invariant SmallSums(s1, s2, k, x, y)
      invariant Same(x, Sums(s1, s2, part[..k]).0) && Same(y, Sums(s1, s2, part[..k]).1)
      invariant k == 0 ==> x == s1 && y == s2
    {
      assert part[k] == data[from + k];
      SumsStep(s1, s2, part, k, x, y);
      SumsFit(s1, s2, k, x, y, data[from + k]);
      x := (x + data[from + k]) % UINT32;
      y := (y + x) % UINT32;
    }
    assert part[..amount] == part;
  }

  lemma SumsNothing(s1: nat, s2: nat)
    ensures Sums(s1, s2, []) == (s1, s2) && SmallSums(s1, s2, 0, s1, s2) && Same(s1, s1) && Same(s2, s2)
  {
  }

  /** update_adler32: `len` is an unsigned of 32 bits. */
  method UpdateAdler(adler: nat, data: seq<byte>, len: nat) returns (r: nat)
    requires adler < UINT32 && len <= |data|
    ensures r == Adler(adler, data[..len])
  {
    hide Sums;
    ghost var t1, t2 := adler % 65536, adler / 65536 % 65536;
    var s1, s2 := adler % 65536, adler / 65536 % 65536;
    var pos: nat := 0;
    SumsNothing(t1, t2);
    while pos < len
      invariant pos <= len && s1 < 65536 && s2 < 65536
      invariant (s1, s2) == Sums(t1, t2, data[..pos])
      decreases len - pos
    {
      var amount := if len - pos > 5550 then 5550 else len - pos;
      var x, y := AddAmount(s1, s2, data, pos, amount);
      SumsChain(t1, t2, data[..pos], data[pos..pos + amount]);
      assert data[..pos] + data[pos..pos + amount] == data[..pos + amount];
      SumsReduced(s1, s2, data[pos..pos + amount]);
      s1, s2 := x % BASE, y % BASE;
      pos := pos + amount;
    }
    r := 65536 * s2 + s1;
  }

  /** The checksum of a buffer whose length is cut to 32 bits. */
  function Checksum(data: seq<byte>): (c: nat)
    ensures c < UINT32
  {
    AdlerChain(1, data[..|data| % UINT32], []);
    Adler(1, data[..|data| % UINT32])
  }

  // ----- The container -----

  /** lodepng_read32bitInt and lodepng_add32bitInt: most significant byte first */
  function Read32(b: seq<byte>): nat
    requires |b| == 4
  {
    16777216 * (b[0] as int) + 65536 * (b[1] as int) + 256 * (b[2] as int) + b[3] as int
  }

  function Write32(v: nat): (b: seq<byte>)
    requires v < UINT32
    ensures |b| == 4 && Read32(b) == v
  {
    var v1 := v / 256;
    var v2 := v1 / 256;
    [v2 / 256, v2 % 256, v1 % 256, v % 256]
  }

  /** The errors of the two header bytes, in the order they are looked for. */
  function HeaderError(cmf: byte, flg: byte): nat {
    if (256 * (cmf as int) + flg as int) % 31 != 0 then 24
    else if cmf % 16 != 8 || cmf / 16 > 7 then 25
    else if flg / 32 % 2 != 0 then 26
    else 0
  }

  /** What decompressing a zlib stream gives. */
  function Unzip(data: seq<byte>, ignoreAdler: bool): (r: Inflated) {
    if |data| < 2 then Fail(53)
    else if HeaderError(data[0], data[1]) != 0 then Fail(HeaderError(data[0], data[1]))
    else
      match InflateAll(data[2..])
      case Fail(e) => Fail(e)
      case Ok(out, bp) =>
        TrailerInRange(data[2..]);
        if !ignoreAdler && Checksum(out) != Read32(data[|data| - 4..]) then Fail(58) else Ok(out, bp)
  }

  lemma FixedEndCode(bits: seq<bool>, bp: nat)
    requires DecodeSymbol(FixedTrees().ll, FixedTrees().ll2d, bits, bp).symbol == 256
    ensures bp + 7 <= |bits|
  {
    hide CodeBits, Tree2d, Fits, Complete;
    FixedComplete();
    FixedTreesOk(FixedTrees());
    assert FixedLitLen()[256] == 7;
    DecodedIsCode(FixedLitLen(), 15, bits, bp);
  }

  /** Reading symbols with the fixed trees ends with symbol 256, whose code has seven bits. */
  lemma {:induction false} FixedNeedsBits(bits: seq<bool>, bp: nat, out: seq<byte>)
    requires bp <= |bits| && InflateSymbols(FixedTrees(), bits, bp, out).Ok?
    ensures bp + 7 <= |bits|
    decreases |bits| - bp
  {
    hide FixedTrees, ReadMatch, CopyMatch, DecodeSymbol, Sized;
    var t := FixedTrees();
    var c := DecodeSymbol(t.ll, t.ll2d, bits, bp);
    if c.symbol == 256 {
      FixedEndCode(bits, bp);
    } else if c.symbol <= 255 {
      FixedNeedsBits(bits, c.bp, out + [c.symbol]);
    } else {
      var m := ReadMatch(t, bits, c.bp, c.symbol, |out|);
      FixedNeedsBits(bits, m.bp, CopyMatch(out, m.length, m.distance));
    }
  }

  /** Nothing shorter than two bytes inflates, so the four bytes before the end of a zlib stream exist. */
  lemma TrailerInRange(data: seq<byte>)
    requires InflateAll(data).Ok?
    ensures |data| >= 2
  {
    hide InflateSymbols, FixedTrees, ReadTwoTrees;
    if BlockType(Bits(data), 0) == 1 {
      FixedNeedsBits(Bits(data), 3, []);
    }
  }

  /** lodepng_zlib_decompress */
  method Decompress(data: seq<byte>, ignoreAdler: bool) returns (error: nat, out: seq<byte>)
    ensures Unzip(data, ignoreAdler).Ok? ==> error == 0 && out == Unzip(data, ignoreAdler).out
    ensures Unzip(data, ignoreAdler).Fail? ==> error == Unzip(data, ignoreAdler).error && error != 0
  {
    hide InflateAll, Adler;
    if |data| < 2 {
      return 53, [];
    }
    if ((data[0] as int) * 256 + data[1] as int) % 31 != 0 {
      return 24, [];
    }
    var cm, cinfo, fdict := data[0] % 16, data[0] / 16 % 16, data[1] / 32 % 2;
    if cm != 8 || cinfo > 7 {
      return 25, [];
    }
    if fdict != 0 {
      return 26, [];
    }
    ghost var bp;
    error, out, bp := InflateData(data[2..]);
    if error != 0 {
      return;
    }
    if !ignoreAdler {
      TrailerInRange(data[2..]);
      var stored := Read32(data[|data| - 4..]);
      var checksum := UpdateAdler(1, out, |out| % UINT32);
      if checksum != stored {
        return 58, out;
      }
    }
  }

  /** A stream that holds `content` with checksum c: what comes back is the content, if anything does. */
  lemma Unzipped(deflated: seq<byte>, content: seq<byte>, c: nat)
    requires c < UINT32 && Decodes(deflated + Write32(c), content)
    ensures var all := [120, 1] + deflated + Write32(c);
            forall i :: (Unzip(all, i).Ok? <==> i || Checksum(content) == c)
              && (Unzip(all, i).Ok? ==> Unzip(all, i).out == content)
  {
    hide InflateAll, Checksum, Read32;
    var trailer := Write32(c);
    var all := [120, 1] + deflated + trailer;
    assert all[2..] == deflated + trailer;
    assert all[|all| - 4..] == trailer;
    assert all[0] == 120 && all[1] == 1;
  }

  lemma ChecksumNothing()
    ensures Checksum([]) == 1
  {
    assert Sums(1, 0, []) == (1, 0);
  }

  lemma UnzipNothing(out: seq<byte>)
    requires out == [120, 1] + [] + Write32(1)
    ensures forall i :: Unzip(out, i) == Fail(52)
  {
    hide InflateAll, InflateBlocks;
    var rest := out[2..];
    assert rest == [0, 0, 0, 1];
    NoBlock(rest);
  }

  /** A stored block without its length. */
  lemma NoBlock(rest: seq<byte>)
    requires rest == [0, 0, 0, 1]
    ensures InflateAll(rest) == Fail(52)
  {
    hide *;
    NoHeadBits(rest);
    NoLength(rest);
    BlocksStep(rest, 0, []);
    AllBlocks(rest);
  }

  lemma NoHeadBits(rest: seq<byte>)
    requires rest == [0, 0, 0, 1]
    ensures |rest| == 4 && BitValue(BitAt(rest, 1)) == 0 && BitValue(BitAt(rest, 2)) == 0
  {
    hide TestBit;
    ZeroBits(1);
    ZeroBits(2);
  }

  lemma NoLength(rest: seq<byte>)
    requires |rest| == 4
    ensures InflateBlock(rest, 3, 0, []) == Fail(52)
  {
    hide InflateSymbols, ReadTrees, FixedTrees, Bits;
  }

  /** The stream gives back the data, with and without the checksum being looked at. */
  ghost predicate Zipped(out: seq<byte>, data: seq<byte>, ignoreAdler: bool) {
    Unzip(out, ignoreAdler).Ok? && Unzip(out, ignoreAdler).out == data
  }

  /** lodepng_zlib_compress: what it wrote gives back the data exactly when the data survives */
  method Compress(data: seq<byte>, settings: Settings) returns (defined: bool, error: nat, out: seq<byte>)
    ensures defined <==> !(settings.btype == 1 && data == [])
    ensures defined ==> error == DeflateError(settings)
    ensures defined && error == 0 ==> forall i :: Zipped(out, data, i) <==> Survives(data, settings)
    ensures defined && error == 0 && settings.btype == 0 && data == [] ==> forall i :: Unzip(out, i) == Fail(52)
  {
    hide Unzip, Decodes, Adler, Read32, StoredContent, Storable;
    var cmfflg: nat := 256 * 120 + 0 * 32 + 0 * 64;
    var fcheck := 31 - cmfflg % 31;
    cmfflg := cmfflg + fcheck;
    out := [cmfflg / 256, cmfflg % 256];
    var deflated;
    defined, error, deflated := Deflate(data, settings);
    if defined && error == 0 {
      var adler := UpdateAdler(1, data, |data| % UINT32);
      assert adler == Checksum(data);
      out := out + deflated + Write32(adler);
      if settings.btype == 0 && data == [] {
        assert adler == 1 by { ChecksumNothing(); }
        UnzipNothing(out);
      } else {
        ghost var content := if settings.btype == 0 then StoredContent(data) else data;
        assert Decodes(deflated + Write32(adler), content);
        Unzipped(deflated, content, adler);
        StoredContentIs(data);
      }
    }
  }
}
