/** The decoder of lodepng: inflating a DEFLATE stream (RFC 1951). */
module Inflate {
  import opened Powers
  import opened BitStream
  import opened PrefixCode
  import opened HuffmanTree
  import opened TreeInvariant
  import opened Lz77
  import opened CodeLengthRle

  /** The order in which the lengths of the code length alphabet are stored. */
  function ClclOrder(): (r: seq<nat>)
    ensures |r| == 19 && forall i :: 0 <= i < 19 ==> r[i] < 19
  {
    [16, 17, 18, 0, 8, 7, 9, 6, 10, 5, 11, 4, 12, 3, 13, 2, 14, 1, 15]
  }

  // ----- Trees -----

  /** The code lengths and array trees of the literal/length and distance alphabets. */
  datatype Trees = Trees(ll: seq<nat>, ll2d: seq<nat>, d: seq<nat>, d2d: seq<nat>)

  predicate Sized(t: Trees) {
    |t.ll2d| == 2 * |t.ll| && |t.d2d| == 2 * |t.d| && 0 < |t.ll| && 0 < |t.d|
  }

  function FixedLength(i: nat): nat {
    if i <= 143 then 8 else if i <= 255 then 9 else if i <= 279 then 7 else 8
  }

  /** generateFixedLitLenTree and generateFixedDistanceTree */
  function FixedLitLen(): (r: seq<nat>)
    ensures |r| == 288
    ensures forall i :: 0 <= i < 288 ==> r[i] == FixedLength(i)
  {
    seq(288, i requires 0 <= i < 288 => FixedLength(i))
  }

  function FixedDist(): (r: seq<nat>)
    ensures |r| == 32
    ensures forall i :: 0 <= i < 32 ==> r[i] == 5
  {
    seq(32, _ => 5)
  }

  // ----- Blocks of compressed symbols -----

  datatype Inflated = Ok(out: seq<byte>, bp: nat) | Fail(error: nat)

  datatype MatchRead = GotMatch(length: nat, distance: nat, bp: nat) | BadMatch(error: nat)

  /** The rest of a length/distance pair after its length symbol. */
  function ReadMatch(t: Trees, bits: seq<bool>, bp: nat, symbol: nat, outlen: nat): (r: MatchRead)
    requires Sized(t) && 257 <= symbol <= 285 && bp <= |bits|
    ensures r.GotMatch? ==> bp <= r.bp <= |bits| && 0 < r.distance <= outlen
  {
    var nl := LengthExtra()[symbol - 257];
    if bp + nl > |bits| then BadMatch(51)
    else
      var length := LengthBase()[symbol - 257] + Value(bits[bp..bp + nl]);
      var c := DecodeSymbol(t.d, t.d2d, bits, bp + nl);
      if !(0 <= c.symbol <= 29) then BadMatch(18)
      else
        var nd := DistanceExtra()[c.symbol];
        if c.bp + nd > |bits| then BadMatch(51)
        else
          var distance := DistanceBase()[c.symbol] + Value(bits[c.bp..c.bp + nd]);
          DistancePositive(c.symbol);
          if distance > outlen then BadMatch(52)
          else GotMatch(length, distance, c.bp + nd)
  }

  lemma DistancePositive(i: nat)
    requires i < 30
    ensures DistanceBase()[i] > 0
  {
  }

  /** The symbols of a block up to its end code. */
  function InflateSymbols(t: Trees, bits: seq<bool>, bp: nat, out: seq<byte>): (r: Inflated)
    requires Sized(t) && bp <= |bits|
    ensures r.Ok? ==> bp < r.bp <= |bits|
    decreases |bits| - bp
  {
    var c := DecodeSymbol(t.ll, t.ll2d, bits, bp);
    if 0 <= c.symbol <= 255 then InflateSymbols(t, bits, c.bp, out + [c.symbol])
    else if 257 <= c.symbol <= 285 then
      match ReadMatch(t, bits, c.bp, c.symbol, |out|)
      case BadMatch(e) => Fail(e)
      case GotMatch(l, d, bp') => InflateSymbols(t, bits, bp', CopyMatch(out, l, d))
    else if c.symbol == 256 then Ok(out, c.bp)
    else Fail(if c.bp > |bits| then 10 else 11)
  }

  // ----- The trees of a dynamic block -----

  datatype LengthsRead = GotLengths(lengths: seq<nat>, bp: nat) | BadLengths(error: nat)

  /** One code length symbol: a value, how often it is stored, and the error if it does not fit. */
  datatype RunRead = GotRun(value: nat, count: nat, overflow: nat, bp: nat) | BadRun(error: nat)

  function ReadRun(cl: seq<nat>, cl2d: seq<nat>, bits: seq<bool>, bp: nat, out: seq<nat>): (r: RunRead)
    requires |cl2d| == 2 * |cl| && 0 < |cl| && bp <= |bits|
    ensures r.GotRun? ==> bp < r.bp <= |bits| && r.count >= 1 && r.overflow != 0
  {
    var c := DecodeSymbol(cl, cl2d, bits, bp);
    if 0 <= c.symbol <= 15 then GotRun(c.symbol, 1, 1, c.bp)
    else if c.symbol == 16 then
      if out == [] then BadRun(54)
      else if c.bp + 2 > |bits| then BadRun(50)
      else GotRun(out[|out| - 1], 3 + Value(bits[c.bp..c.bp + 2]), 13, c.bp + 2)
    else if c.symbol == 17 then
      if c.bp + 3 > |bits| then BadRun(50)
      else GotRun(0, 3 + Value(bits[c.bp..c.bp + 3]), 14, c.bp + 3)
    else if c.symbol == 18 then
      if c.bp + 7 > |bits| then BadRun(50)
      else GotRun(0, 11 + Value(bits[c.bp..c.bp + 7]), 15, c.bp + 7)
    else if c.symbol == -1 then BadRun(if c.bp > |bits| then 10 else 11)
    else BadRun(16)
  }

  /** The lengths of both alphabets, `total` of them. */
  function ReadLengths(cl: seq<nat>, cl2d: seq<nat>, bits: seq<bool>, bp: nat, total: nat,
                       out: seq<nat>): (r: LengthsRead)
    requires |cl2d| == 2 * |cl| && 0 < |cl| && bp <= |bits| && |out| <= total
    ensures r.GotLengths? ==> bp <= r.bp <= |bits| && |r.lengths| == total
    decreases |bits| - bp
  {
    if |out| == total then GotLengths(out, bp)
    else
      match ReadRun(cl, cl2d, bits, bp, out)
      case BadRun(e) => BadLengths(e)
      case GotRun(v, n, overflow, bp') =>
        if |out| + n > total then BadLengths(overflow)
        else ReadLengths(cl, cl2d, bits, bp', total, out + Run(v, n))
  }

  /** The lengths of the code length alphabet: n fields of three bits, in their own order. */
  function ReadClcl(bits: seq<bool>, bp: nat, n: nat, k: nat): (r: seq<nat>)
    requires k <= 19 && n <= 19 && bp + 3 * n <= |bits|
    ensures |r| == 19
  {
    if k == 0 then seq(19, _ => 0)
    else
      ReadClcl(bits, bp, n, k - 1)[ClclOrder()[k - 1] :=
        if k - 1 < n then Value(bits[bp + 3 * (k - 1)..bp + 3 * k]) else 0]
  }

  datatype TreesRead = GotTrees(trees: Trees, bp: nat) | BadTrees(error: nat)

  function PadTo(s: seq<nat>, n: nat): (r: seq<nat>)
    requires |s| <= n
    ensures |r| == n
  {
    s + seq(n - |s|, _ => 0)
  }

  /** The part of getTreeInflateDynamic after the three counts. */
  function ReadTwoTrees(bits: seq<bool>, bp: nat, hlit: nat, hdist: nat, hclen: nat): (r: TreesRead)
    requires 257 <= hlit <= 288 && 1 <= hdist <= 32 && hclen <= 19 && bp + 3 * hclen <= |bits|
    ensures r.GotTrees? ==> Sized(r.trees) && bp <= r.bp <= |bits|
  {
    var cl := ReadClcl(bits, bp, hclen, 19);
    match Tree2d(cl)
    case None => BadTrees(55)
    case Some(cl2d) =>
      match ReadLengths(cl, cl2d, bits, bp + 3 * hclen, hlit + hdist, [])
      case BadLengths(e) => BadTrees(e)
      case GotLengths(lengths, bp') => MakeTwoTrees(PadTo(lengths[..hlit], 288), PadTo(lengths[hlit..], 32), bp')
  }

  function MakeTwoTrees(ll: seq<nat>, d: seq<nat>, bp: nat): (r: TreesRead)
    requires |ll| == 288 && |d| == 32
    ensures r.GotTrees? ==> Sized(r.trees) && r.bp == bp
  {
    if ll[256] == 0 then BadTrees(64)
    else
      match Tree2d(ll)
      case None => BadTrees(55)
      case Some(ll2d) =>
        match Tree2d(d)
        case None => BadTrees(55)
        case Some(d2d) => GotTrees(Trees(ll, ll2d, d, d2d), bp)
  }

  /** getTreeInflateDynamic */
  function ReadTrees(bits: seq<bool>, bp: nat): (r: TreesRead)
    ensures r.GotTrees? ==> Sized(r.trees) && bp <= r.bp <= |bits|
  {
    if bp + 14 > |bits| then BadTrees(49)
    else
      ValueBound(bits[bp..bp + 5]);
      ValueBound(bits[bp + 5..bp + 10]);
      ValueBound(bits[bp + 10..bp + 14]);
      FieldSizes();
      var hlit := Value(bits[bp..bp + 5]) + 257;
      var hdist := Value(bits[bp + 5..bp + 10]) + 1;
      var hclen := Value(bits[bp + 10..bp + 14]) + 4;
      if bp + 14 + 3 * hclen > |bits| then BadTrees(50)
      else ReadTwoTrees(bits, bp + 14, hlit, hdist, hclen)
  }

  lemma FieldSizes()
    ensures Pow2(2) == 4 && Pow2(3) == 8 && Pow2(4) == 16 && Pow2(5) == 32 && Pow2(7) == 128
  {
    assert Pow2(2) == 4;
    assert Pow2(4) == 16;
    assert Pow2(6) == 64;
  }

  // ----- The fixed trees -----

  lemma {:induction false} FixedKraft(n: nat)
    requires n <= 288
    ensures KraftTo(FixedLitLen(), n, 15) ==
            if n <= 144 then 128 * n
            else if n <= 256 then 18432 + 64 * (n - 144)
            else if n <= 280 then 25600 + 256 * (n - 256)
            else 31744 + 128 * (n - 280)
  {
    if n > 0 {
      FixedKraft(n - 1);
      FixedShares();
    }
  }

  lemma FixedShares()
    ensures Share(7, 15) == 256 && Share(8, 15) == 128 && Share(9, 15) == 64 && Share(5, 15) == 1024
    ensures Pow2(15) == 32768
  {
    assert Pow2(6) == 64 by { PowersTo13(); }
    assert Pow2(7) == 128 && Pow2(8) == 256 && Pow2(10) == 1024 by { PowersTo13(); }
    assert Pow2(15) == 2 * Pow2(14) == 4 * Pow2(13) by { PowersTo13(); }
    PowersTo13();
  }

  lemma {:induction false} FixedDistKraft(n: nat)
    requires n <= 32
    ensures KraftTo(FixedDist(), n, 15) == 1024 * n
  {
    if n > 0 {
      FixedDistKraft(n - 1);
      FixedShares();
    }
  }

  lemma FixedComplete()
    ensures Complete(FixedLitLen(), 15) && Complete(FixedDist(), 15)
    ensures Tree2d(FixedLitLen()).Some? && Tree2d(FixedDist()).Some?
  {
    hide KraftTo, Tree2d;
    FixedKraft(288);
    FixedDistKraft(32);
    FixedShares();
    CompleteTree(FixedLitLen(), 15);
    CompleteTree(FixedDist(), 15);
  }

  /** getTreeInflateFixed */
  function FixedTrees(): (t: Trees)
    ensures Sized(t) && t.ll == FixedLitLen() && t.d == FixedDist()
    ensures Tree2d(t.ll) == Some(t.ll2d) && Tree2d(t.d) == Some(t.d2d)
  {
    FixedComplete();
    Trees(FixedLitLen(), Tree2d(FixedLitLen()).value, FixedDist(), Tree2d(FixedDist()).value)
  }

  // ----- Whole streams -----

  function TwoBytes(lo: byte, hi: byte): nat {
    (lo as int) + 256 * (hi as int)
  }

  /** inflateNoCompression */
  function InflateStored(data: seq<byte>, bp: nat, out: seq<byte>): (r: Inflated)
    ensures r.Ok? ==> bp < r.bp <= 8 * |data|
  {
    var p := (bp + 7) / 8;
    if p + 4 >= |data| then Fail(52)
    else
      var len := TwoBytes(data[p], data[p + 1]);
      var nlen := TwoBytes(data[p + 2], data[p + 3]);
      if len + nlen != 65535 then Fail(21)
      else if p + 4 + len > |data| then Fail(23)
      else Ok(out + data[p + 4..p + 4 + len], 8 * (p + 4 + len))
  }

  /** The body of one block of the given type. */
  function InflateBlock(data: seq<byte>, bp: nat, btype: nat, out: seq<byte>): (r: Inflated)
    requires bp <= 8 * |data|
    ensures r.Ok? ==> bp < r.bp <= 8 * |data|
  {
    if btype == 0 then InflateStored(data, bp, out)
    else if btype == 1 then InflateSymbols(FixedTrees(), Bits(data), bp, out)
    else if btype == 2 then
      match ReadTrees(Bits(data), bp)
      case BadTrees(e) => Fail(e)
      case GotTrees(t, bp') => InflateSymbols(t, Bits(data), bp', out)
    else Fail(20)
  }

  function BlockType(bits: seq<bool>, bp: nat): (t: nat)
    requires bp + 2 < |bits|
    ensures t <= 3
  {
    BitValue(bits[bp + 1]) + 2 * BitValue(bits[bp + 2])
  }

  /** lodepng_inflatev, from a block boundary on. */
  function InflateBlocks(data: seq<byte>, bp: nat, out: seq<byte>): (r: Inflated)
    ensures r.Ok? ==> bp < r.bp <= 8 * |data|
    decreases 8 * |data| - bp
  {
    var bits := Bits(data);
    if bp + 2 >= |bits| then Fail(52)
    else
      match InflateBlock(data, bp + 3, BlockType(bits, bp), out)
      case Fail(e) => Fail(e)
      case Ok(out', bp') => if bits[bp] then Ok(out', bp') else InflateBlocks(data, bp', out')
  }

  /** lodepng_inflate into an empty buffer */
  function InflateAll(data: seq<byte>): Inflated {
    InflateBlocks(data, 0, [])
  }

  lemma AllBlocks(data: seq<byte>)
    ensures InflateAll(data) == InflateBlocks(data, 0, [])
  {
    hide InflateBlocks;
  }

  lemma BlocksStep(data: seq<byte>, bp: nat, out: seq<byte>)
    ensures InflateBlocks(data, bp, out) ==
            if bp + 2 >= 8 * |data| then Fail(52)
            else
              var btype := BitValue(BitAt(data, bp + 1)) + 2 * BitValue(BitAt(data, bp + 2));
              match InflateBlock(data, bp + 3, btype, out)
              case Fail(e) => Fail(e)
              case Ok(out', bp') => if BitAt(data, bp) then Ok(out', bp') else InflateBlocks(data, bp', out')
  {
    hide InflateBlock;
  }
}
