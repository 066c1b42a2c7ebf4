/** The imperative decoder; every method returns what the functions of Inflate say, error codes included. */
module Inflator {
  import opened Powers
  import opened BitStream
  import opened PrefixCode
  import opened HuffmanTree
  import opened TreeInvariant
  import opened Lz77
  import opened CodeLengthRle
  import opened Inflate

  /** A method's results agree with the decoding function. */
  ghost predicate Agrees(r: Inflated, error: nat, out: seq<byte>, bp: nat) {
    if error == 0 then r == Ok(out, bp) else r == Fail(error)
  }

  /** The trees a decoder method holds, as the decoding functions see them. */
  ghost function View(ll: Huffman, d: Huffman): Trees {
    Trees(ll.lengths, ll.tree2d, d.lengths, d.tree2d)
  }

  // ----- Copying -----

  /** Part 5 of inflateHuffmanBlock: byte by byte when the ranges overlap, at once otherwise. */
  method CopyBytes(out: seq<byte>, length: nat, distance: nat) returns (r: seq<byte>)
    requires 0 < distance <= |out|
    ensures r == CopyMatch(out, length, distance)
  {
    var backward := |out| - distance;
    r := out;
    if distance < length {
      for forward := 0 to length
        invariant |r| == |out| + forward
        invariant backward + distance == |r|
        invariant CopyMatch(out, length, distance) == CopyMatch(r, length - forward, distance)
      {
        r := r + [r[backward]];
        backward := backward + 1;
      }
    } else {
      CopyAtOnce(out, length, distance);
      r := out + out[backward..backward + length];
    }
  }

  /** Ranges that do not overlap can be copied at once. */
  lemma {:induction false} CopyAtOnce(out: seq<byte>, length: nat, distance: nat)
    requires length <= distance <= |out| && 0 < distance
    ensures CopyMatch(out, length, distance) == out + out[|out| - distance..|out| - distance + length]
    decreases length
  {
    if length > 0 {
      var b := |out| - distance;
      var next := out + [out[b]];
      CopyAtOnce(next, length - 1, distance);
      assert next[|next| - distance..|next| - distance + (length - 1)] == out[b + 1..b + length];
      assert [out[b]] + out[b + 1..b + length] == out[b..b + length];
    }
  }

  // ----- Symbols -----

  /** Parts 1 to 4 of inflateHuffmanBlock: the length and distance behind a length symbol. */
  method ReadLengthDistance(data: seq<byte>, bp: nat, ll: Huffman, d: Huffman, symbol: nat, outlen: nat)
    returns (error: nat, length: nat, distance: nat, bp': nat)
    requires Sized(View(ll, d)) && 257 <= symbol <= 285 && bp <= 8 * |data|
    ensures ReadMatch(View(ll, d), Bits(data), bp, symbol, outlen) ==
            if error == 0 then GotMatch(length, distance, bp') else BadMatch(error)
  {
    hide DecodeSymbol, Value, LengthBase, LengthExtra, DistanceBase, DistanceExtra;
    length, distance, bp' := 0, 0, bp;
    var numextrabits := LengthExtra()[symbol - 257];
    if bp' + numextrabits > 8 * |data| {
      return 51, length, distance, bp';
    }
    var extra;
    extra, bp' := ReadBits(data, bp', numextrabits);
    length := LengthBase()[symbol - 257] + extra;
    var code;
    code, bp' := HuffmanDecodeSymbol(data, bp', d);
    if !(0 <= code <= 29) {
      return 18, length, distance, bp';
    }
    var numextrabitsD := DistanceExtra()[code];
    if bp' + numextrabitsD > 8 * |data| {
      return 51, length, distance, bp';
    }
    extra, bp' := ReadBits(data, bp', numextrabitsD);
    distance := DistanceBase()[code] + extra;
    if distance > outlen {
      return 52, length, distance, bp';
    }
    error := 0;
  }

  /** The symbol loop of inflateHuffmanBlock */
  method InflateHuffmanSymbols(data: seq<byte>, bp: nat, ll: Huffman, d: Huffman, start: seq<byte>)
    returns (error: nat, out: seq<byte>, bp': nat)
    requires Sized(View(ll, d)) && bp <= 8 * |data|
    ensures Agrees(InflateSymbols(View(ll, d), Bits(data), bp, start), error, out, bp')
  {
    hide DecodeSymbol, ReadMatch, CopyMatch, Bits;
    error, out, bp' := 0, start, bp;
    ghost var t, bits := View(ll, d), Bits(data);
    while true
      invariant bp' <= 8 * |data|
      invariant InflateSymbols(t, bits, bp, start) == InflateSymbols(t, bits, bp', out)
      decreases 8 * |data| - bp'
    {
      var symbol;
      symbol, bp' := HuffmanDecodeSymbol(data, bp', ll);
      if 0 <= symbol <= 255 {
        out := out + [symbol];
      } else if 257 <= symbol <= 285 {
        var length, distance;
        error, length, distance, bp' := ReadLengthDistance(data, bp', ll, d, symbol, |out|);
        if error != 0 {
          return;
        }
        out := CopyBytes(out, length, distance);
      } else if symbol == 256 {
        return;
      } else {
        // The bit pointer never passes the end of the input, so error 10 does not occur here.
        error := 11;
        return;
      }
    }
  }

  /** The byte position at or after a bit position. */
  method AlignByte(bp: nat) returns (p: nat)
    ensures p == (bp + 7) / 8
  {
    var b := bp;
    ghost var last := 8 * ((bp + 7) / 8);
    while b % 8 != 0
      invariant bp <= b <= last
      decreases last - b
    {
      b := b + 1;
    }
    p := b / 8;
  }

  method CopyStored(data: seq<byte>, p: nat, len: nat, start: seq<byte>) returns (out: seq<byte>)
    requires p + len <= |data|
    ensures out == start + data[p..p + len]
  {
    out := start;
    for n := 0 to len
      invariant out == start + data[p..p + n]
    {
      out := out + [data[p + n]];
    }
  }

  /** inflateNoCompression */
  method InflateNoCompression(data: seq<byte>, bp: nat, start: seq<byte>) returns (error: nat, out: seq<byte>, bp': nat)
    ensures Agrees(InflateStored(data, bp, start), error, out, bp')
  {
    hide TwoBytes;
    error, out, bp' := 0, start, bp;
    var p := AlignByte(bp);
    if p + 4 >= |data| {
      error := 52;
      return;
    }
    var len := TwoBytes(data[p], data[p + 1]);
    var nlen := TwoBytes(data[p + 2], data[p + 3]);
    p := p + 4;
    if len + nlen != 65535 {
      error := 21;
      return;
    }
    if p + len > |data| {
      error := 23;
      return;
    }
    out := CopyStored(data, p, len, start);
    bp' := 8 * (p + len);
  }

  // ----- The trees of a dynamic block -----

  /** The lengths read so far, split between the two alphabets and padded with zeros. */
  ghost predicate Split(out: seq<nat>, hlit: nat, hdist: nat, ll: seq<nat>, d: seq<nat>) {
    && hlit <= 288 && hdist <= 32 && |out| <= hlit + hdist && |ll| == 288 && |d| == 32
    && (forall k :: 0 <= k < 288 ==> ll[k] == if k < |out| && k < hlit then out[k] else 0)
    && (forall k :: 0 <= k < 32 ==> d[k] == if hlit + k < |out| then out[hlit + k] else 0)
  }

  /** Stores one value n times; a run that does not fit is an error of its caller. */
  method StoreRun(value: nat, n: nat, hlit: nat, hdist: nat, i: nat, ll: seq<nat>, d: seq<nat>, overflow: nat,
                  ghost out: seq<nat>)
    returns (error: nat, i': nat, ll': seq<nat>, d': seq<nat>)
    requires Split(out, hlit, hdist, ll, d) && i == |out| && overflow != 0
    ensures error == if |out| + n > hlit + hdist then overflow else 0
    ensures error == 0 ==> i' == |out| + n && Split(out + Run(value, n), hlit, hdist, ll', d')
  {
    error, i', ll', d' := 0, i, ll, d;
    for k := 0 to n
      invariant i' == i + k && Split(out + Run(value, k), hlit, hdist, ll', d')
    {
      if i' >= hlit + hdist {
        error := overflow;
        return;
      }
      assert out + Run(value, k + 1) == (out + Run(value, k)) + [value];
      if i' < hlit {
        ll' := ll'[i' := value];
      } else {
        d' := d'[i' - hlit := value];
      }
      i' := i' + 1;
    }
  }

  /** The value a repeat code copies: the length stored last, in either alphabet. */
  method Previous(i: nat, hlit: nat, hdist: nat, ll: seq<nat>, d: seq<nat>, ghost out: seq<nat>) returns (value: nat)
    requires Split(out, hlit, hdist, ll, d) && i == |out| > 0
    ensures value == out[|out| - 1]
  {
    value := if i < hlit + 1 then ll[i - 1] else d[i - hlit - 1];
  }

  /** The extra bits of a repeat code, if they are all there. */
  method ReadExtra(data: seq<byte>, bp: nat, width: nat) returns (error: nat, extra: nat, bp': nat)
    ensures error == if bp + width > 8 * |data| then 50 else 0
    ensures error == 0 ==> extra == Value(Bits(data)[bp..bp + width]) && bp' == bp + width
  {
    error, extra, bp' := 0, 0, bp;
    if bp + width > 8 * |data| {
      error := 50;
    } else {
      extra, bp' := ReadBits(data, bp, width);
    }
  }

  /** One turn of the loop of getTreeInflateDynamic: a code length symbol and its extra bits. */
  method ReadOneSymbol(data: seq<byte>, bp: nat, cl: Huffman, i: nat, hlit: nat, hdist: nat, ll: seq<nat>, d: seq<nat>,
                       ghost out: seq<nat>)
    returns (error: nat, value: nat, n: nat, overflow: nat, bp': nat)
    requires |cl.tree2d| == 2 * |cl.lengths| && |cl.lengths| == 19 && bp <= 8 * |data|
    requires Split(out, hlit, hdist, ll, d) && i == |out|
    ensures ReadRun(cl.lengths, cl.tree2d, Bits(data), bp, out) ==
            if error == 0 then GotRun(value, n, overflow, bp') else BadRun(error)
    ensures error == 0 ==> value <= 15 || (i > 0 && value == out[i - 1])
  {
    hide DecodeSymbol, Split, Value, Bits;
    var code;
    code, bp' := HuffmanDecodeSymbol(data, bp, cl);
    error, value, n, overflow := 0, 0, 1, 1;
    if code < 0 {
      // The bit pointer never passes the end of the input, so error 10 does not occur here.
      error := 11;
    } else if code <= 15 {
      value := code;
    } else if code == 16 {
      if i == 0 {
        error := 54;
        return;
      }
      error, n, bp' := ReadExtra(data, bp', 2);
      value := Previous(i, hlit, hdist, ll, d, out);
      n, overflow := n + 3, 13;
    } else if code == 17 {
      error, n, bp' := ReadExtra(data, bp', 3);
      n, overflow := n + 3, 14;
    } else {
      error, n, bp' := ReadExtra(data, bp', 7);
      n, overflow := n + 11, 15;
    }
  }

  /** The loop of getTreeInflateDynamic that fills bitlen_ll and bitlen_d. */
  method ReadCodeLengths(data: seq<byte>, bp: nat, cl: Huffman, hlit: nat, hdist: nat)
    returns (error: nat, ll: seq<nat>, d: seq<nat>, bp': nat, ghost out: seq<nat>)
    requires |cl.tree2d| == 2 * |cl.lengths| && |cl.lengths| == 19 && bp <= 8 * |data| && hlit <= 288 && hdist <= 32
    ensures ReadLengths(cl.lengths, cl.tree2d, Bits(data), bp, hlit + hdist, []) ==
            if error == 0 then GotLengths(out, bp') else BadLengths(error)
    ensures error == 0 ==> Split(out, hlit, hdist, ll, d) && Bounded(out, 15)
  {
    hide ReadRun, Split, Bits;
    error, bp', out := 0, bp, [];
    ll, d := seq(288, _ => 0), seq(32, _ => 0);
    SplitStart(hlit, hdist, ll, d);
    var i := 0;
    ghost var bits := Bits(data);
    while i < hlit + hdist
      invariant i == |out| <= hlit + hdist && bp' <= 8 * |data|
      invariant Split(out, hlit, hdist, ll, d) && Bounded(out, 15)
      invariant ReadLengths(cl.lengths, cl.tree2d, bits, bp, hlit + hdist, []) ==
                ReadLengths(cl.lengths, cl.tree2d, bits, bp', hlit + hdist, out)
      decreases 8 * |data| - bp'
    {
      var value, n, overflow;
      error, value, n, overflow, bp' := ReadOneSymbol(data, bp', cl, i, hlit, hdist, ll, d, out);
      if error != 0 {
        return;
      }
      error, i, ll, d := StoreRun(value, n, hlit, hdist, i, ll, d, overflow, out);
      if error != 0 {
        return;
      }
      out := out + Run(value, n);
    }
  }

  lemma SplitStart(hlit: nat, hdist: nat, ll: seq<nat>, d: seq<nat>)
    requires hlit <= 288 && hdist <= 32 && ll == seq(288, _ => 0) && d == seq(32, _ => 0)
    ensures Split([], hlit, hdist, ll, d)
  {
  }

  /** The lengths of the code length alphabet. */
  method ReadCodeLengthCode(data: seq<byte>, bp: nat, hclen: nat) returns (cl: seq<nat>, bp': nat)
    requires hclen <= 19 && bp + 3 * hclen <= 8 * |data|
    ensures cl == ReadClcl(Bits(data), bp, hclen, 19) && bp' == bp + 3 * hclen && Bounded(cl, 7)
  {
    hide Value, Bits, ClclOrder;
    cl, bp' := seq(19, _ => 0), bp;
    for i := 0 to 19
      invariant bp' == bp + 3 * (if i < hclen then i else hclen)
      invariant cl == ReadClcl(Bits(data), bp, hclen, i) && |cl| == 19 && Bounded(cl, 7)
    {
      var v := 0;
      if i < hclen {
        v, bp' := ReadBits(data, bp', 3);
        ThreeBits(Bits(data)[bp + 3 * i..bp + 3 * i + 3]);
      }
      cl := cl[ClclOrder()[i] := v];
    }
  }

  lemma ThreeBits(bits: seq<bool>)
    requires |bits| == 3
    ensures Value(bits) <= 7
  {
    ValueBound(bits);
    FieldSizes();
  }

  ghost predicate TreesAgree(r: TreesRead, error: nat, ll: Huffman, d: Huffman, bp: nat) {
    if error == 0 then r == GotTrees(View(ll, d), bp) else r == BadTrees(error)
  }

  /** The two trees, once the lengths are known. */
  method MakeBoth(ll: seq<nat>, d: seq<nat>, bp: nat) returns (error: nat, treeLl: Huffman, treeD: Huffman)
    requires |ll| == 288 && |d| == 32 && Bounded(ll, 15) && Bounded(d, 15)
    ensures TreesAgree(MakeTwoTrees(ll, d, bp), error, treeLl, treeD, bp)
  {
    hide Tree2d;
    treeLl, treeD := Huffman([], [], []), Huffman([], [], []);
    if ll[256] == 0 {
      return 64, treeLl, treeD;
    }
    error, treeLl := MakeFromLengths(ll, 15);
    if error != 0 {
      return;
    }
    error, treeD := MakeFromLengths(d, 15);
  }

  lemma SplitPads(out: seq<nat>, hlit: nat, hdist: nat, ll: seq<nat>, d: seq<nat>)
    requires Split(out, hlit, hdist, ll, d) && |out| == hlit + hdist && Bounded(out, 15)
    ensures ll == PadTo(out[..hlit], 288) && d == PadTo(out[hlit..], 32)
    ensures Bounded(ll, 15) && Bounded(d, 15)
  {
  }

  method ReadCountFields(data: seq<byte>, bp: nat) returns (hlit: nat, hdist: nat, hclen: nat, bp': nat)
    requires bp + 14 <= 8 * |data|
    ensures bp' == bp + 14 && hlit <= 288 && hdist <= 32 && hclen <= 19
    ensures hlit == Value(Bits(data)[bp..bp + 5]) + 257
    ensures hdist == Value(Bits(data)[bp + 5..bp + 10]) + 1
    ensures hclen == Value(Bits(data)[bp + 10..bp + 14]) + 4
  {
    hide Value, Bits;
    ghost var bits := Bits(data);
    ValueBound(bits[bp..bp + 5]);
    ValueBound(bits[bp + 5..bp + 10]);
    ValueBound(bits[bp + 10..bp + 14]);
    FieldSizes();
    hlit, bp' := ReadBits(data, bp, 5);
    hdist, bp' := ReadBits(data, bp', 5);
    hclen, bp' := ReadBits(data, bp', 4);
    hlit, hdist, hclen := hlit + 257, hdist + 1, hclen + 4;
  }

  method ReadBoth(data: seq<byte>, bp: nat, hlit: nat, hdist: nat, hclen: nat)
    returns (error: nat, ll: Huffman, d: Huffman, bp': nat)
    requires 257 <= hlit <= 288 && 1 <= hdist <= 32 && hclen <= 19 && bp + 3 * hclen <= 8 * |data|
    ensures TreesAgree(ReadTwoTrees(Bits(data), bp, hlit, hdist, hclen), error, ll, d, bp')
  {
    hide ReadLengths, ReadClcl, Tree2d, Split, MakeTwoTrees, Bits, PadTo, Bounded;
    ll, d := Huffman([], [], []), Huffman([], [], []);
    var cl, treeCl, bitlenLl, bitlenD;
    cl, bp' := ReadCodeLengthCode(data, bp, hclen);
    error, treeCl := MakeFromLengths(cl, 7);
    if error != 0 {
      return;
    }
    ghost var out;
    error, bitlenLl, bitlenD, bp', out := ReadCodeLengths(data, bp', treeCl, hlit, hdist);
    if error != 0 {
      return;
    }
    SplitPads(out, hlit, hdist, bitlenLl, bitlenD);
    error, ll, d := MakeBoth(bitlenLl, bitlenD, bp');
  }

  /** getTreeInflateDynamic */
  method GetTreeInflateDynamic(data: seq<byte>, bp: nat) returns (error: nat, ll: Huffman, d: Huffman, bp': nat)
    ensures TreesAgree(ReadTrees(Bits(data), bp), error, ll, d, bp')
  {
    hide ReadTwoTrees, Value, Bits;
    ll, d, bp' := Huffman([], [], []), Huffman([], [], []), bp;
    if bp + 14 > 8 * |data| {
      return 49, ll, d, bp';
    }
    var hlit, hdist, hclen;
    hlit, hdist, hclen, bp' := ReadCountFields(data, bp);
    if bp' + 3 * hclen > 8 * |data| {
      return 50, ll, d, bp';
    }
    error, ll, d, bp' := ReadBoth(data, bp', hlit, hdist, hclen);
  }

  // ----- Whole streams -----

  method FixedHuffman() returns (ll: Huffman, d: Huffman)
    ensures View(ll, d) == FixedTrees() && Built(ll) && Built(d)
  {
    hide Tree2d, Kraft, FixedLitLen, FixedDist;
    FixedComplete();
    var error;
    error, ll := MakeFromLengths(FixedLitLen(), 15);
    error, d := MakeFromLengths(FixedDist(), 15);
  }

  /** One block of the given type. */
  method InflateOneBlock(data: seq<byte>, bp: nat, btype: nat, start: seq<byte>)
    returns (error: nat, out: seq<byte>, bp': nat)
    requires bp <= 8 * |data|
    ensures Agrees(InflateBlock(data, bp, btype, start), error, out, bp')
  {
    hide InflateSymbols, InflateStored, ReadTrees, FixedTrees, Bits;
    out, bp' := start, bp;
    if btype == 0 {
      error, out, bp' := InflateNoCompression(data, bp, start);
    } else if btype == 1 {
      var ll, d := FixedHuffman();
      error, out, bp' := InflateHuffmanSymbols(data, bp, ll, d, start);
    } else if btype == 2 {
      var ll, d;
      error, ll, d, bp' := GetTreeInflateDynamic(data, bp);
      if error == 0 {
        error, out, bp' := InflateHuffmanSymbols(data, bp', ll, d, start);
      }
    } else {
      error := 20;
    }
  }

  /** lodepng_inflatev: the output and error of every byte string, valid or not. */
  method InflateData(data: seq<byte>) returns (error: nat, out: seq<byte>, ghost bp': nat)
    ensures Agrees(InflateAll(data), error, out, bp')
  {
    hide InflateBlock, InflateBlocks, InflateAll;
    AllBlocks(data);
    var bp: nat, final := 0, false;
    error, out := 0, [];
    while !final
      invariant if final then InflateAll(data) == Ok(out, bp) else InflateAll(data) == InflateBlocks(data, bp, out)
      decreases !final, 8 * |data| - bp
    {
      BlocksStep(data, bp, out);
      if bp + 2 >= 8 * |data| {
        return 52, out, bp;
      }
      final := BitAt(data, bp);
      var btype := BitValue(BitAt(data, bp + 1)) + 2 * BitValue(BitAt(data, bp + 2));
      error, out, bp := InflateOneBlock(data, bp + 3, btype, out);
      if error != 0 {
        return error, out, bp;
      }
    }
    bp' := bp;
  }
}
