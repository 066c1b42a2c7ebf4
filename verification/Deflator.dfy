/** The encoder of lodepng: deflating a byte string into stored, fixed or dynamic blocks. */
module Deflator {
  import opened Powers
  import opened BitStream
  import opened PrefixCode
  import opened HuffmanTree
  import opened TreeInvariant
  import opened PackageSums
  import opened CodeLengths
  import opened Lz77
  import opened HashChain
  import opened LzEncoder
  import opened CodeLengthRle
  import opened Inflate
  import opened StreamFormat
  import opened LengthsFormat
  import opened BlockFormat
  import opened SymbolWriter
  import opened LengthsWriter
  import opened BlockCost

  /** LodePNGCompressSettings */
  datatype Settings = Settings(btype: nat, useLz77: bool, windowsize: nat, minmatch: nat, nicematch: nat,
                               lazymatching: bool)

  // ----- Trees from frequencies -----

  /** Every used symbol has a code of a complete, built tree, and no code takes fewer bits for these frequencies. */
  ghost predicate TreeFor(t: Huffman, freq: seq<nat>, mincodes: nat, maxbitlen: nat) {
    && Built(t) && mincodes <= |t.lengths| <= |freq| && Complete(t.lengths, maxbitlen)
    && (forall s :: 0 <= s < |freq| && freq[s] > 0 ==> s < |t.lengths| && t.lengths[s] > 0)
    && Optimal(freq[..|t.lengths|], t.lengths, maxbitlen) && InOrder(freq[..|t.lengths|], t.lengths)
  }

  /** HuffmanTree_makeFromFrequencies for a block of at most 262144 symbols and its end: it cannot fail. */
  method MakeFromFrequencies(freq: seq<nat>, mincodes: nat, maxbitlen: nat) returns (error: nat, t: Huffman)
    requires 2 <= mincodes <= |freq| <= Pow2(maxbitlen) && 2 * |freq| <= EMPTY && 1 <= maxbitlen <= 15
    requires Total(freq) <= 262145
    ensures error == 0 && TreeFor(t, freq, mincodes, maxbitlen)
  {
    hide Complete, Built, Tree2d, Pow2, Total, Optimal, InOrder;
    var numcodes := |freq|;
    while freq[numcodes - 1] == 0 && numcodes > mincodes
      invariant mincodes <= numcodes <= |freq|
      invariant forall s :: numcodes <= s < |freq| ==> freq[s] == 0
    {
      numcodes := numcodes - 1;
    }
    TotalOfPart(freq, numcodes, |freq|);
    assert freq[..|freq|] == freq;
    var inBounds, fits, lengths;
    inBounds, fits, error, lengths := HuffmanCodeLengths(freq[..numcodes], maxbitlen);
    ValidParts(freq[..numcodes], lengths, maxbitlen);
    CompleteTree(lengths, maxbitlen);
    error, t := MakeFromLengths(lengths, maxbitlen);
  }

  lemma {:induction false} TotalOfPart(freq: seq<nat>, a: nat, b: nat)
    requires a <= b <= |freq|
    ensures Total(freq[..a]) <= Total(freq[..b])
  {
    if a < b {
      TotalOfPart(freq, a, b - 1);
      assert freq[..b][..b - 1] == freq[..b - 1];
    }
  }

  lemma ValidParts(freq: seq<nat>, lengths: seq<nat>, bits: nat)
    requires ValidLengths(freq, lengths, bits)
    ensures |lengths| == |freq| && Complete(lengths, bits) && Bounded(lengths, bits)
    ensures forall s :: 0 <= s < |freq| && freq[s] > 0 ==> lengths[s] > 0
  {
  }

  // ----- The header -----

  /** The number of code length code lengths worth storing, at least four. */
  method TrimClcl(cl: seq<nat>) returns (bitlenCl: seq<nat>, hclen: nat)
    requires |cl| == 19
    ensures 4 <= hclen <= 19 && hclen == |bitlenCl|
    ensures forall i :: 0 <= i < hclen ==> bitlenCl[i] == cl[ClclOrder()[i]]
    ensures forall i :: hclen <= i < 19 ==> cl[ClclOrder()[i]] == 0
  {
    hide ClclOrder;
    bitlenCl := seq(19, i requires 0 <= i < 19 => cl[ClclOrder()[i]]);
    while bitlenCl[|bitlenCl| - 1] == 0 && |bitlenCl| > 4
      invariant 4 <= |bitlenCl| <= 19
      invariant forall i :: 0 <= i < |bitlenCl| ==> bitlenCl[i] == cl[ClclOrder()[i]]
      invariant forall i :: |bitlenCl| <= i < 19 ==> cl[ClclOrder()[i]] == 0
    {
      bitlenCl := bitlenCl[..|bitlenCl| - 1];
    }
    hclen := |bitlenCl|;
  }

  /** The lengths of the code length alphabet, three bits each. */
  method WriteClcl(w: BitWriter, bitlenCl: seq<nat>, ghost cl: seq<nat>)
    requires w.Valid() && |cl| == 19 && |bitlenCl| <= 19
    requires forall i :: 0 <= i < |bitlenCl| ==> bitlenCl[i] == cl[ClclOrder()[i]]
    modifies w
    ensures w.Valid() && w.Written() == old(w.Written()) + ClclBits(cl, |bitlenCl|)
  {
    hide ClclOrder, BitWriter.Valid, BitWriter.Written, LowBits;
    ghost var start := w.Written();
    assert start + [] == start;
    for i := 0 to |bitlenCl|
      invariant w.Valid() && w.Written() == start + ClclBits(cl, i)
    {
      w.AddBits(bitlenCl[i], 3);
      Append3(start, ClclBits(cl, i), LowBits(bitlenCl[i], 3));
    }
  }

  /** HLIT, HDIST and HCLEN */
  method WriteCounts(w: BitWriter, ghost h: Header, numcodesLl: nat, numcodesD: nat, hclen: nat)
    requires w.Valid() && 257 <= numcodesLl == |h.ll| && 1 <= numcodesD == |h.d| && 4 <= hclen == h.hclen
    modifies w
    ensures w.Valid() && w.Written() == old(w.Written()) + CountBits(h)
  {
    hide BitWriter.Valid, BitWriter.Written, LowBits;
    ghost var start := w.Written();
    w.AddBits(numcodesLl - 257, 5);
    w.AddBits(numcodesD - 1, 5);
    w.AddBits(hclen - 4, 4);
    assert w.Written() == start + CountBits(h);
  }

  method WriteHeader(w: BitWriter, ghost h: Header, numcodesLl: nat, numcodesD: nat, bitlenCl: seq<nat>, e: seq<nat>,
                     cl: Huffman)
    requires w.Valid() && HeaderOk(h) && numcodesLl == |h.ll| && numcodesD == |h.d| && |bitlenCl| == h.hclen
    requires cl.lengths == h.cl && CodesOk(cl.lengths, cl.tree1d) && e == StoredAll(h.ops) && OpsInRange(h.ops)
    requires forall i :: 0 <= i < |bitlenCl| ==> bitlenCl[i] == h.cl[ClclOrder()[i]]
    modifies w
    ensures w.Valid() && w.Written() == old(w.Written()) + HeaderBits(h)
  {
    hide BitWriter.Valid, BitWriter.Written, ClclOrder, Complete, OpsOk, OpsCodable, Expand, CodesOk, CountBits,
      ClclBits, OpsBits, OpsInRange, StoredAll;
    ghost var start := w.Written();
    WriteCounts(w, h, numcodesLl, numcodesD, |bitlenCl|);
    WriteClcl(w, bitlenCl, h.cl);
    WriteOps(w, e, cl, h.ops);
    Append4(start, CountBits(h), ClclBits(h.cl, h.hclen), OpsBits(h.cl, h.ops));
  }

  lemma Append4(a: seq<bool>, b: seq<bool>, c: seq<bool>, d: seq<bool>)
    ensures ((a + b) + c) + d == a + (b + (c + d))
  {
  }

  // ----- Compressed blocks -----

  /** The errors encodeLZ77 reports for its window size. */
  function WindowError(settings: Settings): nat {
    if !settings.useLz77 then 0
    else if settings.windowsize == 0 || settings.windowsize > 32768 then 60
    else if !PowerOfTwo(settings.windowsize) then 90
    else 0
  }

  /** The hash has seen the input up to `pos`, if it is used at all. */
  ghost predicate HashReady(hash: Hash, settings: Settings, data: seq<byte>, pos: nat)
    reads hash, hash.head, hash.chain, hash.headz, hash.chainz, hash.zeros
  {
    settings.useLz77 ==> hash.Valid(data, pos) && hash.windowsize == settings.windowsize
  }

  /** The block continues the decoded input from datapos to dataend. */
  ghost predicate BlockFor(b: Block, data: seq<byte>, datapos: nat, dataend: nat) {
    && datapos <= dataend <= |data|
    && Writable(b)
    && TokensOk(data[..datapos], b.tokens) && ExpandTokens(data[..datapos], b.tokens) == data[..dataend]
  }

  /** Without LZ77 every byte is a literal. */
  method Literals(data: seq<byte>, datapos: nat, dataend: nat) returns (values: seq<nat>, ghost tokens: seq<Token>)
    requires datapos <= dataend <= |data|
    ensures Covered(data, datapos, dataend, values, tokens)
  {
    hide Covered;
    values, tokens := [], [];
    CoverNothing(data, datapos);
    for i := datapos to dataend
      invariant Covered(data, datapos, i, values, tokens)
    {
      CoverLiteral(data, datapos, i, values, tokens);
      values, tokens := values + [data[i]], tokens + [Literal(data[i])];
    }
  }

  method Tokenize(hash: Hash, data: seq<byte>, datapos: nat, dataend: nat, settings: Settings)
    returns (error: nat, values: seq<nat>, ghost tokens: seq<Token>)
    requires datapos <= dataend <= |data| && HashReady(hash, settings, data, datapos)
    modifies hash.head, hash.chain, hash.val, hash.headz, hash.chainz, hash.zeros
    ensures error == WindowError(settings)
    ensures error == 0 ==> Covered(data, datapos, dataend, values, tokens) && HashReady(hash, settings, data, dataend)
  {
    hide Covered, Hash.Valid;
    if settings.useLz77 {
      ghost var found;
      error, values, tokens,
        found := EncodeLZ77(hash, data, datapos, dataend, settings.windowsize, settings.minmatch, settings.nicematch,
                            settings.lazymatching);
    } else {
      error := 0;
      values, tokens := Literals(data, datapos, dataend);
    }
  }

  lemma CoveredParts(data: seq<byte>, datapos: nat, dataend: nat, values: seq<nat>, tokens: seq<Token>)
    requires Covered(data, datapos, dataend, values, tokens)
    ensures AllInRange(tokens) && values == StoredTokens(tokens)
  {
  }

  lemma CountedCodable(fll: seq<nat>, fd: seq<nat>, ll: seq<nat>, d: seq<nat>, tok: Token)
    requires Counted(fll, fd, tok)
    requires forall s :: 0 <= s < |fll| && fll[s] > 0 ==> s < |ll| && ll[s] > 0
    requires forall s :: 0 <= s < |fd| && fd[s] > 0 ==> s < |d| && d[s] > 0
    ensures Codable(ll, d, tok)
  {
    hide LengthIndex, DistanceIndex;
  }

  lemma AllCountedCodable(fll: seq<nat>, fd: seq<nat>, ll: Huffman, d: Huffman, ts: seq<Token>)
    requires AllCounted(fll, fd, ts) && TreeFor(ll, fll, 257, 15) && TreeFor(d, fd, 2, 15)
    ensures AllCodable(ll.lengths, d.lengths, ts)
  {
    hide Counted, Codable, Complete, Built;
    forall k | 0 <= k < |ts|
      ensures Codable(ll.lengths, d.lengths, ts[k])
    {
      CountedCodable(fll, fd, ll.lengths, d.lengths, ts[k]);
    }
  }

  lemma CountedOpsCodable(f: seq<nat>, cl: Huffman, ops: seq<LenOp>)
    requires AllOpsCounted(f, ops) && TreeFor(cl, f, 19, 7)
    ensures OpsCodable(cl.lengths, ops)
  {
    hide Complete, Built;
  }

  /** The header of a dynamic block, assembled from its three trees. */
  lemma HeaderFrom(ll: Huffman, d: Huffman, cl: Huffman, hclen: nat, ops: seq<LenOp>, fll: seq<nat>, fd: seq<nat>,
                   f: seq<nat>)
    requires |fll| == 286 && |fd| == 30 && fll[256] > 0
    requires TreeFor(ll, fll, 257, 15) && TreeFor(d, fd, 2, 15) && TreeFor(cl, f, 19, 7)
    requires AllOpsCounted(f, ops) && OpsOk([], ops) && Expand([], ops) == ll.lengths + d.lengths
    requires 4 <= hclen <= 19 && |cl.lengths| == 19 && forall i :: hclen <= i < 19 ==> cl.lengths[ClclOrder()[i]] == 0
    ensures HeaderOk(Header(ll.lengths, d.lengths, cl.lengths, hclen, ops))
  {
    hide Complete, Built, OpsOk, Expand, ClclOrder, OpsCodable;
    CountedOpsCodable(f, cl, ops);
  }

  lemma BlockFrom(b: Block, data: seq<byte>, datapos: nat, dataend: nat, values: seq<nat>)
    requires Covered(data, datapos, dataend, values, b.tokens) && Writable(b)
    ensures BlockFor(b, data, datapos, dataend)
  {
    hide Writable, TokensOk, ExpandTokens;
  }

  /** The trees of a dynamic block and its run-length coded lengths. */
  method DynamicTrees(values: seq<nat>, ghost tokens: seq<Token>)
    returns (ll: Huffman, d: Huffman, cl: Huffman, bitlenCl: seq<nat>, e: seq<nat>, ghost h: Header)
    requires AllInRange(tokens) && values == StoredTokens(tokens) && |tokens| <= 262144
    ensures HeaderOk(h) && h.ll == ll.lengths && h.d == d.lengths && h.cl == cl.lengths && h.hclen == |bitlenCl|
    ensures AllCodable(ll.lengths, d.lengths, tokens)
    ensures CodesOk(ll.lengths, ll.tree1d) && CodesOk(d.lengths, d.tree1d) && CodesOk(cl.lengths, cl.tree1d)
    ensures e == StoredAll(h.ops) && OpsInRange(h.ops)
    ensures |h.cl| == 19 && |bitlenCl| <= 19
    ensures forall i :: 0 <= i < |bitlenCl| ==> bitlenCl[i] == h.cl[ClclOrder()[i]]
    ensures FewestBits(ll.lengths, d.lengths, tokens)
  {
    hide *;
    TreeSizes();
    var error;
    var fll, fd := CountTokens(values, tokens);
    CountedSizes(fll, fd, tokens);
    error, ll := MakeFromFrequencies(fll, 257, 15);
    error, d := MakeFromFrequencies(fd, 2, 15);
    AllCountedCodable(fll, fd, ll, d, tokens);
    TreeParts(ll, fll, 257, 15);
    TreeParts(d, fd, 2, 15);
    TreesLeast(ll, d, fll, fd, tokens);
    ghost var ops;
    e, ops := EncodeLengths(ll.lengths + d.lengths);
    OpsOkInRange([], ops);
    FewOps([], ops);
    var f := CountOps(e, ops);
    OpCountSize(f, ops);
    error, cl := MakeFromFrequencies(f, 19, 7);
    TreeParts(cl, f, 19, 7);
    var hclen;
    bitlenCl, hclen := TrimClcl(cl.lengths);
    h := Header(ll.lengths, d.lengths, cl.lengths, hclen, ops);
    HeaderFrom(ll, d, cl, hclen, ops, fll, fd, f);
  }

  lemma TreesLeast(ll: Huffman, d: Huffman, fll: seq<nat>, fd: seq<nat>, ts: seq<Token>)
    requires AllInRange(ts) && AllCodable(ll.lengths, d.lengths, ts)
    requires fll == LitFreq(ts)[256 := 1] && fd == DistFreq(ts)
    requires TreeFor(ll, fll, 257, 15) && TreeFor(d, fd, 2, 15)
    ensures FewestBits(ll.lengths, d.lengths, ts)
  {
    hide Complete, Built, Optimal, InOrder, AllCodable, LitFreq, DistFreq, FewestBits;
    assert fll[256] == 1;
    BlockLeast(ll.lengths, d.lengths, ts);
  }

  lemma TreeSizes()
    ensures 286 <= Pow2(15) && 30 <= Pow2(15) && 19 <= Pow2(7) && 2 * 286 <= EMPTY
  {
    FixedShares();
    FieldSizes();
  }

  lemma CountedSizes(fll: seq<nat>, fd: seq<nat>, ts: seq<Token>)
    requires AllCounted(fll, fd, ts)
    ensures |fll| == 286 && |fd| == 30
  {
  }

  lemma OpCountSize(f: seq<nat>, ops: seq<LenOp>)
    requires AllOpsCounted(f, ops)
    ensures |f| == 19
  {
  }

  lemma TreeParts(t: Huffman, freq: seq<nat>, mincodes: nat, maxbitlen: nat)
    requires TreeFor(t, freq, mincodes, maxbitlen)
    ensures CodesOk(t.lengths, t.tree1d) && mincodes <= |t.lengths| <= |freq|
    ensures forall k :: 0 <= k < |t.lengths| ==> t.lengths[k] <= maxbitlen
  {
    hide CodesOk, Tree2d, Kraft;
  }

  /** The three bits that open a block. */
  method WriteBlockType(w: BitWriter, final: bool, fixed: bool)
    requires w.Valid()
    modifies w
    ensures w.Valid() && w.Written() == old(w.Written()) + [final, fixed, !fixed]
  {
    hide BitWriter.Valid, BitWriter.Written;
    ghost var start := w.Written();
    w.AddBit(final);
    w.AddBit(fixed);
    w.AddBit(!fixed);
    assert w.Written() == start + [final, fixed, !fixed];
  }

  /** The tokens and the end code of a block. */
  method WriteSymbols(w: BitWriter, values: seq<nat>, ll: Huffman, d: Huffman, ghost ts: seq<Token>)
    requires w.Valid() && CodesOk(ll.lengths, ll.tree1d) && CodesOk(d.lengths, d.tree1d)
    requires AllInRange(ts) && values == StoredTokens(ts) && AllCodable(ll.lengths, d.lengths, ts)
    requires 256 < |ll.lengths| && ll.lengths[256] > 0
    modifies w
    ensures w.Valid() && w.Written() == old(w.Written()) + SymbolsBits(ll.lengths, d.lengths, ts)
  {
    hide BitWriter.Valid, BitWriter.Written, CodesOk, AllInRange, StoredTokens, AllCodable, TokensBits, CodeBits;
    ghost var start := w.Written();
    WriteLZ77Data(w, values, ll, d, ts);
    AddSymbol(w, ll, 256);
    Append3(start, TokensBits(ll.lengths, d.lengths, ts), CodeBits(ll.lengths, 256));
  }

  /** deflateDynamic: a block stands for at most 262144 bytes */
  method DeflateDynamic(w: BitWriter, hash: Hash, data: seq<byte>, datapos: nat, dataend: nat, settings: Settings,
                        final: bool)
    returns (error: nat, ghost b: Block)
    requires w.Valid() && datapos <= dataend <= |data| && HashReady(hash, settings, data, datapos)
    requires dataend - datapos <= 262144
    modifies w, hash.head, hash.chain, hash.val, hash.headz, hash.chainz, hash.zeros
    ensures w.Valid() && error == WindowError(settings)
    ensures error == 0 ==> BlockFor(b, data, datapos, dataend) && HashReady(hash, settings, data, dataend)
    ensures error == 0 ==> w.Written() == old(w.Written()) + BlockBits(b, final)
    ensures error == 0 ==> b.Dynamic? && FewestBits(b.header.ll, b.header.d, b.tokens)
  {
    hide *;
    b := Fixed([]);
    var values;
    ghost var tokens;
    error, values, tokens := Tokenize(hash, data, datapos, dataend, settings);
    if error != 0 {
      return;
    }
    CoveredParts(data, datapos, dataend, values, tokens);
    FewTokens(data, datapos, dataend, values, tokens);
    b := WriteDynamic(w, values, final, tokens);
    BlockFrom(b, data, datapos, dataend, values);
  }

  method WriteDynamic(w: BitWriter, values: seq<nat>, final: bool, ghost tokens: seq<Token>) returns (ghost b: Block)
    requires w.Valid() && AllInRange(tokens) && values == StoredTokens(tokens) && |tokens| <= 262144
    modifies w
    ensures w.Valid() && Writable(b) && b.tokens == tokens
    ensures b.Dynamic? && FewestBits(b.header.ll, b.header.d, b.tokens)
    ensures w.Written() == old(w.Written()) + BlockBits(b, final)
  {
    hide *;
    ghost var start := w.Written();
    ghost var h;
    var ll, d, cl, bitlenCl, e;
    ll, d, cl, bitlenCl, e, h := DynamicTrees(values, tokens);
    b := Dynamic(h, tokens);
    DynamicWritable(h, tokens);
    WriteBlockType(w, final, false);
    WriteHeader(w, h, |ll.lengths|, |d.lengths|, bitlenCl, e, cl);
    WriteSymbols(w, values, ll, d, tokens);
    DynamicBits(start, b, final);
  }

  lemma DynamicWritable(h: Header, tokens: seq<Token>)
    requires HeaderOk(h) && AllCodable(h.ll, h.d, tokens)
    ensures Writable(Dynamic(h, tokens))
    ensures 257 <= |h.ll| && 1 <= |h.d| && |h.cl| == 19 && 4 <= h.hclen <= 19 && OpsCodable(h.cl, h.ops)
    ensures h.ll[256] > 0
  {
    hide Complete, OpsOk, Expand, ClclOrder, OpsCodable, AllCodable;
  }

  lemma DynamicBits(start: seq<bool>, b: Block, final: bool)
    requires b.Dynamic? && Writable(b) && HeaderOk(b.header)
    requires 257 <= |b.header.ll| && 1 <= |b.header.d| && |b.header.cl| == 19 && 4 <= b.header.hclen <= 19
    requires OpsCodable(b.header.cl, b.header.ops) && b.header.ll[256] > 0
    requires AllCodable(b.header.ll, b.header.d, b.tokens)
    ensures ((start + [final, false, true]) + HeaderBits(b.header)) + SymbolsBits(b.header.ll, b.header.d, b.tokens)
            == start + BlockBits(b, final)
  {
    hide HeaderOk, HeaderBits, SymbolsBits, AllCodable, OpsCodable;
    Append4(start, [final, false, true], HeaderBits(b.header), SymbolsBits(b.header.ll, b.header.d, b.tokens));
  }

  /** deflateFixed: each byte that is not matched is written with the fixed code */
  method DeflateFixed(w: BitWriter, hash: Hash, data: seq<byte>, datapos: nat, dataend: nat, settings: Settings,
                      final: bool)
    returns (error: nat, ghost b: Block)
    requires w.Valid() && datapos <= dataend <= |data| && HashReady(hash, settings, data, datapos)
    modifies w, hash.head, hash.chain, hash.val, hash.headz, hash.chainz, hash.zeros
    ensures w.Valid() && error == WindowError(settings)
    ensures error == 0 ==> BlockFor(b, data, datapos, dataend) && HashReady(hash, settings, data, dataend)
    ensures error == 0 ==> w.Written() == old(w.Written()) + BlockBits(b, final)
  {
    hide *;
    b := Fixed([]);
    ghost var start := w.Written();
    WriteBlockType(w, final, true);
    var values;
    ghost var tokens;
    error, values, tokens := Tokenize(hash, data, datapos, dataend, settings);
    if error != 0 {
      return;
    }
    CoveredParts(data, datapos, dataend, values, tokens);
    var ll, d := FixedCodes();
    b := Fixed(tokens);
    FixedWritable(tokens);
    WriteSymbols(w, values, ll, d, tokens);
    FixedBits(start, tokens, final);
    BlockFrom(b, data, datapos, dataend, values);
  }

  method FixedCodes() returns (ll: Huffman, d: Huffman)
    ensures ll.lengths == FixedLitLen() && d.lengths == FixedDist()
    ensures CodesOk(ll.lengths, ll.tree1d) && CodesOk(d.lengths, d.tree1d)
  {
    hide Tree2d, Kraft, FixedLitLen, FixedDist, CodesOk;
    FixedComplete();
    var error;
    error, ll := MakeFromLengths(FixedLitLen(), 15);
    error, d := MakeFromLengths(FixedDist(), 15);
  }

  /** The fixed trees have a code for every token. */
  lemma FixedWritable(tokens: seq<Token>)
    requires AllInRange(tokens)
    ensures Writable(Fixed(tokens))
    ensures AllCodable(FixedLitLen(), FixedDist(), tokens) && 256 < |FixedLitLen()| && FixedLitLen()[256] > 0
  {
    hide LengthIndex, DistanceIndex;
    forall k | 0 <= k < |tokens|
      ensures Codable(FixedLitLen(), FixedDist(), tokens[k])
    {
      assert InRange(tokens[k]);
    }
  }

  lemma FixedBits(start: seq<bool>, tokens: seq<Token>, final: bool)
    requires Writable(Fixed(tokens))
    requires AllCodable(FixedLitLen(), FixedDist(), tokens) && 256 < |FixedLitLen()| && FixedLitLen()[256] > 0
    ensures (start + [final, true, false]) + SymbolsBits(FixedLitLen(), FixedDist(), tokens)
            == start + BlockBits(Fixed(tokens), final)
  {
    hide SymbolsBits, AllCodable, FixedLitLen, FixedDist;
    Append3(start, [final, true, false], SymbolsBits(FixedLitLen(), FixedDist(), tokens));
    assert [] + SymbolsBits(FixedLitLen(), FixedDist(), tokens) == SymbolsBits(FixedLitLen(), FixedDist(), tokens);
  }
}
