/** Whole compressed blocks: their bits, and the proof that the decoder reads back their tokens. */
module BlockFormat {
  import opened Powers
  import opened BitStream
  import opened PrefixCode
  import opened HuffmanTree
  import opened TreeInvariant
  import opened Lz77
  import opened CodeLengthRle
  import opened Inflate
  import opened StreamFormat
  import opened LengthsFormat

  // ----- The header of a dynamic block -----

  /** The code lengths of the three alphabets, how many of the third are stored, and the stored operations. */
  datatype Header = Header(ll: seq<nat>, d: seq<nat>, cl: seq<nat>, hclen: nat, ops: seq<LenOp>)

  /** A header an encoder may write: complete codes whose lengths the operations spell out. */
  ghost predicate HeaderOk(h: Header) {
    && 257 <= |h.ll| <= 286 && 2 <= |h.d| <= 30 && |h.cl| == 19 && 4 <= h.hclen <= 19
    && Complete(h.ll, 15) && Complete(h.d, 15) && Complete(h.cl, 7)
    && h.ll[256] > 0
    && (forall i :: h.hclen <= i < 19 ==> h.cl[ClclOrder()[i]] == 0)
    && OpsOk([], h.ops) && OpsCodable(h.cl, h.ops) && Expand([], h.ops) == h.ll + h.d
  }

  function CountBits(h: Header): (r: seq<bool>)
    requires 257 <= |h.ll| && 1 <= |h.d| && 4 <= h.hclen
    ensures |r| == 14
  {
    LowBits(|h.ll| - 257, 5) + LowBits(|h.d| - 1, 5) + LowBits(h.hclen - 4, 4)
  }

  function HeaderBits(h: Header): seq<bool>
    requires 257 <= |h.ll| && 1 <= |h.d| && |h.cl| == 19 && 4 <= h.hclen <= 19 && OpsCodable(h.cl, h.ops)
  {
    CountBits(h) + (ClclBits(h.cl, h.hclen) + OpsBits(h.cl, h.ops))
  }

  /** The trees both sides use: unused symbols are padded with length zero. */
  ghost predicate TreesOf(h: Header, t: Trees) {
    && |h.ll| <= 288 && |h.d| <= 32
    && t.ll == PadTo(h.ll, 288) && t.d == PadTo(h.d, 32) && TreesOk(t)
  }

  lemma PadComplete(lengths: seq<nat>, n: nat)
    requires |lengths| <= n && 2 * n <= EMPTY && Complete(lengths, 15)
    ensures Complete(PadTo(lengths, n), 15) && Tree2d(PadTo(lengths, n)).Some?
  {
    hide Tree2d, KraftTo;
    PadKraft(lengths, n - |lengths|, n - |lengths|, 15);
    CompleteTree(PadTo(lengths, n), 15);
  }

  lemma MakeTrees(h: Header) returns (t: Trees)
    requires HeaderOk(h)
    ensures TreesOf(h, t)
  {
    hide Tree2d, Kraft, OpsOk, OpsCodable, Expand, ClclOrder;
    PadComplete(h.ll, 288);
    PadComplete(h.d, 32);
    var ll, d := PadTo(h.ll, 288), PadTo(h.d, 32);
    t := Trees(ll, Tree2d(ll).value, d, Tree2d(d).value);
  }

  lemma ReadCounts(h: Header, bits: seq<bool>, bp: nat)
    requires HeaderOk(h) && At(bits, bp, CountBits(h))
    ensures bp + 14 <= |bits|
    ensures Value(bits[bp..bp + 5]) + 257 == |h.ll|
    ensures Value(bits[bp + 5..bp + 10]) + 1 == |h.d|
    ensures Value(bits[bp + 10..bp + 14]) + 4 == h.hclen
  {
    hide Complete, OpsOk, OpsCodable, Expand, ClclOrder, Value, At, LowBits;
    var a, b, c := LowBits(|h.ll| - 257, 5), LowBits(|h.d| - 1, 5), LowBits(h.hclen - 4, 4);
    AtConcat(bits, bp, a + b, c);
    AtConcat(bits, bp, a, b);
    FieldSizes();
    ReadField(bits, bp, |h.ll| - 257, 5);
    ReadField(bits, bp + 5, |h.d| - 1, 5);
    ReadField(bits, bp + 10, h.hclen - 4, 4);
  }

  lemma ClTree(h: Header) returns (cl2d: seq<nat>)
    requires HeaderOk(h)
    ensures ClOk(h.cl, cl2d)
  {
    hide Tree2d, KraftTo, OpsOk, OpsCodable, Expand, ClclOrder;
    CompleteTree(h.cl, 7);
    cl2d := Tree2d(h.cl).value;
  }

  /** The lengths of both alphabets are read back. */
  lemma ReadHeaderLengths(h: Header, bits: seq<bool>, bp: nat, cl2d: seq<nat>)
    requires HeaderOk(h) && ClOk(h.cl, cl2d) && At(bits, bp, ClclBits(h.cl, h.hclen) + OpsBits(h.cl, h.ops))
    ensures bp + 3 * h.hclen <= |bits| && ReadClcl(bits, bp, h.hclen, 19) == h.cl
    ensures |cl2d| == 2 * |h.cl| && 0 < |h.cl|
    ensures ReadLengths(h.cl, cl2d, bits, bp + 3 * h.hclen, |h.ll| + |h.d|, []) ==
            GotLengths(h.ll + h.d, bp + 3 * h.hclen + |OpsBits(h.cl, h.ops)|)
  {
    hide Tree2d, Kraft, OpsOk, OpsCodable, Expand, ClclOrder, At, ClclBits, OpsBits, ReadClcl, ReadLengths;
    AtConcat(bits, bp, ClclBits(h.cl, h.hclen), OpsBits(h.cl, h.ops));
    ReadClclOk(h.cl, h.hclen, bits, bp);
    ReadOps(h.cl, cl2d, bits, bp + 3 * h.hclen, |h.ll| + |h.d|, [], h.ops);
  }

  /** Reading a dynamic block's header returns the trees its encoder used. */
  lemma ReadTreesOk(h: Header, t: Trees, bits: seq<bool>, bp: nat)
    requires HeaderOk(h) && TreesOf(h, t) && At(bits, bp, HeaderBits(h))
    ensures ReadTrees(bits, bp) == GotTrees(t, bp + |HeaderBits(h)|)
  {
    hide *;
    var cl2d := ClTree(h);
    HeaderParts(h, t);
    AtConcat(bits, bp, CountBits(h), ClclBits(h.cl, h.hclen) + OpsBits(h.cl, h.ops));
    ReadCounts(h, bits, bp);
    ReadHeaderLengths(h, bits, bp + 14, cl2d);
    ReadTreesStep(h, t, bits, bp, cl2d, bp + |HeaderBits(h)|);
  }

  lemma HeaderParts(h: Header, t: Trees)
    requires HeaderOk(h) && TreesOf(h, t)
    ensures 257 <= |h.ll| <= 286 && 2 <= |h.d| <= 30 && |h.cl| == 19 && 4 <= h.hclen <= 19 && OpsCodable(h.cl, h.ops)
    ensures HeaderBits(h) == CountBits(h) + (ClclBits(h.cl, h.hclen) + OpsBits(h.cl, h.ops))
    ensures |HeaderBits(h)| == 14 + 3 * h.hclen + |OpsBits(h.cl, h.ops)|
    ensures t.ll == PadTo(h.ll, 288) && t.d == PadTo(h.d, 32) && t.ll[256] > 0
    ensures Tree2d(t.ll) == Some(t.ll2d) && Tree2d(t.d) == Some(t.d2d)
  {
    hide Complete, OpsOk, OpsCodable, Expand, ClclOrder, CountBits, ClclBits, OpsBits, Fits, Tree2d;
  }

  lemma ReadTreesStep(h: Header, t: Trees, bits: seq<bool>, bp: nat, cl2d: seq<nat>, end: nat)
    requires 257 <= |h.ll| <= 286 && 2 <= |h.d| <= 30 && |h.cl| == 19 && 4 <= h.hclen <= 19
    requires t.ll == PadTo(h.ll, 288) && t.d == PadTo(h.d, 32) && t.ll[256] > 0
    requires Tree2d(t.ll) == Some(t.ll2d) && Tree2d(t.d) == Some(t.d2d) && ClOk(h.cl, cl2d)
    requires bp + 14 <= |bits|
    requires Value(bits[bp..bp + 5]) + 257 == |h.ll|
    requires Value(bits[bp + 5..bp + 10]) + 1 == |h.d|
    requires Value(bits[bp + 10..bp + 14]) + 4 == h.hclen
    requires bp + 14 + 3 * h.hclen <= |bits| && ReadClcl(bits, bp + 14, h.hclen, 19) == h.cl
    requires |cl2d| == 2 * |h.cl|
    requires ReadLengths(h.cl, cl2d, bits, bp + 14 + 3 * h.hclen, |h.ll| + |h.d|, []) == GotLengths(h.ll + h.d, end)
    ensures ReadTrees(bits, bp) == GotTrees(t, end)
  {
    hide Value, ReadClcl, ReadLengths, Tree2d, Fits, PadTo;
    assert (h.ll + h.d)[..|h.ll|] == h.ll && (h.ll + h.d)[|h.ll|..] == h.d;
  }

  // ----- Padding does not change the codes -----

  lemma PadBits(lengths: seq<nat>, n: nat, s: nat)
    requires |lengths| <= n && s < |lengths| && lengths[s] > 0
    ensures PadTo(lengths, n)[s] == lengths[s] && CodeBits(PadTo(lengths, n), s) == CodeBits(lengths, s)
  {
    hide Canon;
    PadCode(lengths, n - |lengths|, s);
  }

  lemma PadToken(ll: seq<nat>, d: seq<nat>, tok: Token)
    requires |ll| <= 288 && |d| <= 32 && Codable(ll, d, tok)
    ensures Codable(PadTo(ll, 288), PadTo(d, 32), tok)
    ensures TokenBits(PadTo(ll, 288), PadTo(d, 32), tok) == TokenBits(ll, d, tok)
  {
    hide CodeBits, LengthIndex, DistanceIndex, LengthBase, LengthExtra, DistanceBase, DistanceExtra, PadTo;
    match tok
    case Literal(b) =>
      PadBits(ll, 288, b);
    case Match(l, dist) =>
      PadBits(ll, 288, 257 + LengthIndex(l));
      PadBits(d, 32, DistanceIndex(dist));
  }

  lemma {:induction false} PadTokens(ll: seq<nat>, d: seq<nat>, ts: seq<Token>)
    requires |ll| <= 288 && |d| <= 32 && AllCodable(ll, d, ts)
    ensures AllCodable(PadTo(ll, 288), PadTo(d, 32), ts)
    ensures TokensBits(PadTo(ll, 288), PadTo(d, 32), ts) == TokensBits(ll, d, ts)
  {
    hide Codable, TokenBits, PadTo;
    forall k | 0 <= k < |ts|
      ensures Codable(PadTo(ll, 288), PadTo(d, 32), ts[k])
    {
      PadToken(ll, d, ts[k]);
    }
    if ts != [] {
      PadToken(ll, d, ts[0]);
      PadTokens(ll, d, ts[1..]);
    }
  }

  // ----- Blocks -----

  datatype Block = Fixed(tokens: seq<Token>) | Dynamic(header: Header, tokens: seq<Token>)

  function LitLen(b: Block): seq<nat> {
    if b.Fixed? then FixedLitLen() else b.header.ll
  }

  function Dist(b: Block): seq<nat> {
    if b.Fixed? then FixedDist() else b.header.d
  }

  /** Every symbol of the block has a code. */
  ghost predicate Writable(b: Block) {
    && (b.Dynamic? ==> HeaderOk(b.header))
    && AllCodable(LitLen(b), Dist(b), b.tokens)
    && 256 < |LitLen(b)| && LitLen(b)[256] > 0
  }

  /** The tokens of a block and its end code. */
  function SymbolsBits(ll: seq<nat>, d: seq<nat>, ts: seq<Token>): seq<bool>
    requires AllCodable(ll, d, ts) && 256 < |ll| && ll[256] > 0
  {
    TokensBits(ll, d, ts) + CodeBits(ll, 256)
  }

  ghost function BodyBits(b: Block): seq<bool>
    requires Writable(b)
  {
    (if b.Fixed? then [] else HeaderBits(b.header)) + SymbolsBits(LitLen(b), Dist(b), b.tokens)
  }

  /** BFINAL, the two bits of BTYPE and the body. */
  ghost function BlockBits(b: Block, final: bool): seq<bool>
    requires Writable(b)
  {
    [final, b.Fixed?, b.Dynamic?] + BodyBits(b)
  }

  /** The symbols of a block are read back with the decoder's padded trees. */
  lemma InflateSymbolsOk(ll: seq<nat>, d: seq<nat>, t: Trees, ts: seq<Token>, bits: seq<bool>, bp: nat, out: seq<byte>)
    requires 256 < |ll| <= 288 && |d| <= 32 && ll[256] > 0 && AllCodable(ll, d, ts)
    requires TreesOk(t) && t.ll == PadTo(ll, 288) && t.d == PadTo(d, 32)
    requires TokensOk(out, ts) && bp <= |bits| && At(bits, bp, SymbolsBits(ll, d, ts))
    ensures Sized(t)
    ensures InflateSymbols(t, bits, bp, out) == Ok(ExpandTokens(out, ts), bp + |SymbolsBits(ll, d, ts)|)
  {
    hide TokensOk, AllCodable, TokensBits, At, InflateSymbols, Fits, Tree2d, CodeBits, PadTo;
    PadTokens(ll, d, ts);
    PadBits(ll, 288, 256);
    CodeLength(ll, 256);
    InflateTokens(t, bits, bp, out, ts);
  }

  lemma InflateFixed(data: seq<byte>, bp: nat, ts: seq<Token>, out: seq<byte>)
    requires Writable(Fixed(ts)) && TokensOk(out, ts) && At(Bits(data), bp, BodyBits(Fixed(ts)))
    ensures InflateBlock(data, bp, 1, out) == Ok(ExpandTokens(out, ts), bp + |BodyBits(Fixed(ts))|)
  {
    hide TokensOk, AllCodable, TokensBits, InflateSymbols, Fits, Complete, Tree2d, SymbolsBits, FixedLitLen, FixedDist,
      Bits, ExpandTokens;
    var t := FixedTrees();
    FixedComplete();
    var ll, d := FixedLitLen(), FixedDist();
    PadNothing(ll);
    PadNothing(d);
    assert BodyBits(Fixed(ts)) == SymbolsBits(ll, d, ts);
    FixedTreesOk(t);
    InflateSymbolsOk(ll, d, t, ts, Bits(data), bp, out);
  }

  lemma PadNothing(s: seq<nat>)
    ensures PadTo(s, |s|) == s
  {
  }

  lemma FixedTreesOk(t: Trees)
    requires t == FixedTrees()
    ensures TreesOk(t)
  {
    hide Tree2d, Kraft;
    FixedComplete();
  }

  lemma InflateDynamic(data: seq<byte>, bp: nat, h: Header, ts: seq<Token>, out: seq<byte>)
    requires Writable(Dynamic(h, ts)) && TokensOk(out, ts) && At(Bits(data), bp, BodyBits(Dynamic(h, ts)))
    ensures InflateBlock(data, bp, 2, out) == Ok(ExpandTokens(out, ts), bp + |BodyBits(Dynamic(h, ts))|)
  {
    hide *;
    DynamicParts(h, ts);
    var t := MakeTrees(h);
    TreesUsable(h, t);
    HeaderParts(h, t);
    AtConcat(Bits(data), bp, HeaderBits(h), SymbolsBits(h.ll, h.d, ts));
    AtInside(Bits(data), bp, HeaderBits(h));
    ReadTreesOk(h, t, Bits(data), bp);
    InflateSymbolsOk(h.ll, h.d, t, ts, Bits(data), bp + |HeaderBits(h)|, out);
    DynamicBlock(data, bp, t, bp + |HeaderBits(h)|, out);
  }

  lemma TreesUsable(h: Header, t: Trees)
    requires HeaderOk(h) && TreesOf(h, t)
    ensures TreesOk(t) && t.ll == PadTo(h.ll, 288) && t.d == PadTo(h.d, 32) && |h.ll| <= 288 && |h.d| <= 32
  {
    hide TreesOk, PadTo;
  }

  lemma AtInside(bits: seq<bool>, bp: nat, piece: seq<bool>)
    requires At(bits, bp, piece)
    ensures bp + |piece| <= |bits|
  {
  }

  lemma DynamicParts(h: Header, ts: seq<Token>)
    requires Writable(Dynamic(h, ts))
    ensures HeaderOk(h) && AllCodable(h.ll, h.d, ts) && 256 < |h.ll| && h.ll[256] > 0
    ensures BodyBits(Dynamic(h, ts)) == HeaderBits(h) + SymbolsBits(h.ll, h.d, ts)
  {
    hide HeaderOk, AllCodable, HeaderBits, SymbolsBits;
  }

  lemma DynamicBlock(data: seq<byte>, bp: nat, t: Trees, bp': nat, out: seq<byte>)
    requires bp <= 8 * |data| && bp' <= 8 * |data| && Sized(t) && ReadTrees(Bits(data), bp) == GotTrees(t, bp')
    ensures InflateBlock(data, bp, 2, out) == InflateSymbols(t, Bits(data), bp', out)
  {
    hide ReadTrees, InflateSymbols, InflateStored, Bits;
  }

  /** A block in the stream is read back: what its tokens stand for is appended, and the bit pointer moves past it. */
  lemma InflateBlockOk(data: seq<byte>, bp: nat, b: Block, final: bool, out: seq<byte>)
    requires Writable(b) && TokensOk(out, b.tokens) && At(Bits(data), bp, BlockBits(b, final))
    ensures var out', bp' := ExpandTokens(out, b.tokens), bp + |BlockBits(b, final)|;
            InflateBlocks(data, bp, out) == if final then Ok(out', bp') else InflateBlocks(data, bp', out')
  {
    hide *;
    var head := [final, b.Fixed?, b.Dynamic?];
    BlockParts(b, final);
    AtConcat(Bits(data), bp, head, BodyBits(b));
    HeadBits(data, bp, head);
    BlocksStep(data, bp, out);
    if b.Fixed? {
      InflateFixed(data, bp + 3, b.tokens, out);
    } else {
      InflateDynamic(data, bp + 3, b.header, b.tokens, out);
    }
  }

  lemma BlockParts(b: Block, final: bool)
    requires Writable(b)
    ensures BlockBits(b, final) == [final, b.Fixed?, b.Dynamic?] + BodyBits(b)
  {
    hide Writable, BodyBits;
  }

  lemma HeadBits(data: seq<byte>, bp: nat, head: seq<bool>)
    requires |head| == 3 && At(Bits(data), bp, head)
    ensures bp + 2 < 8 * |data|
    ensures BitAt(data, bp) == head[0] && BitAt(data, bp + 1) == head[1] && BitAt(data, bp + 2) == head[2]
    ensures BitValue(BitAt(data, bp + 1)) + 2 * BitValue(BitAt(data, bp + 2)) ==
            (if head[1] then 1 else 0) + if head[2] then 2 else 0
  {
    hide BitAt;
    assert Bits(data)[bp..bp + 3] == head;
    assert Bits(data)[bp] == head[0] && Bits(data)[bp + 1] == head[1] && Bits(data)[bp + 2] == head[2];
  }
}
