/**
 * The bits that stand for tokens and code length operations, and the proofs
 * that the decoder reads back what they say.
 */
module StreamFormat {
  import opened Powers
  import opened BitStream
  import opened PrefixCode
  import opened HuffmanTree
  import opened TreeInvariant
  import opened Lz77
  import opened CodeLengthRle
  import opened Inflate

  /** Both trees are those of codes that fit, for the full alphabets of DEFLATE. */
  ghost predicate TreesOk(t: Trees) {
    && Sized(t) && |t.ll| == 288 && |t.d| == 32
    && Fits(t.ll, 15) && Fits(t.d, 15)
    && Tree2d(t.ll) == Some(t.ll2d) && Tree2d(t.d) == Some(t.d2d)
  }

  // ----- Tokens -----

  /** The symbols a token needs have codes. */
  predicate Codable(ll: seq<nat>, d: seq<nat>, tok: Token) {
    && InRange(tok)
    && match tok
       case Literal(b) => b < |ll| && ll[b] > 0
       case Match(l, dist) =>
         && 257 + LengthIndex(l) < |ll| && ll[257 + LengthIndex(l)] > 0
         && DistanceIndex(dist) < |d| && d[DistanceIndex(dist)] > 0
  }

  function TokenBits(ll: seq<nat>, d: seq<nat>, tok: Token): seq<bool>
    requires Codable(ll, d, tok)
  {
    match tok
    case Literal(b) => CodeBits(ll, b)
    case Match(l, dist) => LengthBits(ll, l) + DistanceBits(d, dist)
  }

  function LengthBits(ll: seq<nat>, l: nat): seq<bool>
    requires 3 <= l <= 258 && 257 + LengthIndex(l) < |ll| && ll[257 + LengthIndex(l)] > 0
  {
    CodeBits(ll, 257 + LengthIndex(l)) + LowBits(l - LengthBase()[LengthIndex(l)], LengthExtra()[LengthIndex(l)])
  }

  function DistanceBits(d: seq<nat>, dist: nat): seq<bool>
    requires 1 <= dist <= 32768 && DistanceIndex(dist) < |d| && d[DistanceIndex(dist)] > 0
  {
    CodeBits(d, DistanceIndex(dist)) +
      LowBits(dist - DistanceBase()[DistanceIndex(dist)], DistanceExtra()[DistanceIndex(dist)])
  }

  predicate AllCodable(ll: seq<nat>, d: seq<nat>, ts: seq<Token>) {
    forall k :: 0 <= k < |ts| ==> Codable(ll, d, ts[k])
  }

  function TokensBits(ll: seq<nat>, d: seq<nat>, ts: seq<Token>): seq<bool>
    requires AllCodable(ll, d, ts)
  {
    if ts == [] then [] else TokenBits(ll, d, ts[0]) + TokensBits(ll, d, ts[1..])
  }

  lemma ReadField(bits: seq<bool>, bp: nat, v: nat, n: nat)
    requires At(bits, bp, LowBits(v, n)) && v < Pow2(n)
    ensures bp + n <= |bits| && Value(bits[bp..bp + n]) == v
  {
    ValueOfLowBits(v, n);
  }

  /** A symbol's code decodes to the symbol. */
  lemma ReadSymbol(lengths: seq<nat>, tree2d: seq<nat>, s: nat, bits: seq<bool>, bp: nat)
    requires Fits(lengths, 15) && 2 * |lengths| <= EMPTY && Tree2d(lengths) == Some(tree2d)
    requires s < |lengths| && lengths[s] > 0 && At(bits, bp, CodeBits(lengths, s))
    ensures DecodeSymbol(lengths, tree2d, bits, bp) == Decoded(s, bp + lengths[s])
  {
    DecodeSymbolOk(lengths, 15, s, bits, bp);
  }

  /** What follows a length symbol is read back. */
  lemma ReadMatchOk(t: Trees, bits: seq<bool>, bp: nat, l: nat, dist: nat, outlen: nat)
    requires TreesOk(t) && Codable(t.ll, t.d, Match(l, dist)) && dist <= outlen && bp <= |bits|
    requires At(bits, bp,
                LowBits(l - LengthBase()[LengthIndex(l)], LengthExtra()[LengthIndex(l)]) + DistanceBits(t.d, dist))
    ensures ReadMatch(t, bits, bp, 257 + LengthIndex(l), outlen) ==
            GotMatch(l, dist, bp + LengthExtra()[LengthIndex(l)] + |DistanceBits(t.d, dist)|)
  {
    hide LengthBase, LengthExtra, DistanceBase, DistanceExtra, Canon, Kraft, LengthIndex, DistanceIndex, CodeBits,
      Value, At, Fits, LowBits, DecodeSymbol, DistanceBits, Tree2d;
    var i, j := LengthIndex(l), DistanceIndex(dist);
    var nl := LengthExtra()[i];
    AtConcat(bits, bp, LowBits(l - LengthBase()[i], nl), DistanceBits(t.d, dist));
    LengthExtraFits(l, i);
    ReadField(bits, bp, l - LengthBase()[i], nl);
    ReadDistance(t, bits, bp + nl, dist);
  }

  lemma ReadDistance(t: Trees, bits: seq<bool>, bp: nat, dist: nat)
    requires TreesOk(t) && 1 <= dist <= 32768 && t.d[DistanceIndex(dist)] > 0
    requires At(bits, bp, DistanceBits(t.d, dist))
    ensures var j := DistanceIndex(dist);
            var c := DecodeSymbol(t.d, t.d2d, bits, bp);
            && c.symbol == j && c.bp + DistanceExtra()[j] <= |bits|
            && DistanceBase()[j] + Value(bits[c.bp..c.bp + DistanceExtra()[j]]) == dist
            && c.bp + DistanceExtra()[j] == bp + |DistanceBits(t.d, dist)|
  {
    hide LengthBase, LengthExtra, DistanceBase, DistanceExtra, CodeBits, DistanceIndex, Value, At, Fits, LowBits,
      DecodeSymbol, Tree2d;
    var j := DistanceIndex(dist);
    var nd := DistanceExtra()[j];
    AtConcat(bits, bp, CodeBits(t.d, j), LowBits(dist - DistanceBase()[j], nd));
    ReadSymbol(t.d, t.d2d, j, bits, bp);
    CodeLength(t.d, j);
    DistanceExtraFits(dist, j);
    ReadField(bits, bp + t.d[j], dist - DistanceBase()[j], nd);
  }

  lemma CodeLength(lengths: seq<nat>, s: nat)
    requires s < |lengths| && lengths[s] > 0
    ensures |CodeBits(lengths, s)| == lengths[s]
  {
  }

  /** One token is read back. */
  lemma InflateToken(t: Trees, bits: seq<bool>, bp: nat, out: seq<byte>, tok: Token)
    requires TreesOk(t) && Codable(t.ll, t.d, tok) && TokenOk(out, tok) && bp <= |bits|
    requires At(bits, bp, TokenBits(t.ll, t.d, tok))
    ensures bp + |TokenBits(t.ll, t.d, tok)| <= |bits|
    ensures InflateSymbols(t, bits, bp, out) ==
            InflateSymbols(t, bits, bp + |TokenBits(t.ll, t.d, tok)|, ApplyToken(out, tok))
  {
    hide LengthBase, LengthExtra, DistanceBase, DistanceExtra, InflateSymbols, CopyMatch, At, CodeBits, LengthBits,
      DistanceBits;
    match tok
    case Literal(b) =>
      InflateLiteral(t, bits, bp, out, b);
    case Match(l, dist) =>
      InflateMatch(t, bits, bp, out, l, dist);
  }

  lemma InflateLiteral(t: Trees, bits: seq<bool>, bp: nat, out: seq<byte>, b: byte)
    requires TreesOk(t) && t.ll[b] > 0 && bp <= |bits|
    requires At(bits, bp, CodeBits(t.ll, b))
    ensures bp + |CodeBits(t.ll, b)| <= |bits|
    ensures InflateSymbols(t, bits, bp, out) == InflateSymbols(t, bits, bp + |CodeBits(t.ll, b)|, out + [b])
  {
    hide CodeBits, Fits, DecodeSymbol, ReadMatch, Tree2d;
    ReadSymbol(t.ll, t.ll2d, b, bits, bp);
    CodeLength(t.ll, b);
  }

  lemma InflateMatch(t: Trees, bits: seq<bool>, bp: nat, out: seq<byte>, l: nat, dist: nat)
    requires TreesOk(t) && Codable(t.ll, t.d, Match(l, dist)) && 0 < dist <= |out| && bp <= |bits|
    requires At(bits, bp, TokenBits(t.ll, t.d, Match(l, dist)))
    ensures Sized(t) && bp + |TokenBits(t.ll, t.d, Match(l, dist))| <= |bits|
    ensures InflateSymbols(t, bits, bp, out) ==
            InflateSymbols(t, bits, bp + |TokenBits(t.ll, t.d, Match(l, dist))|, CopyMatch(out, l, dist))
  {
    hide *;
    var s, bp1 := MatchSymbol(t, bits, bp, l, dist);
    var bp2 := MatchTail(t, bits, bp1, l, dist, |out|, s, |TokenBits(t.ll, t.d, Match(l, dist))| - (bp1 - bp));
    TreesParts(t);
    MatchStep(t, bits, bp, out, s, bp1, l, dist, bp2);
  }

  /** The bits of a match after its length symbol. */
  function TailBits(d: seq<nat>, l: nat, dist: nat): seq<bool>
    requires 3 <= l <= 258 && 1 <= dist <= 32768 && DistanceIndex(dist) < |d| && d[DistanceIndex(dist)] > 0
  {
    LowBits(l - LengthBase()[LengthIndex(l)], LengthExtra()[LengthIndex(l)]) + DistanceBits(d, dist)
  }

  ghost predicate TailAt(t: Trees, bits: seq<bool>, bp: nat, l: nat, dist: nat, s: nat, n: nat) {
    && Codable(t.ll, t.d, Match(l, dist))
    && s == 257 + LengthIndex(l) <= 285
    && At(bits, bp, TailBits(t.d, l, dist)) && n == |TailBits(t.d, l, dist)|
  }

  /** The length symbol of a match is read back. */
  lemma MatchSymbol(t: Trees, bits: seq<bool>, bp: nat, l: nat, dist: nat) returns (s: nat, bp1: nat)
    requires TreesOk(t) && Codable(t.ll, t.d, Match(l, dist))
    requires At(bits, bp, TokenBits(t.ll, t.d, Match(l, dist)))
    ensures 0 < |t.ll| && |t.ll2d| == 2 * |t.ll| && DecodeSymbol(t.ll, t.ll2d, bits, bp) == Decoded(s, bp1)
    ensures bp <= bp1 && |TokenBits(t.ll, t.d, Match(l, dist))| >= bp1 - bp
    ensures bp + |TokenBits(t.ll, t.d, Match(l, dist))| <= |bits|
    ensures TailAt(t, bits, bp1, l, dist, s, |TokenBits(t.ll, t.d, Match(l, dist))| - (bp1 - bp))
  {
    hide *;
    var tail;
    s, tail := MatchParts(t, l, dist);
    TreesParts(t);
    CodeLength(t.ll, s);
    bp1 := bp + t.ll[s];
    AtConcat(bits, bp, CodeBits(t.ll, s), tail);
    ReadSymbol(t.ll, t.ll2d, s, bits, bp);
    TailThere(t, bits, bp1, l, dist, s, tail);
  }

  lemma MatchParts(t: Trees, l: nat, dist: nat) returns (s: nat, tail: seq<bool>)
    requires TreesOk(t) && Codable(t.ll, t.d, Match(l, dist))
    ensures IsTail(t, l, dist, s, tail)
    ensures s < |t.ll| && t.ll[s] > 0
    ensures TokenBits(t.ll, t.d, Match(l, dist)) == CodeBits(t.ll, s) + tail
  {
    hide CodeBits, LengthIndex, DistanceIndex, LengthBase, LengthExtra, DistanceBase, DistanceExtra, DistanceBits,
      Fits, Tree2d;
    s := 257 + LengthIndex(l);
    tail := TailBits(t.d, l, dist);
    assert TokenBits(t.ll, t.d, Match(l, dist)) == CodeBits(t.ll, s) + tail;
  }

  ghost predicate IsTail(t: Trees, l: nat, dist: nat, s: nat, tail: seq<bool>) {
    Codable(t.ll, t.d, Match(l, dist)) && s == 257 + LengthIndex(l) <= 285 && tail == TailBits(t.d, l, dist)
  }

  lemma TailThere(t: Trees, bits: seq<bool>, bp: nat, l: nat, dist: nat, s: nat, tail: seq<bool>)
    requires IsTail(t, l, dist, s, tail) && At(bits, bp, tail)
    ensures TailAt(t, bits, bp, l, dist, s, |tail|) && bp + |tail| <= |bits|
  {
    hide TailBits, LengthIndex, Codable;
  }

  lemma MatchTail(t: Trees, bits: seq<bool>, bp: nat, l: nat, dist: nat, outlen: nat, s: nat, n: nat) returns (bp2: nat)
    requires TreesOk(t) && TailAt(t, bits, bp, l, dist, s, n) && dist <= outlen
    ensures Sized(t) && 257 <= s <= 285 && bp <= |bits|
    ensures ReadMatch(t, bits, bp, s, outlen) == GotMatch(l, dist, bp2) && bp2 == bp + n
  {
    hide CodeBits, LengthIndex, DistanceIndex, LengthBase, LengthExtra, DistanceBits, Fits, Tree2d, ReadMatch;
    ReadMatchOk(t, bits, bp, l, dist, outlen);
    bp2 := bp + n;
  }

  lemma TreesParts(t: Trees)
    requires TreesOk(t)
    ensures Sized(t) && |t.ll2d| == 2 * |t.ll| == 576 && |t.d2d| == 2 * |t.d| == 64
    ensures 2 * |t.ll| <= EMPTY && Fits(t.ll, 15) && Tree2d(t.ll) == Some(t.ll2d)
  {
  }

  lemma MatchStep(t: Trees, bits: seq<bool>, bp: nat, out: seq<byte>, s: nat, bp1: nat, l: nat, dist: nat, bp2: nat)
    requires Sized(t) && bp <= |bits| && 257 <= s <= 285
    requires DecodeSymbol(t.ll, t.ll2d, bits, bp) == Decoded(s, bp1)
    requires ReadMatch(t, bits, bp1, s, |out|) == GotMatch(l, dist, bp2)
    ensures InflateSymbols(t, bits, bp, out) == InflateSymbols(t, bits, bp2, CopyMatch(out, l, dist))
  {
    hide DecodeSymbol, ReadMatch, CopyMatch;
  }

  /** Inflating the bits of tokens and the end code returns what the tokens stand for. */
  lemma {:induction false} InflateTokens(t: Trees, bits: seq<bool>, bp: nat, out: seq<byte>, ts: seq<Token>)
    requires TreesOk(t) && t.ll[256] > 0 && AllCodable(t.ll, t.d, ts) && TokensOk(out, ts) && bp <= |bits|
    requires At(bits, bp, TokensBits(t.ll, t.d, ts) + CodeBits(t.ll, 256))
    ensures InflateSymbols(t, bits, bp, out) ==
            Ok(ExpandTokens(out, ts), bp + |TokensBits(t.ll, t.d, ts)| + t.ll[256])
    decreases |ts|
  {
    hide *;
    if ts == [] {
      NoTokens(t, out);
      assert [] + CodeBits(t.ll, 256) == CodeBits(t.ll, 256);
      InflateEnd(t, bits, bp, out);
    } else {
      FirstToken(t, out, ts);
      var first := TokenBits(t.ll, t.d, ts[0]);
      AtSplit(bits, bp, first, TokensBits(t.ll, t.d, ts[1..]), CodeBits(t.ll, 256));
      InflateToken(t, bits, bp, out, ts[0]);
      InflateTokens(t, bits, bp + |first|, ApplyToken(out, ts[0]), ts[1..]);
    }
  }

  lemma AtSplit(bits: seq<bool>, bp: nat, a: seq<bool>, b: seq<bool>, c: seq<bool>)
    requires At(bits, bp, (a + b) + c)
    ensures At(bits, bp, a) && At(bits, bp + |a|, b + c)
    ensures |a + b| == |a| + |b|
  {
    assert (a + b) + c == a + (b + c);
    AtConcat(bits, bp, a, b + c);
  }

  lemma NoTokens(t: Trees, out: seq<byte>)
    requires TreesOk(t)
    ensures TokensOk(out, []) && ExpandTokens(out, []) == out && AllCodable(t.ll, t.d, [])
    ensures TokensBits(t.ll, t.d, []) == []
    ensures Sized(t) && |t.ll| == 288
  {
  }

  lemma FirstToken(t: Trees, out: seq<byte>, ts: seq<Token>)
    requires TreesOk(t) && ts != [] && AllCodable(t.ll, t.d, ts) && TokensOk(out, ts)
    ensures Sized(t) && |t.ll| == 288
    ensures Codable(t.ll, t.d, ts[0]) && AllCodable(t.ll, t.d, ts[1..])
    ensures TokenOk(out, ts[0]) && TokensOk(ApplyToken(out, ts[0]), ts[1..])
    ensures ExpandTokens(out, ts) == ExpandTokens(ApplyToken(out, ts[0]), ts[1..])
    ensures TokensBits(t.ll, t.d, ts) == TokenBits(t.ll, t.d, ts[0]) + TokensBits(t.ll, t.d, ts[1..])
  {
    hide Codable, TokenBits, TokenOk, ApplyToken;
  }

  lemma InflateEnd(t: Trees, bits: seq<bool>, bp: nat, out: seq<byte>)
    requires TreesOk(t) && t.ll[256] > 0 && bp <= |bits|
    requires At(bits, bp, CodeBits(t.ll, 256))
    ensures InflateSymbols(t, bits, bp, out) == Ok(out, bp + t.ll[256])
  {
    hide CodeBits, Fits, DecodeSymbol, ReadMatch, Tree2d;
    ReadSymbol(t.ll, t.ll2d, 256, bits, bp);
  }
}
