/** Counting and writing Huffman symbols: the encoder's passes over its stored tokens and code length operations. */
module SymbolWriter {
  import opened Powers
  import opened PackageSums
  import opened BitStream
  import opened PrefixCode
  import opened HuffmanTree
  import opened Lz77
  import opened CodeLengthRle
  import opened StreamFormat
  import opened LengthsFormat

  // ----- Stored tokens, one at a time -----

  lemma StoredTokensNext(ts: seq<Token>, k: nat)
    requires AllInRange(ts) && k < |ts|
    ensures AllInRange(ts[..k]) && AllInRange(ts[..k + 1])
    ensures StoredTokens(ts[..k + 1]) == StoredTokens(ts[..k]) + StoredToken(ts[k])
  {
    hide StoredToken;
    assert ts[..k + 1][..k] == ts[..k];
  }

  lemma {:induction false} StoredTokensPrefix(ts: seq<Token>, k: nat)
    requires AllInRange(ts) && k <= |ts|
    ensures AllInRange(ts[..k]) && StoredTokens(ts[..k]) <= StoredTokens(ts)
    decreases |ts| - k
  {
    hide StoredToken;
    if k == |ts| {
      assert ts[..k] == ts;
    } else {
      StoredTokensPrefix(ts, k + 1);
      StoredTokensNext(ts, k);
    }
  }

  /** Reading the stored values at the start of token k yields that token's values. */
  lemma StoredTokenAt(ts: seq<Token>, k: nat)
    requires AllInRange(ts) && k < |ts|
    ensures AllInRange(ts[..k]) && AllInRange(ts[..k + 1])
    ensures var i := |StoredTokens(ts[..k])|;
            var v := StoredToken(ts[k]);
            && i + |v| == |StoredTokens(ts[..k + 1])| <= |StoredTokens(ts)|
            && forall j :: 0 <= j < |v| ==> StoredTokens(ts)[i + j] == v[j]
  {
    hide StoredToken, StoredTokens;
    StoredTokensPrefix(ts, k + 1);
    StoredTokensNext(ts, k);
  }

  lemma AllTokens(ts: seq<Token>)
    ensures ts[..|ts|] == ts
  {
  }

  lemma {:induction false} TokensBitsAppend(ll: seq<nat>, d: seq<nat>, ts: seq<Token>, t: Token)
    requires AllCodable(ll, d, ts) && Codable(ll, d, t)
    ensures AllCodable(ll, d, ts + [t])
    ensures TokensBits(ll, d, ts + [t]) == TokensBits(ll, d, ts) + TokenBits(ll, d, t)
  {
    hide TokenBits, Codable;
    if ts == [] {
      assert ts + [t] == [t];
      assert [t][1..] == [];
    } else {
      TokensBitsAppend(ll, d, ts[1..], t);
      assert (ts + [t])[1..] == ts[1..] + [t];
    }
  }

  // ----- Writing tokens -----

  /** addHuffmanSymbol with a tree's own code */
  method AddSymbol(w: BitWriter, t: Huffman, s: nat)
    requires w.Valid() && CodesOk(t.lengths, t.tree1d) && s < |t.lengths| && t.lengths[s] > 0
    modifies w
    ensures w.Valid() && w.Written() == old(w.Written()) + CodeBits(t.lengths, s)
  {
    hide CodeBits;
    w.AddBitsReversed(t.tree1d[s], t.lengths[s]);
  }

  method AddMatch(w: BitWriter, ll: Huffman, d: Huffman, symbol: nat, extraLength: nat, distCode: nat,
                  extraDistance: nat, ghost l: nat, ghost dist: nat)
    requires w.Valid() && CodesOk(ll.lengths, ll.tree1d) && CodesOk(d.lengths, d.tree1d)
    requires Codable(ll.lengths, d.lengths, Match(l, dist))
    requires [symbol, extraLength, distCode, extraDistance] == StoredToken(Match(l, dist))
    modifies w
    ensures w.Valid() && w.Written() == old(w.Written()) + TokenBits(ll.lengths, d.lengths, Match(l, dist))
  {
    hide CodeBits, LengthBase, DistanceBase, LengthIndex, DistanceIndex, LengthExtra, DistanceExtra, LowBits, CodesOk,
      LengthBits, DistanceBits;
    ghost var v := [symbol, extraLength, distCode, extraDistance];
    assert v[0] == symbol && v[1] == extraLength && v[2] == distCode && v[3] == extraDistance;
    AddLength(w, ll, symbol, extraLength, l);
    AddDistance(w, d, distCode, extraDistance, dist);
  }

  method AddLength(w: BitWriter, ll: Huffman, symbol: nat, extraLength: nat, ghost l: nat)
    requires w.Valid() && CodesOk(ll.lengths, ll.tree1d) && 3 <= l <= 258
    requires symbol == 257 + LengthIndex(l) < |ll.lengths| && ll.lengths[symbol] > 0
    requires extraLength == l - LengthBase()[LengthIndex(l)]
    modifies w
    ensures w.Valid() && w.Written() == old(w.Written()) + LengthBits(ll.lengths, l)
  {
    hide CodeBits, LengthBase, LengthIndex, LengthExtra, LowBits, CodesOk;
    AddSymbol(w, ll, symbol);
    w.AddBits(extraLength, LengthExtra()[symbol - 257]);
  }

  method AddDistance(w: BitWriter, d: Huffman, distCode: nat, extraDistance: nat, ghost dist: nat)
    requires w.Valid() && CodesOk(d.lengths, d.tree1d) && 1 <= dist <= 32768
    requires distCode == DistanceIndex(dist) < |d.lengths| && d.lengths[distCode] > 0
    requires extraDistance == dist - DistanceBase()[DistanceIndex(dist)]
    modifies w
    ensures w.Valid() && w.Written() == old(w.Written()) + DistanceBits(d.lengths, dist)
  {
    hide CodeBits, DistanceBase, DistanceIndex, DistanceExtra, LowBits, CodesOk;
    AddSymbol(w, d, distCode);
    w.AddBits(extraDistance, DistanceExtra()[distCode]);
  }

  lemma StartTokens(ll: seq<nat>, d: seq<nat>, ts: seq<Token>)
    ensures AllInRange(ts[..0]) && StoredTokens(ts[..0]) == []
    ensures AllCodable(ll, d, ts[..0]) && TokensBits(ll, d, ts[..0]) == []
  {
  }

  /** All tokens are done exactly when all values are. */
  lemma TokensDone(ts: seq<Token>, k: nat)
    requires AllInRange(ts) && k <= |ts|
    ensures AllInRange(ts[..k])
    ensures |StoredTokens(ts[..k])| == |StoredTokens(ts)| <==> k == |ts|
  {
    hide StoredTokens, StoredToken;
    if k == |ts| {
      AllTokens(ts);
    } else {
      StoredTokenAt(ts, k);
      StoredNotEmpty(ts[k]);
    }
  }

  lemma StoredNotEmpty(t: Token)
    requires InRange(t)
    ensures |StoredToken(t)| == if t.Match? then 4 else 1
  {
    hide LengthIndex, DistanceIndex, LengthBase, DistanceBase;
  }

  lemma NextCodable(ll: seq<nat>, d: seq<nat>, ts: seq<Token>, k: nat)
    requires AllCodable(ll, d, ts) && k < |ts|
    ensures Codable(ll, d, ts[k]) && AllCodable(ll, d, ts[..k]) && AllCodable(ll, d, ts[..k + 1])
    ensures TokensBits(ll, d, ts[..k + 1]) == TokensBits(ll, d, ts[..k]) + TokenBits(ll, d, ts[k])
  {
    hide TokensBits, TokenBits, Codable;
    assert ts[..k + 1] == ts[..k] + [ts[k]];
    TokensBitsAppend(ll, d, ts[..k], ts[k]);
  }

  /** One turn of the loop of writeLZ77data. */
  method WriteOne(w: BitWriter, values: seq<nat>, i: nat, ll: Huffman, d: Huffman, ghost tok: Token) returns (i': nat)
    requires w.Valid() && CodesOk(ll.lengths, ll.tree1d) && CodesOk(d.lengths, d.tree1d)
    requires Codable(ll.lengths, d.lengths, tok)
    requires i + |StoredToken(tok)| <= |values| && forall j :: 0 <= j < |StoredToken(tok)| ==>
               values[i + j] == StoredToken(tok)[j]
    modifies w
    ensures w.Valid() && w.Written() == old(w.Written()) + TokenBits(ll.lengths, d.lengths, tok)
    ensures i' == i + |StoredToken(tok)|
  {
    hide CodesOk, LengthBase, DistanceBase, LengthIndex, DistanceIndex, LengthBits, DistanceBits, CodeBits;
    StoredNotEmpty(tok);
    ghost var v := StoredToken(tok);
    assert values[i + 0] == v[0];
    var val := values[i];
    i' := i + 1;
    if val > 256 {
      assert values[i + 1] == v[1] && values[i + 2] == v[2] && values[i + 3] == v[3];
      assert v == [v[0], v[1], v[2], v[3]];
      AddMatch(w, ll, d, val, values[i + 1], values[i + 2], values[i + 3], tok.length, tok.distance);
      i' := i + 4;
    } else {
      AddSymbol(w, ll, val);
    }
  }

  /** writeLZ77data */
  method WriteLZ77Data(w: BitWriter, values: seq<nat>, ll: Huffman, d: Huffman, ghost ts: seq<Token>)
    requires w.Valid() && CodesOk(ll.lengths, ll.tree1d) && CodesOk(d.lengths, d.tree1d)
    requires AllInRange(ts) && values == StoredTokens(ts) && AllCodable(ll.lengths, d.lengths, ts)
    modifies w
    ensures w.Valid() && w.Written() == old(w.Written()) + TokensBits(ll.lengths, d.lengths, ts)
  {
    hide CodesOk, StoredTokens, TokenBits, TokensBits, StoredToken, AllCodable, Codable, BitWriter.Valid,
      BitWriter.Written, AllInRange;
    ghost var start := w.Written();
    var i := 0;
    ghost var k: nat := 0;
    StartTokens(ll.lengths, d.lengths, ts);
    assert start + [] == start;
    TokensDone(ts, 0);
    while i != |values|
      invariant w.Valid() && k <= |ts|
      invariant AllInRange(ts[..k]) && i == |StoredTokens(ts[..k])|
      invariant i == |values| <==> k == |ts|
      invariant AllCodable(ll.lengths, d.lengths, ts[..k])
      invariant w.Written() == start + TokensBits(ll.lengths, d.lengths, ts[..k])
      decreases |ts| - k
    {
      StoredTokenAt(ts, k);
      NextCodable(ll.lengths, d.lengths, ts, k);
      i := WriteOne(w, values, i, ll, d, ts[k]);
      k := k + 1;
      TokensDone(ts, k);
      Append3(start, TokensBits(ll.lengths, d.lengths, ts[..k - 1]), TokenBits(ll.lengths, d.lengths, ts[k - 1]));
    }
    AllTokens(ts);
  }

  lemma Append3(a: seq<bool>, b: seq<bool>, c: seq<bool>)
    ensures (a + b) + c == a + (b + c)
  {
  }

  // ----- Counting symbols -----

  /** One more occurrence of symbol s. */
  function Bump(f: seq<nat>, s: nat): (r: seq<nat>)
    requires s < |f|
    ensures |r| == |f|
  {
    f[s := f[s] + 1]
  }

  /** The literal or length symbol of a token. */
  function LitSymbol(t: Token): (s: nat)
    requires InRange(t)
    ensures s < 286 && s != 256
  {
    if t.Literal? then t.value as nat else 257 + LengthIndex(t.length)
  }

  /** How often every literal and length symbol occurs, the end code not counted, and every distance symbol. */
  function LitFreq(ts: seq<Token>): (f: seq<nat>)
    requires AllInRange(ts)
    ensures |f| == 286
  {
    if ts == [] then seq(286, _ => 0) else Bump(LitFreq(ts[..|ts| - 1]), LitSymbol(ts[|ts| - 1]))
  }

  function DistFreq(ts: seq<Token>): (f: seq<nat>)
    requires AllInRange(ts)
    ensures |f| == 30
  {
    if ts == [] then seq(30, _ => 0)
    else
      var rest := DistFreq(ts[..|ts| - 1]);
      match ts[|ts| - 1]
      case Literal(_) => rest
      case Match(_, dist) => Bump(rest, DistanceIndex(dist))
  }

  lemma FreqNext(ts: seq<Token>, k: nat)
    requires k < |ts| && AllInRange(ts[..k]) && InRange(ts[k])
    ensures AllInRange(ts[..k + 1])
    ensures LitFreq(ts[..k + 1]) == Bump(LitFreq(ts[..k]), LitSymbol(ts[k]))
    ensures DistFreq(ts[..k + 1]) ==
            if ts[k].Match? then Bump(DistFreq(ts[..k]), DistanceIndex(ts[k].distance)) else DistFreq(ts[..k])
  {
    hide LitSymbol, DistanceIndex, Bump;
    assert ts[..k + 1][..k] == ts[..k];
  }

  /** The symbols of a token have been counted. */
  predicate Counted(fll: seq<nat>, fd: seq<nat>, tok: Token) {
    && InRange(tok) && |fll| == 286 && |fd| == 30
    && match tok
       case Literal(b) => fll[b] > 0
       case Match(l, dist) => fll[257 + LengthIndex(l)] > 0 && fd[DistanceIndex(dist)] > 0
  }

  predicate AllCounted(fll: seq<nat>, fd: seq<nat>, ts: seq<Token>) {
    |fll| == 286 && |fd| == 30 && forall k :: 0 <= k < |ts| ==> Counted(fll, fd, ts[k])
  }

  /** Counts never shrink. */
  predicate Grown(f: seq<nat>, g: seq<nat>) {
    |f| == |g| && forall s :: 0 <= s < |f| ==> f[s] <= g[s]
  }

  method CountOne(values: seq<nat>, i: nat, fll: seq<nat>, fd: seq<nat>, ghost tok: Token)
    returns (i': nat, fll': seq<nat>, fd': seq<nat>)
    requires InRange(tok) && |fll| == 286 && |fd| == 30
    requires i + |StoredToken(tok)| <= |values| && forall j :: 0 <= j < |StoredToken(tok)| ==>
               values[i + j] == StoredToken(tok)[j]
    ensures i' == i + |StoredToken(tok)| && Grown(fll, fll') && Grown(fd, fd') && Counted(fll', fd', tok)
    ensures Total(fll') == Total(fll) + 1 && Total(fd') <= Total(fd) + 1
    ensures fll' == Bump(fll, LitSymbol(tok))
    ensures fd' == if tok.Match? then Bump(fd, DistanceIndex(tok.distance)) else fd
  {
    hide LengthBase, DistanceBase, LengthIndex, DistanceIndex, Total;
    StoredNotEmpty(tok);
    ghost var v := StoredToken(tok);
    assert values[i + 0] == v[0];
    var symbol := values[i];
    TotalUpdate(fll, symbol, fll[symbol] + 1);
    fll', fd', i' := fll[symbol := fll[symbol] + 1], fd, i + 1;
    if symbol > 256 {
      assert values[i + 2] == v[2];
      var dist := values[i + 2];
      TotalUpdate(fd, dist, fd[dist] + 1);
      fd' := fd[dist := fd[dist] + 1];
      i' := i + 4;
    }
  }

  lemma StillCounted(fll: seq<nat>, fd: seq<nat>, fll': seq<nat>, fd': seq<nat>, ts: seq<Token>)
    requires AllCounted(fll, fd, ts) && Grown(fll, fll') && Grown(fd, fd')
    ensures AllCounted(fll', fd', ts)
  {
    hide LengthIndex, DistanceIndex;
    forall k | 0 <= k < |ts|
      ensures Counted(fll', fd', ts[k])
    {
      assert Counted(fll, fd, ts[k]);
    }
  }

  lemma CountedNext(fll: seq<nat>, fd: seq<nat>, ts: seq<Token>, k: nat)
    requires k < |ts| && AllCounted(fll, fd, ts[..k]) && Counted(fll, fd, ts[k])
    ensures AllCounted(fll, fd, ts[..k + 1])
  {
    hide Counted;
    assert ts[..k + 1] == ts[..k] + [ts[k]];
  }

  /** The frequencies of deflateDynamic: every symbol used by a token, and the end code, is counted. */
  method CountTokens(values: seq<nat>, ghost ts: seq<Token>) returns (fll: seq<nat>, fd: seq<nat>)
    requires AllInRange(ts) && values == StoredTokens(ts)
    ensures AllCounted(fll, fd, ts) && fll[256] > 0
    ensures Total(fll) <= |ts| + 1 && Total(fd) <= |ts|
    ensures fll == LitFreq(ts)[256 := 1] && fd == DistFreq(ts)
  {
    hide StoredTokens, StoredToken, Counted, Grown, LengthIndex, DistanceIndex, Total, LitSymbol, Bump;
    TotalZeros(286);
    TotalZeros(30);
    fll, fd := seq(286, _ => 0), seq(30, _ => 0);
    var i := 0;
    ghost var k: nat := 0;
    StartTokens([], [], ts);
    TokensDone(ts, 0);
    while i != |values|
      invariant k <= |ts| && AllInRange(ts[..k]) && i == |StoredTokens(ts[..k])|
      invariant i == |values| <==> k == |ts|
      invariant AllCounted(fll, fd, ts[..k]) && Total(fll) <= k && Total(fd) <= k
      invariant fll == LitFreq(ts[..k]) && fd == DistFreq(ts[..k])
      decreases |ts| - k
    {
      StoredTokenAt(ts, k);
      ghost var fll0, fd0 := fll, fd;
      i, fll, fd := CountOne(values, i, fll, fd, ts[k]);
      StillCounted(fll0, fd0, fll, fd, ts[..k]);
      CountedNext(fll, fd, ts, k);
      FreqNext(ts, k);
      k := k + 1;
      TokensDone(ts, k);
    }
    AllTokens(ts);
    fll := EndCounted(fll, fd, ts);
  }

  /** frequencies_ll[256] = 1: no token uses symbol 256. */
  method EndCounted(fll: seq<nat>, ghost fd: seq<nat>, ghost ts: seq<Token>) returns (r: seq<nat>)
    requires AllCounted(fll, fd, ts)
    ensures AllCounted(r, fd, ts) && r == fll[256 := 1] && Total(r) <= Total(fll) + 1
  {
    hide LengthIndex, DistanceIndex, Total;
    TotalUpdate(fll, 256, 1);
    r := fll[256 := 1];
    forall k | 0 <= k < |ts|
      ensures Counted(r, fd, ts[k])
    {
      assert Counted(fll, fd, ts[k]);
    }
  }
}
