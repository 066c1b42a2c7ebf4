/**
 * The decoder's array form of a Huffman tree: entry 2k+b of `tree2d` says what
 * follows node k on bit b, a symbol below `numcodes` or another node plus
 * `numcodes`.
 */
module HuffmanTree {
  import opened Powers
  import opened BitStream
  import opened PrefixCode

  datatype Option<+T> = None | Some(value: T)

  /** Marks an entry that is not filled in yet. */
  const EMPTY: nat := 32767

  /** A partly filled tree, the last node in use and the current tree position. */
  datatype Fill = Fill(tree: seq<nat>, nodes: nat, pos: int)

  /** Walks the bits of symbol n's code from bit i on, adding nodes; None is error 55. */
  function PlaceBits(f: Fill, numcodes: nat, n: nat, code: seq<bool>, i: nat): (r: Option<Fill>)
    requires |f.tree| == 2 * numcodes && i <= |code|
    ensures r.Some? ==> |r.value.tree| == 2 * numcodes
    decreases |code| - i
  {
    if i == |code| then Some(f)
    else if f.pos < 0 || f.pos + 2 > numcodes then None
    else PlaceBits(PlaceBit(f, numcodes, n, code[i], i + 1 == |code|), numcodes, n, code, i + 1)
  }

  function Slot(pos: nat, bit: bool): nat {
    2 * pos + BitValue(bit)
  }

  function PlaceBit(f: Fill, numcodes: nat, n: nat, bit: bool, last: bool): (r: Fill)
    requires |f.tree| == 2 * numcodes && 0 <= f.pos && f.pos + 2 <= numcodes
    ensures |r.tree| == 2 * numcodes
  {
    var slot := Slot(f.pos, bit);
    if f.tree[slot] == EMPTY then
      if last then Fill(f.tree[slot := n], f.nodes, 0)
      else Fill(f.tree[slot := f.nodes + 1 + numcodes], f.nodes + 1, f.nodes + 1)
    else f.(pos := f.tree[slot] - numcodes)
  }

  /** The tree after the codes of the first n symbols. */
  function PlaceSymbols(lengths: seq<nat>, n: nat): (r: Option<Fill>)
    requires n <= |lengths|
    ensures r.Some? ==> |r.value.tree| == 2 * |lengths|
  {
    if n == 0 then Some(Fill(seq(2 * |lengths|, _ => EMPTY), 0, 0))
    else
      match PlaceSymbols(lengths, n - 1)
      case None => None
      case Some(f) =>
        if lengths[n - 1] == 0 then Some(f)
        else PlaceBits(f, |lengths|, n - 1, CodeBits(lengths, n - 1), 0)
  }

  /** Entries that stay unfilled read as symbol 0. */
  function Cleaned(tree: seq<nat>): (r: seq<nat>)
    ensures |r| == |tree|
    ensures forall k :: 0 <= k < |r| ==> r[k] == if tree[k] == EMPTY then 0 else tree[k]
  {
    seq(|tree|, k requires 0 <= k < |tree| => if tree[k] == EMPTY then 0 else tree[k])
  }

  /** HuffmanTree_make2DTree: the array tree of a code, or None for error 55. */
  function Tree2d(lengths: seq<nat>): (r: Option<seq<nat>>)
    ensures r.Some? ==> |r.value| == 2 * |lengths|
  {
    match PlaceSymbols(lengths, |lengths|)
    case None => None
    case Some(f) => Some(Cleaned(f.tree))
  }

  /** What huffmanDecodeSymbol returns: the symbol, or -1, and the new bit pointer. */
  datatype Decoded = Decoded(symbol: int, bp: nat)

  /** huffmanDecodeSymbol, from a given tree position. */
  function DecodeFrom(tree: seq<nat>, numcodes: nat, bits: seq<bool>, bp: nat, pos: nat): (r: Decoded)
    requires |tree| == 2 * numcodes && pos < numcodes
    ensures r.symbol >= -1 && (r.symbol >= 0 ==> bp < r.bp <= |bits| && r.symbol < numcodes)
    ensures bp <= |bits| ==> bp <= r.bp <= |bits|
    decreases |bits| - bp
  {
    if bp >= |bits| then Decoded(-1, bp)
    else
      var ct := tree[Slot(pos, bits[bp])];
      if ct < numcodes then Decoded(ct, bp + 1)
      else if ct - numcodes >= numcodes then Decoded(-1, bp + 1)
      else DecodeFrom(tree, numcodes, bits, bp + 1, ct - numcodes)
  }

  // ----- Walking a code -----

  /** From node `pos`, the bits code[i..] lead to symbol s. */
  predicate LeadsTo(tree: seq<nat>, numcodes: nat, pos: nat, code: seq<bool>, i: nat, s: nat)
    requires |tree| == 2 * numcodes && i < |code|
    decreases |code| - i
  {
    && pos < numcodes
    && var e := tree[Slot(pos, code[i])];
       if i + 1 == |code| then e == s
       else numcodes <= e && e != EMPTY && LeadsTo(tree, numcodes, e - numcodes, code, i + 1, s)
  }

  /** Later entries only fill empty ones. */
  predicate Extends(tree: seq<nat>, tree': seq<nat>) {
    |tree| == |tree'| && forall k :: 0 <= k < |tree| && tree[k] != EMPTY ==> tree'[k] == tree[k]
  }

  lemma {:induction false} LeadsToExtends(tree: seq<nat>, tree': seq<nat>, numcodes: nat, pos: nat, code: seq<bool>,
                                          i: nat, s: nat)
    requires |tree| == 2 * numcodes && i < |code| && s < EMPTY
    requires Extends(tree, tree') && LeadsTo(tree, numcodes, pos, code, i, s)
    ensures LeadsTo(tree', numcodes, pos, code, i, s)
    decreases |code| - i
  {
    if i + 1 < |code| {
      LeadsToExtends(tree, tree', numcodes, tree[Slot(pos, code[i])] - numcodes, code, i + 1, s);
    }
  }

  /** Decoding the bits of a code the tree leads through returns its symbol and skips exactly those bits. */
  lemma {:induction false} DecodeCode(tree: seq<nat>, numcodes: nat, pos: nat, code: seq<bool>, i: nat, s: nat,
                                      bits: seq<bool>, bp: nat)
    requires |tree| == 2 * numcodes && i < |code| && s < numcodes <= EMPTY
    requires LeadsTo(tree, numcodes, pos, code, i, s)
    requires At(bits, bp, code[i..])
    ensures DecodeFrom(Cleaned(tree), numcodes, bits, bp, pos) == Decoded(s, bp + |code| - i)
    decreases |code| - i
  {
    assert bits[bp] == bits[bp..bp + |code| - i][0] == code[i..][0] == code[i];
    if i + 1 < |code| {
      assert At(bits, bp + 1, code[i + 1..]) by {
        assert bits[bp + 1..bp + |code| - i] == bits[bp..bp + |code| - i][1..];
        assert code[i..][1..] == code[i + 1..];
      }
      DecodeCode(tree, numcodes, tree[Slot(pos, code[i])] - numcodes, code, i + 1, s, bits, bp + 1);
    }
  }

  // ----- Building the tree from code lengths -----

  /** A Huffman tree with its codes as numbers and its array form; numcodes is the number of lengths. */
  datatype Huffman = Huffman(tree2d: seq<nat>, tree1d: seq<nat>, lengths: seq<nat>)

  /** Both forms of the tree are those of the canonical code of its lengths. */
  ghost predicate Built(t: Huffman) {
    && Tree2d(t.lengths) == Some(t.tree2d)
    && CodesOk(t.lengths, t.tree1d)
  }

  ghost predicate CodesOk(lengths: seq<nat>, tree1d: seq<nat>) {
    && |tree1d| == |lengths|
    && forall s :: 0 <= s < |lengths| && lengths[s] > 0 ==> HighBits(tree1d[s], lengths[s]) == CodeBits(lengths, s)
  }

  /** The source's nextcode[l]: unused symbols are counted too, which only adds multiples of 2^l. */
  function NextCode(lengths: seq<nat>, l: nat): nat {
    if l == 0 then 0 else 2 * (NextCode(lengths, l - 1) + Count(lengths, |lengths|, l - 1))
  }

  lemma {:induction false} NextCodeIs(lengths: seq<nat>, l: nat)
    requires l > 0
    ensures NextCode(lengths, l) == 2 * Kraft(lengths, l - 1) + Count(lengths, |lengths|, 0) * Pow2(l)
  {
    hide Kraft, KraftTo, Count, Pow2, NextCode;
    NextCodeStep(lengths, l);
    if l == 1 {
      KraftZero(lengths, |lengths|);
    } else {
      NextCodeIs(lengths, l - 1);
      KraftStep(lengths, |lengths|, l - 1);
      TwiceAll(Count(lengths, |lengths|, 0), l);
    }
  }

  lemma NextCodeStep(lengths: seq<nat>, l: nat)
    requires l > 0
    ensures NextCode(lengths, l) == 2 * (NextCode(lengths, l - 1) + Count(lengths, |lengths|, l - 1))
    ensures NextCode(lengths, 0) == 0 && Pow2(1) == 2
    ensures Kraft(lengths, l - 1) == KraftTo(lengths, |lengths|, l - 1)
    ensures l > 1 ==> Kraft(lengths, l - 2) == KraftTo(lengths, |lengths|, l - 2)
  {
    hide KraftTo, Count;
    assert Pow2(0) == 1;
  }

  lemma TwiceAll(zeros: nat, l: nat)
    requires l > 0
    ensures zeros * Pow2(l) == 2 * (zeros * Pow2(l - 1))
  {
  }

  lemma {:induction false} KraftZero(lengths: seq<nat>, n: nat)
    requires n <= |lengths|
    ensures KraftTo(lengths, n, 0) == 0
  {
    if n > 0 {
      KraftZero(lengths, n - 1);
    }
  }

  lemma {:induction false} OffsetBit(v: nat, c: nat, n: nat, k: nat)
    requires k < n
    ensures TestBit(v + c * Pow2(n), k) == TestBit(v, k)
  {
    var p := Pow2(n - 1);
    assert c * Pow2(n) == 2 * (c * p);
    HalfOffset(v, c * p);
    if k > 0 {
      OffsetBit(v / 2, c, n - 1, k - 1);
    }
  }

  lemma HalfOffset(v: nat, x: nat)
    ensures (v + 2 * x) / 2 == v / 2 + x && (v + 2 * x) % 2 == v % 2
  {
  }

  /** The bits written for a code are the canonical ones, whatever the unused symbols added. */
  lemma CodeBitsOffset(lengths: seq<nat>, s: nat, code: nat)
    requires s < |lengths| && lengths[s] > 0
    requires code == NextCode(lengths, lengths[s]) + Count(lengths, s, lengths[s])
    ensures HighBits(code, lengths[s]) == CodeBits(lengths, s)
  {
    var l := lengths[s];
    var zeros := Count(lengths, |lengths|, 0);
    NextCodeIs(lengths, l);
    assert code == Canon(lengths, s) + zeros * Pow2(l);
    forall k | 0 <= k < l
      ensures TestBit(code, k) == TestBit(Canon(lengths, s), k)
    {
      OffsetBit(Canon(lengths, s), zeros, l, k);
    }
  }

  /** Step 1 of HuffmanTree_makeFromLengths2: how many symbols have each length. */
  method CountLengths(lengths: seq<nat>, maxbitlen: nat) returns (blcount: seq<nat>)
    requires Bounded(lengths, maxbitlen)
    ensures |blcount| == maxbitlen + 1
    ensures forall l :: 0 <= l <= maxbitlen ==> blcount[l] == Count(lengths, |lengths|, l)
  {
    blcount := seq(maxbitlen + 1, _ => 0);
    for n := 0 to |lengths|
      invariant |blcount| == maxbitlen + 1
      invariant forall l :: 0 <= l <= maxbitlen ==> blcount[l] == Count(lengths, n, l)
    {
      blcount := blcount[lengths[n] := blcount[lengths[n]] + 1];
    }
  }

  /** Step 2: the first code of each length. */
  method FirstCodes(lengths: seq<nat>, maxbitlen: nat, blcount: seq<nat>) returns (nextcode: seq<nat>)
    requires |blcount| == maxbitlen + 1
    requires forall l :: 0 <= l <= maxbitlen ==> blcount[l] == Count(lengths, |lengths|, l)
    ensures |nextcode| == maxbitlen + 1
    ensures forall l :: 0 <= l <= maxbitlen ==> nextcode[l] == NextCode(lengths, l)
  {
    nextcode := [0];
    for l := 1 to maxbitlen + 1
      invariant |nextcode| == l
      invariant forall j :: 0 <= j < l ==> nextcode[j] == NextCode(lengths, j)
    {
      nextcode := nextcode + [2 * (nextcode[l - 1] + blcount[l - 1])];
    }
  }

  /** Steps 1 to 3 of HuffmanTree_makeFromLengths2. */
  method AssignCodes(lengths: seq<nat>, maxbitlen: nat) returns (tree1d: seq<nat>)
    requires Bounded(lengths, maxbitlen)
    ensures CodesOk(lengths, tree1d)
  {
    hide NextCode, CodeBits, TestBit;
    var blcount := CountLengths(lengths, maxbitlen);
    var nextcode := FirstCodes(lengths, maxbitlen, blcount);
    tree1d := [];
    for n := 0 to |lengths|
      invariant |nextcode| == maxbitlen + 1 && |tree1d| == n
      invariant forall l :: 1 <= l <= maxbitlen ==> nextcode[l] == NextCode(lengths, l) + Count(lengths, n, l)
      invariant forall s :: 0 <= s < n && lengths[s] > 0 ==> HighBits(tree1d[s], lengths[s]) == CodeBits(lengths, s)
    {
      if lengths[n] != 0 {
        CodeBitsOffset(lengths, n, nextcode[lengths[n]]);
        tree1d := tree1d + [nextcode[lengths[n]]];
        nextcode := nextcode[lengths[n] := nextcode[lengths[n]] + 1];
      } else {
        tree1d := tree1d + [0];
      }
    }
  }

  lemma OnePlaced(f: Fill, numcodes: nat, n: nat, code: nat, length: nat, i: nat)
    requires |f.tree| == 2 * numcodes && i < length
    ensures var bits := HighBits(code, length);
            && bits[i] == TestBit(code, length - i - 1)
            && PlaceBits(f, numcodes, n, bits, i) ==
               if f.pos < 0 || f.pos + 2 > numcodes then None
               else PlaceBits(PlaceBit(f, numcodes, n, bits[i], i + 1 == length), numcodes, n, bits, i + 1)
  {
    hide TestBit, PlaceBit;
  }

  lemma AllPlaced(f: Fill, numcodes: nat, n: nat, bits: seq<bool>)
    requires |f.tree| == 2 * numcodes
    ensures PlaceBits(f, numcodes, n, bits, |bits|) == Some(f)
  {
  }

  /** The inner loop of HuffmanTree_make2DTree: one code's bits. */
  method PlaceOne(f: Fill, numcodes: nat, n: nat, code: nat, length: nat) returns (error: nat, f': Fill)
    requires |f.tree| == 2 * numcodes
    ensures error == 0 || error == 55
    ensures error == 0 ==> PlaceBits(f, numcodes, n, HighBits(code, length), 0) == Some(f')
    ensures error != 0 ==> PlaceBits(f, numcodes, n, HighBits(code, length), 0) == None
  {
    hide PlaceBits, HighBits, TestBit;
    var tree: seq<nat>, nodefilled: nat, treepos := f.tree, f.nodes, f.pos;
    ghost var bits := HighBits(code, length);
    for i := 0 to length
      invariant |tree| == 2 * numcodes
      invariant PlaceBits(f, numcodes, n, bits, 0) == PlaceBits(Fill(tree, nodefilled, treepos), numcodes, n, bits, i)
    {
      var bit := BitValue(TestBit(code, length - i - 1));
      OnePlaced(Fill(tree, nodefilled, treepos), numcodes, n, code, length, i);
      if treepos < 0 || treepos + 2 > numcodes {
        return 55, f;
      }
      if tree[2 * treepos + bit] == EMPTY {
        if i + 1 == length {
          tree := tree[2 * treepos + bit := n];
          treepos := 0;
        } else {
          nodefilled := nodefilled + 1;
          tree := tree[2 * treepos + bit := nodefilled + numcodes];
          treepos := nodefilled;
        }
      } else {
        treepos := tree[2 * treepos + bit] - numcodes;
      }
    }
    AllPlaced(Fill(tree, nodefilled, treepos), numcodes, n, bits);
    return 0, Fill(tree, nodefilled, treepos);
  }

  /** HuffmanTree_make2DTree */
  method Make2DTree(lengths: seq<nat>, tree1d: seq<nat>) returns (error: nat, tree2d: seq<nat>)
    requires CodesOk(lengths, tree1d)
    ensures error == if Tree2d(lengths).Some? then 0 else 55
    ensures error == 0 ==> Tree2d(lengths) == Some(tree2d)
  {
    var f := Fill(seq(2 * |lengths|, _ => EMPTY), 0, 0);
    for n := 0 to |lengths|
      invariant PlaceSymbols(lengths, n) == Some(f)
    {
      if lengths[n] != 0 {
        var f' := f;
        error, f' := PlaceOne(f, |lengths|, n, tree1d[n], lengths[n]);
        if error != 0 {
          PlaceFailed(lengths, n + 1, |lengths|);
          return error, [];
        }
        f := f';
      }
    }
    error, tree2d := 0, Cleaned(f.tree);
  }

  lemma {:induction false} PlaceFailed(lengths: seq<nat>, n: nat, m: nat)
    requires n <= m <= |lengths| && PlaceSymbols(lengths, n) == None
    ensures PlaceSymbols(lengths, m) == None
  {
    if n < m {
      PlaceFailed(lengths, n, m - 1);
    }
  }

  /** HuffmanTree_makeFromLengths */
  method MakeFromLengths(lengths: seq<nat>, maxbitlen: nat) returns (error: nat, t: Huffman)
    requires Bounded(lengths, maxbitlen)
    ensures error == if Tree2d(lengths).Some? then 0 else 55
    ensures error == 0 ==> Built(t) && t.lengths == lengths
  {
    var tree1d := AssignCodes(lengths, maxbitlen);
    var tree2d;
    error, tree2d := Make2DTree(lengths, tree1d);
    t := Huffman(tree2d, tree1d, lengths);
  }

  /** The symbol at the bit pointer, as the array tree decodes it. */
  function DecodeSymbol(lengths: seq<nat>, tree2d: seq<nat>, bits: seq<bool>, bp: nat): (r: Decoded)
    requires |tree2d| == 2 * |lengths| && 0 < |lengths|
    ensures r.symbol >= -1 && (r.symbol >= 0 ==> bp < r.bp <= |bits| && r.symbol < |lengths|)
    ensures bp <= |bits| ==> bp <= r.bp <= |bits|
  {
    DecodeFrom(tree2d, |lengths|, bits, bp, 0)
  }

  /** huffmanDecodeSymbol */
  method HuffmanDecodeSymbol(data: seq<byte>, bp: nat, t: Huffman) returns (symbol: int, bp': nat)
    requires |t.tree2d| == 2 * |t.lengths| && 0 < |t.lengths| && bp <= 8 * |data|
    ensures Decoded(symbol, bp') == DecodeSymbol(t.lengths, t.tree2d, Bits(data), bp)
  {
    var numcodes := |t.lengths|;
    var treepos: nat := 0;
    bp' := bp;
    while bp' < 8 * |data|
      invariant bp <= bp' <= 8 * |data| && treepos < numcodes
      invariant DecodeFrom(t.tree2d, numcodes, Bits(data), bp, 0) ==
                DecodeFrom(t.tree2d, numcodes, Bits(data), bp', treepos)
    {
      var ct := t.tree2d[2 * treepos + BitValue(BitAt(data, bp'))];
      bp' := bp' + 1;
      if ct < numcodes {
        return ct, bp';
      }
      treepos := ct - numcodes;
      if treepos >= numcodes {
        return -1, bp';
      }
    }
    symbol := -1;
  }
}
