/**
 * Why the array tree decodes what was encoded: every node of a partly filled
 * tree stands for a proper prefix of some code, distinct nodes for distinct
 * prefixes, and a complete code has exactly one prefix fewer than codes.
 */
module TreeInvariant {
  import opened Powers
  import opened BitStream
  import opened PrefixCode
  import opened HuffmanTree

  /** What a node stands for: the prefix of `depth` bits with the given value, on the way to symbol `owner`. */
  datatype NodeInfo = NodeInfo(depth: nat, value: nat, parent: nat, owner: nat)

  predicate IsPrefix(lengths: seq<nat>, x: NodeInfo) {
    x.owner < |lengths| && x.depth < lengths[x.owner] && Prefix(lengths, x.owner, x.depth) == x.value
  }

  predicate SamePath(x: NodeInfo, y: NodeInfo) {
    x.depth == y.depth && x.value == y.value
  }

  predicate Nodes(lengths: seq<nat>, info: seq<NodeInfo>) {
    && |info| >= 1 && info[0].depth == 0 && info[0].value == 0
    && (forall k :: 1 <= k < |info| ==> IsPrefix(lengths, info[k]))
    && (forall j, k :: 0 <= j < k < |info| ==> !SamePath(info[j], info[k]))
  }

  /** Entry e under the node with path (depth, value), on bit b. */
  predicate EntryOk(lengths: seq<nat>, n: nat, info: seq<NodeInfo>, x: NodeInfo, b: nat, e: nat) {
    || e == EMPTY
    || (e < n <= |lengths| && lengths[e] == x.depth + 1 && Canon(lengths, e) == 2 * x.value + b)
    || (|lengths| <= e < |lengths| + |info|
        && info[e - |lengths|].depth == x.depth + 1 && info[e - |lengths|].value == 2 * x.value + b)
  }

  predicate Entries(lengths: seq<nat>, n: nat, tree: seq<nat>, info: seq<NodeInfo>) {
    && |tree| == 2 * |lengths| && |info| <= |lengths|
    && (forall k :: 0 <= k < |info| ==> EntryOk(lengths, n, info, info[k], 0, tree[2 * k]))
    && (forall k :: 0 <= k < |info| ==> EntryOk(lengths, n, info, info[k], 1, tree[2 * k + 1]))
    && (forall k :: 2 * |info| <= k < |tree| ==> tree[k] == EMPTY)
  }

  /** Every node but the root hangs below another one. */
  predicate Hangs(lengths: seq<nat>, tree: seq<nat>, info: seq<NodeInfo>, k: nat)
    requires |tree| == 2 * |lengths| && |info| <= |lengths| && k < |info|
  {
    var x := info[k];
    && x.parent < |info|
    && info[x.parent].depth + 1 == x.depth
    && info[x.parent].value == x.value / 2
    && tree[2 * x.parent + x.value % 2] == |lengths| + k
  }

  predicate Linked(lengths: seq<nat>, tree: seq<nat>, info: seq<NodeInfo>)
    requires |tree| == 2 * |lengths| && |info| <= |lengths|
  {
    forall k :: 1 <= k < |info| ==> Hangs(lengths, tree, info, k)
  }

  // ----- Counting the nodes -----

  /** How many of the first n symbols have a code of at most d bits. */
  function Coded(lengths: seq<nat>, n: nat, d: nat): nat
    requires n <= |lengths|
  {
    if n == 0 then 0 else Coded(lengths, n - 1, d) + (if 0 < lengths[n - 1] <= d then 1 else 0)
  }

  lemma {:induction false} CodedStep(lengths: seq<nat>, n: nat, d: nat)
    requires n <= |lengths| && d > 0
    ensures Coded(lengths, n, d) == Coded(lengths, n, d - 1) + Count(lengths, n, d)
  {
    if n > 0 {
      CodedStep(lengths, n - 1, d);
    }
  }

  lemma {:induction false} CodedZero(lengths: seq<nat>, n: nat)
    requires n <= |lengths|
    ensures Coded(lengths, n, 0) == 0 && KraftTo(lengths, n, 0) == 0
  {
    if n > 0 {
      CodedZero(lengths, n - 1);
    }
  }

  lemma {:induction false} CodedBound(lengths: seq<nat>, n: nat, d: nat)
    requires n <= |lengths|
    ensures Coded(lengths, n, d) <= n
  {
    if n > 0 {
      CodedBound(lengths, n - 1, d);
    }
  }

  /** The number of prefixes of d bits that still lead to longer codes of a complete code. */
  function Open(lengths: seq<nat>, d: nat): int {
    Pow2(d) - Kraft(lengths, d)
  }

  /** The number of open prefixes shorter than d bits. */
  function OpenBelow(lengths: seq<nat>, d: nat): int {
    if d == 0 then 0 else OpenBelow(lengths, d - 1) + Open(lengths, d - 1)
  }

  lemma {:induction false} OpenBelowIs(lengths: seq<nat>, d: nat)
    ensures OpenBelow(lengths, d) == Open(lengths, d) + Coded(lengths, |lengths|, d) - 1
  {
    if d == 0 {
      CodedZero(lengths, |lengths|);
    } else {
      OpenBelowIs(lengths, d - 1);
      CodedStep(lengths, |lengths|, d);
      KraftStep(lengths, |lengths|, d);
    }
  }

  lemma {:induction false} OpenBelowMonotone(lengths: seq<nat>, bits: nat, d: nat, e: nat)
    requires Fits(lengths, bits) && d <= e <= bits
    ensures OpenBelow(lengths, d) <= OpenBelow(lengths, e)
  {
    if d < e {
      OpenBelowMonotone(lengths, bits, d, e - 1);
      FitsAt(lengths, bits, e - 1);
    }
  }

  /** A number below the count of open prefixes, different for different prefixes. */
  function Rank(lengths: seq<nat>, x: NodeInfo): int {
    OpenBelow(lengths, x.depth) + x.value - Kraft(lengths, x.depth)
  }

  lemma RankRange(lengths: seq<nat>, bits: nat, x: NodeInfo)
    requires Fits(lengths, bits) && x.depth < bits
    requires IsPrefix(lengths, x) || (x.depth == 0 && x.value == 0)
    ensures OpenBelow(lengths, x.depth) <= Rank(lengths, x) < OpenBelow(lengths, x.depth + 1)
    ensures 0 <= Rank(lengths, x) < OpenBelow(lengths, bits)
  {
    if IsPrefix(lengths, x) {
      PrefixBeyond(lengths, x.owner, x.depth);
      PrefixBelow(lengths, bits, x.owner, x.depth);
    } else {
      CodedZero(lengths, |lengths|);
    }
    OpenBelowMonotone(lengths, bits, 0, x.depth);
    OpenBelowMonotone(lengths, bits, x.depth + 1, bits);
  }

  lemma RankDistinct(lengths: seq<nat>, bits: nat, x: NodeInfo, y: NodeInfo)
    requires Fits(lengths, bits) && x.depth < bits && y.depth < bits && !SamePath(x, y)
    requires IsPrefix(lengths, x) || (x.depth == 0 && x.value == 0)
    requires IsPrefix(lengths, y) || (y.depth == 0 && y.value == 0)
    ensures Rank(lengths, x) != Rank(lengths, y)
  {
    RankRange(lengths, bits, x);
    RankRange(lengths, bits, y);
    if x.depth < y.depth {
      OpenBelowMonotone(lengths, bits, x.depth + 1, y.depth);
    } else if y.depth < x.depth {
      OpenBelowMonotone(lengths, bits, y.depth + 1, x.depth);
    }
  }

  /** Distinct numbers below m are at most m many. */
  lemma Pigeonhole(s: seq<int>, m: nat)
    requires forall k :: 0 <= k < |s| ==> 0 <= s[k] < m
    requires forall j, k :: 0 <= j < k < |s| ==> s[j] != s[k]
    ensures |s| <= m
  {
    var all := Range(m);
    var used := set x | x in s;
    CountDistinct(s);
    assert all == used + (all - used);
  }

  function Range(m: nat): (r: set<int>)
    ensures |r| == m
    ensures forall x :: x in r <==> 0 <= x < m
  {
    if m == 0 then {} else Range(m - 1) + {m - 1}
  }

  lemma {:induction false} CountDistinct(s: seq<int>)
    requires forall j, k :: 0 <= j < k < |s| ==> s[j] != s[k]
    ensures |set x | x in s| == |s|
  {
    if s != [] {
      var m := |s| - 1;
      CountDistinct(s[..m]);
      assert (set x | x in s) == (set x | x in s[..m]) + {s[m]};
    }
  }

  /** A complete code with at least two codes has fewer tree nodes than codes. */
  lemma NodeCount(lengths: seq<nat>, bits: nat, info: seq<NodeInfo>)
    requires Complete(lengths, bits) && bits >= 1 && Nodes(lengths, info)
    ensures |info| < Coded(lengths, |lengths|, bits)
  {
    var ranks := seq(|info|, k requires 0 <= k < |info| => Rank(lengths, info[k]));
    forall k | 0 <= k < |info|
      ensures info[k].depth < bits && 0 <= ranks[k] < OpenBelow(lengths, bits)
    {
      RankRange(lengths, bits, info[k]);
    }
    forall j, k | 0 <= j < k < |info|
      ensures ranks[j] != ranks[k]
    {
      RankDistinct(lengths, bits, info[j], info[k]);
    }
    OpenBelowIs(lengths, bits);
    OpenBelowMonotone(lengths, bits, 0, bits);
    Pigeonhole(ranks, OpenBelow(lengths, bits));
  }

  // ----- Placing one code -----

  /** The state of the fill while symbol n's code is placed, before bit i. */
  predicate Placing(lengths: seq<nat>, n: nat, f: Fill, info: seq<NodeInfo>, i: nat) {
    && n < |lengths| && i < lengths[n] && |f.tree| == 2 * |lengths| && |info| <= |lengths|
    && Nodes(lengths, info) && Entries(lengths, n, f.tree, info) && Linked(lengths, f.tree, info)
    && |info| == f.nodes + 1
    && 0 <= f.pos < |info|
    && info[f.pos].depth == i && info[f.pos].value == Prefix(lengths, n, i)
  }

  /** The state of the fill between codes. */
  predicate Placed(lengths: seq<nat>, n: nat, f: Fill, info: seq<NodeInfo>) {
    && n <= |lengths| && |f.tree| == 2 * |lengths| && |info| <= |lengths|
    && Nodes(lengths, info) && Entries(lengths, n, f.tree, info) && Linked(lengths, f.tree, info)
    && |info| == f.nodes + 1
    && f.pos == 0
  }

  /** The entry met on the way is never another symbol, and on the last bit it is empty. */
  lemma EntryOnTheWay(lengths: seq<nat>, n: nat, f: Fill, info: seq<NodeInfo>, i: nat)
    requires Placing(lengths, n, f, info, i) && f.pos + 2 <= |lengths| && 2 * |lengths| <= EMPTY
    ensures var e := f.tree[Slot(f.pos, CodeBits(lengths, n)[i])];
            && (e == EMPTY || |lengths| <= e < |lengths| + |info|)
            && (i + 1 == lengths[n] ==> e == EMPTY)
            && (e != EMPTY ==> info[e - |lengths|].depth == i + 1
                               && info[e - |lengths|].value == Prefix(lengths, n, i + 1))
  {
    hide Canon, Prefix, Linked, Nodes, EntryOk;
    var b := BitValue(CodeBits(lengths, n)[i]);
    var e := f.tree[2 * f.pos + b];
    assert EntryOk(lengths, n, info, info[f.pos], b, e);
    PrefixStep(lengths, n, i);
    EntryIsNode(lengths, n, info, info[f.pos], b, e);
    if e != EMPTY && i + 1 == lengths[n] {
      NotLast(lengths, n, info, e - |lengths|);
    }
  }

  lemma EntryIsNode(lengths: seq<nat>, n: nat, info: seq<NodeInfo>, x: NodeInfo, b: nat, e: nat)
    requires n < |lengths| && x.depth < lengths[n] && EntryOk(lengths, n, info, x, b, e)
    requires Prefix(lengths, n, x.depth + 1) == 2 * x.value + b
    ensures e == EMPTY || |lengths| <= e < |lengths| + |info|
    ensures e != EMPTY ==> info[e - |lengths|].depth == x.depth + 1
                           && info[e - |lengths|].value == Prefix(lengths, n, x.depth + 1)
  {
    hide Canon, Prefix;
    if e != EMPTY && e < n {
      PrefixFree(lengths, e, n);
    }
  }

  lemma NotLast(lengths: seq<nat>, n: nat, info: seq<NodeInfo>, k: nat)
    requires Nodes(lengths, info) && k < |info| && n < |lengths| && 0 < lengths[n] == info[k].depth
    ensures info[k].value != Prefix(lengths, n, lengths[n])
  {
    hide Canon, Prefix;
    assert IsPrefix(lengths, info[k]);
    PrefixFull(lengths, n);
    PrefixFree(lengths, n, info[k].owner);
  }

  /** Putting the symbol into the last entry. */
  lemma PlaceLast(lengths: seq<nat>, n: nat, f: Fill, info: seq<NodeInfo>, i: nat)
    requires Placing(lengths, n, f, info, i) && f.pos + 2 <= |lengths| && 2 * |lengths| <= EMPTY
    requires i + 1 == lengths[n]
    ensures var f' := PlaceBit(f, |lengths|, n, CodeBits(lengths, n)[i], true);
            && Placed(lengths, n + 1, f', info) && Extends(f.tree, f'.tree)
            && LeadsTo(f'.tree, |lengths|, f.pos, CodeBits(lengths, n), i, n)
  {
    hide Canon, Prefix, Nodes, Entries, Linked, PlaceBit, LeadsTo, Extends, HighBits, Slot, Placed;
    var bit := CodeBits(lengths, n)[i];
    LastEntry(lengths, n, f, info, i, bit);
    LastFill(lengths, n, f, info, i, bit);
    SymbolEntries(lengths, n, f, info, i, bit);
  }

  /** The last bit finds an empty entry. */
  lemma LastEntry(lengths: seq<nat>, n: nat, f: Fill, info: seq<NodeInfo>, i: nat, bit: bool)
    requires Placing(lengths, n, f, info, i) && f.pos + 2 <= |lengths| && 2 * |lengths| <= EMPTY
    requires i + 1 == lengths[n] && bit == CodeBits(lengths, n)[i]
    ensures Slot(f.pos, bit) < |f.tree| == 2 * |lengths| && f.tree[Slot(f.pos, bit)] == EMPTY
  {
    hide Canon, Prefix, Nodes, Entries, Linked;
    EntryOnTheWay(lengths, n, f, info, i);
  }

  lemma SymbolEntries(lengths: seq<nat>, n: nat, f: Fill, info: seq<NodeInfo>, i: nat, bit: bool)
    requires Placing(lengths, n, f, info, i) && f.pos + 2 <= |lengths| && 2 * |lengths| <= EMPTY
    requires i + 1 == lengths[n] && bit == CodeBits(lengths, n)[i] && f.tree[Slot(f.pos, bit)] == EMPTY
    ensures Placed(lengths, n + 1, Fill(f.tree[Slot(f.pos, bit) := n], f.nodes, 0), info)
  {
    hide Canon, Prefix, Nodes, Entries, Linked, EntryOk, HighBits;
    var slot := Slot(f.pos, bit);
    PrefixStep(lengths, n, i);
    PrefixFull(lengths, n);
    NewSymbolOk(lengths, n, info, info[f.pos], BitValue(bit));
    EntriesWiden(lengths, n, f.tree, info);
    EntriesUpdate(lengths, n + 1, f.tree, info, f.pos, BitValue(bit), n);
    LinkedUpdate(lengths, f.tree, info, slot, n);
  }

  lemma LastFill(lengths: seq<nat>, n: nat, f: Fill, info: seq<NodeInfo>, i: nat, bit: bool)
    requires Placing(lengths, n, f, info, i) && f.pos + 2 <= |lengths| && 2 * |lengths| <= EMPTY
    requires i + 1 == lengths[n] && bit == CodeBits(lengths, n)[i] && f.tree[Slot(f.pos, bit)] == EMPTY
    ensures var f' := PlaceBit(f, |lengths|, n, bit, true);
            && f' == Fill(f.tree[Slot(f.pos, bit) := n], f.nodes, 0) && Extends(f.tree, f'.tree)
            && LeadsTo(f'.tree, |lengths|, f.pos, CodeBits(lengths, n), i, n)
  {
    hide Canon, Prefix, Nodes, Entries, Linked, HighBits;
  }

  lemma NewSymbolOk(lengths: seq<nat>, n: nat, info: seq<NodeInfo>, x: NodeInfo, b: nat)
    requires n < |lengths| && lengths[n] == x.depth + 1 && Canon(lengths, n) == 2 * x.value + b
    ensures EntryOk(lengths, n + 1, info, x, b, n)
  {
  }

  lemma EntriesWiden(lengths: seq<nat>, n: nat, tree: seq<nat>, info: seq<NodeInfo>)
    requires Entries(lengths, n, tree, info) && n < |lengths|
    ensures Entries(lengths, n + 1, tree, info)
  {
  }

  lemma EntriesUpdate(lengths: seq<nat>, n: nat, tree: seq<nat>, info: seq<NodeInfo>, pos: nat, b: nat, e: nat)
    requires Entries(lengths, n, tree, info) && pos < |info| && b < 2
    requires EntryOk(lengths, n, info, info[pos], b, e)
    ensures Entries(lengths, n, tree[2 * pos + b := e], info)
  {
  }

  lemma LinkedUpdate(lengths: seq<nat>, tree: seq<nat>, info: seq<NodeInfo>, slot: nat, e: nat)
    requires |tree| == 2 * |lengths| <= EMPTY && |info| <= |lengths| && slot < |tree| && tree[slot] == EMPTY
    requires Linked(lengths, tree, info)
    ensures Linked(lengths, tree[slot := e], info)
  {
    var tree' := tree[slot := e];
    forall k | 1 <= k < |info|
      ensures Hangs(lengths, tree', info, k)
    {
      assert Hangs(lengths, tree, info, k);
    }
  }

  /** A node that already stands for the next prefix of the code is the one the tree leads to. */
  lemma KnownPath(lengths: seq<nat>, n: nat, f: Fill, info: seq<NodeInfo>, i: nat, j: nat)
    requires Placing(lengths, n, f, info, i) && j < |info|
    requires info[j].depth == i + 1 && info[j].value == Prefix(lengths, n, i + 1)
    ensures f.tree[Slot(f.pos, CodeBits(lengths, n)[i])] == |lengths| + j
  {
    hide Prefix, Canon, Entries;
    PrefixStep(lengths, n, i);
    assert Hangs(lengths, f.tree, info, j);
    assert SamePath(info[info[j].parent], info[f.pos]);
  }

  /** The node a code adds stands for a prefix no other node stands for. */
  lemma FreshNode(lengths: seq<nat>, n: nat, f: Fill, info: seq<NodeInfo>, i: nat, x: NodeInfo)
    requires Placing(lengths, n, f, info, i) && 2 * |lengths| <= EMPTY && i + 1 < lengths[n]
    requires f.tree[Slot(f.pos, CodeBits(lengths, n)[i])] == EMPTY
    requires x == NodeInfo(i + 1, Prefix(lengths, n, i + 1), f.pos, n)
    ensures Nodes(lengths, info + [x])
  {
    hide Prefix, Canon, Entries, Linked;
    forall j | 0 <= j < |info|
      ensures !SamePath(info[j], x)
    {
      if SamePath(info[j], x) {
        KnownPath(lengths, n, f, info, i, j);
      }
    }
  }

  /** Adding a node for a bit that is not the last. */
  lemma PlaceNode(lengths: seq<nat>, n: nat, f: Fill, info: seq<NodeInfo>, i: nat) returns (info': seq<NodeInfo>)
    requires Placing(lengths, n, f, info, i) && f.pos + 2 <= |lengths| && 2 * |lengths| <= EMPTY
    requires i + 1 < lengths[n] && |info| < |lengths|
    requires f.tree[Slot(f.pos, CodeBits(lengths, n)[i])] == EMPTY
    ensures var f' := PlaceBit(f, |lengths|, n, CodeBits(lengths, n)[i], false);
            && Placing(lengths, n, f', info', i + 1) && Extends(f.tree, f'.tree)
            && f'.pos < |lengths| && f'.tree[Slot(f.pos, CodeBits(lengths, n)[i])] == |lengths| + f'.pos < EMPTY
  {
    hide Prefix, Canon, EntryOk, Nodes, Hangs, Linked, Entries;
    var bit := CodeBits(lengths, n)[i];
    var x := NodeInfo(i + 1, Prefix(lengths, n, i + 1), f.pos, n);
    info' := info + [x];
    FreshNode(lengths, n, f, info, i, x);
    NewNodeEntries(lengths, n, f, info, i, x);
  }

  lemma NewNodeEntries(lengths: seq<nat>, n: nat, f: Fill, info: seq<NodeInfo>, i: nat, x: NodeInfo)
    requires Placing(lengths, n, f, info, i) && f.pos + 2 <= |lengths| && 2 * |lengths| <= EMPTY
    requires i + 1 < lengths[n] && |info| < |lengths|
    requires f.tree[Slot(f.pos, CodeBits(lengths, n)[i])] == EMPTY
    requires x == NodeInfo(i + 1, Prefix(lengths, n, i + 1), f.pos, n)
    ensures var tree' := f.tree[Slot(f.pos, CodeBits(lengths, n)[i]) := |lengths| + |info|];
            Entries(lengths, n, tree', info + [x]) && Linked(lengths, tree', info + [x])
  {
    hide Prefix, Canon, EntryOk, Nodes, Linked;
    var bit := CodeBits(lengths, n)[i];
    var e := |lengths| + |info|;
    PrefixStep(lengths, n, i);
    EntriesGrow(lengths, n, f.tree, info, x);
    NewNodeOk(lengths, n, info, info[f.pos], BitValue(bit), x);
    EntriesUpdate(lengths, n, f.tree, info + [x], f.pos, BitValue(bit), e);
    LinkedUpdate(lengths, f.tree, info, Slot(f.pos, bit), e);
    LinkedGrow(lengths, f.tree[Slot(f.pos, bit) := e], info, x);
  }

  lemma NewNodeOk(lengths: seq<nat>, n: nat, info: seq<NodeInfo>, y: NodeInfo, b: nat, x: NodeInfo)
    requires x.depth == y.depth + 1 && x.value == 2 * y.value + b
    ensures EntryOk(lengths, n, info + [x], y, b, |lengths| + |info|)
  {
  }

  lemma EntriesGrow(lengths: seq<nat>, n: nat, tree: seq<nat>, info: seq<NodeInfo>, x: NodeInfo)
    requires Entries(lengths, n, tree, info) && |info| < |lengths|
    ensures Entries(lengths, n, tree, info + [x])
  {
    var info' := info + [x];
    forall k | 0 <= k < |info'|
      ensures EntryOk(lengths, n, info', info'[k], 0, tree[2 * k])
      ensures EntryOk(lengths, n, info', info'[k], 1, tree[2 * k + 1])
    {
      if k < |info| {
        assert EntryOk(lengths, n, info, info[k], 0, tree[2 * k])
          && EntryOk(lengths, n, info, info[k], 1, tree[2 * k + 1]);
      }
    }
  }

  lemma LinkedGrow(lengths: seq<nat>, tree: seq<nat>, info: seq<NodeInfo>, x: NodeInfo)
    requires |tree| == 2 * |lengths| && |info| < |lengths| && Linked(lengths, tree, info)
    requires Hangs(lengths, tree, info + [x], |info|)
    ensures Linked(lengths, tree, info + [x])
  {
    forall k | 1 <= k < |info| + 1
      ensures Hangs(lengths, tree, info + [x], k)
    {
      if k < |info| {
        assert Hangs(lengths, tree, info, k);
      }
    }
  }

  /** Why every bit of the code can be placed: the call is known to succeed, or the code is complete. */
  predicate Enough(lengths: seq<nat>, bits: nat, f: Fill, n: nat, i: nat)
    requires n < |lengths| && i <= lengths[n] && 0 < lengths[n] && |f.tree| == 2 * |lengths|
  {
    || PlaceBits(f, |lengths|, n, CodeBits(lengths, n), i).Some?
    || (Complete(lengths, bits) && bits >= 1)
  }

  lemma RoomAt(lengths: seq<nat>, bits: nat, n: nat, f: Fill, info: seq<NodeInfo>, i: nat)
    requires Placing(lengths, n, f, info, i) && Enough(lengths, bits, f, n, i)
    ensures f.pos + 2 <= |lengths|
  {
    if !PlaceBits(f, |lengths|, n, CodeBits(lengths, n), i).Some? {
      NodeCount(lengths, bits, info);
      CodedBound(lengths, |lengths|, bits);
    }
  }

  lemma RoomForNode(lengths: seq<nat>, bits: nat, n: nat, f: Fill, info: seq<NodeInfo>, i: nat)
    requires Placing(lengths, n, f, info, i) && Enough(lengths, bits, f, n, i)
    requires i + 1 < lengths[n] && f.pos + 2 <= |lengths|
    requires f.tree[Slot(f.pos, CodeBits(lengths, n)[i])] == EMPTY
    ensures |info| < |lengths|
  {
    var code := CodeBits(lengths, n);
    if PlaceBits(f, |lengths|, n, code, i).Some? {
      var f1 := PlaceBit(f, |lengths|, n, code[i], false);
      assert PlaceBits(f1, |lengths|, n, code, i + 1).Some?;
      assert f1.pos + 2 <= |lengths|;
    } else {
      NodeCount(lengths, bits, info);
      CodedBound(lengths, |lengths|, bits);
    }
  }

  /** Placing a code keeps the invariant, and its bits then lead to its symbol. */
  lemma {:induction false} PlaceCode(lengths: seq<nat>, bits: nat, n: nat, f: Fill, info: seq<NodeInfo>, i: nat)
    returns (f': Fill, info': seq<NodeInfo>)
    requires Placing(lengths, n, f, info, i) && 2 * |lengths| <= EMPTY
    requires Enough(lengths, bits, f, n, i)
    ensures PlaceBits(f, |lengths|, n, CodeBits(lengths, n), i) == Some(f')
    ensures Placed(lengths, n + 1, f', info') && Extends(f.tree, f'.tree)
    ensures LeadsTo(f'.tree, |lengths|, f.pos, CodeBits(lengths, n), i, n)
    decreases lengths[n] - i
  {
    hide Prefix, Canon, Nodes, Linked, Entries, Complete, PlaceBits, PlaceBit, LeadsTo, Placed, Extends, HighBits;
    var code := CodeBits(lengths, n);
    RoomAt(lengths, bits, n, f, info, i);
    EntryOnTheWay(lengths, n, f, info, i);
    PlaceStep(lengths, n, f, i);
    var f1 := PlaceBit(f, |lengths|, n, code[i], i + 1 == |code|);
    var e := f.tree[Slot(f.pos, code[i])];
    if i + 1 == |code| {
      PlaceLast(lengths, n, f, info, i);
      f', info' := f1, info;
    } else {
      var info1 := info;
      if e == EMPTY {
        RoomForNode(lengths, bits, n, f, info, i);
        info1 := PlaceNode(lengths, n, f, info, i);
      } else {
        SamePlace(lengths, n, f, info, i);
      }
      f', info' := PlaceCode(lengths, bits, n, f1, info1, i + 1);
      LeadStep(f.tree, f1, f'.tree, |lengths|, f.pos, code, i, n);
    }
  }

  lemma PlaceStep(lengths: seq<nat>, n: nat, f: Fill, i: nat)
    requires n < |lengths| && i < lengths[n] && |f.tree| == 2 * |lengths| && 0 <= f.pos && f.pos + 2 <= |lengths|
    ensures var code := CodeBits(lengths, n);
            var f1 := PlaceBit(f, |lengths|, n, code[i], i + 1 == |code|);
            && PlaceBits(f, |lengths|, n, code, i) == PlaceBits(f1, |lengths|, n, code, i + 1)
            && PlaceBits(f1, |lengths|, n, code, |code|) == Some(f1)
  {
    hide PlaceBit, Canon, HighBits;
  }

  /** The way goes on in a node that is already there. */
  lemma SamePlace(lengths: seq<nat>, n: nat, f: Fill, info: seq<NodeInfo>, i: nat)
    requires Placing(lengths, n, f, info, i) && f.pos + 2 <= |lengths| && 2 * |lengths| <= EMPTY && i + 1 < lengths[n]
    requires f.tree[Slot(f.pos, CodeBits(lengths, n)[i])] != EMPTY
    ensures var f' := PlaceBit(f, |lengths|, n, CodeBits(lengths, n)[i], false);
            && Placing(lengths, n, f', info, i + 1) && Extends(f.tree, f'.tree)
            && f'.pos < |lengths| && f'.tree[Slot(f.pos, CodeBits(lengths, n)[i])] == |lengths| + f'.pos < EMPTY
  {
    hide Prefix, Canon, Nodes, Linked, Entries, HighBits;
    EntryOnTheWay(lengths, n, f, info, i);
  }

  lemma LeadStep(tree: seq<nat>, f1: Fill, tree': seq<nat>, numcodes: nat, pos: nat, code: seq<bool>, i: nat, n: nat)
    requires |tree| == |f1.tree| == |tree'| == 2 * numcodes && pos < numcodes && i + 1 < |code| && 0 <= f1.pos
    requires Extends(tree, f1.tree) && Extends(f1.tree, tree')
    requires f1.tree[Slot(pos, code[i])] == numcodes + f1.pos < EMPTY
    requires LeadsTo(tree', numcodes, f1.pos, code, i + 1, n)
    ensures Extends(tree, tree') && LeadsTo(tree', numcodes, pos, code, i, n)
  {
  }

  // ----- The finished tree -----

  /** The codes of the first n symbols lead to their symbols. */
  predicate AllLead(lengths: seq<nat>, n: nat, tree: seq<nat>)
    requires n <= |lengths| && |tree| == 2 * |lengths|
  {
    forall s :: 0 <= s < n && lengths[s] > 0 ==> LeadsTo(tree, |lengths|, 0, CodeBits(lengths, s), 0, s)
  }

  lemma {:induction false} FillOk(lengths: seq<nat>, bits: nat, n: nat) returns (info: seq<NodeInfo>)
    requires Fits(lengths, bits) && n <= |lengths| && 1 <= |lengths| && 2 * |lengths| <= EMPTY
    requires PlaceSymbols(lengths, n).Some? || (Complete(lengths, bits) && bits >= 1)
    ensures PlaceSymbols(lengths, n).Some?
    ensures Placed(lengths, n, PlaceSymbols(lengths, n).value, info)
    ensures AllLead(lengths, n, PlaceSymbols(lengths, n).value.tree)
  {
    hide *;
    SymbolsStep(lengths, n);
    if n == 0 {
      info := [NodeInfo(0, 0, 0, 0)];
      EmptyFill(lengths, PlaceSymbols(lengths, 0).value, info);
    } else {
      info := FillOk(lengths, bits, n - 1);
      var f := PlaceSymbols(lengths, n - 1).value;
      if lengths[n - 1] == 0 {
        SkipSymbol(lengths, n - 1, f, info);
      } else {
        info := PlaceSymbol(lengths, bits, n - 1, f, info);
      }
    }
  }

  lemma SymbolsStep(lengths: seq<nat>, n: nat)
    requires n <= |lengths|
    ensures n == 0 ==> PlaceSymbols(lengths, n) == Some(Fill(seq(2 * |lengths|, _ => EMPTY), 0, 0))
    ensures n > 0 && PlaceSymbols(lengths, n).Some? ==> PlaceSymbols(lengths, n - 1).Some?
    ensures n > 0 && PlaceSymbols(lengths, n - 1).Some? ==>
              var f := PlaceSymbols(lengths, n - 1).value;
              PlaceSymbols(lengths, n) ==
              if lengths[n - 1] == 0 then Some(f) else PlaceBits(f, |lengths|, n - 1, CodeBits(lengths, n - 1), 0)
  {
    hide PlaceBits, HighBits, Canon;
  }

  lemma EmptyFill(lengths: seq<nat>, f: Fill, info: seq<NodeInfo>)
    requires 1 <= |lengths| && 2 * |lengths| <= EMPTY && info == [NodeInfo(0, 0, 0, 0)]
    requires f == Fill(seq(2 * |lengths|, _ => EMPTY), 0, 0)
    ensures Placed(lengths, 0, f, info) && AllLead(lengths, 0, f.tree)
  {
    hide Canon, LeadsTo;
  }

  lemma SkipSymbol(lengths: seq<nat>, n: nat, f: Fill, info: seq<NodeInfo>)
    requires n < |lengths| && lengths[n] == 0 && Placed(lengths, n, f, info) && AllLead(lengths, n, f.tree)
    ensures Placed(lengths, n + 1, f, info) && AllLead(lengths, n + 1, f.tree)
  {
    hide Nodes, Entries, Linked, LeadsTo, Canon, HighBits;
    EntriesWiden(lengths, n, f.tree, info);
  }

  lemma PlaceSymbol(lengths: seq<nat>, bits: nat, n: nat, f: Fill, info: seq<NodeInfo>) returns (info': seq<NodeInfo>)
    requires Fits(lengths, bits) && n < |lengths| && lengths[n] > 0 && 2 * |lengths| <= EMPTY
    requires Placed(lengths, n, f, info) && AllLead(lengths, n, f.tree) && |f.tree| == 2 * |lengths|
    requires PlaceBits(f, |lengths|, n, CodeBits(lengths, n), 0).Some? || (Complete(lengths, bits) && bits >= 1)
    ensures PlaceBits(f, |lengths|, n, CodeBits(lengths, n), 0).Some?
    ensures var f' := PlaceBits(f, |lengths|, n, CodeBits(lengths, n), 0).value;
            Placed(lengths, n + 1, f', info') && AllLead(lengths, n + 1, f'.tree)
  {
    hide Nodes, Entries, Linked, Canon, LeadsTo, PlaceBits, HighBits, Complete, AllLead, Fits;
    StartPlacing(lengths, bits, n, f, info);
    var f';
    f', info' := PlaceCode(lengths, bits, n, f, info, 0);
    StillLead(lengths, n, f.tree, f'.tree);
  }

  lemma StartPlacing(lengths: seq<nat>, bits: nat, n: nat, f: Fill, info: seq<NodeInfo>)
    requires Fits(lengths, bits) && n < |lengths| && lengths[n] > 0 && Placed(lengths, n, f, info)
    ensures Placing(lengths, n, f, info, 0)
  {
    PrefixStart(lengths, bits, n);
  }

  lemma StillLead(lengths: seq<nat>, n: nat, tree: seq<nat>, tree': seq<nat>)
    requires n < |lengths| && |tree| == 2 * |lengths| <= EMPTY && lengths[n] > 0
    requires AllLead(lengths, n, tree) && Extends(tree, tree')
    requires LeadsTo(tree', |lengths|, 0, CodeBits(lengths, n), 0, n)
    ensures AllLead(lengths, n + 1, tree')
  {
    hide Canon, LeadsTo;
    forall s | 0 <= s < n + 1 && lengths[s] > 0
      ensures LeadsTo(tree', |lengths|, 0, CodeBits(lengths, s), 0, s)
    {
      if s < n {
        LeadsToExtends(tree, tree', |lengths|, 0, CodeBits(lengths, s), 0, s);
      }
    }
  }

  /** Error 55 cannot occur for a complete code. */
  lemma CompleteTree(lengths: seq<nat>, bits: nat)
    requires Complete(lengths, bits) && bits >= 1 && 2 * |lengths| <= EMPTY
    ensures Tree2d(lengths).Some?
  {
    var info := FillOk(lengths, bits, |lengths|);
  }

  /** Decoding the bits written for a symbol returns that symbol and skips exactly its code. */
  lemma DecodeSymbolOk(lengths: seq<nat>, bits: nat, s: nat, stream: seq<bool>, bp: nat)
    requires Fits(lengths, bits) && 2 * |lengths| <= EMPTY && Tree2d(lengths).Some?
    requires s < |lengths| && lengths[s] > 0 && At(stream, bp, CodeBits(lengths, s))
    ensures DecodeFrom(Tree2d(lengths).value, |lengths|, stream, bp, 0) == Decoded(s, bp + lengths[s])
  {
    hide PlaceSymbols, Canon;
    var info := FillOk(lengths, bits, |lengths|);
    var code := CodeBits(lengths, s);
    assert code[0..] == code;
    DecodeCode(PlaceSymbols(lengths, |lengths|).value.tree, |lengths|, 0, code, 0, s, stream, bp);
  }

  /** The other direction: a non-zero symbol is only returned for the bits of its own code. */
  lemma DecodedIsCode(lengths: seq<nat>, bits: nat, stream: seq<bool>, bp: nat)
    requires Fits(lengths, bits) && 1 <= |lengths| && 2 * |lengths| <= EMPTY && Tree2d(lengths).Some?
    ensures var r := DecodeFrom(Tree2d(lengths).value, |lengths|, stream, bp, 0);
            r.symbol > 0 ==> lengths[r.symbol] > 0 && At(stream, bp, CodeBits(lengths, r.symbol))
                             && r.bp == bp + lengths[r.symbol]
  {
    if bp <= |stream| {
      var info := FillOk(lengths, bits, |lengths|);
      assert stream[bp..bp] == HighBits(0, 0);
      WalkIsCode(lengths, PlaceSymbols(lengths, |lengths|).value.tree, info, stream, bp, bp, 0);
    }
  }

  lemma WalkStep(lengths: seq<nat>, tree: seq<nat>, stream: seq<bool>, bp: nat, k: nat)
    requires |tree| == 2 * |lengths| <= EMPTY && k < |lengths| && bp <= |stream|
    ensures var r := DecodeFrom(Cleaned(tree), |lengths|, stream, bp, k);
            if bp == |stream| then r == Decoded(-1, bp)
            else
              var e := tree[2 * k + BitValue(stream[bp])];
              if e == EMPTY then r == Decoded(0, bp + 1)
              else if e < |lengths| then r == Decoded(e, bp + 1)
              else if e - |lengths| >= |lengths| then r == Decoded(-1, bp + 1)
              else r == DecodeFrom(Cleaned(tree), |lengths|, stream, bp + 1, e - |lengths|)
  {
  }

  lemma {:induction false} WalkIsCode(lengths: seq<nat>, tree: seq<nat>, info: seq<NodeInfo>, stream: seq<bool>,
                                      start: nat, bp: nat, k: nat)
    requires Entries(lengths, |lengths|, tree, info) && k < |info| <= |lengths| && |tree| == 2 * |lengths| <= EMPTY
    requires start <= bp <= |stream| && bp == start + info[k].depth
    requires stream[start..bp] == HighBits(info[k].value, info[k].depth)
    ensures var r := DecodeFrom(Cleaned(tree), |lengths|, stream, bp, k);
            r.symbol > 0 ==> lengths[r.symbol] > 0 && At(stream, start, CodeBits(lengths, r.symbol))
                             && r.bp == start + lengths[r.symbol]
    decreases |stream| - bp
  {
    hide Canon, TestBit, Entries, EntryOk, DecodeFrom, HighBits;
    WalkStep(lengths, tree, stream, bp, k);
    if bp < |stream| {
      var b := BitValue(stream[bp]);
      EntryAt(lengths, tree, info, k, b);
      var e := tree[2 * k + b];
      HighBitsAppend(info[k].value, info[k].depth, stream[bp]);
      assert stream[start..bp + 1] == stream[start..bp] + [stream[bp]];
      if e != EMPTY && e >= |lengths| {
        WalkIsCode(lengths, tree, info, stream, start, bp + 1, e - |lengths|);
      }
    }
  }

  lemma EntryAt(lengths: seq<nat>, tree: seq<nat>, info: seq<NodeInfo>, k: nat, b: nat)
    requires Entries(lengths, |lengths|, tree, info) && k < |info| && b < 2
    ensures |tree| == 2 * |lengths| && |info| <= |lengths|
    ensures var e := tree[2 * k + b];
            || e == EMPTY
            || (e < |lengths| && lengths[e] == info[k].depth + 1 && Canon(lengths, e) == 2 * info[k].value + b)
            || (|lengths| <= e < |lengths| + |info|
                && info[e - |lengths|].depth == info[k].depth + 1
                && info[e - |lengths|].value == 2 * info[k].value + b)
  {
    assert EntryOk(lengths, |lengths|, info, info[k], b, tree[2 * k + b]);
  }

  lemma HighBitsAppend(v: nat, n: nat, b: bool)
    ensures HighBits(2 * v + BitValue(b), n + 1) == HighBits(v, n) + [b]
  {
    var w := 2 * v + BitValue(b);
    assert w / 2 == v;
    forall i | 0 <= i < n + 1
      ensures TestBit(w, n - i) == (HighBits(v, n) + [b])[i]
    {
    }
  }
}
