/** lodepng_huffman_code_lengths: length-limited code lengths from frequencies. */
module CodeLengths {
  import opened Powers
  import opened PackageMerge
  import opened PackageSums
  import opened BpmPool
  import opened LeafSort
  import opened PrefixCode
  import PackageOptimal
  import PackageExact

  /** The leaves of the first n symbols: those with a non-zero frequency. */
  function Present(freq: seq<nat>, n: nat): (r: seq<Leaf>)
    requires n <= |freq|
  {
    if n == 0 then []
    else if freq[n - 1] > 0 then Present(freq, n - 1) + [Leaf(freq[n - 1], n - 1)]
    else Present(freq, n - 1)
  }

  lemma {:induction false} PresentFacts(freq: seq<nat>, n: nat)
    requires n <= |freq|
    ensures var r := Present(freq, n);
            && |r| <= n
            && (forall k :: 0 <= k < |r| ==> r[k].index < n && r[k].weight == freq[r[k].index] > 0)
            && (forall j, k :: 0 <= j < k < |r| ==> r[j].index < r[k].index)
  {
    if n > 0 {
      PresentFacts(freq, n - 1);
    }
  }

  lemma {:induction false} PresentAll(freq: seq<nat>, n: nat, s: nat)
    requires s < n <= |freq| && freq[s] > 0
    ensures Leaf(freq[s], s) in Present(freq, n)
  {
    if s < n - 1 {
      PresentAll(freq, n - 1, s);
    }
  }

  /** Kraft's sum over the symbols of a list of leaves. */
  function KraftOver(leaves: seq<Leaf>, lengths: seq<nat>, bits: nat): nat {
    if leaves == [] then 0
    else KraftOver(leaves[..|leaves| - 1], lengths, bits) + Share(LengthOf(leaves[|leaves| - 1], lengths), bits)
  }

  function LengthOf(leaf: Leaf, lengths: seq<nat>): nat {
    if leaf.index < |lengths| then lengths[leaf.index] else 0
  }

  lemma {:induction false} KraftOverPresent(freq: seq<nat>, lengths: seq<nat>, n: nat, bits: nat)
    requires n <= |freq| == |lengths|
    requires forall s :: 0 <= s < |freq| && freq[s] == 0 ==> lengths[s] == 0
    ensures KraftOver(Present(freq, n), lengths, bits) == KraftTo(lengths, n, bits)
  {
    if n > 0 {
      KraftOverPresent(freq, lengths, n - 1, bits);
      if freq[n - 1] > 0 {
        KraftOverAppend(Present(freq, n - 1), Leaf(freq[n - 1], n - 1), lengths, bits);
      }
    }
  }

  lemma KraftOverAppend(leaves: seq<Leaf>, leaf: Leaf, lengths: seq<nat>, bits: nat)
    ensures KraftOver(leaves + [leaf], lengths, bits) == KraftOver(leaves, lengths, bits) +
            Share(LengthOf(leaf, lengths), bits)
  {
    assert (leaves + [leaf])[..|leaves|] == leaves;
  }

  lemma {:induction false} KraftOverRemove(leaves: seq<Leaf>, k: nat, lengths: seq<nat>, bits: nat)
    requires k < |leaves|
    ensures var rest := leaves[..k] + leaves[k + 1..];
            KraftOver(leaves, lengths, bits) == KraftOver(rest, lengths, bits) +
              Share(LengthOf(leaves[k], lengths), bits)
    decreases |leaves|
  {
    var rest := leaves[..k] + leaves[k + 1..];
    var m := |leaves| - 1;
    if k == m {
      assert rest == leaves[..m];
    } else {
      KraftOverRemove(leaves[..m], k, lengths, bits);
      assert rest[..|rest| - 1] == leaves[..m][..k] + leaves[..m][k + 1..];
      assert rest[|rest| - 1] == leaves[m];
    }
  }

  /** Kraft's sum does not depend on the order of the leaves. */
  lemma {:induction false} KraftOverPermuted(a: seq<Leaf>, b: seq<Leaf>, lengths: seq<nat>, bits: nat)
    requires multiset(a) == multiset(b)
    ensures KraftOver(a, lengths, bits) == KraftOver(b, lengths, bits)
    decreases |a|
  {
    assert |a| == |multiset(a)| == |multiset(b)| == |b|;
    if a != [] {
      var m := |a| - 1;
      var k := Find(a[m], b);
      RemoveContents(a, m);
      RemoveContents(b, k);
      assert a[..m] + a[m + 1..] == a[..m];
      KraftOverPermuted(a[..m], b[..k] + b[k + 1..], lengths, bits);
      KraftOverRemove(b, k, lengths, bits);
    }
  }

  lemma Find(x: Leaf, b: seq<Leaf>) returns (k: nat)
    requires x in multiset(b)
    ensures k < |b| && b[k] == x
  {
    assert x in b;
    k :| 0 <= k < |b| && b[k] == x;
  }

  lemma RemoveContents(b: seq<Leaf>, k: nat)
    requires k < |b|
    ensures multiset(b[..k] + b[k + 1..]) == multiset(b) - multiset{b[k]}
  {
    assert b == b[..k] + [b[k]] + b[k + 1..];
  }

  /** The leaves' lengths are those the final chain assigns. */
  predicate Assigned(leaves: seq<Leaf>, lengths: seq<nat>, ch: Chain) {
    forall k :: 0 <= k < |leaves| ==> leaves[k].index < |lengths| && lengths[leaves[k].index] == LeafLength(ch, k)
  }

  lemma {:induction false} KraftOverChain(leaves: seq<Leaf>, n: nat, lengths: seq<nat>, bits: nat, ch: Chain)
    requires n <= |leaves| && Assigned(leaves, lengths, ch) && Depth(ch) <= bits
    requires forall k :: 0 <= k < |leaves| ==> 1 <= LeafLength(ch, k) <= bits
    ensures KraftOver(leaves[..n], lengths, bits) == LeafKraft(ch, n, bits)
  {
    if n > 0 {
      KraftOverChain(leaves, n - 1, lengths, bits, ch);
      assert leaves[..n][..n - 1] == leaves[..n - 1];
    }
  }

  /** Two codes of one bit fill the code space. */
  lemma {:induction false} TwoOnes(lengths: seq<nat>, i: nat, j: nat, n: nat, bits: nat)
    requires i < |lengths| && j < |lengths| && i != j && n <= |lengths| && bits >= 1
    requires forall s :: 0 <= s < |lengths| ==> lengths[s] == if s == i || s == j then 1 else 0
    ensures KraftTo(lengths, n, bits) == (if i < n then Pow2(bits - 1) else 0) + (if j < n then Pow2(bits - 1) else 0)
  {
    if n > 0 {
      TwoOnes(lengths, i, j, n - 1, bits);
    }
  }

  predicate Symbols(leaves: seq<Leaf>, n: nat) {
    && (forall k :: 0 <= k < |leaves| ==> leaves[k].index < n)
    && (forall j, k :: 0 <= j < k < |leaves| ==> leaves[j].index != leaves[k].index)
  }

  /** One list of the final chain: its first `count` leaves get one bit longer. */
  method AddLevel(leaves: seq<Leaf>, count: nat, lengths: seq<nat>) returns (r: seq<nat>)
    requires Symbols(leaves, |lengths|) && count <= |leaves|
    ensures |r| == |lengths|
    ensures forall k :: 0 <= k < |leaves| ==>
              r[leaves[k].index] == lengths[leaves[k].index] + (if k < count then 1 else 0)
    ensures forall s :: 0 <= s < |r| && (forall k :: 0 <= k < |leaves| ==> leaves[k].index != s) ==> r[s] == lengths[s]
  {
    r := lengths;
    for i := 0 to count
      invariant |r| == |lengths|
      invariant forall k :: 0 <= k < |leaves| ==>
                  r[leaves[k].index] == lengths[leaves[k].index] + (if k < i then 1 else 0)
      invariant forall s :: 0 <= s < |r| && (forall k :: 0 <= k < |leaves| ==> leaves[k].index != s) ==>
                  r[s] == lengths[s]
    {
      r := r[leaves[i].index := r[leaves[i].index] + 1];
    }
  }

  /** The lengths are read off the chain of the last list. */
  method ReadLengths(lists: BpmLists, root: int, ghost ch: Chain, leaves: seq<Leaf>, numcodes: nat)
    returns (lengths: seq<nat>)
    requires Represents(lists.memory[..], root, ch)
    requires Symbols(leaves, numcodes) && WellFormed(ch, |leaves|)
    ensures |lengths| == numcodes && Assigned(leaves, lengths, ch)
    ensures forall s :: 0 <= s < numcodes && (forall k :: 0 <= k < |leaves| ==> leaves[k].index != s) ==>
              lengths[s] == 0
  {
    lengths := seq(numcodes, _ => 0);
    var node := root;
    ghost var rest := ch;
    while node != -1
      invariant |lengths| == numcodes
      invariant Represents(lists.memory[..], node, rest) && WellFormed(rest, |leaves|)
      invariant forall k :: 0 <= k < |leaves| ==>
                  lengths[leaves[k].index] + LeafLength(rest, k) == LeafLength(ch, k)
      invariant forall s :: 0 <= s < numcodes && (forall k :: 0 <= k < |leaves| ==> leaves[k].index != s) ==>
                  lengths[s] == 0
      decreases rest
    {
      lengths := AddLevel(leaves, lists.memory[node].index, lengths);
      node := lists.memory[node].tail;
      rest := rest.tail;
    }
  }

  /** Every used symbol gets a code within the limit, and the codes fill the code space exactly. */
  predicate ValidLengths(freq: seq<nat>, lengths: seq<nat>, bits: nat) {
    && |lengths| == |freq|
    && Complete(lengths, bits)
    && forall s :: 0 <= s < |freq| && freq[s] > 0 ==> lengths[s] > 0
  }

  function Weights(leaves: seq<Leaf>): (w: seq<int>)
    ensures |w| == |leaves|
    ensures forall k :: 0 <= k < |w| ==> w[k] == leaves[k].weight
  {
    seq(|leaves|, k requires 0 <= k < |leaves| => leaves[k].weight)
  }

  /** Sorting only reorders the present symbols. */
  lemma SortedLeaves(freq: seq<nat>, leaves: seq<Leaf>)
    requires |leaves| >= 2 && Sorted(leaves) && multiset(leaves) == multiset(Present(freq, |freq|))
    ensures |leaves| <= |freq|
    ensures Symbols(leaves, |freq|) && SortedWeights(Weights(leaves))
    ensures forall k :: 0 <= k < |leaves| ==> leaves[k].index < |freq| && freq[leaves[k].index] > 0
    ensures forall s :: 0 <= s < |freq| && freq[s] > 0 ==> exists k :: 0 <= k < |leaves| && leaves[k].index == s
  {
    var present := Present(freq, |freq|);
    hide Present, Sorted, SortedWeights, Symbols;
    LeavesFrom(freq, leaves);
    LeavesAll(freq, leaves);
    SymbolsDistinct(freq, leaves);
    WeightsSorted(leaves);
  }

  lemma LeavesFrom(freq: seq<nat>, leaves: seq<Leaf>)
    requires multiset(leaves) == multiset(Present(freq, |freq|))
    ensures |leaves| <= |freq|
    ensures forall k :: 0 <= k < |leaves| ==>
              leaves[k].index < |freq| && leaves[k].weight == freq[leaves[k].index] > 0
  {
    hide Present;
    var present := Present(freq, |freq|);
    PresentFacts(freq, |freq|);
    assert |leaves| == |multiset(leaves)| == |present|;
    forall k | 0 <= k < |leaves|
      ensures leaves[k].index < |freq| && leaves[k].weight == freq[leaves[k].index] > 0
    {
      assert leaves[k] in multiset(leaves);
      var j := Find(leaves[k], present);
    }
  }

  lemma LeavesAll(freq: seq<nat>, leaves: seq<Leaf>)
    requires multiset(leaves) == multiset(Present(freq, |freq|))
    ensures forall s :: 0 <= s < |freq| && freq[s] > 0 ==> exists k :: 0 <= k < |leaves| && leaves[k].index == s
  {
    hide Present;
    forall s | 0 <= s < |freq| && freq[s] > 0
      ensures exists k :: 0 <= k < |leaves| && leaves[k].index == s
    {
      PresentAll(freq, |freq|, s);
      assert Leaf(freq[s], s) in multiset(Present(freq, |freq|));
      var k := Find(Leaf(freq[s], s), leaves);
    }
  }

  lemma SymbolsDistinct(freq: seq<nat>, leaves: seq<Leaf>)
    requires Sorted(leaves)
    requires forall k :: 0 <= k < |leaves| ==>
               leaves[k].index < |freq| && leaves[k].weight == freq[leaves[k].index]
    ensures Symbols(leaves, |freq|)
  {
    forall j, k | 0 <= j < k < |leaves|
      ensures leaves[j].index != leaves[k].index
    {
      assert Before(leaves[j], leaves[k]);
    }
  }

  lemma WeightsSorted(leaves: seq<Leaf>)
    requires |leaves| >= 2 && Sorted(leaves)
    requires forall k :: 0 <= k < |leaves| ==> leaves[k].weight > 0
    ensures SortedWeights(Weights(leaves))
  {
    var w := Weights(leaves);
    forall i, j | 0 <= i <= j < |w|
      ensures w[i] <= w[j]
    {
      if i < j {
        assert Before(leaves[i], leaves[j]);
      }
    }
  }

  /** The lengths read off the final chain are valid. */
  lemma ChainLengthsValid(freq: seq<nat>, leaves: seq<Leaf>, lengths: seq<nat>, bits: nat, ch: Chain)
    requires |leaves| >= 2 && Sorted(leaves) && multiset(leaves) == multiset(Present(freq, |freq|))
    requires bits >= 1 && |leaves| <= Pow2(bits)
    requires ch == Build(Weights(leaves), bits, 2 * |leaves| - 2).c1[bits - 1]
    requires |lengths| == |freq| && Assigned(leaves, lengths, ch)
    requires forall s :: 0 <= s < |freq| && (forall k :: 0 <= k < |leaves| ==> leaves[k].index != s) ==> lengths[s] == 0
    ensures ValidLengths(freq, lengths, bits)
    ensures forall s :: 0 <= s < |freq| && freq[s] == 0 ==> lengths[s] == 0
  {
    hide *;
    SortedLeaves(freq, leaves);
    LengthsValid(Weights(leaves), bits);
    LengthsPerSymbol(freq, leaves, lengths, bits, ch);
    ChainKraft(freq, leaves, lengths, bits, ch);
    ValidFromParts(freq, lengths, bits);
  }

  lemma LengthsPerSymbol(freq: seq<nat>, leaves: seq<Leaf>, lengths: seq<nat>, bits: nat, ch: Chain)
    requires |lengths| == |freq| && Assigned(leaves, lengths, ch)
    requires forall k :: 0 <= k < |leaves| ==> leaves[k].index < |freq| && freq[leaves[k].index] > 0
    requires forall s :: 0 <= s < |freq| && freq[s] > 0 ==> exists k :: 0 <= k < |leaves| && leaves[k].index == s
    requires forall s :: 0 <= s < |freq| && (forall k :: 0 <= k < |leaves| ==> leaves[k].index != s) ==> lengths[s] == 0
    requires forall k :: 0 <= k < |leaves| ==> 1 <= LeafLength(ch, k) <= bits
    ensures forall s :: 0 <= s < |freq| ==> lengths[s] <= bits && (freq[s] > 0 <==> lengths[s] > 0)
  {
    hide LeafLength;
    forall s | 0 <= s < |freq|
      ensures lengths[s] <= bits && (freq[s] > 0 <==> lengths[s] > 0)
    {
      if freq[s] > 0 {
        var k :| 0 <= k < |leaves| && leaves[k].index == s;
      }
    }
  }

  lemma ChainKraft(freq: seq<nat>, leaves: seq<Leaf>, lengths: seq<nat>, bits: nat, ch: Chain)
    requires multiset(leaves) == multiset(Present(freq, |freq|))
    requires |lengths| == |freq| && Assigned(leaves, lengths, ch) && Depth(ch) <= bits
    requires forall k :: 0 <= k < |leaves| ==> 1 <= LeafLength(ch, k) <= bits
    requires forall s :: 0 <= s < |freq| && freq[s] == 0 ==> lengths[s] == 0
    ensures KraftTo(lengths, |freq|, bits) == LeafKraft(ch, |leaves|, bits)
  {
    hide *;
    KraftOverChain(leaves, |leaves|, lengths, bits, ch);
    assert leaves[..|leaves|] == leaves;
    KraftOverPermuted(leaves, Present(freq, |freq|), lengths, bits);
    KraftOverPresent(freq, lengths, |freq|, bits);
  }

  lemma ValidFromParts(freq: seq<nat>, lengths: seq<nat>, bits: nat)
    requires |lengths| == |freq| && KraftTo(lengths, |freq|, bits) == Pow2(bits)
    requires forall s :: 0 <= s < |freq| ==> lengths[s] <= bits && (freq[s] > 0 ==> lengths[s] > 0)
    ensures ValidLengths(freq, lengths, bits)
  {
  }

  // ----- What a text with these frequencies costs -----

  /** The number of bits that the first n symbols take, each as often as it occurs. */
  function TextBits(freq: seq<nat>, lengths: seq<nat>, n: nat): nat
    requires n <= |freq| == |lengths|
  {
    if n == 0 then 0 else TextBits(freq, lengths, n - 1) + freq[n - 1] * lengths[n - 1]
  }

  /** A code that could be used instead: it fits, and every symbol that occurs has one. */
  ghost predicate Usable(freq: seq<nat>, m: seq<nat>, bits: nat) {
    |m| == |freq| && Fits(m, bits) && forall s :: 0 <= s < |freq| && freq[s] > 0 ==> m[s] > 0
  }

  /** No code within the limit takes fewer bits. */
  ghost predicate Optimal(freq: seq<nat>, lengths: seq<nat>, bits: nat) {
    |lengths| == |freq| && forall m: seq<nat> :: Usable(freq, m, bits) ==>
      TextBits(freq, lengths, |freq|) <= TextBits(freq, m, |freq|)
  }

  /** More frequent symbols have no longer codes; of equally frequent ones the later. */
  predicate InOrder(freq: seq<nat>, lengths: seq<nat>) {
    |lengths| == |freq| && forall s, t :: 0 <= s < |freq| && 0 <= t < |freq| && Rarer(freq, s, t) ==>
      lengths[s] >= lengths[t]
  }

  predicate Rarer(freq: seq<nat>, s: nat, t: nat)
    requires s < |freq| && t < |freq|
  {
    0 < freq[s] && (freq[s] < freq[t] || (freq[s] == freq[t] && s < t))
  }

  /** The bits of the symbols of a list of leaves. */
  function BitsOver(leaves: seq<Leaf>, m: seq<nat>): int {
    if leaves == [] then 0
    else BitsOver(leaves[..|leaves| - 1], m) + leaves[|leaves| - 1].weight * LengthOf(leaves[|leaves| - 1], m)
  }

  lemma BitsOverAppend(leaves: seq<Leaf>, leaf: Leaf, m: seq<nat>)
    ensures BitsOver(leaves + [leaf], m) == BitsOver(leaves, m) + leaf.weight * LengthOf(leaf, m)
  {
    assert (leaves + [leaf])[..|leaves|] == leaves;
  }

  lemma {:induction false} BitsOverPresent(freq: seq<nat>, m: seq<nat>, n: nat)
    requires n <= |freq| == |m|
    ensures BitsOver(Present(freq, n), m) == TextBits(freq, m, n)
  {
    if n > 0 {
      BitsOverPresent(freq, m, n - 1);
      if freq[n - 1] > 0 {
        BitsOverAppend(Present(freq, n - 1), Leaf(freq[n - 1], n - 1), m);
      }
    }
  }

  lemma {:induction false} BitsOverRemove(leaves: seq<Leaf>, k: nat, m: seq<nat>)
    requires k < |leaves|
    ensures BitsOver(leaves, m) == BitsOver(leaves[..k] + leaves[k + 1..], m) +
            leaves[k].weight * LengthOf(leaves[k], m)
    decreases |leaves|
  {
    hide LengthOf;
    var rest := leaves[..k] + leaves[k + 1..];
    var n := |leaves| - 1;
    if k == n {
      assert rest == leaves[..n];
    } else {
      BitsOverRemove(leaves[..n], k, m);
      assert rest[..|rest| - 1] == leaves[..n][..k] + leaves[..n][k + 1..];
      assert rest[|rest| - 1] == leaves[n];
    }
  }

  /** They do not depend on the order of the leaves. */
  lemma {:induction false} BitsOverPermuted(a: seq<Leaf>, b: seq<Leaf>, m: seq<nat>)
    requires multiset(a) == multiset(b)
    ensures BitsOver(a, m) == BitsOver(b, m)
    decreases |a|
  {
    hide LengthOf;
    assert |a| == |multiset(a)| == |multiset(b)| == |b|;
    if a != [] {
      var n := |a| - 1;
      var k := Find(a[n], b);
      RemoveContents(a, n);
      RemoveContents(b, k);
      assert a[..n] + a[n + 1..] == a[..n];
      BitsOverPermuted(a[..n], b[..k] + b[k + 1..], m);
      BitsOverRemove(b, k, m);
    }
  }

  /** The lengths of the leaves, in their order. */
  function LengthsOver(leaves: seq<Leaf>, m: seq<nat>): (r: seq<nat>)
    ensures |r| == |leaves| && forall k :: 0 <= k < |r| ==> r[k] == LengthOf(leaves[k], m)
  {
    seq(|leaves|, k requires 0 <= k < |leaves| => LengthOf(leaves[k], m))
  }

  lemma {:induction false} BitsAreCost(leaves: seq<Leaf>, m: seq<nat>, n: nat)
    requires n <= |leaves|
    ensures BitsOver(leaves[..n], m) == PackageOptimal.Cost(Weights(leaves), LengthsOver(leaves, m), n)
  {
    hide LengthOf;
    if n > 0 {
      BitsAreCost(leaves, m, n - 1);
      assert leaves[..n][..n - 1] == leaves[..n - 1];
    }
  }

  lemma {:induction false} KraftIsSum(leaves: seq<Leaf>, m: seq<nat>, bits: nat, n: nat)
    requires n <= |leaves| && forall k :: 0 <= k < |leaves| ==> 1 <= LengthOf(leaves[k], m) <= bits
    ensures KraftOver(leaves[..n], m, bits) == PackageOptimal.KraftSum(LengthsOver(leaves, m), n, bits)
  {
    hide LengthOf;
    if n > 0 {
      KraftIsSum(leaves, m, bits, n - 1);
      assert leaves[..n][..n - 1] == leaves[..n - 1];
    }
  }

  lemma {:induction false} KraftOfPresent(freq: seq<nat>, m: seq<nat>, n: nat, bits: nat)
    requires n <= |freq| == |m|
    ensures KraftOver(Present(freq, n), m, bits) <= KraftTo(m, n, bits)
  {
    if n > 0 {
      KraftOfPresent(freq, m, n - 1, bits);
      if freq[n - 1] > 0 {
        KraftOverAppend(Present(freq, n - 1), Leaf(freq[n - 1], n - 1), m, bits);
      }
    }
  }

  /** A code that could be used instead, leaf by leaf. */
  lemma UsableOver(freq: seq<nat>, leaves: seq<Leaf>, m: seq<nat>, bits: nat)
    requires multiset(leaves) == multiset(Present(freq, |freq|)) && Usable(freq, m, bits)
    ensures PackageOptimal.Admissible(LengthsOver(leaves, m), bits)
  {
    hide Present, KraftOver, KraftTo, BitsOver, TextBits, PackageOptimal.KraftSum;
    LeavesFrom(freq, leaves);
    var present := Present(freq, |freq|);
    WholeLeaves(leaves);
    KraftIsSum(leaves, m, bits, |leaves|);
    KraftOverPermuted(leaves, present, m, bits);
    KraftOfPresent(freq, m, |freq|, bits);
  }

  lemma WholeLeaves(leaves: seq<Leaf>)
    ensures leaves[..|leaves|] == leaves
  {
  }

  lemma BitsCost(freq: seq<nat>, leaves: seq<Leaf>, m: seq<nat>)
    requires multiset(leaves) == multiset(Present(freq, |freq|)) && |m| == |freq|
    ensures PackageOptimal.Cost(Weights(leaves), LengthsOver(leaves, m), |leaves|) == TextBits(freq, m, |freq|)
  {
    hide *;
    WholeLeaves(leaves);
    BitsAreCost(leaves, m, |leaves|);
    BitsOverPermuted(leaves, Present(freq, |freq|), m);
    BitsOverPresent(freq, m, |freq|);
  }

  /** The lengths read off the final chain are optimal. */
  lemma ChainOptimal(freq: seq<nat>, leaves: seq<Leaf>, lengths: seq<nat>, bits: nat, ch: Chain)
    requires |leaves| >= 2 && Sorted(leaves) && multiset(leaves) == multiset(Present(freq, |freq|))
    requires bits >= 1 && |leaves| <= Pow2(bits)
    requires ch == Build(Weights(leaves), bits, 2 * |leaves| - 2).c1[bits - 1]
    requires |lengths| == |freq| && Assigned(leaves, lengths, ch)
    ensures Optimal(freq, lengths, bits)
  {
    hide Build, Sorted, TextBits, Present, Assigned, Fits;
    forall m: seq<nat> | Usable(freq, m, bits)
      ensures TextBits(freq, lengths, |freq|) <= TextBits(freq, m, |freq|)
    {
      ChainBeats(freq, leaves, lengths, bits, ch, m);
    }
  }

  lemma ChainBeats(freq: seq<nat>, leaves: seq<Leaf>, lengths: seq<nat>, bits: nat, ch: Chain, m: seq<nat>)
    requires |leaves| >= 2 && Sorted(leaves) && multiset(leaves) == multiset(Present(freq, |freq|))
    requires bits >= 1 && |leaves| <= Pow2(bits) && |m| == |freq| && Usable(freq, m, bits)
    requires ch == Build(Weights(leaves), bits, 2 * |leaves| - 2).c1[bits - 1]
    requires |lengths| == |freq| && Assigned(leaves, lengths, ch)
    ensures TextBits(freq, lengths, |freq|) <= TextBits(freq, m, |freq|)
  {
    hide *;
    BitsCost(freq, leaves, lengths);
    BitsCost(freq, leaves, m);
    AssignedOver(leaves, lengths, ch);
    LeavesBeat(freq, leaves, bits, ch, m);
  }

  lemma LeavesBeat(freq: seq<nat>, leaves: seq<Leaf>, bits: nat, ch: Chain, m: seq<nat>)
    requires |leaves| >= 2 && Sorted(leaves) && multiset(leaves) == multiset(Present(freq, |freq|))
    requires bits >= 1 && |leaves| <= Pow2(bits) && |m| == |freq| && Usable(freq, m, bits)
    requires ch == Build(Weights(leaves), bits, 2 * |leaves| - 2).c1[bits - 1]
    ensures PackageOptimal.Cost(Weights(leaves), PackageExact.LeafLengths(ch, |leaves|), |leaves|)
            <= PackageOptimal.Cost(Weights(leaves), LengthsOver(leaves, m), |leaves|)
  {
    hide *;
    WeightsOfSorted(freq, leaves);
    UsableOver(freq, leaves, m, bits);
    PackageExact.Optimal(Weights(leaves), bits, LengthsOver(leaves, m));
  }

  lemma WeightsOfSorted(freq: seq<nat>, leaves: seq<Leaf>)
    requires |leaves| >= 2 && Sorted(leaves) && multiset(leaves) == multiset(Present(freq, |freq|))
    ensures SortedWeights(Weights(leaves))
  {
    hide *;
    SortedLeaves(freq, leaves);
  }

  lemma AssignedOver(leaves: seq<Leaf>, lengths: seq<nat>, ch: Chain)
    requires Assigned(leaves, lengths, ch)
    ensures LengthsOver(leaves, lengths) == PackageExact.LeafLengths(ch, |leaves|)
  {
    hide LeafLength;
  }

  lemma InOrderAt(leaves: seq<Leaf>, i: nat, j: nat)
    requires Sorted(leaves) && i < j < |leaves|
    ensures Before(leaves[i], leaves[j])
  {
  }

  /** They follow the order of the sorted leaves. */
  lemma ChainInOrder(freq: seq<nat>, leaves: seq<Leaf>, lengths: seq<nat>, ch: Chain)
    requires Sorted(leaves) && multiset(leaves) == multiset(Present(freq, |freq|))
    requires |lengths| == |freq| && Assigned(leaves, lengths, ch)
    ensures InOrder(freq, lengths)
  {
    hide Present, LeafLength;
    LeavesFrom(freq, leaves);
    LeavesAll(freq, leaves);
    forall s, t | 0 <= s < |freq| && 0 <= t < |freq| && Rarer(freq, s, t)
      ensures lengths[s] >= lengths[t]
    {
      var i: nat :| i < |leaves| && leaves[i].index == s;
      var j: nat :| j < |leaves| && leaves[j].index == t;
      if j < i {
        InOrderAt(leaves, j, i);
      }
      PackageExact.LengthsDescend(ch, i, j);
    }
  }

  // ----- The sum of the frequencies -----

  lemma {:induction false} TotalRemove(leaves: seq<Leaf>, k: nat)
    requires k < |leaves|
    ensures Total(Weights(leaves)) == Total(Weights(leaves[..k] + leaves[k + 1..])) + leaves[k].weight
    decreases |leaves|
  {
    var rest := leaves[..k] + leaves[k + 1..];
    var m := |leaves| - 1;
    assert Weights(leaves)[..m] == Weights(leaves[..m]);
    if k == m {
      assert rest == leaves[..m];
    } else {
      TotalRemove(leaves[..m], k);
      assert rest[..|rest| - 1] == leaves[..m][..k] + leaves[..m][k + 1..];
      assert Weights(rest)[..|rest| - 1] == Weights(rest[..|rest| - 1]);
    }
  }

  lemma {:induction false} TotalPermuted(a: seq<Leaf>, b: seq<Leaf>)
    requires multiset(a) == multiset(b)
    ensures Total(Weights(a)) == Total(Weights(b))
    decreases |a|
  {
    assert |a| == |multiset(a)| == |multiset(b)| == |b|;
    if a != [] {
      var m := |a| - 1;
      var k := Find(a[m], b);
      RemoveContents(a, m);
      RemoveContents(b, k);
      assert a[..m] + a[m + 1..] == a[..m];
      TotalPermuted(a[..m], b[..k] + b[k + 1..]);
      TotalRemove(b, k);
      TotalRemove(a, m);
    }
  }

  lemma {:induction false} TotalPresent(freq: seq<nat>, n: nat)
    requires n <= |freq|
    ensures Total(Weights(Present(freq, n))) == Total(freq[..n])
  {
    if n > 0 {
      TotalPresent(freq, n - 1);
      assert freq[..n][..n - 1] == freq[..n - 1];
      var r := Present(freq, n);
      if freq[n - 1] > 0 {
        assert r[..|r| - 1] == Present(freq, n - 1);
        assert Weights(r)[..|r| - 1] == Weights(Present(freq, n - 1));
      }
    }
  }

  lemma {:induction false} EachWithin(freq: seq<nat>, n: nat)
    requires n <= |freq|
    ensures 0 <= Total(freq[..n]) && forall s :: 0 <= s < n ==> freq[s] <= Total(freq[..n])
  {
    if n > 0 {
      EachWithin(freq, n - 1);
      assert freq[..n][..n - 1] == freq[..n - 1];
    }
  }

  /** The leaves of frequencies with a small sum can be merged without overflow. */
  lemma SortedFits(freq: seq<nat>, sorted: seq<Leaf>, maxbitlen: nat)
    requires |sorted| >= 2 && multiset(sorted) == multiset(Present(freq, |freq|)) && SortedWeights(Weights(sorted))
    requires Total(freq) <= 262145 && 1 <= maxbitlen <= 15
    ensures RunFits(Weights(sorted), maxbitlen, 2 * |sorted| - 2)
  {
    hide *;
    SortedTotal(freq, sorted);
    NoOverflow(Weights(sorted), maxbitlen);
  }

  lemma SortedTotal(freq: seq<nat>, sorted: seq<Leaf>)
    requires multiset(sorted) == multiset(Present(freq, |freq|))
    ensures Total(Weights(sorted)) == Total(freq)
  {
    hide *;
    TotalPermuted(sorted, Present(freq, |freq|));
    TotalPresent(freq, |freq|);
    WholeSeq(freq);
  }

  lemma WholeSeq(freq: seq<nat>)
    ensures freq[..|freq|] == freq
  {
  }

  /** The leaves of all present symbols, in symbol order; their weights are ints. */
  method CollectLeaves(freq: seq<nat>) returns (fits: bool, leaves: seq<Leaf>)
    ensures leaves == Present(freq, |freq|)
    ensures fits <==> forall s :: 0 <= s < |freq| ==> freq[s] <= INT_MAX
  {
    fits, leaves := true, [];
    for i := 0 to |freq|
      invariant leaves == Present(freq, i)
      invariant fits <==> forall s :: 0 <= s < i ==> freq[s] <= INT_MAX
    {
      if freq[i] > 0 {
        fits := fits && freq[i] <= INT_MAX;
        leaves := leaves + [Leaf(freq[i], i)];
      }
    }
  }

  /** Code lengths for at least two present symbols, if no sum of weights overflows. */
  method PackageMergeLengths(freq: seq<nat>, present: seq<Leaf>, maxbitlen: nat)
    returns (fits: bool, lengths: seq<nat>)
    requires present == Present(freq, |freq|) && |present| >= 2
    requires maxbitlen >= 1 && |freq| <= Pow2(maxbitlen)
    ensures Total(freq) <= 262145 && maxbitlen <= 15 ==> fits
    ensures fits ==> ValidLengths(freq, lengths, maxbitlen)
    ensures fits ==> forall s :: 0 <= s < |freq| && freq[s] == 0 ==> lengths[s] == 0
    ensures fits ==> Optimal(freq, lengths, maxbitlen) && InOrder(freq, lengths)
  {
    hide *;
    PresentFacts(freq, |freq|);
    var leaves := new Leaf[|present|](k requires 0 <= k < |present| => present[k]);
    assert leaves[..] == present;
    Sort(leaves);
    var sorted := leaves[..];
    assert |sorted| == |present|;
    SortedLeaves(freq, sorted);
    var w := Weights(sorted);
    FinalChain(w, maxbitlen);
    lengths := [];
    if Total(freq) <= 262145 && maxbitlen <= 15 {
      SortedFits(freq, sorted, maxbitlen);
    }
    var lists, root;
    fits, lists, root := RunInPool(w, maxbitlen);
    if fits {
      ghost var ch := Build(w, maxbitlen, 2 * |w| - 2).c1[maxbitlen - 1];
      lengths := ReadLengths(lists, root, ch, sorted, |freq|);
      ChainLengthsValid(freq, sorted, lengths, maxbitlen, ch);
      ChainOptimal(freq, sorted, lengths, maxbitlen, ch);
      ChainInOrder(freq, sorted, lengths, ch);
    }
  }

  /** The pool holds the final chain of package-merge. */
  method RunInPool(w: seq<int>, maxbitlen: nat) returns (ok: bool, lists: BpmLists, root: int)
    requires |w| >= 2 && maxbitlen >= 1
    ensures ok <==> RunFits(w, maxbitlen, 2 * |w| - 2)
    ensures ok ==> Represents(lists.memory[..], root, Build(w, maxbitlen, 2 * |w| - 2).c1[maxbitlen - 1])
  {
    hide Build, Advance, RunFits;
    lists := new BpmLists(maxbitlen, w);
    ok := lists.Run(w);
    root := lists.LastChain();
  }

  /**
   * lodepng_huffman_code_lengths. For an alphabet of one symbol it writes the
   * length of a second one, which is out of bounds; `fits` says whether all
   * weights and their sums are ints.
   */
  method HuffmanCodeLengths(freq: seq<nat>, maxbitlen: nat)
    returns (inBounds: bool, fits: bool, error: nat, lengths: seq<nat>)
    ensures error == if |freq| == 0 || Pow2(maxbitlen) < |freq| then 80 else 0
    ensures inBounds <==> error != 0 || |freq| != 1
    ensures error != 0 || (Total(freq) <= 262145 && maxbitlen <= 15) ==> fits
    ensures inBounds && fits && error == 0 ==> ValidLengths(freq, lengths, maxbitlen)
    ensures inBounds && fits && error == 0 && |Present(freq, |freq|)| >= 2 ==>
              forall s :: 0 <= s < |freq| && freq[s] == 0 ==> lengths[s] == 0
    ensures inBounds && fits && error == 0 ==> Optimal(freq, lengths, maxbitlen) && InOrder(freq, lengths)
  {
    hide Total, Optimal, InOrder;
    if |freq| == 0 || Pow2(maxbitlen) < |freq| {
      return true, true, 80, [];
    }
    error := 0;
    assert Pow2(0) == 1;
    var present;
    fits, present := CollectLeaves(freq);
    EachWithin(freq, |freq|);
    assert freq[..|freq|] == freq;
    PresentFacts(freq, |freq|);
    if |present| >= 2 {
      var noOverflow;
      noOverflow, lengths := PackageMergeLengths(freq, present, maxbitlen);
      inBounds, fits := true, fits && noOverflow;
    } else {
      var first := if |present| == 0 then 0 else present[0].index;
      var second := if first == 0 then 1 else 0;
      lengths := seq(|freq|, _ => 0)[first := 1];
      if second >= |lengths| {
        return false, fits, 0, lengths;
      }
      inBounds, lengths := true, lengths[second := 1];
      FewSymbols(freq, first);
      FewOptimal(freq, lengths, first, maxbitlen);
      TwoOnes(lengths, first, second, |freq|, maxbitlen);
      assert Pow2(maxbitlen) == 2 * Pow2(maxbitlen - 1);
    }
  }

  lemma FewSymbols(freq: seq<nat>, first: nat)
    requires |Present(freq, |freq|)| <= 1
    requires |Present(freq, |freq|)| == 1 ==> first == Present(freq, |freq|)[0].index
    ensures forall s :: 0 <= s < |freq| && freq[s] > 0 ==> s == first
  {
    forall s | 0 <= s < |freq| && freq[s] > 0
      ensures s == first
    {
      PresentAll(freq, |freq|, s);
    }
  }

  /** With one symbol that occurs, or none, one bit for it is the least. */
  lemma FewOptimal(freq: seq<nat>, lengths: seq<nat>, first: nat, bits: nat)
    requires |lengths| == |freq| && first < |freq| && lengths[first] == 1
    requires forall s :: 0 <= s < |freq| && freq[s] > 0 ==> s == first
    ensures Optimal(freq, lengths, bits) && InOrder(freq, lengths)
  {
    hide TextBits;
    OneSymbolBits(freq, lengths, first, |freq|);
    forall m: seq<nat> | Usable(freq, m, bits)
      ensures TextBits(freq, lengths, |freq|) <= TextBits(freq, m, |freq|)
    {
      OneSymbolBits(freq, m, first, |freq|);
      AtLeastOnce(freq[first], m[first]);
    }
  }

  lemma AtLeastOnce(f: nat, l: nat)
    requires f > 0 ==> l > 0
    ensures f <= f * l
  {
    if f > 0 {
      assert f * l == f * (l - 1) + f;
    }
  }

  lemma {:induction false} OneSymbolBits(freq: seq<nat>, m: seq<nat>, first: nat, n: nat)
    requires n <= |freq| == |m| && first < |freq| && forall s :: 0 <= s < |freq| && freq[s] > 0 ==> s == first
    ensures TextBits(freq, m, n) == if n > first then freq[first] * m[first] else 0
  {
    if n > 0 {
      OneSymbolBits(freq, m, first, n - 1);
    }
  }
}
