/** Boundary package-merge computes the first entries of the full lists, so its code lengths are optimal. */
module PackageExact {
  import opened Powers
  import opened PackageMerge
  import opened PackageOptimal

  /** The chain stands for the first k entries of list c. */
  ghost predicate IsFirst(ch: Chain, w: seq<int>, c: nat, k: nat) {
    if k == 0 then ch == Nil
    else
      && ch.Node? && ch.index == Leaves(w, c, k)
      && if c == 0 then ch.tail == Nil else IsFirst(ch.tail, w, c - 1, 2 * (k - Leaves(w, c, k)))
  }

  /** The two heads of list c are the last two of the entries asked of it, and its chain stands for all of them. */
  ghost predicate Exact(s: PackageMerge.Lists, w: seq<int>, need: seq<nat>, c: nat)
    requires Shaped(s) && |need| == |s.c1| && c < |s.c1|
  {
    var k := need[c];
    && 2 <= k <= Capacity(|w|, c)
    && IsFirst(s.c1[c], w, c, k)
    && s.c1[c].weight == Item(w, c, k - 1) && s.c0[c].weight == Item(w, c, k - 2)
    && (c > 0 ==> need[c - 1] == 2 * (k - Leaves(w, c, k)) + 2)
  }

  ghost predicate AllExact(s: PackageMerge.Lists, w: seq<int>, need: seq<nat>, c: nat)
    requires Shaped(s) && |need| == |s.c1| && c < |s.c1|
  {
    forall j :: 0 <= j <= c ==> Exact(s, w, need, j) || Exhausted(s, |w|, need, j)
  }

  lemma EitherWay(s: PackageMerge.Lists, w: seq<int>, need: seq<nat>, c: nat, j: nat)
    requires Shaped(s) && |need| == |s.c1| && j <= c < |s.c1| && AllExact(s, w, need, c)
    ensures Exact(s, w, need, j) || Exhausted(s, |w|, need, j)
  {
    hide Exact, Exhausted;
  }

  lemma NotBoth(s: PackageMerge.Lists, w: seq<int>, need: seq<nat>, c: nat)
    requires Shaped(s) && |need| == |s.c1| && c < |s.c1| && Exact(s, w, need, c)
    ensures !Exhausted(s, |w|, need, c)
    ensures s.c1[c].index == Leaves(w, c, need[c])
  {
    hide Leaves, Item, Capacity;
  }

  /** What list c compares is the next package, as long as list c - 1 has it. */
  lemma SumIsPack(s: PackageMerge.Lists, w: seq<int>, need: seq<nat>, c: nat)
    requires Shaped(s) && |need| == |s.c1| && 0 < c < |s.c1| && Exact(s, w, need, c) && Exact(s, w, need, c - 1)
    ensures PackageWeight(s, c) == Pack(w, c - 1, need[c] - Leaves(w, c, need[c]))
    ensures 2 * (need[c] - Leaves(w, c, need[c])) + 1 < Capacity(|w|, c - 1)
  {
    hide Leaves, Item, Capacity, IsFirst;
    PackIs(w, c - 1, need[c] - Leaves(w, c, need[c]));
  }

  /** One call on list c answers one more request exactly, or list c is exhausted. */
  lemma {:induction false} AdvanceExact(s: PackageMerge.Lists, w: seq<int>, c: nat, need: seq<nat>)
    returns (need': seq<nat>)
    requires SortedWeights(w) && HeadsOk(s, w) && c < |s.c1| == |need| && AllExact(s, w, need, c)
    ensures |need'| == |need| && need'[c] == need[c] + 1
    ensures forall j :: c < j < |need| ==> need'[j] == need[j]
    ensures AllExact(Advance(s, w, c, true), w, need', c)
    ensures Exhausted(s, |w|, need, c) ==> Exhausted(Advance(s, w, c, true), |w|, need', c)
    decreases c
  {
    hide Advance, HeadOk, SortedWeights, Exact, AllExact, Exhausted;
    need' := need[c := need[c] + 1];
    if c == 0 {
      FirstExact(s, w, need);
    } else if TakesLeaf(s, w, c) {
      LeafExact(s, w, c, need);
    } else {
      var p := WithPackage(s, c);
      AdvancePackage(s, w, c);
      PackageHeads(s, w, c);
      PackageExact(s, w, c, need);
      var need1 := AdvanceExact(p, w, c - 1, need[c := need[c] + 1]);
      AdvanceHeads(p, w, c - 1, true);
      var q := Advance(p, w, c - 1, true);
      need' := AdvanceExact(q, w, c - 1, need1);
      if Exhausted(s, |w|, need, c - 1) {
        PackageExhausted(s, |w|, c, need);
      }
      RefillExact(s, w, c, need, Advance(s, w, c, true), need');
    }
  }

  lemma FirstExact(s: PackageMerge.Lists, w: seq<int>, need: seq<nat>)
    requires SortedWeights(w) && HeadsOk(s, w) && 0 < |s.c1| == |need| && AllExact(s, w, need, 0)
    ensures AllExact(Advance(s, w, 0, true), w, need[0 := need[0] + 1], 0)
    ensures Exhausted(s, |w|, need, 0) ==> Exhausted(Advance(s, w, 0, true), |w|, need[0 := need[0] + 1], 0)
  {
    hide Leaves, Item, LeafNext, Advance, HeadOk, SortedWeights;
    var k := need[0];
    AdvanceFirst(s, w, true);
    EitherWay(s, w, need, 0, 0);
    if Exact(s, w, need, 0) {
      PackagesExist(w, 0, k);
      LeavesStep(w, 0, k);
      ItemIs(w, 0, k);
      if k < |w| {
        assert Exact(Advance(s, w, 0, true), w, need[0 := k + 1], 0);
      }
    }
  }

  lemma LeafExact(s: PackageMerge.Lists, w: seq<int>, c: nat, need: seq<nat>)
    requires SortedWeights(w) && HeadsOk(s, w) && 0 < c < |s.c1| == |need| && TakesLeaf(s, w, c)
    requires AllExact(s, w, need, c)
    ensures AllExact(Advance(s, w, c, true), w, need[c := need[c] + 1], c)
    ensures !Exhausted(s, |w|, need, c)
  {
    hide Leaves, Item, LeafNext, Advance, Exact, Exhausted, HeadOk, SortedWeights, Capacity, TakesLeaf;
    LeafChosen(s, w, c, need);
    AdvanceNext(s, w, c, true);
    TakesLeafIs(s, w, c);
    var r, need' := Advance(s, w, c, true), need[c := need[c] + 1];
    LeafAdded(s, w, c, need, r);
    forall j | 0 <= j < c
      ensures Exact(r, w, need', j) || Exhausted(r, |w|, need', j)
    {
      SameBelow(s, r, w, need, need', c, j);
    }
  }

  lemma TakesLeafIs(s: PackageMerge.Lists, w: seq<int>, c: nat)
    requires Shaped(s) && 0 < c < |s.c1|
    ensures TakesLeaf(s, w, c) <==> s.c1[c].index < |w| && PackageWeight(s, c) > w[s.c1[c].index]
  {
  }

  /** The boundary form takes a leaf where the full list has one. */
  lemma LeafChosen(s: PackageMerge.Lists, w: seq<int>, c: nat, need: seq<nat>)
    requires Shaped(s) && 0 < c < |s.c1| == |need| && TakesLeaf(s, w, c) && AllExact(s, w, need, c)
    ensures Exact(s, w, need, c) && !Exhausted(s, |w|, need, c) && LeafNext(w, c, need[c])
  {
    hide Leaves, Item, LeafNext, Capacity, IsFirst;
    EitherWay(s, w, need, c, c);
    EitherWay(s, w, need, c, c - 1);
    NotBoth(s, w, need, c);
    ItemIs(w, c, need[c]);
    if Exact(s, w, need, c - 1) {
      SumIsPack(s, w, need, c);
    }
  }

  lemma LeafAdded(s: PackageMerge.Lists, w: seq<int>, c: nat, need: seq<nat>, r: PackageMerge.Lists)
    requires Shaped(s) && 0 < c < |s.c1| == |need| && s.c1[c].index < |w|
    requires Exact(s, w, need, c) && LeafNext(w, c, need[c])
    requires var last := s.c1[c].index;
             r == PackageMerge.Lists(s.c0[c := s.c1[c]], s.c1[c := Node(w[last], last + 1, s.c1[c].tail)])
    ensures Shaped(r) && |r.c1| == |s.c1| && Exact(r, w, need[c := need[c] + 1], c)
  {
    hide Leaves, Item, LeafNext, Capacity;
    var k := need[c];
    LeavesStep(w, c, k);
    ItemIs(w, c, k);
    PackagesExist(w, c, k);
    CapacityIs(|w|, c);
  }

  /** The lists below keep what they have. */
  lemma SameBelow(s: PackageMerge.Lists, r: PackageMerge.Lists, w: seq<int>, need: seq<nat>, need': seq<nat>, c: nat,
                  j: nat)
    requires Shaped(s) && Shaped(r) && j < c < |s.c1| == |r.c1| == |need| == |need'|
    requires AllExact(s, w, need, c)
    requires forall i :: 0 <= i < c ==> r.c0[i] == s.c0[i] && r.c1[i] == s.c1[i] && need'[i] == need[i]
    ensures Exact(r, w, need', j) || Exhausted(r, |w|, need', j)
  {
    hide Leaves, Item, Capacity, IsFirst;
    EitherWay(s, w, need, c, j);
  }

  lemma PackageExact(s: PackageMerge.Lists, w: seq<int>, c: nat, need: seq<nat>)
    requires Shaped(s) && 0 < c < |s.c1| == |need| && AllExact(s, w, need, c)
    ensures AllExact(WithPackage(s, c), w, need[c := need[c] + 1], c - 1)
  {
    hide Exact, Exhausted;
    var p, need' := WithPackage(s, c), need[c := need[c] + 1];
    forall j | 0 <= j < c
      ensures Exact(p, w, need', j) || Exhausted(p, |w|, need', j)
    {
      SameBelow(s, p, w, need, need', c, j);
    }
  }

  lemma RefillExact(s: PackageMerge.Lists, w: seq<int>, c: nat, need: seq<nat>, r: PackageMerge.Lists,
                    need': seq<nat>)
    requires SortedWeights(w) && HeadsOk(s, w) && 0 < c < |s.c1| == |need| == |need'|
    requires !TakesLeaf(s, w, c) && AllExact(s, w, need, c)
    requires Shaped(r) && |r.c1| == |s.c1|
    requires r.c1[c] == WithPackage(s, c).c1[c] && r.c0[c] == WithPackage(s, c).c0[c]
    requires need'[c] == need[c] + 1 && need'[c - 1] == need[c - 1] + 2
    requires AllExact(r, w, need', c - 1)
    requires Exhausted(s, |w|, need, c - 1) ==> Exhausted(r, |w|, need', c - 1)
    ensures AllExact(r, w, need', c)
    ensures Exhausted(s, |w|, need, c) ==> Exhausted(r, |w|, need', c)
  {
    hide Exact, Exhausted, HeadOk, SortedWeights, TakesLeaf, WithPackage;
    if Exhausted(s, |w|, need, c - 1) {
      RefillSpent(s, w, c, need, r, need');
    } else {
      RefillAdded(s, w, c, need, r, need');
    }
  }

  /** No package is left, and with it no entry of list c. */
  lemma RefillSpent(s: PackageMerge.Lists, w: seq<int>, c: nat, need: seq<nat>, r: PackageMerge.Lists,
                    need': seq<nat>)
    requires SortedWeights(w) && HeadsOk(s, w) && 0 < c < |s.c1| == |need| == |need'|
    requires !TakesLeaf(s, w, c) && AllExact(s, w, need, c)
    requires Shaped(r) && |r.c1| == |s.c1| && r.c1[c] == WithPackage(s, c).c1[c]
    requires need'[c] == need[c] + 1 && need'[c - 1] == need[c - 1] + 2
    requires Exhausted(s, |w|, need, c - 1) && Exhausted(r, |w|, need', c - 1)
    ensures Exhausted(r, |w|, need', c)
  {
    hide Leaves, Item, IsFirst;
    assert HeadOk(s, w, c) && HeadOk(s, w, c - 1);
    assert w[|w| - 1] <= s.c1[c - 1].weight;
    assert s.c1[c].index == |w|;
    EitherWay(s, w, need, c, c);
    if Exact(s, w, need, c) {
      NotBoth(s, w, need, c);
    }
  }

  /** The boundary form takes a package where the full list has one. */
  lemma RefillAdded(s: PackageMerge.Lists, w: seq<int>, c: nat, need: seq<nat>, r: PackageMerge.Lists,
                    need': seq<nat>)
    requires SortedWeights(w) && 0 < c < |s.c1| == |need| == |need'| && Shaped(s)
    requires !TakesLeaf(s, w, c) && AllExact(s, w, need, c)
    requires Shaped(r) && |r.c1| == |s.c1|
    requires r.c1[c] == WithPackage(s, c).c1[c] && r.c0[c] == WithPackage(s, c).c0[c]
    requires need'[c] == need[c] + 1 && need'[c - 1] == need[c - 1] + 2
    requires !Exhausted(s, |w|, need, c - 1)
    ensures Exact(r, w, need', c) && !Exhausted(s, |w|, need, c)
  {
    hide Leaves, Item, LeafNext, Capacity, Pack;
    EitherWay(s, w, need, c, c);
    assert Exact(s, w, need, c - 1);
    var k := need[c];
    NotBoth(s, w, need, c);
    SumIsPack(s, w, need, c);
    ItemIs(w, c, k);
    LeavesStep(w, c, k);
    CapacityIs(|w|, c);
  }

  // ----- Whole runs -----

  /** Every list begins with the two lightest leaves. */
  lemma {:induction false} TwoLightest(w: seq<int>, c: nat)
    requires SortedWeights(w)
    ensures Capacity(|w|, c) >= 2 && Leaves(w, c, 1) == 1 && Leaves(w, c, 2) == 2
    ensures Item(w, c, 0) == w[0] && Item(w, c, 1) == w[1]
  {
    hide Leaves, LeafNext, Item, Pack;
    LeavesZero(w, c);
    LeavesStep(w, c, 0);
    LeavesStep(w, c, 1);
    ItemIs(w, c, 0);
    ItemIs(w, c, 1);
    if c > 0 {
      TwoLightest(w, c - 1);
      PackIs(w, c - 1, 0);
    }
  }

  lemma FirstTwo(w: seq<int>, c: nat)
    requires SortedWeights(w)
    ensures IsFirst(Node(w[1], 2, Nil), w, c, 2)
  {
    hide Leaves;
    TwoLightest(w, c);
  }

  lemma InitialExact(w: seq<int>, lists: nat)
    requires SortedWeights(w) && lists >= 1
    ensures AllExact(Initial(w, lists), w, seq(lists, _ => 2), lists - 1)
  {
    hide Leaves, Item, Capacity, IsFirst;
    var s, need := Initial(w, lists), seq(lists, _ => 2);
    forall c | 0 <= c < lists
      ensures Exact(s, w, need, c)
    {
      TwoLightest(w, c);
      FirstTwo(w, c);
    }
  }

  lemma {:induction false} BuildExact(w: seq<int>, lists: nat, items: nat) returns (need: seq<nat>)
    requires SortedWeights(w) && lists >= 1 && 2 <= items
    requires items == 2 || items < 2 * |w| - 2
    ensures HeadsOk(Build(w, lists, items), w)
    ensures |need| == lists && need[lists - 1] == items
    ensures AllExact(Build(w, lists, items), w, need, lists - 1)
  {
    hide Advance, HeadsOk, AllExact, SortedWeights, Initial;
    if items == 2 {
      InitialOk(w, lists);
      InitialExact(w, lists);
      need := seq(lists, _ => 2);
    } else {
      need := BuildExact(w, lists, items - 1);
      var s := Build(w, lists, items - 1);
      AdvanceHeads(s, w, lists - 1, true);
      need := AdvanceExact(s, w, lists - 1, need);
    }
  }

  /** The chain that the boundary form ends with stands for the first 2n - 2 entries of the last list. */
  lemma FinalFirst(w: seq<int>, lists: nat)
    requires SortedWeights(w) && lists >= 1 && |w| <= Pow2(lists)
    ensures 2 * |w| - 2 <= Capacity(|w|, lists - 1)
    ensures IsFirst(Build(w, lists, 2 * |w| - 2).c1[lists - 1], w, lists - 1, 2 * |w| - 2)
  {
    hide Advance, Exhausted, HeadsOk, Leaves, Item, Capacity;
    var n, t := |w|, lists - 1;
    CapacityBound(n, t, 2);
    if n == 2 {
      TwoLightest(w, t);
      FirstTwo(w, t);
      assert Build(w, lists, 2) == Initial(w, lists);
    } else {
      var need := BuildExact(w, lists, 2 * n - 3);
      var s := Build(w, lists, 2 * n - 3);
      var need' := AdvanceExact(s, w, t, need);
      var r := Advance(s, w, t, true);
      EitherWay(r, w, need', t, t);
      NotSpent(r, w, need', t);
      SameHead(s, w, t);
    }
  }

  lemma NotSpent(r: PackageMerge.Lists, w: seq<int>, need: seq<nat>, t: nat)
    requires Shaped(r) && t < |r.c1| == |need| && need[t] <= Capacity(|w|, t)
    ensures !Exhausted(r, |w|, need, t)
  {
    hide Capacity;
  }

  // ----- What the lengths cost -----

  function ChainSum(ch: Chain, w: seq<int>): int
    requires WellFormed(ch, |w|)
  {
    if ch.Nil? then 0 else Prefix(w, ch.index) + ChainSum(ch.tail, w)
  }

  lemma {:induction false} FirstSum(ch: Chain, w: seq<int>, c: nat, k: nat)
    requires IsFirst(ch, w, c, k) && WellFormed(ch, |w|) && k <= Capacity(|w|, c)
    ensures ChainSum(ch, w) == ItemSum(w, c, k)
    decreases c
  {
    hide Leaves, Item, Capacity;
    if k > 0 {
      SumSplits(w, c, k);
      PackagesExist(w, c, k);
      if c > 0 {
        FirstSum(ch.tail, w, c - 1, 2 * (k - Leaves(w, c, k)));
      }
    }
  }

  /** The lengths of the first n leaves. */
  function LeafLengths(ch: Chain, n: nat): (m: seq<nat>)
    ensures |m| == n && forall i :: 0 <= i < n ==> m[i] == LeafLength(ch, i)
  {
    seq(n, i requires 0 <= i < n => LeafLength(ch, i))
  }

  /** The leaves of the head are one bit longer than the tail says. */
  lemma {:induction false} CostSplits(ch: Chain, w: seq<int>, n: nat)
    requires ch.Node? && ch.index <= |w| && n <= |w|
    ensures Cost(w, LeafLengths(ch, |w|), n) ==
            Cost(w, LeafLengths(ch.tail, |w|), n) + Prefix(w, if n < ch.index then n else ch.index)
  {
    if n > 0 {
      CostSplits(ch, w, n - 1);
      OneMoreTime(w[n - 1], LeafLength(ch.tail, n - 1));
    }
  }

  lemma {:induction false} ChainCost(ch: Chain, w: seq<int>)
    requires WellFormed(ch, |w|)
    ensures Cost(w, LeafLengths(ch, |w|), |w|) == ChainSum(ch, w)
  {
    hide Cost, LeafLengths, Prefix;
    if ch.Nil? {
      NoCost(w, |w|);
    } else {
      CostSplits(ch, w, |w|);
      ChainCost(ch.tail, w);
    }
  }

  lemma {:induction false} NoCost(w: seq<int>, n: nat)
    requires n <= |w|
    ensures Cost(w, LeafLengths(Nil, |w|), n) == 0
  {
    if n > 0 {
      NoCost(w, n - 1);
    }
  }

  /**
   * Boundary package-merge is optimal: among all codes with lengths from 1 to
   * `bits` that satisfy Kraft's inequality none costs less.
   */
  lemma Optimal(w: seq<int>, bits: nat, m: seq<nat>)
    requires SortedWeights(w) && bits >= 1 && |w| <= Pow2(bits)
    requires |m| == |w| && Admissible(m, bits)
    ensures var ch := Build(w, bits, 2 * |w| - 2).c1[bits - 1];
            Cost(w, LeafLengths(ch, |w|), |w|) <= Cost(w, m, |w|)
  {
    hide Build, Cost, Admissible, LeafLengths, IsFirst, WellFormed, Capacity;
    var ch := Build(w, bits, 2 * |w| - 2).c1[bits - 1];
    FinalChain(w, bits);
    FinalFirst(w, bits);
    FirstSum(ch, w, bits - 1, 2 * |w| - 2);
    ChainCost(ch, w);
    CodesCostMore(w, m, bits);
  }

  /** A lighter leaf is at least as long. */
  lemma {:induction false} LengthsDescend(ch: Chain, i: nat, j: nat)
    requires i <= j
    ensures LeafLength(ch, i) >= LeafLength(ch, j)
  {
    if ch.Node? {
      LengthsDescend(ch.tail, i, j);
    }
  }
}
