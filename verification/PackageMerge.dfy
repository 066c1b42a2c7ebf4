/**
 * Boundary package-merge, as lodepng uses it to limit Huffman code lengths,
 * on immutable chains. A chain of list c stands for the first `Items` entries
 * of that list: its head node counts the leaves among them, and its tail is
 * the chain of list c-1 whose entries are paired up in the packages.
 */
module PackageMerge {
  import opened Powers

  datatype Chain = Nil | Node(weight: int, index: nat, tail: Chain)

  /** The two lookahead chains of every list (chains0 and chains1). */
  datatype Lists = Lists(c0: seq<Chain>, c1: seq<Chain>)

  predicate Shaped(s: Lists) {
    && |s.c0| == |s.c1|
    && forall c :: 0 <= c < |s.c1| ==> s.c0[c].Node? && s.c1[c].Node?
  }

  /** boundaryPM: extends list c by one entry, then refills the lookahead below it. */
  function Advance(s: Lists, w: seq<int>, c: nat, refill: bool): (r: Lists)
    requires Shaped(s) && c < |s.c1|
    ensures Shaped(r) && |r.c1| == |s.c1|
    ensures forall j :: c < j < |s.c1| ==> r.c0[j] == s.c0[j] && r.c1[j] == s.c1[j]
    decreases c
  {
    var last := s.c1[c].index;
    if c == 0 then
      if last >= |w| then s
      else Lists(s.c0[0 := s.c1[0]], s.c1[0 := Node(w[last], last + 1, Nil)])
    else if TakesLeaf(s, w, c) then
      Lists(s.c0[c := s.c1[c]], s.c1[c := Node(w[last], last + 1, s.c1[c].tail)])
    else
      var p := WithPackage(s, c);
      if refill then Advance(Advance(p, w, c - 1, true), w, c - 1, true) else p
  }

  /** The weight the next package of list c would have. */
  function PackageWeight(s: Lists, c: nat): int
    requires Shaped(s) && 0 < c < |s.c1|
  {
    s.c0[c - 1].weight + s.c1[c - 1].weight
  }

  /** The shortest list takes the next leaf while there is one. */
  lemma AdvanceFirst(s: Lists, w: seq<int>, refill: bool)
    requires Shaped(s) && |s.c1| > 0
    ensures var last := s.c1[0].index;
            Advance(s, w, 0, refill) ==
            if last >= |w| then s else Lists(s.c0[0 := s.c1[0]], s.c1[0 := Node(w[last], last + 1, Nil)])
  {
  }

  /** Any other list takes a leaf, or a package and then refills the list before it twice. */
  lemma AdvanceNext(s: Lists, w: seq<int>, c: nat, refill: bool)
    requires Shaped(s) && 0 < c < |s.c1|
    ensures var last, sum := s.c1[c].index, PackageWeight(s, c);
            if last < |w| && sum > w[last] then
              Advance(s, w, c, refill) == Lists(s.c0[c := s.c1[c]], s.c1[c := Node(w[last], last + 1, s.c1[c].tail)])
            else
              var p := Lists(s.c0[c := s.c1[c]], s.c1[c := Node(sum, last, s.c1[c - 1])]);
              && Shaped(p) && |p.c1| == |s.c1|
              && Advance(s, w, c, refill) ==
                 if refill then Advance(Advance(p, w, c - 1, true), w, c - 1, true) else p
  {
    hide PackageWeight;
  }

  predicate TakesLeaf(s: Lists, w: seq<int>, c: nat)
    requires Shaped(s) && 0 < c < |s.c1|
  {
    s.c1[c].index < |w| && PackageWeight(s, c) > w[s.c1[c].index]
  }

  function WithPackage(s: Lists, c: nat): (r: Lists)
    requires Shaped(s) && 0 < c < |s.c1|
    ensures Shaped(r) && |r.c1| == |s.c1|
  {
    Lists(s.c0[c := s.c1[c]], s.c1[c := Node(PackageWeight(s, c), s.c1[c].index, s.c1[c - 1])])
  }

  /** The largest value of a C int; weights are positive. */
  const INT_MAX: int := 0x7fff_ffff

  /** No sum that boundaryPM forms for list c, or in its recursion, exceeds an int. */
  predicate SumsFit(s: Lists, w: seq<int>, c: nat, refill: bool)
    requires Shaped(s) && c < |s.c1|
    decreases c, 0
  {
    c == 0 || (PackageWeight(s, c) <= INT_MAX
               && (TakesLeaf(s, w, c) || !refill || RefillFits(WithPackage(s, c), w, c - 1)))
  }

  /** The two calls on the list before. */
  predicate RefillFits(s: Lists, w: seq<int>, c: nat)
    requires Shaped(s) && c < |s.c1|
    decreases c, 1
  {
    SumsFit(s, w, c, true) && SumsFit(Advance(s, w, c, true), w, c, true)
  }

  lemma SumsFitNext(s: Lists, w: seq<int>, c: nat, refill: bool)
    requires Shaped(s) && 0 < c < |s.c1|
    ensures var last, sum := s.c1[c].index, PackageWeight(s, c);
            if sum > INT_MAX then !SumsFit(s, w, c, refill)
            else if last < |w| && sum > w[last] then SumsFit(s, w, c, refill)
            else
              var p := Lists(s.c0[c := s.c1[c]], s.c1[c := Node(sum, last, s.c1[c - 1])]);
              && Shaped(p) && |p.c1| == |s.c1|
              && (SumsFit(s, w, c, refill) <==>
                    !refill || (SumsFit(p, w, c - 1, true) && SumsFit(Advance(p, w, c - 1, true), w, c - 1, true)))
    ensures SumsFit(s, w, 0, refill)
  {
    hide PackageWeight, Advance;
  }

  // ----- What the lookahead weights satisfy on every run -----

  predicate SortedWeights(w: seq<int>) {
    && |w| >= 2
    && (forall i :: 0 <= i < |w| ==> w[i] >= 1)
    && (forall i, j :: 0 <= i <= j < |w| ==> w[i] <= w[j])
  }

  function Depth(ch: Chain): nat {
    if ch.Nil? then 0 else 1 + Depth(ch.tail)
  }

  /** The two heads of list c are in order, and the last one lies between its neighbouring leaves. */
  predicate HeadOk(s: Lists, w: seq<int>, c: nat)
    requires Shaped(s) && c < |s.c1|
  {
    && 1 <= s.c0[c].weight <= s.c1[c].weight
    && 1 <= s.c1[c].index <= |w|
    && w[s.c1[c].index - 1] <= s.c1[c].weight
    && (s.c1[c].index < |w| ==> s.c1[c].weight <= w[s.c1[c].index])
    && (c > 0 ==> s.c1[c].weight <= PackageWeight(s, c))
    && Depth(s.c0[c]) <= c + 1 && Depth(s.c1[c]) <= c + 1
  }

  predicate HeadsOk(s: Lists, w: seq<int>) {
    && Shaped(s)
    && forall c :: 0 <= c < |s.c1| ==> HeadOk(s, w, c)
  }

  lemma {:induction false} AdvanceHeads(s: Lists, w: seq<int>, c: nat, refill: bool)
    requires SortedWeights(w) && HeadsOk(s, w) && c < |s.c1|
    ensures HeadsOk(Advance(s, w, c, refill), w)
    decreases c
  {
    if c == 0 || TakesLeaf(s, w, c) {
      LeafHeads(s, w, c, refill);
    } else {
      hide HeadOk, SortedWeights;
      PackageHeads(s, w, c);
      if refill {
        var p := WithPackage(s, c);
        AdvanceHeads(p, w, c - 1, true);
        AdvanceHeads(Advance(p, w, c - 1, true), w, c - 1, true);
      }
    }
  }

  lemma LeafHeads(s: Lists, w: seq<int>, c: nat, refill: bool)
    requires SortedWeights(w) && HeadsOk(s, w) && c < |s.c1|
    requires c == 0 || TakesLeaf(s, w, c)
    ensures HeadsOk(Advance(s, w, c, refill), w)
  {
    hide Advance, HeadOk, SortedWeights;
    var r := Advance(s, w, c, refill);
    var last := s.c1[c].index;
    if c == 0 {
      AdvanceFirst(s, w, refill);
    } else {
      AdvanceNext(s, w, c, refill);
    }
    if c > 0 || last < |w| {
      forall j | 0 <= j < |s.c1|
        ensures HeadOk(r, w, j)
      {
        NewLeafHead(s, w, c, r, j);
      }
    }
  }

  lemma NewLeafHead(s: Lists, w: seq<int>, c: nat, r: Lists, j: nat)
    requires SortedWeights(w) && HeadsOk(s, w) && c < |s.c1| && s.c1[c].index < |w| && j < |s.c1|
    requires c == 0 || TakesLeaf(s, w, c)
    requires var last := s.c1[c].index;
             r == Lists(s.c0[c := s.c1[c]], s.c1[c := Node(w[last], last + 1, if c == 0 then Nil else s.c1[c].tail)])
    ensures HeadOk(r, w, j)
  {
    assert HeadOk(s, w, j) && HeadOk(s, w, c);
  }

  lemma PackageHeads(s: Lists, w: seq<int>, c: nat)
    requires HeadsOk(s, w) && 0 < c < |s.c1|
    requires !TakesLeaf(s, w, c)
    ensures HeadsOk(WithPackage(s, c), w)
  {
    var p := WithPackage(s, c);
    assert HeadOk(s, w, c) && HeadOk(s, w, c - 1);
    assert HeadOk(p, w, c);
    forall j | 0 <= j < |s.c1|
      ensures HeadOk(p, w, j)
    {
      assert HeadOk(s, w, j);
    }
  }

  // ----- What the chains stand for -----

  /** The number of list entries a chain stands for. */
  function Items(ch: Chain): nat {
    if ch.Nil? then 0 else ch.index + Items(ch.tail) / 2
  }

  /** Leaf counts shrink down the chain, and packages are made of whole pairs. */
  predicate WellFormed(ch: Chain, n: nat) {
    ch.Node? ==>
      && ch.index <= n
      && WellFormed(ch.tail, n)
      && (ch.tail.Node? ==> ch.tail.index <= ch.index)
      && Items(ch.tail) % 2 == 0
  }

  /** How many entries list c has in all: n leaves and the packages of list c-1. */
  function Capacity(n: nat, c: nat): nat {
    if c == 0 then n else n + Capacity(n, c - 1) / 2
  }

  /** List c stands for exactly the `need[c]` entries asked of it so far. */
  predicate Fresh(s: Lists, n: nat, need: seq<nat>, c: nat)
    requires Shaped(s) && |need| == |s.c1| && c < |s.c1|
  {
    && WellFormed(s.c1[c], n)
    && Items(s.c1[c]) == need[c]
    && (c == 0 ==> s.c1[c].tail == Nil)
    && (c > 0 ==> need[c - 1] == Items(s.c1[c].tail) + 2)
  }

  /** More entries were asked of list c than it has; the same then holds below it. */
  predicate Exhausted(s: Lists, n: nat, need: seq<nat>, c: nat)
    requires Shaped(s) && |need| == |s.c1| && c < |s.c1|
  {
    forall j :: 0 <= j <= c ==> s.c1[j].index == n && need[j] > Capacity(n, j)
  }

  predicate Settled(s: Lists, n: nat, need: seq<nat>, c: nat)
    requires Shaped(s) && |need| == |s.c1| && c < |s.c1|
  {
    forall j :: 0 <= j <= c ==> Fresh(s, n, need, j) || Exhausted(s, n, need, j)
  }

  /** One call on list c answers one more request, or list c is exhausted. */
  lemma {:induction false} AdvanceSettled(s: Lists, w: seq<int>, c: nat, need: seq<nat>) returns (need': seq<nat>)
    requires SortedWeights(w) && HeadsOk(s, w) && c < |s.c1| == |need|
    requires Settled(s, |w|, need, c)
    ensures |need'| == |need| && need'[c] == need[c] + 1
    ensures forall j :: c < j < |need| ==> need'[j] == need[j]
    ensures Settled(Advance(s, w, c, true), |w|, need', c)
    ensures Exhausted(s, |w|, need, c) ==> Exhausted(Advance(s, w, c, true), |w|, need', c)
    decreases c
  {
    hide Advance, WellFormed, Items, HeadOk, SortedWeights, Settled, Exhausted;
    var r := Advance(s, w, c, true);
    need' := need[c := need[c] + 1];
    if c == 0 {
      FirstSettled(s, w, need);
    } else if TakesLeaf(s, w, c) {
      LeafSettled(s, w, c, need);
    } else {
      var p := WithPackage(s, c);
      AdvancePackage(s, w, c);
      PackageHeads(s, w, c);
      PackageSettled(s, w, c, need);
      var need1 := AdvanceSettled(p, w, c - 1, need[c := need[c] + 1]);
      AdvanceHeads(p, w, c - 1, true);
      var q := Advance(p, w, c - 1, true);
      need' := AdvanceSettled(q, w, c - 1, need1);
      if Exhausted(s, |w|, need, c - 1) {
        PackageExhausted(s, |w|, c, need);
      }
      RefillSettled(s, w, c, need, r, need');
    }
  }

  lemma AdvancePackage(s: Lists, w: seq<int>, c: nat)
    requires Shaped(s) && 0 < c < |s.c1| && !TakesLeaf(s, w, c)
    ensures Advance(s, w, c, true) == Advance(Advance(WithPackage(s, c), w, c - 1, true), w, c - 1, true)
  {
  }

  lemma PackageExhausted(s: Lists, n: nat, c: nat, need: seq<nat>)
    requires Shaped(s) && 0 < c < |s.c1| == |need|
    requires Exhausted(s, n, need, c - 1)
    ensures Exhausted(WithPackage(s, c), n, need[c := need[c] + 1], c - 1)
  {
  }

  lemma FirstSettled(s: Lists, w: seq<int>, need: seq<nat>)
    requires SortedWeights(w) && HeadsOk(s, w) && 0 < |s.c1| == |need|
    requires Settled(s, |w|, need, 0)
    ensures Settled(Advance(s, w, 0, true), |w|, need[0 := need[0] + 1], 0)
    ensures Exhausted(s, |w|, need, 0) ==> Exhausted(Advance(s, w, 0, true), |w|, need[0 := need[0] + 1], 0)
  {
    assert HeadOk(s, w, 0);
    assert Fresh(s, |w|, need, 0) || Exhausted(s, |w|, need, 0);
  }

  lemma LeafSettled(s: Lists, w: seq<int>, c: nat, need: seq<nat>)
    requires SortedWeights(w) && HeadsOk(s, w) && 0 < c < |s.c1| == |need|
    requires TakesLeaf(s, w, c)
    requires Settled(s, |w|, need, c)
    ensures Settled(Advance(s, w, c, true), |w|, need[c := need[c] + 1], c)
    ensures !Exhausted(s, |w|, need, c)
  {
    var r := Advance(s, w, c, true);
    var need' := need[c := need[c] + 1];
    assert Fresh(s, |w|, need, c);
    assert Fresh(r, |w|, need', c);
    forall j | 0 <= j < c
      ensures Fresh(r, |w|, need', j) || Exhausted(r, |w|, need', j)
    {
      if Fresh(s, |w|, need, j) {
      } else {
        assert Exhausted(s, |w|, need, j);
      }
    }
  }

  /** The lists below a new package are as settled as they were. */
  lemma PackageSettled(s: Lists, w: seq<int>, c: nat, need: seq<nat>)
    requires HeadsOk(s, w) && 0 < c < |s.c1| == |need|
    requires Settled(s, |w|, need, c)
    ensures Settled(WithPackage(s, c), |w|, need[c := need[c] + 1], c - 1)
  {
    var p := WithPackage(s, c);
    var need' := need[c := need[c] + 1];
    forall j | 0 <= j < c
      ensures Fresh(p, |w|, need', j) || Exhausted(p, |w|, need', j)
    {
      if Fresh(s, |w|, need, j) {
      } else {
        assert Exhausted(s, |w|, need, j);
      }
    }
  }

  /** A package is only made from list c-1 when that list is fresh, or when list c has run out too. */
  lemma RefillSettled(s: Lists, w: seq<int>, c: nat, need: seq<nat>, r: Lists, need': seq<nat>)
    requires SortedWeights(w) && HeadsOk(s, w) && 0 < c < |s.c1| == |need| == |need'|
    requires !TakesLeaf(s, w, c)
    requires Settled(s, |w|, need, c)
    requires Shaped(r) && |r.c1| == |s.c1|
    requires r.c1[c] == WithPackage(s, c).c1[c]
    requires need'[c] == need[c] + 1 && need'[c - 1] == need[c - 1] + 2
    requires Settled(r, |w|, need', c - 1)
    requires Exhausted(s, |w|, need, c - 1) ==> Exhausted(r, |w|, need', c - 1)
    ensures Settled(r, |w|, need', c)
    ensures Exhausted(s, |w|, need, c) ==> Exhausted(r, |w|, need', c)
  {
    hide Fresh, HeadOk, SortedWeights, TakesLeaf;
    if Exhausted(s, |w|, need, c - 1) {
      RefillExhausted(s, w, c, need, r, need');
    } else {
      RefillFresh(s, w, c, need, r, need');
    }
  }

  lemma RefillExhausted(s: Lists, w: seq<int>, c: nat, need: seq<nat>, r: Lists, need': seq<nat>)
    requires SortedWeights(w) && HeadsOk(s, w) && 0 < c < |s.c1| == |need| == |need'|
    requires !TakesLeaf(s, w, c) && Settled(s, |w|, need, c)
    requires Shaped(r) && |r.c1| == |s.c1| && r.c1[c] == WithPackage(s, c).c1[c]
    requires need'[c] == need[c] + 1 && need'[c - 1] == need[c - 1] + 2
    requires Exhausted(s, |w|, need, c - 1) && Exhausted(r, |w|, need', c - 1)
    ensures Exhausted(r, |w|, need', c)
  {
    assert HeadOk(s, w, c) && HeadOk(s, w, c - 1);
    assert s.c1[c].index == |w| by {
      assert w[|w| - 1] <= s.c1[c - 1].weight;
    }
    if Fresh(s, |w|, need, c) {
      assert need[c - 1] > Capacity(|w|, c - 1);
    }
  }

  lemma RefillFresh(s: Lists, w: seq<int>, c: nat, need: seq<nat>, r: Lists, need': seq<nat>)
    requires SortedWeights(w) && HeadsOk(s, w) && 0 < c < |s.c1| == |need| == |need'|
    requires !TakesLeaf(s, w, c) && Settled(s, |w|, need, c)
    requires Shaped(r) && |r.c1| == |s.c1| && r.c1[c] == WithPackage(s, c).c1[c]
    requires need'[c] == need[c] + 1 && need'[c - 1] == need[c - 1] + 2
    requires !Exhausted(s, |w|, need, c - 1)
    ensures Fresh(r, |w|, need', c) && !Exhausted(s, |w|, need, c)
  {
    assert HeadOk(s, w, c) && HeadOk(s, w, c - 1);
    assert Fresh(s, |w|, need, c - 1) && Fresh(s, |w|, need, c);
    assert s.c1[c - 1].index <= s.c1[c].index;
  }

  // ----- Whole runs -----

  /** The lists before the first call: every list starts with the two lightest leaves. */
  function Initial(w: seq<int>, lists: nat): (s: Lists)
    requires |w| >= 2
    ensures Shaped(s) && |s.c1| == lists
  {
    Lists(seq(lists, _ => Node(w[0], 1, Nil)), seq(lists, _ => Node(w[1], 2, Nil)))
  }

  /** The lists once the last one stands for `items` entries; the final call does not refill. */
  function Build(w: seq<int>, lists: nat, items: nat): (s: Lists)
    requires |w| >= 2 && lists >= 1 && items >= 2
    ensures Shaped(s) && |s.c1| == lists
  {
    if items == 2 then Initial(w, lists)
    else Advance(Build(w, lists, items - 1), w, lists - 1, items < 2 * |w| - 2)
  }

  /** No call before the last list has `items` entries overflows. */
  predicate RunFits(w: seq<int>, lists: nat, items: nat)
    requires |w| >= 2 && lists >= 1
  {
    forall i :: 2 <= i < items ==> SumsFit(Build(w, lists, i), w, lists - 1, i + 1 < 2 * |w| - 2)
  }

  lemma RunFitsNext(w: seq<int>, lists: nat, i: nat, items: nat)
    requires |w| >= 2 && lists >= 1 && 2 <= i < items && RunFits(w, lists, i)
    ensures SumsFit(Build(w, lists, i), w, lists - 1, i + 1 < 2 * |w| - 2) ==> RunFits(w, lists, i + 1)
    ensures !SumsFit(Build(w, lists, i), w, lists - 1, i + 1 < 2 * |w| - 2) ==> !RunFits(w, lists, items)
  {
    hide SumsFit, Build;
  }

  lemma InitialOk(w: seq<int>, lists: nat)
    requires SortedWeights(w) && lists >= 1
    ensures HeadsOk(Initial(w, lists), w)
    ensures Settled(Initial(w, lists), |w|, seq(lists, _ => 2), lists - 1)
  {
    var s := Initial(w, lists);
    var need := seq(lists, _ => 2);
    forall c | 0 <= c < lists
      ensures HeadOk(s, w, c) && Fresh(s, |w|, need, c)
    {
    }
  }

  /** Before the final call every list has been asked for what the list above it needs. */
  lemma {:induction false} BuildSettled(w: seq<int>, lists: nat, items: nat) returns (need: seq<nat>)
    requires SortedWeights(w) && lists >= 1 && 2 <= items
    requires items == 2 || items < 2 * |w| - 2
    ensures HeadsOk(Build(w, lists, items), w)
    ensures |need| == lists && need[lists - 1] == items
    ensures Settled(Build(w, lists, items), |w|, need, lists - 1)
  {
    hide Advance, HeadsOk, Settled, SortedWeights, Initial;
    if items == 2 {
      InitialOk(w, lists);
      need := seq(lists, _ => 2);
    } else {
      need := BuildSettled(w, lists, items - 1);
      var s := Build(w, lists, items - 1);
      AdvanceHeads(s, w, lists - 1, true);
      need := AdvanceSettled(s, w, lists - 1, need);
    }
  }

  lemma {:induction false} CapacityBound(n: nat, c: nat, d: nat)
    requires n <= d * Pow2(c)
    ensures Capacity(n, c) + d >= 2 * n
  {
    if c > 0 {
      assert d * Pow2(c) == (2 * d) * Pow2(c - 1);
      CapacityBound(n, c - 1, 2 * d);
    }
  }

  /**
   * The chain boundary package-merge ends with stands for exactly 2n-2 entries
   * of the last list, with nested leaf counts and at most one node per list,
   * whenever n codes fit into `lists` bits.
   */
  lemma FinalChain(w: seq<int>, lists: nat)
    requires SortedWeights(w) && lists >= 1 && |w| <= Pow2(lists)
    ensures var ch := Build(w, lists, 2 * |w| - 2).c1[lists - 1];
            WellFormed(ch, |w|) && Items(ch) == 2 * |w| - 2 && Depth(ch) <= lists
  {
    if |w| == 2 {
      var ch := Node(w[1], 2, Nil);
      assert ch == Initial(w, lists).c1[lists - 1];
      assert Items(Nil) == 0 && Depth(Nil) == 0;
    } else {
      FinalAdvance(w, lists);
    }
  }

  lemma FinalAdvance(w: seq<int>, lists: nat)
    requires SortedWeights(w) && lists >= 1 && 2 < |w| <= Pow2(lists)
    ensures var ch := Build(w, lists, 2 * |w| - 2).c1[lists - 1];
            WellFormed(ch, |w|) && Items(ch) == 2 * |w| - 2 && Depth(ch) <= lists
  {
    hide Advance;
    var n, t := |w|, lists - 1;
    CapacityBound(n, t, 2);
    var need := BuildSettled(w, lists, 2 * n - 3);
    var s := Build(w, lists, 2 * n - 3);
    LastAdvance(s, w, t, need);
    AdvanceHeads(s, w, t, false);
    assert HeadOk(Advance(s, w, t, false), w, t);
  }

  lemma LastAdvance(s: Lists, w: seq<int>, t: nat, need: seq<nat>)
    requires SortedWeights(w) && HeadsOk(s, w) && t < |s.c1| == |need|
    requires Settled(s, |w|, need, t)
    requires need[t] < Capacity(|w|, t)
    ensures var ch := Advance(s, w, t, false).c1[t]; WellFormed(ch, |w|) && Items(ch) == need[t] + 1
  {
    var need' := AdvanceSettled(s, w, t, need);
    var r := Advance(s, w, t, true);
    assert !Exhausted(r, |w|, need', t);
    assert Fresh(r, |w|, need', t);
    SameHead(s, w, t);
  }

  lemma SameHead(s: Lists, w: seq<int>, t: nat)
    requires Shaped(s) && t < |s.c1|
    ensures Advance(s, w, t, false).c1[t] == Advance(s, w, t, true).c1[t]
  {
  }

  // ----- From the final chain to code lengths -----

  /** The length leaf i gets: the number of lists in which it is among the first entries. */
  function LeafLength(ch: Chain, i: nat): nat {
    if ch.Nil? then 0 else (if i < ch.index then 1 else 0) + LeafLength(ch.tail, i)
  }

  lemma {:induction false} LeafLengthDepth(ch: Chain, i: nat)
    ensures LeafLength(ch, i) <= Depth(ch)
  {
    if ch.Node? {
      LeafLengthDepth(ch.tail, i);
    }
  }

  lemma {:induction false} LeafLengthZero(ch: Chain, n: nat, i: nat)
    requires WellFormed(ch, n)
    requires ch.Node? ==> ch.index <= i
    ensures LeafLength(ch, i) == 0
  {
    if ch.Node? {
      LeafLengthZero(ch.tail, n, i);
    }
  }

  /** Kraft's sum of the first n leaves, scaled by 2^bits. */
  function LeafKraft(ch: Chain, n: nat, bits: nat): nat
    requires Depth(ch) <= bits
  {
    if n == 0 then 0
    else
      LeafLengthDepth(ch, n - 1);
      LeafKraft(ch, n - 1, bits) + Pow2(bits - LeafLength(ch, n - 1))
  }

  lemma {:induction false} WellFormedTighter(ch: Chain, n: nat, m: nat)
    requires WellFormed(ch, n)
    requires ch.Node? ==> ch.index <= m
    ensures WellFormed(ch, m)
  {
    if ch.Node? {
      WellFormedTighter(ch.tail, n, m);
    }
  }

  /** Below the head's leaf count a leaf is one bit longer than the tail says; above it has no bits. */
  lemma {:induction false} LeafKraftSplit(ch: Chain, n: nat, m: nat, bits: nat)
    requires ch.Node? && WellFormed(ch, n) && 1 <= Depth(ch) <= bits && m <= n
    ensures m <= ch.index ==> LeafKraft(ch, m, bits) == LeafKraft(ch.tail, m, bits - 1)
    ensures m > ch.index ==>
              LeafKraft(ch, m, bits) == LeafKraft(ch.tail, ch.index, bits - 1) + Times(m - ch.index, Pow2(bits))
  {
    if m > 0 {
      LeafKraftSplit(ch, n, m - 1, bits);
      LeafLengthDepth(ch, m - 1);
      if m > ch.index {
        LeafLengthZero(ch, n, m - 1);
      }
    }
  }

  /** Multiplication as repeated addition. */
  function Times(k: nat, p: nat): (r: nat)
    ensures r == k * p
  {
    if k == 0 then 0
    else
      assert (k - 1) * p + p == k * p;
      Times(k - 1, p) + p
  }

  lemma {:induction false} LeafKraftNil(n: nat, bits: nat)
    ensures LeafKraft(Nil, n, bits) == n * Pow2(bits)
  {
    if n > 0 {
      LeafKraftNil(n - 1, bits);
      assert Times(n, Pow2(bits)) == Times(n - 1, Pow2(bits)) + Pow2(bits);
    }
  }

  /** Every pair of entries of the last list takes one unit off the Kraft sum. */
  lemma {:induction false} LeafKraftItems(ch: Chain, n: nat, bits: nat)
    requires WellFormed(ch, n) && Depth(ch) <= bits && Items(ch) % 2 == 0
    ensures LeafKraft(ch, n, bits) + (Items(ch) / 2) * Pow2(bits) == n * Pow2(bits)
    decreases ch
  {
    hide LeafKraft, LeafLength, Times;
    if ch.Nil? {
      LeafKraftNil(n, bits);
    } else {
      LeafKraftSplit(ch, n, n, bits);
      WellFormedTighter(ch.tail, n, ch.index);
      LeafKraftItems(ch.tail, ch.index, bits - 1);
      Regroup(n, ch.index, Pow2(bits - 1), Pow2(bits), LeafKraft(ch.tail, ch.index, bits - 1),
              LeafKraft(ch, n, bits), Items(ch.tail) / 2, Items(ch) / 2);
    }
  }

  lemma Regroup(n: int, i: int, p: int, q: int, kt: int, k: int, h: int, e: int)
    requires q == 2 * p
    requires k == kt + (n - i) * q
    requires kt + h * p == i * p
    requires 2 * e == i + h && i <= n
    ensures k + e * q == n * q
  {
    assert e * q == (i + h) * p;
  }

  /** The n leaf lengths of the final chain fill the code space exactly. */
  lemma KraftExact(ch: Chain, n: nat, bits: nat)
    requires WellFormed(ch, n) && Depth(ch) <= bits && n >= 1 && Items(ch) == 2 * n - 2
    ensures LeafKraft(ch, n, bits) == Pow2(bits)
  {
    LeafKraftItems(ch, n, bits);
    assert (n - 1) * Pow2(bits) == n * Pow2(bits) - Pow2(bits);
  }

  lemma {:induction false} LeafKraftAtLeast(ch: Chain, n: nat, bits: nat, i: nat)
    requires Depth(ch) <= bits && i < n
    ensures LeafLength(ch, i) <= bits
    ensures LeafKraft(ch, n, bits) >= Pow2(bits - LeafLength(ch, i)) + n - 1
  {
    LeafLengthDepth(ch, i);
    if i < n - 1 {
      LeafKraftAtLeast(ch, n - 1, bits, i);
    } else {
      LeafKraftCount(ch, n - 1, bits);
    }
  }

  lemma {:induction false} LeafKraftCount(ch: Chain, n: nat, bits: nat)
    requires Depth(ch) <= bits
    ensures LeafKraft(ch, n, bits) >= n
  {
    if n > 0 {
      LeafKraftCount(ch, n - 1, bits);
    }
  }

  /** Boundary package-merge: lengths within the limit, none zero, Kraft sum exactly 1. */
  lemma LengthsValid(w: seq<int>, bits: nat)
    requires SortedWeights(w) && bits >= 1 && |w| <= Pow2(bits)
    ensures var ch := Build(w, bits, 2 * |w| - 2).c1[bits - 1];
            && Depth(ch) <= bits
            && LeafKraft(ch, |w|, bits) == Pow2(bits)
            && forall i :: 0 <= i < |w| ==> 1 <= LeafLength(ch, i) <= bits
  {
    hide Build, Advance;
    var ch := Build(w, bits, 2 * |w| - 2).c1[bits - 1];
    FinalChain(w, bits);
    KraftExact(ch, |w|, bits);
    forall i | 0 <= i < |w|
      ensures 1 <= LeafLength(ch, i) <= bits
    {
      LeafKraftAtLeast(ch, |w|, bits, i);
    }
  }
}
