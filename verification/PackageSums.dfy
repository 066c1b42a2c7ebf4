/** How large the weights of boundary package-merge get: the source adds them as 32-bit signed integers. */
module PackageSums {
  import opened Powers
  import opened PackageMerge

  /** The two largest weights together. */
  function Largest(w: seq<int>): int
    requires |w| >= 2
  {
    w[|w| - 2] + w[|w| - 1]
  }

  /** What a sum formed for list c cannot exceed. */
  function Limit(w: seq<int>, c: nat): int
    requires |w| >= 2 && c > 0
  {
    Pow2(c - 1) * Largest(w)
  }

  /** The first list goes through the leaves; the heads of list c are within its limit. */
  predicate HeadLimited(s: Lists, w: seq<int>, c: nat)
    requires Shaped(s) && c < |s.c1| && |w| >= 2
  {
    if c == 0 then
      var k := s.c1[0].index;
      2 <= k <= |w| && s.c1[0].weight == w[k - 1] && s.c0[0].weight == w[k - 2]
    else
      s.c0[c].weight <= Limit(w, c) && s.c1[c].weight <= Limit(w, c)
  }

  predicate Limited(s: Lists, w: seq<int>)
    requires |w| >= 2
  {
    Shaped(s) && forall c :: 0 <= c < |s.c1| ==> HeadLimited(s, w, c)
  }

  lemma LimitStep(w: seq<int>, c: nat)
    requires SortedWeights(w) && c > 0
    ensures Limit(w, 1) == Largest(w) && (c > 1 ==> Limit(w, c) == 2 * Limit(w, c - 1))
  {
    if c > 1 {
      Twice(Pow2(c - 2), Largest(w));
    }
  }

  lemma Twice(p: nat, x: int)
    ensures 2 * p * x == 2 * (p * x)
  {
  }

  lemma {:induction false} LimitGrows(w: seq<int>, a: nat, b: nat)
    requires SortedWeights(w) && 0 < a <= b
    ensures 2 <= Largest(w) <= Limit(w, a) <= Limit(w, b)
  {
    hide Limit, Pow2;
    LimitStep(w, b);
    if b > 1 {
      if a < b {
        LimitGrows(w, a, b - 1);
      } else {
        LimitGrows(w, a - 1, b - 1);
      }
    }
  }

  lemma LeafLimited(w: seq<int>, i: nat, c: nat)
    requires SortedWeights(w) && i < |w| && c > 0
    ensures w[i] <= Limit(w, c)
  {
    hide Limit;
    LimitGrows(w, 1, c);
    assert w[i] <= w[|w| - 1];
  }

  /** The sum that list c compares with the next leaf. */
  lemma SumLimited(s: Lists, w: seq<int>, c: nat)
    requires SortedWeights(w) && Limited(s, w) && 0 < c < |s.c1|
    ensures PackageWeight(s, c) <= Limit(w, c)
  {
    hide Limit;
    LimitStep(w, c);
    assert HeadLimited(s, w, c - 1);
    if c == 1 {
      var k := s.c1[0].index;
      assert w[k - 1] <= w[|w| - 1] && w[k - 2] <= w[|w| - 2];
    }
  }

  lemma InitialLimited(w: seq<int>, lists: nat)
    requires SortedWeights(w)
    ensures Limited(Initial(w, lists), w)
  {
    hide Limit;
    forall c | 0 <= c < lists
      ensures HeadLimited(Initial(w, lists), w, c)
    {
      if c > 0 {
        LeafLimited(w, 0, c);
        LeafLimited(w, 1, c);
      }
    }
  }

  /** A new head of list c that is within the limit, or the next leaf of the first list. */
  lemma NewHead(s: Lists, w: seq<int>, c: nat, head: Chain)
    requires |w| >= 2 && Limited(s, w) && c < |s.c1| && head.Node?
    requires c == 0 ==> s.c1[0].index < |w| && head.index == s.c1[0].index + 1 && head.weight == w[s.c1[0].index]
    requires c > 0 ==> head.weight <= Limit(w, c)
    ensures Limited(Lists(s.c0[c := s.c1[c]], s.c1[c := head]), w)
  {
    hide Limit;
    var r := Lists(s.c0[c := s.c1[c]], s.c1[c := head]);
    forall j | 0 <= j < |s.c1|
      ensures HeadLimited(r, w, j)
    {
      assert HeadLimited(s, w, j);
    }
  }

  /** Every call of boundaryPM, at every depth of its recursion, finds and leaves the lists within their limits. */
  lemma {:induction false} AdvanceLimited(s: Lists, w: seq<int>, c: nat, refill: bool)
    requires SortedWeights(w) && Limited(s, w) && c < |s.c1|
    ensures Limited(Advance(s, w, c, refill), w)
    decreases c
  {
    hide Limited, SortedWeights, Advance, PackageWeight, Limit;
    ShapedLimited(s, w);
    var last := s.c1[c].index;
    if c == 0 {
      AdvanceFirst(s, w, refill);
      if last < |w| {
        NewHead(s, w, 0, Node(w[last], last + 1, Nil));
      }
    } else {
      AdvanceNext(s, w, c, refill);
      SumLimited(s, w, c);
      var sum := PackageWeight(s, c);
      if last < |w| && sum > w[last] {
        LeafLimited(w, last, c);
        NewHead(s, w, c, Node(w[last], last + 1, s.c1[c].tail));
      } else {
        NewHead(s, w, c, Node(sum, last, s.c1[c - 1]));
        if refill {
          var p := Lists(s.c0[c := s.c1[c]], s.c1[c := Node(sum, last, s.c1[c - 1])]);
          AdvanceLimited(p, w, c - 1, true);
          AdvanceLimited(Advance(p, w, c - 1, true), w, c - 1, true);
        }
      }
    }
  }

  lemma ShapedLimited(s: Lists, w: seq<int>)
    requires SortedWeights(w) && Limited(s, w)
    ensures Shaped(s) && |w| >= 2
  {
  }

  lemma {:induction false} BuildLimited(w: seq<int>, lists: nat, items: nat)
    requires SortedWeights(w) && lists >= 1 && items >= 2
    ensures Limited(Build(w, lists, items), w)
  {
    hide Limited, Advance, Initial;
    if items == 2 {
      InitialLimited(w, lists);
    } else {
      BuildLimited(w, lists, items - 1);
      AdvanceLimited(Build(w, lists, items - 1), w, lists - 1, items < 2 * |w| - 2);
    }
  }

  function Total(w: seq<int>): int {
    if w == [] then 0 else Total(w[..|w| - 1]) + w[|w| - 1]
  }

  lemma {:induction false} TotalAtLeast(w: seq<int>)
    requires forall i :: 0 <= i < |w| ==> w[i] >= 1
    ensures Total(w) >= |w|
  {
    if w != [] {
      TotalAtLeast(w[..|w| - 1]);
    }
  }

  /** One more of one kind. */
  lemma {:induction false} TotalUpdate(w: seq<int>, i: nat, v: int)
    requires i < |w|
    ensures Total(w[i := v]) == Total(w) - w[i] + v
    decreases |w|
  {
    var n := |w| - 1;
    if i < n {
      TotalUpdate(w[..n], i, v);
      assert w[i := v][..n] == w[..n][i := v];
    } else {
      assert w[i := v][..n] == w[..n];
    }
  }

  lemma {:induction false} TotalZeros(n: nat)
    ensures Total(seq(n, _ => 0)) == 0
  {
    if n > 0 {
      TotalZeros(n - 1);
      assert seq(n, _ => 0)[..n - 1] == seq(n - 1, _ => 0);
    }
  }

  lemma OneSum(s: Lists, w: seq<int>, c: nat)
    requires SortedWeights(w) && Largest(w) < 262144 && Limited(s, w) && 0 < c < |s.c1| <= 15
    ensures PackageWeight(s, c) <= INT_MAX
  {
    hide Limit, Limited, Pow2;
    SumLimited(s, w, c);
    LimitGrows(w, c, 14);
    LimitAt14(w);
  }

  /** With lengths up to 15 no sum of weights overflows unless the two largest reach 2^18. */
  lemma {:induction false} LimitedFits(s: Lists, w: seq<int>, c: nat, refill: bool)
    requires SortedWeights(w) && Largest(w) < 262144 && Limited(s, w) && c < |s.c1| <= 15
    ensures SumsFit(s, w, c, refill)
    decreases c
  {
    hide Limited, SortedWeights, Advance, PackageWeight, Limit, SumsFit;
    ShapedLimited(s, w);
    if c == 0 {
      FirstFits(s, w, refill);
    } else {
      SumsFitNext(s, w, c, refill);
      OneSum(s, w, c);
      SumLimited(s, w, c);
      var last, sum := s.c1[c].index, PackageWeight(s, c);
      if refill && !(last < |w| && sum > w[last]) {
        var p := Lists(s.c0[c := s.c1[c]], s.c1[c := Node(sum, last, s.c1[c - 1])]);
        NewHead(s, w, c, Node(sum, last, s.c1[c - 1]));
        LimitedFits(p, w, c - 1, true);
        AdvanceLimited(p, w, c - 1, true);
        LimitedFits(Advance(p, w, c - 1, true), w, c - 1, true);
      }
    }
  }

  lemma FirstFits(s: Lists, w: seq<int>, refill: bool)
    requires Shaped(s) && |s.c1| > 0
    ensures SumsFit(s, w, 0, refill)
  {
  }

  lemma TwoOfAll(w: seq<int>)
    requires SortedWeights(w) && |w| >= 4
    ensures Total(w) <= 262145 ==> Largest(w) < 262144
  {
    var n := |w|;
    var rest := w[..n - 1];
    assert rest[..n - 2] == w[..n - 2];
    TotalAtLeast(w[..n - 2]);
    assert Total(rest) == Total(rest[..n - 2]) + rest[n - 2];
  }

  // ----- Three leaves -----

  /** List j has its first two leaves. */
  predicate New(s: Lists, w: seq<int>, j: nat)
    requires |w| == 3
  {
    Shaped(s) && j < |s.c1| && s.c0[j].weight == w[0] && s.c1[j].weight == w[1] && s.c1[j].index == 2
  }

  /** List j after one call: the first list has all its leaves, any other the package of the first two. */
  predicate Half(s: Lists, w: seq<int>, j: nat)
    requires |w| == 3
  {
    && Shaped(s) && j < |s.c1| && s.c0[j].weight == w[1]
    && if j == 0 then s.c1[j].weight == w[2] && s.c1[j].index == 3
       else s.c1[j].weight == w[0] + w[1] && s.c1[j].index == 2
  }

  /** List j after two calls. */
  predicate Done(s: Lists, w: seq<int>, j: nat)
    requires |w| == 3
  {
    && Shaped(s) && j < |s.c1| && s.c1[j].weight == w[2] && s.c1[j].index == 3
    && s.c0[j].weight == if j == 0 then w[1] else w[0] + w[1]
  }

  /** The lists from `from` on are the same. */
  predicate SameFrom(s: Lists, r: Lists, from: nat) {
    |r.c1| == |s.c1| && |r.c0| == |s.c0| && forall j :: from <= j < |s.c1| && j < |s.c0| ==>
      r.c0[j] == s.c0[j] && r.c1[j] == s.c1[j]
  }

  /** The first call on a list where nothing was called yet. */
  lemma {:induction false} FirstCall(s: Lists, w: seq<int>, c: nat)
    requires SortedWeights(w) && |w| == 3 && w[0] + w[1] <= w[2] && Total(w) <= INT_MAX
    requires Shaped(s) && c < |s.c1| && forall j :: 0 <= j <= c ==> New(s, w, j)
    ensures SumsFit(s, w, c, true)
    ensures var r := Advance(s, w, c, true);
            SameFrom(s, r, c + 1) && Half(r, w, c) && forall j :: 0 <= j < c ==> Done(r, w, j)
    decreases c
  {
    hide Advance, SumsFit, Total;
    ThreeTotal(w);
    assert New(s, w, c);
    if c == 0 {
      AdvanceFirst(s, w, true);
      FirstFits(s, w, true);
    } else {
      assert New(s, w, c - 1);
      AdvanceNext(s, w, c, true);
      SumsFitNext(s, w, c, true);
      var p := Lists(s.c0[c := s.c1[c]], s.c1[c := Node(w[0] + w[1], 2, s.c1[c - 1])]);
      StillNew(s, p, w, c);
      FirstCall(p, w, c - 1);
      var q := Advance(p, w, c - 1, true);
      SecondCall(q, w, c - 1);
    }
  }

  lemma StillNew(s: Lists, p: Lists, w: seq<int>, c: nat)
    requires |w| == 3 && Shaped(s) && c < |s.c1| && (forall j :: 0 <= j <= c ==> New(s, w, j)) && Shaped(p)
    requires |p.c1| == |s.c1| && forall j :: 0 <= j < c ==> p.c0[j] == s.c0[j] && p.c1[j] == s.c1[j]
    ensures forall j :: 0 <= j < c ==> New(p, w, j)
  {
    forall j | 0 <= j < c
      ensures New(p, w, j)
    {
      assert New(s, w, j);
    }
  }

  /** The second call takes the last leaf. */
  lemma SecondCall(s: Lists, w: seq<int>, c: nat)
    requires SortedWeights(w) && |w| == 3 && w[0] + w[1] <= w[2] && Total(w) <= INT_MAX
    requires Half(s, w, c) && forall j :: 0 <= j < c ==> Done(s, w, j)
    ensures SumsFit(s, w, c, true)
    ensures var r := Advance(s, w, c, true); SameFrom(s, r, c + 1) && forall j :: 0 <= j <= c ==> Done(r, w, j)
  {
    hide Advance, SumsFit, Total;
    ThreeTotal(w);
    if c == 0 {
      AdvanceFirst(s, w, true);
      FirstFits(s, w, true);
    } else {
      assert Done(s, w, c - 1);
      AdvanceNext(s, w, c, true);
      SumsFitNext(s, w, c, true);
      var r := Advance(s, w, c, true);
      forall j | 0 <= j <= c
        ensures Done(r, w, j)
      {
        if j < c {
          assert Done(s, w, j);
        }
      }
    }
  }

  lemma ThreeTotal(w: seq<int>)
    requires |w| == 3
    ensures Total(w) == w[0] + w[1] + w[2]
  {
    assert w[..2][..1] == w[..1] && w[..1][..0] == [];
    assert Total(w[..2]) == Total(w[..1]) + w[1] && Total(w[..1]) == w[0];
  }

  /** The two calls on the last list for three leaves. */
  lemma ThreeFit(w: seq<int>, lists: nat)
    requires SortedWeights(w) && |w| == 3 && lists >= 1 && Total(w) <= INT_MAX
    ensures RunFits(w, lists, 4)
  {
    hide Advance, SumsFit, Total, Initial;
    ThreeTotal(w);
    var top := lists - 1;
    var s := Build(w, lists, 2);
    InitialNew(w, lists);
    var r := Build(w, lists, 3);
    assert r == Advance(s, w, top, true);
    if top == 0 {
      FirstFits(s, w, true);
      FirstFits(r, w, false);
    } else if w[0] + w[1] <= w[2] {
      FirstCall(s, w, top);
      assert Done(r, w, top - 1);
      SumsFitNext(r, w, top, false);
    } else {
      assert New(s, w, top) && New(s, w, top - 1);
      AdvanceNext(s, w, top, true);
      SumsFitNext(s, w, top, true);
      SumsFitNext(r, w, top, false);
    }
  }

  lemma InitialNew(w: seq<int>, lists: nat)
    requires |w| == 3
    ensures Build(w, 1, 2) == Initial(w, 1) && forall j :: 0 <= j < lists ==> New(Initial(w, lists), w, j)
    ensures lists >= 1 ==> Build(w, lists, 2) == Initial(w, lists)
  {
  }

  /**
   * Boundary package-merge never overflows an int for weights that sum to at
   * most 262145 and lengths up to 15: a block of deflate has at most 262144
   * symbols and its end.
   */
  lemma NoOverflow(w: seq<int>, lists: nat)
    requires SortedWeights(w) && Total(w) <= 262145 && 1 <= lists <= 15
    ensures RunFits(w, lists, 2 * |w| - 2)
  {
    hide SumsFit, Limited, Build, SortedWeights, Total;
    WeightsAtLeastTwo(w);
    if |w| == 3 {
      ThreeFit(w, lists);
    } else if |w| >= 4 {
      TwoOfAll(w);
      forall i | 2 <= i < 2 * |w| - 2
        ensures SumsFit(Build(w, lists, i), w, lists - 1, i + 1 < 2 * |w| - 2)
      {
        BuildLimited(w, lists, i);
        LimitedFits(Build(w, lists, i), w, lists - 1, i + 1 < 2 * |w| - 2);
      }
    }
  }

  lemma WeightsAtLeastTwo(w: seq<int>)
    requires SortedWeights(w)
    ensures |w| >= 2
  {
  }

  lemma LimitAt14(w: seq<int>)
    requires |w| >= 2
    ensures Limit(w, 14) == 8192 * Largest(w)
  {
    assert Pow2(5) == 32;
    assert Pow2(9) == 512;
    assert Pow2(13) == 8192;
  }
}
