/**
 * Package-merge is optimal: the lists it stands for in full, the proof that
 * their lightest entries bound the cost of every length-limited code from
 * below, and the proof that the boundary form computes just those entries.
 */
module PackageOptimal {
  import opened Powers
  import opened PackageMerge

  // ----- The lists in full -----

  /** The number of leaves among the first k entries of list c. */
  function Leaves(w: seq<int>, c: nat, k: nat): (a: nat)
    ensures a <= k && a <= |w|
    decreases c, k, 0
  {
    if k == 0 then 0
    else if LeafNext(w, c, k - 1) then Leaves(w, c, k - 1) + 1
    else Leaves(w, c, k - 1)
  }

  /** Entry k of list c is a leaf: the next package is heavier, or there is none. */
  predicate LeafNext(w: seq<int>, c: nat, k: nat)
    decreases c, k, 1
  {
    var a := Leaves(w, c, k);
    a < |w| && (c == 0 || 2 * (k - a) + 1 >= Capacity(|w|, c - 1) || Pack(w, c - 1, k - a) > w[a])
  }

  /** The weight of entry k of list c. */
  function Item(w: seq<int>, c: nat, k: nat): int
    decreases c, k, 2
  {
    var a := Leaves(w, c, k);
    if LeafNext(w, c, k) then w[a] else if c == 0 then 0 else Pack(w, c - 1, k - a)
  }

  /** The weight of the package of entries 2q and 2q + 1 of list c. */
  function Pack(w: seq<int>, c: nat, q: nat): int
    decreases c, 2 * q + 1, 3
  {
    Item(w, c, 2 * q) + Item(w, c, 2 * q + 1)
  }

  function ItemSum(w: seq<int>, c: nat, k: nat): int {
    if k == 0 then 0 else ItemSum(w, c, k - 1) + Item(w, c, k - 1)
  }

  /** The a lightest leaves together. */
  function Prefix(w: seq<int>, a: nat): int
    requires a <= |w|
  {
    if a == 0 then 0 else Prefix(w, a - 1) + w[a - 1]
  }

  lemma LeavesStep(w: seq<int>, c: nat, k: nat)
    ensures Leaves(w, c, k + 1) == Leaves(w, c, k) + if LeafNext(w, c, k) then 1 else 0
  {
    hide LeafNext;
  }

  lemma ItemIs(w: seq<int>, c: nat, k: nat)
    ensures var a := Leaves(w, c, k);
            && (LeafNext(w, c, k) ==> a < |w| && Item(w, c, k) == w[a])
            && (LeafNext(w, c, k) <==>
                  a < |w| && (c == 0 || 2 * (k - a) + 1 >= Capacity(|w|, c - 1) || Pack(w, c - 1, k - a) > w[a]))
            && (!LeafNext(w, c, k) && c > 0 ==> Item(w, c, k) == Pack(w, c - 1, k - a))
  {
    hide Leaves, Pack, Capacity;
  }

  /** No more packages are used than there are. */
  lemma {:induction false} PackagesExist(w: seq<int>, c: nat, k: nat)
    requires k <= Capacity(|w|, c)
    ensures c == 0 ==> Leaves(w, c, k) == k
    ensures c > 0 ==> 2 * (k - Leaves(w, c, k)) <= Capacity(|w|, c - 1)
    ensures k < Capacity(|w|, c) && !LeafNext(w, c, k) ==>
              c > 0 && 2 * (k - Leaves(w, c, k)) + 1 < Capacity(|w|, c - 1)
  {
    hide Leaves, LeafNext, Pack;
    if k > 0 {
      PackagesExist(w, c, k - 1);
      LeavesStep(w, c, k - 1);
    } else {
      assert Leaves(w, c, 0) == 0 by { LeavesZero(w, c); }
    }
    ItemIs(w, c, k);
  }

  lemma LeavesZero(w: seq<int>, c: nat)
    ensures Leaves(w, c, 0) == 0
  {
  }

  lemma PackIs(w: seq<int>, c: nat, q: nat)
    ensures Pack(w, c, q) == Item(w, c, 2 * q) + Item(w, c, 2 * q + 1)
    ensures ItemSum(w, c, 2 * q + 2) == ItemSum(w, c, 2 * q) + Pack(w, c, q)
  {
    hide Item;
  }

  /** The first k entries are some leaves and some packages. */
  lemma {:induction false} SumSplits(w: seq<int>, c: nat, k: nat)
    requires k <= Capacity(|w|, c)
    ensures var a := Leaves(w, c, k);
            ItemSum(w, c, k) == Prefix(w, a) + if c == 0 then 0 else ItemSum(w, c - 1, 2 * (k - a))
  {
    hide Leaves, LeafNext, Item, Capacity;
    if k > 0 {
      SumSplits(w, c, k - 1);
      LeavesStep(w, c, k - 1);
      PackagesExist(w, c, k - 1);
      ItemIs(w, c, k - 1);
      if c > 0 {
        PackIs(w, c - 1, k - 1 - Leaves(w, c, k - 1));
      }
    } else {
      LeavesZero(w, c);
    }
  }

  // ----- The lists are sorted -----

  predicate Ascending(w: seq<int>) {
    (forall i :: 0 <= i < |w| ==> w[i] >= 0) && forall i, j :: 0 <= i <= j < |w| ==> w[i] <= w[j]
  }

  lemma {:induction false} ItemsAscend(w: seq<int>, c: nat, i: nat, j: nat)
    requires Ascending(w) && i <= j < Capacity(|w|, c)
    ensures 0 <= Item(w, c, i) <= Item(w, c, j)
    decreases c, j
  {
    hide Leaves, LeafNext, Item, Pack, Capacity;
    if i < j {
      ItemsAscend(w, c, i, j - 1);
      NextItem(w, c, j - 1);
    } else if i > 0 {
      ItemsAscend(w, c, i - 1, i - 1);
      NextItem(w, c, i - 1);
    } else {
      PackagesExist(w, c, 0);
      ItemIs(w, c, 0);
      LeavesZero(w, c);
      if c > 0 && !LeafNext(w, c, 0) {
        ItemsAscend(w, c - 1, 0, 0);
        ItemsAscend(w, c - 1, 1, 1);
        PackIs(w, c - 1, 0);
      }
    }
  }

  /** An entry is no heavier than the next one. */
  lemma {:induction false} NextItem(w: seq<int>, c: nat, k: nat)
    requires Ascending(w) && k + 1 < Capacity(|w|, c)
    ensures Item(w, c, k) <= Item(w, c, k + 1)
    decreases c, k
  {
    hide Leaves, LeafNext, Item, Pack, Capacity;
    PackagesExist(w, c, k);
    PackagesExist(w, c, k + 1);
    LeavesStep(w, c, k);
    ItemIs(w, c, k);
    ItemIs(w, c, k + 1);
    if !LeafNext(w, c, k) && !LeafNext(w, c, k + 1) {
      PacksAscend(w, c - 1, k - Leaves(w, c, k), k - Leaves(w, c, k) + 1);
    }
  }

  lemma {:induction false} PacksAscend(w: seq<int>, c: nat, p: nat, q: nat)
    requires Ascending(w) && p <= q && 2 * q + 1 < Capacity(|w|, c)
    ensures 0 <= Pack(w, c, p) <= Pack(w, c, q)
    decreases c, 2 * q + 2
  {
    hide Item, Capacity;
    ItemsAscend(w, c, 2 * p, 2 * q);
    ItemsAscend(w, c, 2 * p + 1, 2 * q + 1);
  }

  /** Any a leaves and q packages weigh at least as much as the first a + q entries. */
  lemma {:induction false} MergeLightest(w: seq<int>, c: nat, a: nat, q: nat)
    requires Ascending(w) && c > 0 && a <= |w| && 2 * q <= Capacity(|w|, c - 1)
    ensures a + q <= Capacity(|w|, c)
    ensures Prefix(w, a) + ItemSum(w, c - 1, 2 * q) >= ItemSum(w, c, a + q)
    decreases a + q
  {
    hide Leaves, LeafNext, Item, Pack, Capacity, ItemSum, Prefix, Ascending;
    CapacityIs(|w|, c);
    if a + q == 0 {
      NoItems(w, c);
      NoItems(w, c - 1);
    } else {
      var k := a + q - 1;
      PackagesExist(w, c, k);
      ItemIs(w, c, k);
      OneMoreItem(w, c, k);
      if a > Leaves(w, c, k) {
        MergeLightest(w, c, a - 1, q);
        OneMoreLeaf(w, a);
        LeafWorth(w, c, k, a);
      } else {
        MergeLightest(w, c, a, q - 1);
        PackIs(w, c - 1, q - 1);
        PackWorth(w, c, k, q);
      }
    }
  }

  lemma CapacityIs(n: nat, c: nat)
    requires c > 0
    ensures Capacity(n, c) == n + Capacity(n, c - 1) / 2
  {
  }

  lemma NoItems(w: seq<int>, c: nat)
    ensures ItemSum(w, c, 0) == 0 && Prefix(w, 0) == 0
  {
  }

  lemma OneMoreItem(w: seq<int>, c: nat, k: nat)
    ensures ItemSum(w, c, k + 1) == ItemSum(w, c, k) + Item(w, c, k)
  {
    hide Item;
  }

  lemma OneMoreLeaf(w: seq<int>, a: nat)
    requires 0 < a <= |w|
    ensures Prefix(w, a) == Prefix(w, a - 1) + w[a - 1]
  {
  }

  /** A leaf beyond those used is no lighter than the next entry. */
  lemma LeafWorth(w: seq<int>, c: nat, k: nat, a: nat)
    requires Ascending(w) && k < Capacity(|w|, c) && c > 0 && Leaves(w, c, k) < a <= |w|
    ensures Item(w, c, k) <= w[a - 1]
  {
    hide Leaves, LeafNext, Item, Pack, Capacity;
    ItemIs(w, c, k);
    PackagesExist(w, c, k);
  }

  /** So is a package beyond those used. */
  lemma PackWorth(w: seq<int>, c: nat, k: nat, q: nat)
    requires Ascending(w) && k < Capacity(|w|, c) && c > 0 && k - Leaves(w, c, k) < q
    requires 2 * q <= Capacity(|w|, c - 1)
    ensures Item(w, c, k) <= Pack(w, c - 1, q - 1)
  {
    hide Leaves, LeafNext, Item, Pack, Capacity;
    ItemIs(w, c, k);
    PackagesExist(w, c, k);
    PacksAscend(w, c - 1, k - Leaves(w, c, k), q - 1);
  }

  // ----- What any code costs -----

  /** How many entries of list c are reached by s[j] entries of their own for every list j up to c. */
  function Reach(s: seq<nat>, c: nat): nat
    requires c < |s|
  {
    s[c] + if c == 0 then 0 else Reach(s, c - 1) / 2
  }

  /** The least they can weigh. */
  function Least(w: seq<int>, s: seq<nat>, c: nat): int
    requires c < |s| && forall j :: 0 <= j < |s| ==> s[j] <= |w|
  {
    Prefix(w, s[c]) + if c == 0 then 0 else Least(w, s, c - 1)
  }

  lemma {:induction false} PrefixGrows(w: seq<int>, a: nat, b: nat)
    requires Ascending(w) && a <= b <= |w|
    ensures 0 <= Prefix(w, a) <= Prefix(w, b)
  {
    if a < b {
      PrefixGrows(w, a, b - 1);
    } else if a > 0 {
      PrefixGrows(w, a - 1, a - 1);
    }
  }

  /** No choice that reaches k entries weighs less than the first k entries. */
  lemma {:induction false} Lightest(w: seq<int>, s: seq<nat>, c: nat, k: nat)
    requires Ascending(w) && c < |s| && (forall j :: 0 <= j < |s| ==> s[j] <= |w|) && k <= Reach(s, c)
    ensures k <= Capacity(|w|, c) && 0 <= Least(w, s, c) && ItemSum(w, c, k) <= Least(w, s, c)
    decreases c
  {
    hide Item, Ascending, Prefix, ItemSum;
    PrefixGrows(w, s[c], s[c]);
    if c == 0 {
      PrefixGrows(w, k, s[0]);
      FirstList(w, k);
    } else {
      CapacityIs(|w|, c);
      var q := if k > s[c] then k - s[c] else 0;
      Lightest(w, s, c - 1, 2 * q);
      PrefixGrows(w, k - q, s[c]);
      MergeLightest(w, c, k - q, q);
    }
  }

  lemma FirstList(w: seq<int>, k: nat)
    requires k <= |w|
    ensures ItemSum(w, 0, k) == Prefix(w, k)
  {
    hide Item, Leaves, Prefix, ItemSum;
    SumSplits(w, 0, k);
    PackagesExist(w, 0, k);
  }

  // ----- Code lengths as choices -----

  /** How many of the first n leaves have at least length l, and what they weigh. */
  function LongCount(m: seq<nat>, n: nat, l: nat): (r: nat)
    requires n <= |m|
    ensures r <= n
  {
    if n == 0 then 0 else LongCount(m, n - 1, l) + if m[n - 1] >= l then 1 else 0
  }

  function LongSum(w: seq<int>, m: seq<nat>, n: nat, l: nat): int
    requires n <= |m| && n <= |w|
  {
    if n == 0 then 0 else LongSum(w, m, n - 1, l) + if m[n - 1] >= l then w[n - 1] else 0
  }

  lemma {:induction false} LongAtLeast(w: seq<int>, m: seq<nat>, n: nat, l: nat)
    requires Ascending(w) && n <= |m| && n <= |w|
    ensures LongSum(w, m, n, l) >= Prefix(w, LongCount(m, n, l))
  {
    if n > 0 {
      LongAtLeast(w, m, n - 1, l);
    }
  }

  /** A code of length l is an entry of its own in each of the last l lists. */
  function Choice(m: seq<nat>, bits: nat): (s: seq<nat>)
    ensures |s| == bits && forall c :: 0 <= c < bits ==> s[c] == LongCount(m, |m|, bits - c) <= |m|
  {
    seq(bits, c requires 0 <= c < bits => LongCount(m, |m|, bits - c))
  }

  function Cost(w: seq<int>, m: seq<nat>, n: nat): int
    requires n <= |m| && n <= |w|
  {
    if n == 0 then 0 else Cost(w, m, n - 1) + w[n - 1] * m[n - 1]
  }

  /** Kraft's sum in units of 2^-bits. */
  function KraftSum(m: seq<nat>, n: nat, bits: nat): nat
    requires n <= |m| && forall i :: 0 <= i < |m| ==> m[i] <= bits
  {
    if n == 0 then 0 else KraftSum(m, n - 1, bits) + Pow2(bits - m[n - 1])
  }

  /** Lengths that a code within the limit can have: Kraft's inequality. */
  ghost predicate Admissible(m: seq<nat>, bits: nat) {
    (forall i :: 0 <= i < |m| ==> 1 <= m[i] <= bits) && KraftSum(m, |m|, bits) <= Pow2(bits)
  }

  /** In how many of the lists up to c a code of length l is an entry. */
  function Lists(l: nat, c: nat, bits: nat): nat
    requires c < bits
  {
    if l > bits - 1 - c then l - (bits - 1 - c) else 0
  }

  /** The weights chosen in the lists up to c. */
  function LevelSum(w: seq<int>, m: seq<nat>, n: nat, c: nat, bits: nat): int
    requires n <= |m| && n <= |w| && c < bits
  {
    LongSum(w, m, n, bits - c) + if c == 0 then 0 else LevelSum(w, m, n, c - 1, bits)
  }

  lemma {:induction false} LevelStep(w: seq<int>, m: seq<nat>, n: nat, c: nat, bits: nat)
    requires n < |m| && n < |w| && c < bits && m[n] <= bits
    ensures LevelSum(w, m, n + 1, c, bits) == LevelSum(w, m, n, c, bits) + w[n] * Lists(m[n], c, bits)
  {
    if c > 0 {
      LevelStep(w, m, n, c - 1, bits);
      OneMoreTime(w[n], Lists(m[n], c - 1, bits));
    }
  }

  lemma OneMoreTime(x: int, k: nat)
    ensures x * (k + 1) == x * k + x
  {
  }

  /** All lists together weigh what the code costs. */
  lemma {:induction false} LevelsCost(w: seq<int>, m: seq<nat>, n: nat, bits: nat)
    requires n <= |m| && n <= |w| && bits >= 1 && forall i :: 0 <= i < |m| ==> m[i] <= bits
    ensures LevelSum(w, m, n, bits - 1, bits) == Cost(w, m, n)
  {
    if n > 0 {
      LevelsCost(w, m, n - 1, bits);
      LevelStep(w, m, n - 1, bits - 1, bits);
    } else {
      NoLevels(w, m, bits - 1, bits);
    }
  }

  lemma {:induction false} NoLevels(w: seq<int>, m: seq<nat>, c: nat, bits: nat)
    requires c < bits
    ensures LevelSum(w, m, 0, c, bits) == 0
  {
    if c > 0 {
      NoLevels(w, m, c - 1, bits);
    }
  }

  lemma {:induction false} LevelsAtLeast(w: seq<int>, m: seq<nat>, c: nat, bits: nat)
    requires Ascending(w) && |m| == |w| && c < bits
    ensures LevelSum(w, m, |m|, c, bits) >= Least(w, Choice(m, bits), c)
  {
    hide Choice, Prefix, LongSum;
    LongAtLeast(w, m, |m|, bits - c);
    if c > 0 {
      LevelsAtLeast(w, m, c - 1, bits);
    }
  }

  // ----- How far a code reaches -----

  /** The width of the choice in the lists up to c, in units of the first list's entries. */
  function Width(m: seq<nat>, n: nat, c: nat, bits: nat): nat
    requires n <= |m| && c < bits
  {
    LongCount(m, n, bits - c) * Pow2(c) + if c == 0 then 0 else Width(m, n, c - 1, bits)
  }

  lemma {:induction false} WidthStep(m: seq<nat>, n: nat, c: nat, bits: nat)
    requires n < |m| && c < bits && m[n] <= bits
    ensures Width(m, n + 1, c, bits) == Width(m, n, c, bits) +
            if m[n] >= bits - c then Pow2(c + 1) - Pow2(bits - m[n]) else 0
  {
    hide Width, Pow2;
    WidthIs(m, n, c, bits);
    WidthIs(m, n + 1, c, bits);
    Pow2Double(c + 1);
    if c > 0 {
      WidthStep(m, n, c - 1, bits);
    }
  }

  lemma WidthIs(m: seq<nat>, n: nat, c: nat, bits: nat)
    requires n <= |m| && c < bits
    ensures var below := if c == 0 then 0 else Width(m, n, c - 1, bits);
            && Width(m, n, c, bits) == LongCount(m, n, bits - c) * Pow2(c) + below
            && (n > 0 ==> Width(m, n, c, bits) == LongCount(m, n - 1, bits - c) * Pow2(c) + below +
                            if m[n - 1] >= bits - c then Pow2(c) else 0)
  {
    hide Pow2;
    if n > 0 {
      OneMoreTime(Pow2(c), LongCount(m, n - 1, bits - c));
    }
  }

  lemma {:induction false} NoWidth(m: seq<nat>, c: nat, bits: nat)
    requires c < bits
    ensures Width(m, 0, c, bits) == 0
  {
    if c > 0 {
      NoWidth(m, c - 1, bits);
    }
  }

  /** What Kraft's sum leaves. */
  lemma {:induction false} WidthKraft(m: seq<nat>, n: nat, bits: nat)
    requires n <= |m| && bits >= 1 && forall i :: 0 <= i < |m| ==> 1 <= m[i] <= bits
    ensures Width(m, n, bits - 1, bits) + KraftSum(m, n, bits) == n * Pow2(bits)
  {
    hide Pow2, Width;
    if n > 0 {
      WidthKraft(m, n - 1, bits);
      WidthStep(m, n - 1, bits - 1, bits);
      OneMoreTime(Pow2(bits), n - 1);
    } else {
      NoWidth(m, bits - 1, bits);
    }
  }

  /** Halving and rounding down at every list loses less than one entry. */
  lemma {:induction false} ReachWidth(m: seq<nat>, c: nat, bits: nat)
    requires c < bits
    ensures Width(m, |m|, c, bits) < Pow2(c) * (Reach(Choice(m, bits), c) + 1)
  {
    hide Choice, LongCount;
    var s := Choice(m, bits);
    if c > 0 {
      ReachWidth(m, c - 1, bits);
      RoundedDown(Pow2(c - 1), s[c], Reach(s, c - 1), Width(m, |m|, c - 1, bits));
    }
  }

  lemma RoundedDown(p: nat, s: nat, r: nat, x: nat)
    requires x < p * (r + 1)
    ensures s * (2 * p) + x < 2 * p * (s + r / 2 + 1)
  {
    var h := r / 2;
    assert r <= 2 * h + 1;
    MulMonotone(p, r + 1, 2 * h + 2);
    assert p * (2 * h + 2) == 2 * p * (h + 1);
    assert 2 * p * (s + h + 1) == s * (2 * p) + 2 * p * (h + 1);
  }

  /** A code within Kraft's inequality reaches the 2n - 2 entries that package-merge takes. */
  lemma CodeReaches(m: seq<nat>, bits: nat)
    requires |m| >= 1 && bits >= 1 && Admissible(m, bits)
    ensures Reach(Choice(m, bits), bits - 1) >= 2 * |m| - 2
  {
    hide Choice, Reach, Width, KraftSum;
    var n, p, r := |m|, Pow2(bits - 1), Reach(Choice(m, bits), bits - 1);
    WidthKraft(m, n, bits);
    ReachWidth(m, bits - 1, bits);
    assert Pow2(bits) == 2 * p;
    EnoughWidth(p, n, r, Width(m, n, bits - 1, bits));
  }

  lemma EnoughWidth(p: nat, n: nat, r: nat, x: nat)
    requires n >= 1 && x >= n * (2 * p) - 2 * p && x < p * (r + 1)
    ensures r >= 2 * n - 2
  {
    assert p * (2 * n - 2) == n * (2 * p) - 2 * p;
    if r + 1 <= 2 * n - 2 {
      MulMonotone(p, r + 1, 2 * n - 2);
    }
  }

  /** No code with lengths up to `bits` costs less than the first 2n - 2 entries of the last list. */
  lemma CodesCostMore(w: seq<int>, m: seq<nat>, bits: nat)
    requires Ascending(w) && |m| == |w| >= 1 && bits >= 1 && Admissible(m, bits)
    ensures Cost(w, m, |m|) >= ItemSum(w, bits - 1, 2 * |w| - 2)
  {
    hide Choice, Reach, KraftSum, Ascending, ItemSum, Cost, LevelSum, Least;
    CodeReaches(m, bits);
    LevelsCost(w, m, |m|, bits);
    LevelsAtLeast(w, m, bits - 1, bits);
    Lightest(w, Choice(m, bits), bits - 1, 2 * |w| - 2);
  }
}
