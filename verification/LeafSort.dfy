/** bpmnode_sort: the bottom-up stable merge sort of the leaves of package-merge. */
module LeafSort {

  datatype Leaf = Leaf(weight: int, index: nat)

  /** Order by weight; leaves of equal weight stay in symbol order. */
  predicate Before(x: Leaf, y: Leaf) {
    x.weight < y.weight || (x.weight == y.weight && x.index < y.index)
  }

  predicate Sorted(s: seq<Leaf>) {
    forall i, j :: 0 <= i < j < |s| ==> Before(s[i], s[j])
  }

  /** Every symbol in x comes before every symbol in y. */
  predicate Separated(x: seq<Leaf>, y: seq<Leaf>) {
    forall i, j :: 0 <= i < |x| && 0 <= j < |y| ==> x[i].index < y[j].index
  }

  /** The merge of two runs; the left one wins ties. */
  function Merge(x: seq<Leaf>, y: seq<Leaf>): (r: seq<Leaf>)
    ensures |r| == |x| + |y|
  {
    if y == [] then x
    else if x != [] && x[0].weight <= y[0].weight then [x[0]] + Merge(x[1..], y)
    else [y[0]] + Merge(x, y[1..])
  }

  lemma MergeStep(x: seq<Leaf>, y: seq<Leaf>)
    ensures y == [] ==> Merge(x, y) == x
    ensures y != [] ==>
              Merge(x, y) == if x != [] && x[0].weight <= y[0].weight then [x[0]] + Merge(x[1..], y)
                             else [y[0]] + Merge(x, y[1..])
  {
  }

  lemma FirstOf(x: seq<Leaf>, rest: seq<Leaf>)
    requires x != []
    ensures multiset(x) == multiset([x[0]]) + multiset(x[1..])
    ensures multiset([x[0]] + rest) == multiset([x[0]]) + multiset(rest)
  {
    assert x == [x[0]] + x[1..];
  }

  lemma {:induction false} MergeContents(x: seq<Leaf>, y: seq<Leaf>)
    ensures multiset(Merge(x, y)) == multiset(x) + multiset(y)
  {
    hide Merge;
    MergeStep(x, y);
    if y == [] {
    } else if x != [] && x[0].weight <= y[0].weight {
      MergeContents(x[1..], y);
      FirstOf(x, Merge(x[1..], y));
    } else {
      MergeContents(x, y[1..]);
      FirstOf(y, Merge(x, y[1..]));
    }
  }

  lemma {:induction false} MergeSorted(x: seq<Leaf>, y: seq<Leaf>)
    requires Sorted(x) && Sorted(y) && Separated(x, y)
    ensures Sorted(Merge(x, y))
  {
    if y == [] {
    } else if x != [] && x[0].weight <= y[0].weight {
      MergeSorted(x[1..], y);
      MergeContents(x[1..], y);
      HeadFirst(x[0], Merge(x[1..], y), x[1..], y);
    } else {
      MergeSorted(x, y[1..]);
      MergeContents(x, y[1..]);
      HeadFirst(y[0], Merge(x, y[1..]), x, y[1..]);
    }
  }

  lemma HeadFirst(h: Leaf, r: seq<Leaf>, x: seq<Leaf>, y: seq<Leaf>)
    requires multiset(r) == multiset(x) + multiset(y) && Sorted(r)
    requires forall l :: l in x || l in y ==> Before(h, l)
    ensures Sorted([h] + r)
  {
    forall j | 0 <= j < |r|
      ensures Before(h, r[j])
    {
      assert r[j] in multiset(r);
    }
  }

  /** Runs of the given width, each sorted, with symbols increasing from run to run. */
  predicate Runs(s: seq<Leaf>, width: nat)
    requires width > 0
    decreases |s|
  {
    if |s| <= width then Sorted(s)
    else Sorted(s[..width]) && Separated(s[..width], s[width..]) && Runs(s[width..], width)
  }

  function Min(a: nat, b: nat): nat {
    if a < b then a else b
  }

  /** One pass of the outer loop: neighbouring runs are merged. */
  function Pass(s: seq<Leaf>, width: nat): (r: seq<Leaf>)
    requires width > 0
    ensures |r| == |s|
    decreases |s|
  {
    var q := Min(width, |s|);
    var e := Min(2 * width, |s|);
    if e == 0 then [] else Merge(s[..q], s[q..e]) + Pass(s[e..], width)
  }

  lemma {:induction false} PassContents(s: seq<Leaf>, width: nat)
    requires width > 0
    ensures multiset(Pass(s, width)) == multiset(s)
    decreases |s|
  {
    var q := Min(width, |s|);
    var e := Min(2 * width, |s|);
    if e > 0 {
      PassContents(s[e..], width);
      MergeContents(s[..q], s[q..e]);
      assert s == s[..q] + s[q..e] + s[e..];
    }
  }

  lemma {:induction false} PassRuns(s: seq<Leaf>, width: nat)
    requires width > 0 && Runs(s, width)
    ensures Runs(Pass(s, width), 2 * width)
    decreases |s|
  {
    hide Merge, Pass, Runs, Sorted, Separated;
    RunsAre(s, width);
    if |s| <= width {
      ShortPass(s, width);
      RunsAre(s, 2 * width);
    } else {
      var e := Min(2 * width, |s|);
      RunPair(s, width);
      PassUnfold(s, width, e, width);
      PassRuns(s[e..], width);
      PassPair(s, width, e, Merge(s[..width], s[width..e]), Pass(s[e..], width));
    }
  }

  lemma RunsAre(s: seq<Leaf>, width: nat)
    requires width > 0
    ensures |s| <= width ==> (Runs(s, width) <==> Sorted(s))
    ensures |s| > width ==>
              (Runs(s, width) <==> Sorted(s[..width]) && Separated(s[..width], s[width..]) && Runs(s[width..], width))
  {
  }

  lemma PassPair(s: seq<Leaf>, width: nat, e: nat, m: seq<Leaf>, rest: seq<Leaf>)
    requires 0 < width < |s| && e == Min(2 * width, |s|)
    requires m == Merge(s[..width], s[width..e]) && rest == Pass(s[e..], width) && Runs(rest, 2 * width)
    requires Sorted(s[..width]) && Sorted(s[width..e]) && Separated(s[..width], s[width..e])
    requires Separated(s[..e], s[e..])
    ensures Runs(m + rest, 2 * width)
  {
    hide Merge, Pass, Runs, Sorted, Separated;
    MergeSorted(s[..width], s[width..e]);
    RunsAre(m + rest, 2 * width);
    if |s| <= 2 * width {
      assert m + rest == m;
    } else {
      MergeContents(s[..width], s[width..e]);
      PassContents(s[e..], width);
      assert (m + rest)[..2 * width] == m && (m + rest)[2 * width..] == rest;
      assert s[..e] == s[..width] + s[width..e];
      SeparatedByContents(s[..e], s[e..], m, rest, s[..width], s[width..e]);
    }
  }

  lemma ShortPass(s: seq<Leaf>, width: nat)
    requires 0 < width && |s| <= width && Sorted(s)
    ensures Pass(s, width) == s
  {
    if s != [] {
      assert s[..|s|] == s && s[|s|..] == [];
    }
  }

  /** The first two runs and what follows them. */
  lemma RunPair(s: seq<Leaf>, width: nat)
    requires 0 < width < |s| && Runs(s, width)
    ensures var e := Min(2 * width, |s|);
            Sorted(s[..width]) && Sorted(s[width..e]) && Separated(s[..width], s[width..e])
            && Separated(s[..e], s[e..]) && Runs(s[e..], width)
  {
    var e := Min(2 * width, |s|);
    var t := s[width..];
    if |t| <= width {
      assert e == |s| && s[width..e] == t;
    } else {
      assert t[..width] == s[width..e] && t[width..] == s[e..];
    }
    forall i, j | 0 <= i < |s[..e]| && 0 <= j < |s[e..]|
      ensures s[..e][i].index < s[e..][j].index
    {
      if i < width {
        assert s[..width][i] == s[..e][i] && s[width..][e - width + j] == s[e..][j];
      } else {
        assert t[..width][i - width] == s[..e][i];
      }
    }
  }

  lemma SeparatedByContents(x: seq<Leaf>, y: seq<Leaf>, x': seq<Leaf>, y': seq<Leaf>, a: seq<Leaf>, b: seq<Leaf>)
    requires x == a + b && multiset(x') == multiset(a) + multiset(b) && multiset(y') == multiset(y)
    requires Separated(x, y)
    ensures Separated(x', y')
  {
    forall i, j | 0 <= i < |x'| && 0 <= j < |y'|
      ensures x'[i].index < y'[j].index
    {
      assert x'[i] in multiset(x') && y'[j] in multiset(y');
      assert x'[i] in x && y'[j] in y;
    }
  }

  /** The inner loop: merges a[p..q] and a[q..r] into b[p..r]. */
  method MergeRuns(a: array<Leaf>, b: array<Leaf>, p: nat, q: nat, r: nat)
    requires a != b && a.Length == b.Length && p <= q <= r <= a.Length
    modifies b
    ensures forall m :: 0 <= m < p ==> b[m] == old(b[m])
    ensures forall m :: p <= m < r ==> b[m] == Merge(a[p..q], a[q..r])[m - p]
  {
    hide Merge;
    var i, j := p, q;
    ghost var want := Merge(a[p..q], a[q..r]);
    for k := p to r
      invariant p <= i <= q <= j <= r && k - p == (i - p) + (j - q)
      invariant forall m :: 0 <= m < p ==> b[m] == old(b[m])
      invariant want[k - p..] == Merge(a[i..q], a[j..r])
      invariant forall m :: p <= m < k ==> b[m] == want[m - p]
    {
      if i < q && (j >= r || a[i].weight <= a[j].weight) {
        MergeLeft(a[i..q], a[j..r], want, k - p);
        assert a[i..q][1..] == a[i + 1..q];
        b[k] := a[i];
        i := i + 1;
      } else {
        MergeRight(a[i..q], a[j..r], want, k - p);
        assert a[j..r][1..] == a[j + 1..r];
        b[k] := a[j];
        j := j + 1;
      }
    }
  }

  lemma MergeLeft(x: seq<Leaf>, y: seq<Leaf>, want: seq<Leaf>, k: nat)
    requires x != [] && (y == [] || x[0].weight <= y[0].weight)
    requires k < |want| && want[k..] == Merge(x, y)
    ensures want[k] == x[0] && want[k + 1..] == Merge(x[1..], y)
  {
    assert want[k..][1..] == want[k + 1..];
  }

  lemma MergeRight(x: seq<Leaf>, y: seq<Leaf>, want: seq<Leaf>, k: nat)
    requires y != [] && (x == [] || x[0].weight > y[0].weight)
    requires k < |want| && want[k..] == Merge(x, y)
    ensures want[k] == y[0] && want[k + 1..] == Merge(x, y[1..])
  {
    assert want[k..][1..] == want[k + 1..];
  }

  /** The middle loop: one pass from a to b. */
  method MergePass(a: array<Leaf>, b: array<Leaf>, width: nat)
    requires a != b && a.Length == b.Length && width > 0
    modifies b
    ensures b[..] == Pass(a[..], width)
  {
    var num := a.Length;
    var p := 0;
    ghost var want := Pass(a[..], width);
    assert a[0..] == a[..] && want[0..] == want;
    while p < num
      invariant 0 <= p <= num
      invariant want[p..] == Pass(a[p..], width)
      invariant forall m :: 0 <= m < p ==> b[m] == want[m]
    {
      var q := if p + width > num then num else p + width;
      var r := if p + 2 * width > num then num else p + 2 * width;
      PassStep(a[..], p, q, r, width, want);
      MergeRuns(a, b, p, q, r);
      p := r;
    }
  }

  lemma PassStep(s: seq<Leaf>, p: nat, q: nat, r: nat, width: nat, want: seq<Leaf>)
    requires width > 0 && p < |s| == |want|
    requires q == p + Min(width, |s| - p)
    requires r == p + Min(2 * width, |s| - p)
    requires want[p..] == Pass(s[p..], width)
    ensures want[r..] == Pass(s[r..], width)
    ensures forall m :: p <= m < r ==> want[m] == Merge(s[p..q], s[q..r])[m - p]
  {
    hide Merge, Pass;
    Slices(s, p, q, r);
    PassUnfold(s[p..], q - p, r - p, width);
    SplitPoint(want, p, r, Merge(s[p..q], s[q..r]), Pass(s[r..], width));
  }

  lemma PassUnfold(t: seq<Leaf>, q: nat, r: nat, width: nat)
    requires width > 0 && t != [] && q == Min(width, |t|) && r == Min(2 * width, |t|)
    ensures Pass(t, width) == Merge(t[..q], t[q..r]) + Pass(t[r..], width)
  {
  }

  lemma Slices<T>(s: seq<T>, p: nat, q: nat, r: nat)
    requires p <= q <= r <= |s|
    ensures s[p..][..q - p] == s[p..q] && s[p..][q - p..r - p] == s[q..r] && s[p..][r - p..] == s[r..]
  {
  }

  lemma SplitPoint<T>(s: seq<T>, p: nat, r: nat, x: seq<T>, y: seq<T>)
    requires p <= r <= |s| && |x| == r - p && s[p..] == x + y
    ensures s[r..] == y
    ensures forall m :: p <= m < r ==> s[m] == x[m - p]
  {
    assert s[p..][r - p..] == s[r..];
    forall m | p <= m < r
      ensures s[m] == x[m - p]
    {
      assert s[m] == s[p..][m - p];
    }
  }

  /** Stable: leaves of equal weight keep their symbol order. */
  method Sort(leaves: array<Leaf>)
    requires forall i, j :: 0 <= i < j < leaves.Length ==> leaves[i].index < leaves[j].index
    modifies leaves
    ensures Sorted(leaves[..])
    ensures multiset(leaves[..]) == multiset(old(leaves[..]))
  {
    var num := leaves.Length;
    var mem := new Leaf[num](_ => Leaf(0, 0));
    var inMem := false;
    var width := 1;
    ghost var runs := leaves[..];
    SingleRuns(runs);
    while width < num
      invariant width > 0
      invariant runs == if inMem then mem[..] else leaves[..]
      invariant multiset(runs) == multiset(old(leaves[..])) && Runs(runs, width)
      decreases num - width
    {
      PassRuns(runs, width);
      PassContents(runs, width);
      if inMem {
        MergePass(mem, leaves, width);
      } else {
        MergePass(leaves, mem, width);
      }
      runs := Pass(runs, width);
      inMem := !inMem;
      width := 2 * width;
    }
    if inMem {
      forall k | 0 <= k < num {
        leaves[k] := mem[k];
      }
      assert leaves[..] == runs;
    }
  }

  lemma {:induction false} SingleRuns(s: seq<Leaf>)
    requires forall i, j :: 0 <= i < j < |s| ==> s[i].index < s[j].index
    ensures Runs(s, 1)
  {
    if |s| > 1 {
      SingleRuns(s[1..]);
    }
  }
}
