/**
 * The node pool of boundary package-merge: chains live in a fixed array of
 * nodes, and when the free list runs out a mark-and-sweep pass collects every
 * node no lookahead chain reaches.
 */
module BpmPool {
  import opened Powers
  import opened PackageMerge

  /** A pool node; `tail` is the pool index of the next node, or -1. */
  datatype BpmNode = BpmNode(weight: int, index: nat, tail: int, inUse: bool)

  // ----- Chains stored in a pool -----

  /** Following the tails from `id` spells out the chain `ch`. */
  predicate Represents(mem: seq<BpmNode>, id: int, ch: Chain)
    decreases ch
  {
    match ch
    case Nil => id == -1
    case Node(w, i, t) =>
      0 <= id < |mem| && mem[id].weight == w && mem[id].index == i && Represents(mem, mem[id].tail, t)
  }

  /** The stored chain does not pass through node x. */
  predicate Avoids(mem: seq<BpmNode>, id: int, ch: Chain, x: int)
    requires Represents(mem, id, ch)
    decreases ch
  {
    ch.Node? ==> id != x && Avoids(mem, mem[id].tail, ch.tail, x)
  }

  predicate SameLinks(a: seq<BpmNode>, b: seq<BpmNode>) {
    |a| == |b| && forall i :: 0 <= i < |a| ==> b[i] == a[i].(inUse := b[i].inUse)
  }

  lemma {:induction false} SameLinksRepresent(a: seq<BpmNode>, b: seq<BpmNode>, id: int, ch: Chain)
    requires SameLinks(a, b) && Represents(a, id, ch)
    ensures Represents(b, id, ch)
    ensures forall x :: Avoids(a, id, ch, x) == Avoids(b, id, ch, x)
    decreases ch
  {
    if ch.Node? {
      SameLinksRepresent(a, b, a[id].tail, ch.tail);
    }
  }

  lemma {:induction false} WriteElsewhere(mem: seq<BpmNode>, id: int, ch: Chain, x: int, node: BpmNode)
    requires Represents(mem, id, ch) && 0 <= x < |mem| && Avoids(mem, id, ch, x)
    ensures Represents(mem[x := node], id, ch)
    ensures forall y :: Avoids(mem, id, ch, y) == Avoids(mem[x := node], id, ch, y)
    decreases ch
  {
    if ch.Node? {
      WriteElsewhere(mem, mem[id].tail, ch.tail, x, node);
    }
  }

  /** All lookahead chains are stored in the pool. */
  predicate Rooted(mem: seq<BpmNode>, r0: seq<int>, r1: seq<int>, s: Lists) {
    && |r0| == |r1| == |s.c0| == |s.c1|
    && forall i :: 0 <= i < |r0| ==> Represents(mem, r0[i], s.c0[i]) && Represents(mem, r1[i], s.c1[i])
  }

  /** No lookahead chain passes through node x. */
  predicate Dead(mem: seq<BpmNode>, r0: seq<int>, r1: seq<int>, s: Lists, x: int)
    requires Rooted(mem, r0, r1, s)
  {
    forall i :: 0 <= i < |r0| ==> Avoids(mem, r0[i], s.c0[i], x) && Avoids(mem, r1[i], s.c1[i], x)
  }

  /** The free list holds distinct nodes, none of them reachable. */
  predicate FreeOk(mem: seq<BpmNode>, r0: seq<int>, r1: seq<int>, s: Lists, free: seq<int>)
    requires Rooted(mem, r0, r1, s)
  {
    && (forall k :: 0 <= k < |free| ==> 0 <= free[k] < |mem| && Dead(mem, r0, r1, s, free[k]))
    && (forall j, k :: 0 <= j < k < |free| ==> free[j] != free[k])
  }

  /** Reading the chain from `id` is safe as long as only dead nodes are overwritten. */
  ghost predicate Protected(mem: seq<BpmNode>, r0: seq<int>, r1: seq<int>, s: Lists, id: int, ch: Chain)
    requires Rooted(mem, r0, r1, s)
  {
    && Represents(mem, id, ch)
    && forall x :: Dead(mem, r0, r1, s, x) ==> Avoids(mem, id, ch, x)
  }

  predicate DepthsOk(s: Lists) {
    && |s.c0| == |s.c1|
    && forall i :: 0 <= i < |s.c1| ==> Depth(s.c0[i]) <= i + 1 && Depth(s.c1[i]) <= i + 1
  }

  lemma RootedSameLinks(a: seq<BpmNode>, b: seq<BpmNode>, r0: seq<int>, r1: seq<int>, s: Lists)
    requires SameLinks(a, b) && Rooted(a, r0, r1, s)
    ensures Rooted(b, r0, r1, s)
    ensures forall x :: Dead(a, r0, r1, s, x) == Dead(b, r0, r1, s, x)
  {
    forall i | 0 <= i < |r0|
      ensures Represents(b, r0[i], s.c0[i]) && Represents(b, r1[i], s.c1[i])
      ensures forall x :: Avoids(a, r0[i], s.c0[i], x) == Avoids(b, r0[i], s.c0[i], x)
      ensures forall x :: Avoids(a, r1[i], s.c1[i], x) == Avoids(b, r1[i], s.c1[i], x)
    {
      SameLinksRepresent(a, b, r0[i], s.c0[i]);
      SameLinksRepresent(a, b, r1[i], s.c1[i]);
    }
  }

  lemma RootedWrite(mem: seq<BpmNode>, r0: seq<int>, r1: seq<int>, s: Lists, x: int, node: BpmNode)
    requires Rooted(mem, r0, r1, s) && 0 <= x < |mem| && Dead(mem, r0, r1, s, x)
    ensures Rooted(mem[x := node], r0, r1, s)
    ensures forall y :: Dead(mem, r0, r1, s, y) == Dead(mem[x := node], r0, r1, s, y)
  {
    var mem' := mem[x := node];
    forall i | 0 <= i < |r0|
      ensures Represents(mem', r0[i], s.c0[i]) && Represents(mem', r1[i], s.c1[i])
      ensures forall y :: Avoids(mem, r0[i], s.c0[i], y) == Avoids(mem', r0[i], s.c0[i], y)
      ensures forall y :: Avoids(mem, r1[i], s.c1[i], y) == Avoids(mem', r1[i], s.c1[i], y)
    {
      WriteElsewhere(mem, r0[i], s.c0[i], x, node);
      WriteElsewhere(mem, r1[i], s.c1[i], x, node);
    }
  }

  // ----- The pool itself -----

  class BpmLists {
    const memory: array<BpmNode>
    const freelist: array<int>
    const chains0: array<int>
    const chains1: array<int>
    var numfree: nat
    var nextfree: nat
    ghost var model: Lists

    ghost predicate Sized()
      reads this
    {
      && chains0 != chains1 && chains0 != freelist && chains1 != freelist
      && chains0.Length == chains1.Length >= 1
      && memory.Length == freelist.Length == 2 * chains0.Length * (chains0.Length + 1)
    }

    ghost predicate Valid()
      reads this, memory, freelist, chains0, chains1
    {
      && Sized()
      && Shaped(model) && DepthsOk(model)
      && Rooted(memory[..], chains0[..], chains1[..], model)
      && nextfree <= numfree <= freelist.Length
      && FreeOk(memory[..], chains0[..], chains1[..], model, freelist[nextfree..numfree])
    }

    /** Fills the pool's free list, creates the two lightest leaves and lets every list start with them. */
    constructor (lists: nat, w: seq<int>)
      requires lists >= 1 && |w| >= 2
      ensures Valid() && model == Initial(w, lists) && chains1.Length == lists
      ensures fresh(memory) && fresh(freelist) && fresh(chains0) && fresh(chains1)
    {
      var memsize := 2 * lists * (lists + 1);
      PoolSize(lists);
      memory := new BpmNode[memsize](i => if i == 0 then BpmNode(w[0], 1, -1, false) else BpmNode(w[1], 2, -1, false));
      freelist := new int[memsize](i => i);
      chains0 := new int[lists](_ => 0);
      chains1 := new int[lists](_ => 1);
      numfree, nextfree := memsize, 2;
      model := Initial(w, lists);
      new;
      StartOk(memory[..], chains0[..], chains1[..], freelist[2..memsize], w, lists);
      assert numfree == freelist.Length;
    }

    /** The mark phase for one chain. */
    method Mark(root: int, ghost ch: Chain, ghost live: set<int>) returns (ghost live': set<int>)
      requires Represents(memory[..], root, ch)
      requires forall x :: 0 <= x < memory.Length ==> (memory[x].inUse <==> x in live)
      modifies memory
      ensures SameLinks(old(memory[..]), memory[..])
      ensures forall x :: 0 <= x < memory.Length ==> (memory[x].inUse <==> x in live')
      ensures live <= live' && |live'| <= |live| + Depth(ch)
      ensures Represents(memory[..], root, ch)
      ensures forall x :: x !in live' ==> Avoids(memory[..], root, ch, x)
    {
      var node := root;
      ghost var rest := ch;
      live' := live;
      while node != -1
        invariant SameLinks(old(memory[..]), memory[..])
        invariant Represents(old(memory[..]), node, rest)
        invariant forall x :: 0 <= x < memory.Length ==> (memory[x].inUse <==> x in live')
        invariant live <= live' && |live'| + Depth(rest) <= |live| + Depth(ch)
        invariant forall x :: x !in live' && Avoids(old(memory[..]), node, rest, x)
                              ==> Avoids(old(memory[..]), root, ch, x)
        decreases rest
      {
        ghost var at := node;
        memory[node] := memory[node].(inUse := true);
        live' := live' + {node};
        node := memory[node].tail;
        rest := rest.tail;
      }
      SameLinksRepresent(old(memory[..]), memory[..], root, ch);
    }
  
    /** Clears every mark. */
    method Unmark()
      modifies memory
      ensures SameLinks(old(memory[..]), memory[..])
      ensures forall x :: 0 <= x < memory.Length ==> !memory[x].inUse
    {
      for i := 0 to memory.Length
        invariant SameLinks(old(memory[..]), memory[..])
        invariant forall x :: 0 <= x < i ==> !memory[x].inUse
      {
        memory[i] := memory[i].(inUse := false);
      }
    }

    /** The mark phase for both chains of list i, which stores `mem` up to marks. */
    method MarkList(i: nat, ghost mem: seq<BpmNode>, ghost live: set<int>) returns (ghost live': set<int>)
      requires Sized() && |model.c0| == |model.c1| == chains0.Length && i < chains0.Length
      requires SameLinks(mem, memory[..])
      requires Represents(mem, chains0[i], model.c0[i]) && Represents(mem, chains1[i], model.c1[i])
      requires forall x :: 0 <= x < memory.Length ==> (memory[x].inUse <==> x in live)
      modifies memory
      ensures SameLinks(mem, memory[..])
      ensures forall x :: 0 <= x < memory.Length ==> (memory[x].inUse <==> x in live')
      ensures live <= live' && |live'| <= |live| + Depth(model.c0[i]) + Depth(model.c1[i])
      ensures forall x :: x !in live' ==>
                Avoids(mem, chains0[i], model.c0[i], x) && Avoids(mem, chains1[i], model.c1[i], x)
    {
      SameLinksRepresent(mem, memory[..], chains0[i], model.c0[i]);
      live' := Mark(chains0[i], model.c0[i], live);
      SameLinksRepresent(mem, memory[..], chains0[i], model.c0[i]);
      SameLinksRepresent(mem, memory[..], chains1[i], model.c1[i]);
      live' := Mark(chains1[i], model.c1[i], live');
      SameLinksRepresent(mem, memory[..], chains1[i], model.c1[i]);
    }

    /** The mark phase: at most listsize * (listsize + 1) nodes are reachable. */
    method MarkAll() returns (ghost live: set<int>)
      requires Sized() && DepthsOk(model)
      requires Rooted(memory[..], chains0[..], chains1[..], model)
      requires forall x :: 0 <= x < memory.Length ==> !memory[x].inUse
      modifies memory
      ensures SameLinks(old(memory[..]), memory[..])
      ensures forall x :: 0 <= x < memory.Length ==> (memory[x].inUse <==> x in live)
      ensures |live| <= chains0.Length * (chains0.Length + 1)
      ensures forall x :: x !in live ==> Dead(old(memory[..]), chains0[..], chains1[..], model, x)
    {
      live := {};
      ghost var mem := memory[..];
      for i := 0 to chains0.Length
        invariant SameLinks(mem, memory[..])
        invariant forall x :: 0 <= x < memory.Length ==> (memory[x].inUse <==> x in live)
        invariant |live| <= Twice(i)
        invariant forall x :: x !in live ==> DeadBelow(mem, chains0[..], chains1[..], model, i, x)
      {
        assert Represents(mem, chains0[..][i], model.c0[i]) && Represents(mem, chains1[..][i], model.c1[i]);
        live := MarkList(i, mem, live);
      }
      TwiceIs(chains0.Length);
    }

    /** The sweep phase: the free list becomes the unmarked nodes, in order. */
    method Sweep(ghost live: set<int>)
      requires Sized()
      requires forall x :: 0 <= x < memory.Length ==> (memory[x].inUse <==> x in live)
      modifies freelist, this`numfree, this`nextfree
      ensures nextfree == 0 && numfree <= freelist.Length
      ensures forall k :: 0 <= k < numfree ==> 0 <= freelist[k] < memory.Length && freelist[k] !in live
      ensures forall j, k :: 0 <= j < k < numfree ==> freelist[j] < freelist[k]
      ensures numfree >= memory.Length - |live|
    {
      numfree := 0;
      for i := 0 to memory.Length
        invariant numfree <= i
        invariant forall k :: 0 <= k < numfree ==> 0 <= freelist[k] < i && freelist[k] !in live
        invariant forall j, k :: 0 <= j < k < numfree ==> freelist[j] < freelist[k]
        invariant numfree + |Below(live, i)| >= i
      {
        BelowStep(live, i);
        if !memory[i].inUse {
          freelist[numfree] := i;
          numfree := numfree + 1;
        }
      }
      nextfree := 0;
      BelowCount(live, memory.Length);
    }

    /** bpmnode_create's collection: it always frees at least half of the pool. */
    method Collect()
      requires Valid()
      modifies memory, freelist, this`numfree, this`nextfree
      ensures Valid()
      ensures SameLinks(old(memory[..]), memory[..])
      ensures nextfree == 0 && numfree >= chains0.Length * (chains0.Length + 1)
    {
      Unmark();
      RootedSameLinks(old(memory[..]), memory[..], chains0[..], chains1[..], model);
      ghost var mem := memory[..];
      ghost var live := MarkAll();
      RootedSameLinks(mem, memory[..], chains0[..], chains1[..], model);
      Sweep(live);
      HalfFree(chains0.Length);
    }
  
    /** bpmnode_create: the node handed out is reachable from no chain. */
    method Create(weight: int, index: nat, tail: int, ghost ch: Chain) returns (id: int)
      requires Valid()
      requires Protected(memory[..], chains0[..], chains1[..], model, tail, ch)
      modifies memory, freelist, this`numfree, this`nextfree
      ensures Valid()
      ensures Represents(memory[..], id, Node(weight, index, ch))
      ensures forall k :: nextfree <= k < numfree ==> Avoids(memory[..], id, Node(weight, index, ch), freelist[k])
    {
      if nextfree >= numfree {
        Collect();
        RootedSameLinks(old(memory[..]), memory[..], chains0[..], chains1[..], model);
        SameLinksRepresent(old(memory[..]), memory[..], tail, ch);
      }
      ghost var mem := memory[..];
      id := freelist[nextfree];
      assert id == freelist[nextfree..numfree][0];
      ghost var free := freelist[nextfree..numfree];
      nextfree := nextfree + 1;
      assert freelist[nextfree..numfree] == free[1..];
      var node := BpmNode(weight, index, tail, memory[id].inUse);
      RootedWrite(mem, chains0[..], chains1[..], model, id, node);
      WriteElsewhere(mem, tail, ch, id, node);
      memory[id] := node;
      assert memory[..] == mem[id := node];
      StillFree(mem, chains0[..], chains1[..], model, free, node, tail, ch, weight, index);
      forall k | nextfree <= k < numfree
        ensures Avoids(memory[..], id, Node(weight, index, ch), freelist[k])
      {
        assert freelist[k] == free[k - nextfree + 1];
      }
    }
  
    /** Makes the freshly created chain the new head chains1[c]. */
    method SetHead(c: nat, id: int, ghost ch: Chain)
      requires Valid() && c < chains1.Length
      requires ch.Node? && Depth(ch) <= c + 1 && Represents(memory[..], id, ch)
      requires forall k :: nextfree <= k < numfree ==> Avoids(memory[..], id, ch, freelist[k])
      modifies chains1, this`model
      ensures Valid()
      ensures model == Lists(old(model.c0), old(model.c1)[c := ch])
    {
      ghost var free := freelist[nextfree..numfree];
      ghost var r1 := chains1[..];
      chains1[c] := id;
      model := Lists(model.c0, model.c1[c := ch]);
      assert chains1[..] == r1[c := id];
      RehangHead(memory[..], chains0[..], r1, Lists(model.c0, old(model.c1)), c, id, ch, free);
    }

    /** chains0[c] = chains1[c] */
    method ShiftHead(c: nat)
      requires Valid() && c < chains1.Length
      modifies chains0, this`model
      ensures Valid()
      ensures model == Lists(old(model.c0)[c := old(model.c1)[c]], old(model.c1))
    {
      ghost var free := freelist[nextfree..numfree];
      ghost var r0 := chains0[..];
      chains0[c] := chains1[c];
      model := Lists(model.c0[c := model.c1[c]], model.c1);
      assert chains0[..] == r0[c := chains1[..][c]];
    }

    method HeadIndex(c: nat) returns (index: nat)
      requires Valid() && c < chains1.Length
      ensures c < |model.c1| && model.c1[c].Node? && index == model.c1[c].index
    {
      assert Represents(memory[..], chains1[..][c], model.c1[c]);
      index := memory[chains1[c]].index;
    }

    method HeadSum(c: nat) returns (sum: int)
      requires Valid() && 0 < c < chains1.Length
      ensures Shaped(model) && c < |model.c1| && sum == PackageWeight(model, c)
    {
      assert Represents(memory[..], chains0[..][c - 1], model.c0[c - 1]);
      assert Represents(memory[..], chains1[..][c - 1], model.c1[c - 1]);
      sum := memory[chains0[c - 1]].weight + memory[chains1[c - 1]].weight;
    }

    method AddFirstLeaf(weight: int, index: nat)
      requires Valid() && chains1.Length >= 1
      modifies this`numfree, this`nextfree, this`model, memory, freelist, chains1
      ensures Valid()
      ensures model == Lists(old(model.c0), old(model.c1)[0 := Node(weight, index, Nil)])
    {
      var id := Create(weight, index, -1, Nil);
      SetHead(0, id, Node(weight, index, Nil));
    }

    /**
     * boundaryPM on the pool does what Advance does on immutable chains; it stops where a sum does not fit in an int.
     */
    method BoundaryPM(w: seq<int>, c: nat, refill: bool) returns (ok: bool)
      requires Valid() && Shaped(model) && |model.c1| == chains1.Length && c < chains1.Length
      modifies this`numfree, this`nextfree, this`model, memory, freelist, chains0, chains1
      ensures Valid()
      ensures ok <==> SumsFit(old(model), w, c, refill)
      ensures ok ==> model == Advance(old(model), w, c, refill)
      decreases c
    {
      hide *;
      ghost var s := model;
      var last := HeadIndex(c);
      ok := true;
      if c == 0 {
        AdvanceFirst(s, w, refill);
        FirstListFits(s, w, refill);
        if last >= |w| {
          return;
        }
        ShiftHead(0);
        AddFirstLeaf(w[last], last + 1);
      } else {
        var sum := HeadSum(c);
        AdvanceNext(s, w, c, refill);
        SumsFitNext(s, w, c, refill);
        if sum > INT_MAX {
          return false;
        }
        ShiftHead(c);
        if last < |w| && sum > w[last] {
          AddLeaf(w[last], last + 1, c);
          return;
        }
        AddPackage(sum, last, c);
        if refill {
          ok := BoundaryPM(w, c - 1, true);
          if ok {
            ok := BoundaryPM(w, c - 1, true);
          }
        }
      }
    }

    /** Extends the last list to 2n-2 entries, unless a sum overflows. */
    method Run(w: seq<int>) returns (ok: bool)
      requires Valid() && chains1.Length >= 1 && |w| >= 2 && model == Initial(w, chains1.Length)
      modifies this`numfree, this`nextfree, this`model, memory, freelist, chains0, chains1
      ensures Valid()
      ensures ok <==> RunFits(w, chains1.Length, 2 * |w| - 2)
      ensures ok ==> model == Build(w, chains1.Length, 2 * |w| - 2)
    {
      hide Valid, Advance, SumsFit, RunFits;
      NothingRun(w, chains1.Length);
      ok := true;
      var i := 2;
      while i != 2 * |w| - 2
        invariant 2 <= i <= 2 * |w| - 2
        invariant Valid()
        invariant model == Build(w, chains1.Length, i) && ok && RunFits(w, chains1.Length, i)
        decreases 2 * |w| - 2 - i
      {
        RunFitsNext(w, chains1.Length, i, 2 * |w| - 2);
        ok := BoundaryPM(w, chains1.Length - 1, i + 1 < 2 * |w| - 2);
        if !ok {
          return;
        }
        i := i + 1;
      }
    }

    /** The head of the last list. */
    method LastChain() returns (root: int)
      requires Valid()
      ensures chains1.Length == |model.c1| >= 1
      ensures Represents(memory[..], root, model.c1[|model.c1| - 1])
    {
      root := chains1[chains1.Length - 1];
      assert Represents(memory[..], chains1[..][chains1.Length - 1], model.c1[chains1.Length - 1]);
    }

    method AddLeaf(weight: int, index: nat, c: nat)
      requires Valid() && c < chains1.Length
      modifies this`numfree, this`nextfree, this`model, memory, freelist, chains1
      ensures Valid()
      ensures model == Lists(old(model.c0), old(model.c1)[c := Node(weight, index, old(model.c1)[c].tail)])
    {
      ghost var ch := model.c1[c].tail;
      assert Represents(memory[..], chains1[..][c], model.c1[c]);
      var tail := memory[chains1[c]].tail;
      TailProtected(memory[..], chains0[..], chains1[..], model, c);
      var id := Create(weight, index, tail, ch);
      SetHead(c, id, Node(weight, index, ch));
    }

    method AddPackage(weight: int, index: nat, c: nat)
      requires Valid() && 0 < c < chains1.Length
      modifies this`numfree, this`nextfree, this`model, memory, freelist, chains1
      ensures Valid()
      ensures model == Lists(old(model.c0), old(model.c1)[c := Node(weight, index, old(model.c1)[c - 1])])
    {
      ghost var ch := model.c1[c - 1];
      assert Represents(memory[..], chains1[..][c - 1], ch);
      var id := Create(weight, index, chains1[c - 1], ch);
      SetHead(c, id, Node(weight, index, ch));
    }
  }

  lemma TailProtected(mem: seq<BpmNode>, r0: seq<int>, r1: seq<int>, s: Lists, c: nat)
    requires Rooted(mem, r0, r1, s) && c < |r1| && s.c1[c].Node?
    ensures 0 <= r1[c] < |mem|
    ensures Protected(mem, r0, r1, s, mem[r1[c]].tail, s.c1[c].tail)
  {
    assert Represents(mem, r1[c], s.c1[c]);
    forall x | Dead(mem, r0, r1, s, x)
      ensures Avoids(mem, mem[r1[c]].tail, s.c1[c].tail, x)
    {
      assert Avoids(mem, r1[c], s.c1[c], x);
    }
  }

  lemma RehangHead(mem: seq<BpmNode>, r0: seq<int>, r1: seq<int>, s: Lists, c: nat, id: int, ch: Chain, free: seq<int>)
    requires Rooted(mem, r0, r1, s) && c < |r1| && FreeOk(mem, r0, r1, s, free)
    requires Represents(mem, id, ch)
    requires forall k :: 0 <= k < |free| ==> Avoids(mem, id, ch, free[k])
    ensures Rooted(mem, r0, r1[c := id], Lists(s.c0, s.c1[c := ch]))
    ensures FreeOk(mem, r0, r1[c := id], Lists(s.c0, s.c1[c := ch]), free)
  {
    forall k | 0 <= k < |free|
      ensures Dead(mem, r0, r1[c := id], Lists(s.c0, s.c1[c := ch]), free[k])
    {
      assert Dead(mem, r0, r1, s, free[k]);
    }
  }

  lemma StartOk(mem: seq<BpmNode>, r0: seq<int>, r1: seq<int>, free: seq<int>, w: seq<int>, lists: nat)
    requires |mem| >= 2 && |w| >= 2 && |r0| == |r1| == lists
    requires mem[0] == BpmNode(w[0], 1, -1, false) && mem[1] == BpmNode(w[1], 2, -1, false)
    requires forall i :: 0 <= i < lists ==> r0[i] == 0 && r1[i] == 1
    requires |free| == |mem| - 2 && forall k :: 0 <= k < |free| ==> free[k] == k + 2
    ensures Rooted(mem, r0, r1, Initial(w, lists)) && DepthsOk(Initial(w, lists))
    ensures FreeOk(mem, r0, r1, Initial(w, lists), free)
  {
    var s := Initial(w, lists);
    assert Represents(mem, 0, Node(w[0], 1, Nil)) && Represents(mem, 1, Node(w[1], 2, Nil));
    forall k | 0 <= k < |free|
      ensures Dead(mem, r0, r1, s, free[k])
    {
      assert Avoids(mem, 0, Node(w[0], 1, Nil), free[k]) && Avoids(mem, 1, Node(w[1], 2, Nil), free[k]);
    }
  }

  lemma NothingRun(w: seq<int>, lists: nat)
    requires |w| >= 2 && lists >= 1
    ensures RunFits(w, lists, 2)
  {
  }

  lemma FirstListFits(s: Lists, w: seq<int>, refill: bool)
    requires Shaped(s) && |s.c1| > 0
    ensures SumsFit(s, w, 0, refill)
  {
  }

  /** Writing the first free node keeps the rest of the free list free. */
  lemma StillFree(mem: seq<BpmNode>, r0: seq<int>, r1: seq<int>, s: Lists, free: seq<int>,
                  node: BpmNode, tail: int, ch: Chain, weight: int, index: nat)
    requires Rooted(mem, r0, r1, s) && |free| > 0 && FreeOk(mem, r0, r1, s, free)
    requires Protected(mem, r0, r1, s, tail, ch)
    requires node.weight == weight && node.index == index && node.tail == tail
    requires var mem' := mem[free[0] := node];
             && Rooted(mem', r0, r1, s) && Represents(mem', tail, ch)
             && (forall y :: Dead(mem, r0, r1, s, y) == Dead(mem', r0, r1, s, y))
             && (forall y :: Avoids(mem, tail, ch, y) == Avoids(mem', tail, ch, y))
    ensures FreeOk(mem[free[0] := node], r0, r1, s, free[1..])
    ensures Represents(mem[free[0] := node], free[0], Node(weight, index, ch))
    ensures forall k :: 1 <= k < |free| ==> Avoids(mem[free[0] := node], free[0], Node(weight, index, ch), free[k])
  {
    var mem' := mem[free[0] := node];
    assert mem'[free[0]] == node;
    forall k | 1 <= k < |free|
      ensures Avoids(mem', free[0], Node(weight, index, ch), free[k])
    {
      assert Dead(mem, r0, r1, s, free[k]);
    }
  }

  /** No chain of the first n lists passes through node x. */
  ghost predicate DeadBelow(mem: seq<BpmNode>, r0: seq<int>, r1: seq<int>, s: Lists, n: nat, x: int)
    requires Rooted(mem, r0, r1, s) && n <= |r0|
  {
    forall i :: 0 <= i < n ==> Avoids(mem, r0[i], s.c0[i], x) && Avoids(mem, r1[i], s.c1[i], x)
  }

  /** Two chains per list, of at most i + 1 nodes in list i. */
  function Twice(n: nat): nat {
    if n == 0 then 0 else Twice(n - 1) + 2 * n
  }

  lemma {:induction false} TwiceIs(n: nat)
    ensures Twice(n) == n * (n + 1)
  {
    if n > 0 {
      TwiceIs(n - 1);
      assert n * (n + 1) == (n - 1) * n + 2 * n;
    }
  }

  lemma PoolSize(n: nat)
    requires n >= 1
    ensures 2 * n * (n + 1) >= 4
  {
    assert n * (n + 1) >= 2;
    assert 2 * n * (n + 1) == 2 * (n * (n + 1));
  }

  lemma HalfFree(n: nat)
    ensures 2 * n * (n + 1) == n * (n + 1) + n * (n + 1)
  {
  }

  function Below(live: set<int>, n: nat): set<int> {
    set x | x in live && 0 <= x < n
  }

  lemma BelowStep(live: set<int>, i: nat)
    ensures |Below(live, i + 1)| == |Below(live, i)| + (if i in live then 1 else 0)
  {
    assert Below(live, i + 1) == Below(live, i) + (if i in live then {i} else {});
  }

  lemma BelowCount(live: set<int>, n: nat)
    ensures |Below(live, n)| <= |live|
  {
    assert live == Below(live, n) + (live - Below(live, n));
  }
}
