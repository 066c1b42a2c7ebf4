/** Counting and writing the run-length coded code lengths of a dynamic block. */
module LengthsWriter {
  import opened Powers
  import opened PackageSums
  import opened BitStream
  import opened PrefixCode
  import opened HuffmanTree
  import opened CodeLengthRle
  import opened Inflate
  import opened StreamFormat
  import opened LengthsFormat
  import opened SymbolWriter

  // ----- Stored operations, one at a time -----

  lemma StoredAllNext(ops: seq<LenOp>, k: nat)
    requires k < |ops|
    ensures StoredAll(ops[..k + 1]) == StoredAll(ops[..k]) + Stored(ops[k])
  {
    hide Stored;
    assert ops[..k + 1][..k] == ops[..k];
  }

  lemma {:induction false} StoredAllPrefix(ops: seq<LenOp>, k: nat)
    requires k <= |ops|
    ensures StoredAll(ops[..k]) <= StoredAll(ops)
    decreases |ops| - k
  {
    hide Stored;
    if k == |ops| {
      assert ops[..k] == ops;
    } else {
      StoredAllPrefix(ops, k + 1);
      StoredAllNext(ops, k);
    }
  }

  /** Reading the stored values at the start of operation k yields that operation's values. */
  lemma StoredOpAt(ops: seq<LenOp>, k: nat)
    requires k < |ops|
    ensures var i := |StoredAll(ops[..k])|;
            var v := Stored(ops[k]);
            && i + |v| == |StoredAll(ops[..k + 1])| <= |StoredAll(ops)|
            && forall j :: 0 <= j < |v| ==> StoredAll(ops)[i + j] == v[j]
  {
    hide Stored, StoredAll;
    StoredAllPrefix(ops, k + 1);
    StoredAllNext(ops, k);
  }

  lemma AllOps(ops: seq<LenOp>)
    ensures ops[..|ops|] == ops && ops[..0] == []
  {
  }

  lemma OpsDone(ops: seq<LenOp>, k: nat)
    requires k <= |ops|
    ensures |StoredAll(ops[..k])| == |StoredAll(ops)| <==> k == |ops|
  {
    hide StoredAll;
    if k == |ops| {
      AllOps(ops);
    } else {
      StoredOpAt(ops, k);
    }
  }

  predicate OpInRange(op: LenOp) {
    op.Len? ==> op.length <= 15
  }

  predicate OpsInRange(ops: seq<LenOp>) {
    forall k :: 0 <= k < |ops| ==> OpInRange(ops[k])
  }

  lemma {:induction false} OpsOkInRange(out: seq<nat>, ops: seq<LenOp>)
    requires OpsOk(out, ops)
    ensures OpsInRange(ops)
    decreases |ops|
  {
    if ops != [] {
      OpsOkInRange(Apply(out, ops[0]), ops[1..]);
      forall k | 0 <= k < |ops|
        ensures OpInRange(ops[k])
      {
        if k > 0 {
          assert ops[k] == ops[1..][k - 1];
        }
      }
    }
  }

  // ----- Counting -----

  predicate AllOpsCounted(f: seq<nat>, ops: seq<LenOp>) {
    |f| == 19 && forall k :: 0 <= k < |ops| ==> OpInRange(ops[k]) && f[Symbol(ops[k])] > 0
  }

  lemma OpCountedNext(f: seq<nat>, s: nat, ops: seq<LenOp>, k: nat)
    requires k < |ops| && AllOpsCounted(f, ops[..k]) && OpInRange(ops[k]) && s == Symbol(ops[k])
    ensures s < 19 && AllOpsCounted(f[s := f[s] + 1], ops[..k + 1])
  {
    var g, next := f[s := f[s] + 1], ops[..k + 1];
    forall j | 0 <= j < |next|
      ensures OpInRange(next[j]) && g[Symbol(next[j])] > 0
    {
      if j < k {
        assert ops[..k][j] == next[j];
      }
    }
  }

  /** The frequencies of the code length symbols; the numbers behind repeat codes are skipped. */
  method CountOps(e: seq<nat>, ghost ops: seq<LenOp>) returns (f: seq<nat>)
    requires e == StoredAll(ops) && OpsInRange(ops)
    ensures AllOpsCounted(f, ops) && Total(f) == |ops|
  {
    hide StoredAll, AllOpsCounted, Total;
    TotalZeros(19);
    f := seq(19, _ => 0);
    var i := 0;
    ghost var k: nat := 0;
    NothingCounted(f, ops);
    OpsDone(ops, 0);
    while i != |e|
      invariant k <= |ops| && i == |StoredAll(ops[..k])| && (i == |e| <==> k == |ops|)
      invariant |f| == 19 && AllOpsCounted(f, ops[..k]) && Total(f) == k
      decreases |ops| - k
    {
      StoredOpAt(ops, k);
      assert e[i + 0] == Stored(ops[k])[0];
      OpCountedNext(f, e[i], ops, k);
      TotalUpdate(f, e[i], f[e[i]] + 1);
      f := f[e[i] := f[e[i]] + 1];
      if e[i] >= 16 {
        i := i + 1;
      }
      i := i + 1;
      k := k + 1;
      OpsDone(ops, k);
    }
    AllOps(ops);
  }

  lemma NothingCounted(f: seq<nat>, ops: seq<LenOp>)
    requires f == seq(19, _ => 0)
    ensures AllOpsCounted(f, ops[..0]) && StoredAll(ops[..0]) == []
  {
  }

  // ----- Writing -----

  lemma {:induction false} OpsBitsAppend(cl: seq<nat>, ops: seq<LenOp>, op: LenOp)
    requires OpsCodable(cl, ops) && OpCodable(cl, op)
    ensures OpsCodable(cl, ops + [op])
    ensures OpsBits(cl, ops + [op]) == OpsBits(cl, ops) + OpBits(cl, op)
  {
    hide OpBits, OpCodable;
    if ops == [] {
      assert ops + [op] == [op];
      assert [op][1..] == [];
    } else {
      OpsBitsAppend(cl, ops[1..], op);
      assert (ops + [op])[1..] == ops[1..] + [op];
    }
  }

  lemma NextOpCodable(cl: seq<nat>, ops: seq<LenOp>, k: nat)
    requires OpsCodable(cl, ops) && k < |ops|
    ensures OpCodable(cl, ops[k]) && OpsCodable(cl, ops[..k]) && OpsCodable(cl, ops[..k + 1])
    ensures OpsBits(cl, ops[..k + 1]) == OpsBits(cl, ops[..k]) + OpBits(cl, ops[k])
  {
    hide OpsBits, OpBits, OpCodable;
    assert ops[..k + 1] == ops[..k] + [ops[k]];
    OpsBitsAppend(cl, ops[..k], ops[k]);
  }

  /** One code length symbol and the extra bits of a repeat code. */
  method WriteOp(w: BitWriter, e: seq<nat>, i: nat, cl: Huffman, ghost op: LenOp) returns (i': nat)
    requires w.Valid() && CodesOk(cl.lengths, cl.tree1d) && OpCodable(cl.lengths, op) && OpInRange(op)
    requires i + |Stored(op)| <= |e| && forall j :: 0 <= j < |Stored(op)| ==> e[i + j] == Stored(op)[j]
    modifies w
    ensures w.Valid() && w.Written() == old(w.Written()) + OpBits(cl.lengths, op)
    ensures i' == i + |Stored(op)|
  {
    hide CodesOk, CodeBits, LowBits, Extra;
    ghost var v, start := Stored(op), w.Written();
    assert e[i + 0] == v[0];
    AddSymbol(w, cl, e[i]);
    i' := i + 1;
    if e[i] >= 16 {
      assert e[i + 1] == v[1];
      w.AddBits(e[i + 1], if e[i] == 16 then 2 else if e[i] == 17 then 3 else 7);
      i' := i + 2;
    } else {
      assert LowBits(Extra(op), 0) == [];
    }
    assert w.Written() == start + OpBits(cl.lengths, op);
  }

  /** The code lengths of both alphabets, as deflateDynamic writes them. */
  method WriteOps(w: BitWriter, e: seq<nat>, cl: Huffman, ghost ops: seq<LenOp>)
    requires w.Valid() && CodesOk(cl.lengths, cl.tree1d)
    requires e == StoredAll(ops) && OpsInRange(ops) && OpsCodable(cl.lengths, ops)
    modifies w
    ensures w.Valid() && w.Written() == old(w.Written()) + OpsBits(cl.lengths, ops)
  {
    hide CodesOk, StoredAll, OpBits, OpsBits, Stored, OpsCodable, OpCodable, BitWriter.Valid, BitWriter.Written;
    ghost var start := w.Written();
    var i := 0;
    ghost var k: nat := 0;
    StartOps(cl.lengths, ops);
    assert start + [] == start;
    OpsDone(ops, 0);
    while i != |e|
      invariant w.Valid() && k <= |ops| && i == |StoredAll(ops[..k])| && (i == |e| <==> k == |ops|)
      invariant OpsCodable(cl.lengths, ops[..k])
      invariant w.Written() == start + OpsBits(cl.lengths, ops[..k])
      decreases |ops| - k
    {
      StoredOpAt(ops, k);
      NextOpCodable(cl.lengths, ops, k);
      i := WriteOp(w, e, i, cl, ops[k]);
      k := k + 1;
      OpsDone(ops, k);
      Append3(start, OpsBits(cl.lengths, ops[..k - 1]), OpBits(cl.lengths, ops[k - 1]));
    }
    AllOps(ops);
  }

  lemma StartOps(cl: seq<nat>, ops: seq<LenOp>)
    ensures StoredAll(ops[..0]) == [] && OpsCodable(cl, ops[..0]) && OpsBits(cl, ops[..0]) == []
  {
  }
}
