/**
 * The run-length form in which a dynamic block stores the code lengths of its
 * two alphabets (section 3.2.7 of RFC 1951): symbols 0 to 15 are lengths, 16
 * repeats the previous length, 17 and 18 stand for runs of zeros.
 */
module CodeLengthRle {

  datatype LenOp =
    | Len(length: nat)
    | Copy(count: nat)
    | ShortZeros(count: nat)
    | LongZeros(count: nat)

  /** n times the same length. */
  function Run(v: nat, n: nat): (r: seq<nat>)
    ensures |r| == n
    ensures forall k :: 0 <= k < n ==> r[k] == v
  {
    seq(n, _ => v)
  }

  /** What the decoder appends to the lengths read so far. */
  function Apply(out: seq<nat>, op: LenOp): seq<nat> {
    match op
    case Len(l) => out + [l]
    case Copy(n) => out + Run(if out == [] then 0 else out[|out| - 1], n)
    case ShortZeros(n) => out + Run(0, n)
    case LongZeros(n) => out + Run(0, n)
  }

  /** Every count fits the extra bits of its symbol, and a repeat has something to repeat. */
  predicate OpOk(out: seq<nat>, op: LenOp) {
    match op
    case Len(l) => l <= 15
    case Copy(n) => out != [] && 3 <= n <= 6
    case ShortZeros(n) => 3 <= n <= 10
    case LongZeros(n) => 11 <= n <= 138
  }

  function Expand(out: seq<nat>, ops: seq<LenOp>): seq<nat>
    decreases |ops|
  {
    if ops == [] then out else Expand(Apply(out, ops[0]), ops[1..])
  }

  predicate OpsOk(out: seq<nat>, ops: seq<LenOp>)
    decreases |ops|
  {
    ops != [] ==> OpOk(out, ops[0]) && OpsOk(Apply(out, ops[0]), ops[1..])
  }

  /** An operation stands for at least one length. */
  lemma {:induction false} FewOps(out: seq<nat>, ops: seq<LenOp>)
    requires OpsOk(out, ops)
    ensures |Expand(out, ops)| >= |out| + |ops|
    decreases |ops|
  {
    if ops != [] {
      FewOps(Apply(out, ops[0]), ops[1..]);
    }
  }

  lemma {:induction false} ExpandAppend(out: seq<nat>, ops: seq<LenOp>, op: LenOp)
    ensures Expand(out, ops + [op]) == Apply(Expand(out, ops), op)
    ensures OpsOk(out, ops) && OpOk(Expand(out, ops), op) ==> OpsOk(out, ops + [op])
    decreases |ops|
  {
    if ops == [] {
      assert ops + [op] == [op];
      assert [op][1..] == [];
    } else {
      ExpandAppend(Apply(out, ops[0]), ops[1..], op);
      assert (ops + [op])[1..] == ops[1..] + [op];
    }
  }

  /** The symbol of an operation. */
  function Symbol(op: LenOp): nat {
    match op
    case Len(l) => l
    case Copy(_) => 16
    case ShortZeros(_) => 17
    case LongZeros(_) => 18
  }

  /** The number that follows a repeat symbol. */
  function Extra(op: LenOp): nat {
    var base := if op.LongZeros? then 11 else 3;
    if op.Len? || op.count < base then 0 else op.count - base
  }

  /** How an operation is stored in bitlen_lld_e: its symbol, and for a repeat its extra value. */
  function Stored(op: LenOp): seq<nat> {
    if op.Len? then [Symbol(op)] else [Symbol(op), Extra(op)]
  }

  function StoredAll(ops: seq<LenOp>): seq<nat> {
    if ops == [] then [] else StoredAll(ops[..|ops| - 1]) + Stored(ops[|ops| - 1])
  }

  lemma StoredAppend(ops: seq<LenOp>, op: LenOp)
    ensures StoredAll(ops + [op]) == StoredAll(ops) + Stored(op)
  {
    assert (ops + [op])[..|ops|] == ops;
  }

  /** The progress of the encoder: the operations so far store `e` and expand to the first i lengths. */
  ghost predicate Encoded(lengths: seq<nat>, i: nat, e: seq<nat>, ops: seq<LenOp>) {
    && i <= |lengths|
    && e == StoredAll(ops) && OpsOk([], ops) && Expand([], ops) == lengths[..i]
  }

  lemma EncodedStep(lengths: seq<nat>, i: nat, e: seq<nat>, ops: seq<LenOp>, op: LenOp, i': nat)
    requires Encoded(lengths, i, e, ops) && i <= i' <= |lengths|
    requires OpOk(lengths[..i], op) && Apply(lengths[..i], op) == lengths[..i']
    ensures Encoded(lengths, i', e + Stored(op), ops + [op])
  {
    StoredAppend(ops, op);
    ExpandAppend([], ops, op);
  }

  /** The number of further lengths equal to the one at i. */
  method CountRun(lengths: seq<nat>, i: nat) returns (j: nat)
    requires i < |lengths|
    ensures i + j + 1 <= |lengths|
    ensures forall k :: i <= k <= i + j ==> lengths[k] == lengths[i]
    ensures i + j + 1 < |lengths| ==> lengths[i + j + 1] != lengths[i]
  {
    j := 0;
    while i + j + 1 < |lengths| && lengths[i + j + 1] == lengths[i]
      invariant i + j + 1 <= |lengths|
      invariant forall k :: i <= k <= i + j ==> lengths[k] == lengths[i]
    {
      j := j + 1;
    }
  }

  /** One run of zeros, j of them, at position i. */
  method EncodeZeros(lengths: seq<nat>, i: nat, run: nat, e: seq<nat>, ghost ops: seq<LenOp>)
    returns (i': nat, e': seq<nat>, ghost ops': seq<LenOp>)
    requires Encoded(lengths, i, e, ops) && run >= 3 && i + run <= |lengths|
    requires forall k :: i <= k < i + run ==> lengths[k] == 0
    ensures i < i' <= |lengths| && Encoded(lengths, i', e', ops')
  {
    var j := run;
    if j <= 10 {
      EncodedStep(lengths, i, e, ops, ShortZeros(j), i + j);
      ops' := ops + [ShortZeros(j)];
      e' := e + [17, j - 3];
    } else {
      if j > 138 {
        j := 138;
      }
      EncodedStep(lengths, i, e, ops, LongZeros(j), i + j);
      ops' := ops + [LongZeros(j)];
      e' := e + [18, j - 11];
    }
    i' := i + j;
  }

  /** A length followed by at least three copies of itself. */
  method EncodeCopies(lengths: seq<nat>, i: nat, run: nat, e: seq<nat>, ghost ops: seq<LenOp>)
    returns (i': nat, e': seq<nat>, ghost ops': seq<LenOp>)
    requires Encoded(lengths, i, e, ops) && run >= 3 && i + run + 1 <= |lengths|
    requires lengths[i] <= 15 && forall k :: i <= k <= i + run ==> lengths[k] == lengths[i]
    ensures i < i' <= |lengths| && Encoded(lengths, i', e', ops')
  {
    hide Encoded;
    var num, rest := run / 6, run % 6;
    EncodedStep(lengths, i, e, ops, Len(lengths[i]), i + 1);
    e', ops', i' := e + [lengths[i]], ops + [Len(lengths[i])], i + 1;
    for k := 0 to num
      invariant i' == i + 1 + 6 * k <= |lengths|
      invariant Encoded(lengths, i', e', ops')
    {
      EncodedStep(lengths, i', e', ops', Copy(6), i' + 6);
      e', ops', i' := e' + [16, 3], ops' + [Copy(6)], i' + 6;
    }
    if rest >= 3 {
      EncodedStep(lengths, i', e', ops', Copy(rest), i' + rest);
      e', ops', i' := e' + [16, rest - 3], ops' + [Copy(rest)], i' + rest;
    }
  }

  /** The run-length compression of deflateDynamic: expanding its result gives back every list of lengths. */
  method EncodeLengths(lengths: seq<nat>) returns (e: seq<nat>, ghost ops: seq<LenOp>)
    requires forall k :: 0 <= k < |lengths| ==> lengths[k] <= 15
    ensures e == StoredAll(ops)
    ensures OpsOk([], ops) && Expand([], ops) == lengths
  {
    e, ops := [], [];
    var i := 0;
    assert Encoded(lengths, 0, e, ops);
    while i != |lengths|
      invariant Encoded(lengths, i, e, ops)
      decreases |lengths| - i
    {
      var j := CountRun(lengths, i);
      if lengths[i] == 0 && j >= 2 {
        i, e, ops := EncodeZeros(lengths, i, j + 1, e, ops);
      } else if j >= 3 {
        i, e, ops := EncodeCopies(lengths, i, j, e, ops);
      } else {
        EncodedStep(lengths, i, e, ops, Len(lengths[i]), i + 1);
        e, ops, i := e + [lengths[i]], ops + [Len(lengths[i])], i + 1;
      }
    }
  }
}
