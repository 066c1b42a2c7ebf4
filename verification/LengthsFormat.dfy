/** The header of a dynamic block: its bits, and the proof that the decoder reads the code lengths back. */
module LengthsFormat {
  import opened Powers
  import opened BitStream
  import opened PrefixCode
  import opened HuffmanTree
  import opened TreeInvariant
  import opened CodeLengthRle
  import opened Inflate
  import opened StreamFormat

  // ----- Code length operations -----

  function ExtraWidth(op: LenOp): nat {
    match op
    case Len(_) => 0
    case Copy(_) => 2
    case ShortZeros(_) => 3
    case LongZeros(_) => 7
  }

  predicate OpCodable(cl: seq<nat>, op: LenOp) {
    Symbol(op) < |cl| && cl[Symbol(op)] > 0
  }

  predicate OpsCodable(cl: seq<nat>, ops: seq<LenOp>) {
    forall k :: 0 <= k < |ops| ==> OpCodable(cl, ops[k])
  }

  function OpBits(cl: seq<nat>, op: LenOp): seq<bool>
    requires OpCodable(cl, op)
  {
    CodeBits(cl, Symbol(op)) + LowBits(Extra(op), ExtraWidth(op))
  }

  function OpsBits(cl: seq<nat>, ops: seq<LenOp>): seq<bool>
    requires OpsCodable(cl, ops)
  {
    if ops == [] then [] else OpBits(cl, ops[0]) + OpsBits(cl, ops[1..])
  }

  /** The tree of the code length alphabet. */
  ghost predicate ClOk(cl: seq<nat>, cl2d: seq<nat>) {
    |cl| == 19 && Fits(cl, 7) && Tree2d(cl) == Some(cl2d)
  }

  /** A repeat count survives the trip through its extra bits. */
  lemma ExtraFits(out: seq<nat>, op: LenOp)
    requires OpOk(out, op)
    ensures Extra(op) < Pow2(ExtraWidth(op))
    ensures op.Copy? || op.ShortZeros? ==> 3 + Extra(op) == op.count
    ensures op.LongZeros? ==> 11 + Extra(op) == op.count
  {
    FieldSizes();
  }

  /** One operation is read back: its symbol and its count. */
  lemma ReadOpParts(cl: seq<nat>, cl2d: seq<nat>, bits: seq<bool>, bp: nat, out: seq<nat>, op: LenOp) returns (bp1: nat)
    requires ClOk(cl, cl2d) && OpCodable(cl, op) && OpOk(out, op) && At(bits, bp, OpBits(cl, op))
    ensures |cl2d| == 2 * |cl| && 0 < |cl|
    ensures DecodeSymbol(cl, cl2d, bits, bp) == Decoded(Symbol(op), bp1)
    ensures bp1 + ExtraWidth(op) <= |bits| && Value(bits[bp1..bp1 + ExtraWidth(op)]) == Extra(op)
    ensures bp1 + ExtraWidth(op) == bp + |OpBits(cl, op)|
  {
    hide CodeBits, Value, LowBits, Fits, Tree2d, Symbol, Extra, ExtraWidth, OpOk, At, DecodeFrom;
    bp1 := bp + cl[Symbol(op)];
    AtConcat(bits, bp, CodeBits(cl, Symbol(op)), LowBits(Extra(op), ExtraWidth(op)));
    CodeLength(cl, Symbol(op));
    DecodeSymbolOk(cl, 7, Symbol(op), bits, bp);
    ExtraFits(out, op);
    ReadField(bits, bp1, Extra(op), ExtraWidth(op));
  }

  lemma ReadOp(cl: seq<nat>, cl2d: seq<nat>, bits: seq<bool>, bp: nat, total: nat, out: seq<nat>, op: LenOp)
    requires ClOk(cl, cl2d) && OpCodable(cl, op) && OpOk(out, op) && At(bits, bp, OpBits(cl, op))
    requires bp <= |bits| && |Apply(out, op)| <= total
    ensures |cl2d| == 2 * |cl| && 0 < |cl| && bp + |OpBits(cl, op)| <= |bits|
    ensures |out| < |Apply(out, op)|
    ensures ReadLengths(cl, cl2d, bits, bp, total, out) ==
            ReadLengths(cl, cl2d, bits, bp + |OpBits(cl, op)|, total, Apply(out, op))
  {
    hide OpBits, OpCodable, ClOk, DecodeSymbol, At, ReadRun, Value;
    ReadOneRun(cl, cl2d, bits, bp, out, op);
  }

  lemma ReadOneRun(cl: seq<nat>, cl2d: seq<nat>, bits: seq<bool>, bp: nat, out: seq<nat>, op: LenOp)
    requires ClOk(cl, cl2d) && OpCodable(cl, op) && OpOk(out, op) && At(bits, bp, OpBits(cl, op)) && bp <= |bits|
    ensures |cl2d| == 2 * |cl| && 0 < |cl| && bp + |OpBits(cl, op)| <= |bits|
    ensures var r := ReadRun(cl, cl2d, bits, bp, out);
            r.GotRun? && out + Run(r.value, r.count) == Apply(out, op) && r.bp == bp + |OpBits(cl, op)|
  {
    hide OpBits, OpCodable, ClOk, Value, DecodeSymbol, At;
    var bp1 := ReadOpParts(cl, cl2d, bits, bp, out, op);
    ExtraFits(out, op);
    if op.Len? {
      assert Run(op.length, 1) == [op.length];
    }
  }

  lemma {:induction false} ExpandLonger(out: seq<nat>, ops: seq<LenOp>)
    ensures |out| <= |Expand(out, ops)|
    decreases |ops|
  {
    if ops != [] {
      ExpandLonger(Apply(out, ops[0]), ops[1..]);
    }
  }

  /** Reading the stored operations returns the lengths they expand to. */
  lemma {:induction false} ReadOps(cl: seq<nat>, cl2d: seq<nat>, bits: seq<bool>, bp: nat, total: nat, out: seq<nat>,
                                   ops: seq<LenOp>)
    requires ClOk(cl, cl2d) && |cl2d| == 2 * |cl| && 0 < |cl|
    requires OpsCodable(cl, ops) && OpsOk(out, ops) && bp <= |bits|
    requires |Expand(out, ops)| == total && |out| <= total
    requires At(bits, bp, OpsBits(cl, ops))
    ensures ReadLengths(cl, cl2d, bits, bp, total, out) == GotLengths(Expand(out, ops), bp + |OpsBits(cl, ops)|)
    decreases |ops|
  {
    hide *;
    if ops == [] {
      NoOps(cl, cl2d, bits, bp, total, out);
    } else {
      FirstOp(cl, out, ops);
      ExpandLonger(Apply(out, ops[0]), ops[1..]);
      AtConcat(bits, bp, OpBits(cl, ops[0]), OpsBits(cl, ops[1..]));
      ReadOp(cl, cl2d, bits, bp, total, out, ops[0]);
      ReadOps(cl, cl2d, bits, bp + |OpBits(cl, ops[0])|, total, Apply(out, ops[0]), ops[1..]);
    }
  }

  lemma NoOps(cl: seq<nat>, cl2d: seq<nat>, bits: seq<bool>, bp: nat, total: nat, out: seq<nat>)
    requires |cl2d| == 2 * |cl| && 0 < |cl| && bp <= |bits| && |Expand(out, [])| == total
    ensures Expand(out, []) == out && OpsCodable(cl, []) && OpsBits(cl, []) == [] && |out| <= total
    ensures ReadLengths(cl, cl2d, bits, bp, total, out) == GotLengths(out, bp)
  {
  }

  lemma FirstOp(cl: seq<nat>, out: seq<nat>, ops: seq<LenOp>)
    requires ops != [] && OpsCodable(cl, ops) && OpsOk(out, ops)
    ensures OpCodable(cl, ops[0]) && OpsCodable(cl, ops[1..])
    ensures OpOk(out, ops[0]) && OpsOk(Apply(out, ops[0]), ops[1..])
    ensures Expand(out, ops) == Expand(Apply(out, ops[0]), ops[1..])
    ensures OpsBits(cl, ops) == OpBits(cl, ops[0]) + OpsBits(cl, ops[1..])
  {
    hide OpCodable, OpBits, Apply, OpOk;
  }

  // ----- The lengths of the code length alphabet -----

  /** The first n lengths of the code length alphabet, three bits each, in storage order. */
  function ClclBits(cl: seq<nat>, n: nat): (r: seq<bool>)
    requires |cl| == 19 && n <= 19
    ensures |r| == 3 * n
  {
    if n == 0 then [] else ClclBits(cl, n - 1) + LowBits(cl[ClclOrder()[n - 1]], 3)
  }

  lemma {:induction false} ClclField(cl: seq<nat>, n: nat, i: nat, bits: seq<bool>, bp: nat)
    requires |cl| == 19 && i < n <= 19 && At(bits, bp, ClclBits(cl, n)) && cl[ClclOrder()[i]] < 8
    ensures bp + 3 * n <= |bits| && Value(bits[bp + 3 * i..bp + 3 * (i + 1)]) == cl[ClclOrder()[i]]
  {
    hide ClclOrder, Value;
    AtConcat(bits, bp, ClclBits(cl, n - 1), LowBits(cl[ClclOrder()[n - 1]], 3));
    if i < n - 1 {
      ClclField(cl, n - 1, i, bits, bp);
    } else {
      FieldSizes();
      ReadField(bits, bp + 3 * i, cl[ClclOrder()[i]], 3);
    }
  }

  lemma OrderInjective(i: nat, j: nat)
    requires i < 19 && j < 19 && ClclOrder()[i] == ClclOrder()[j]
    ensures i == j
  {
  }

  lemma OrderCovers(s: nat) returns (i: nat)
    requires s < 19
    ensures i < 19 && ClclOrder()[i] == s
  {
    var inverse: seq<nat> := [3, 17, 15, 13, 11, 9, 7, 5, 4, 6, 8, 10, 12, 14, 16, 18, 0, 1, 2];
    i := inverse[s];
  }

  lemma {:induction false} ReadClclAt(cl: seq<nat>, n: nat, k: nat, i: nat, bits: seq<bool>, bp: nat)
    requires |cl| == 19 && i < k <= 19 && n <= 19 && bp + 3 * n <= |bits| && At(bits, bp, ClclBits(cl, n))
    requires cl[ClclOrder()[i]] < 8 && (i >= n ==> cl[ClclOrder()[i]] == 0)
    ensures ReadClcl(bits, bp, n, k)[ClclOrder()[i]] == cl[ClclOrder()[i]]
  {
    hide ClclOrder, Value, ClclBits, At;
    if i < k - 1 {
      ReadClclAt(cl, n, k - 1, i, bits, bp);
      if ClclOrder()[i] == ClclOrder()[k - 1] {
        OrderInjective(i, k - 1);
      }
    } else if i < n {
      ClclField(cl, n, i, bits, bp);
    }
  }

  /** The lengths of the code length alphabet are read back when those left out are zero. */
  lemma ReadClclOk(cl: seq<nat>, n: nat, bits: seq<bool>, bp: nat)
    requires |cl| == 19 && n <= 19 && At(bits, bp, ClclBits(cl, n)) && Bounded(cl, 7)
    requires forall i :: n <= i < 19 ==> cl[ClclOrder()[i]] == 0
    ensures bp + 3 * n <= |bits| && ReadClcl(bits, bp, n, 19) == cl
  {
    hide ClclOrder, ReadClcl, ClclBits;
    forall s | 0 <= s < 19
      ensures ReadClcl(bits, bp, n, 19)[s] == cl[s]
    {
      var i := OrderCovers(s);
      ReadClclAt(cl, n, 19, i, bits, bp);
    }
  }
}
