/**
 * Canonical prefix codes (section 3.2.2 of RFC 1951), given by their code
 * lengths; length 0 means that the symbol has no code.
 */
module PrefixCode {
  import opened Powers
  import opened BitStream

  predicate Bounded(lengths: seq<nat>, bits: nat) {
    forall i :: 0 <= i < |lengths| ==> lengths[i] <= bits
  }

  /** How many of the first n symbols have length l. */
  function Count(lengths: seq<nat>, n: nat, l: nat): nat
    requires n <= |lengths|
  {
    if n == 0 then 0 else Count(lengths, n - 1, l) + (if lengths[n - 1] == l then 1 else 0)
  }

  /** The share of the code space of one code of length `len`, in units of 2^-l. */
  function Share(len: nat, l: nat): nat {
    if 0 < len <= l then Pow2(l - len) else 0
  }

  /** Kraft's sum of the first n symbols' codes of length at most l, in units of 2^-l. */
  function KraftTo(lengths: seq<nat>, n: nat, l: nat): nat
    requires n <= |lengths|
  {
    if n == 0 then 0 else KraftTo(lengths, n - 1, l) + Share(lengths[n - 1], l)
  }

  function Kraft(lengths: seq<nat>, l: nat): nat {
    KraftTo(lengths, |lengths|, l)
  }

  /** Kraft's inequality: the codes fit. */
  predicate Fits(lengths: seq<nat>, bits: nat) {
    Bounded(lengths, bits) && Kraft(lengths, bits) <= Pow2(bits)
  }

  /** Kraft's equality: the codes fill the code space. */
  predicate Complete(lengths: seq<nat>, bits: nat) {
    Bounded(lengths, bits) && Kraft(lengths, bits) == Pow2(bits)
  }

  /** The canonical code of symbol s as a number. */
  function Canon(lengths: seq<nat>, s: nat): nat
    requires s < |lengths| && lengths[s] > 0
  {
    2 * Kraft(lengths, lengths[s] - 1) + Count(lengths, s, lengths[s])
  }

  /** The bits of symbol s's code, in the order they are written to the stream. */
  function CodeBits(lengths: seq<nat>, s: nat): seq<bool>
    requires s < |lengths| && lengths[s] > 0
  {
    HighBits(Canon(lengths, s), lengths[s])
  }

  lemma {:induction false} KraftStep(lengths: seq<nat>, n: nat, l: nat)
    requires n <= |lengths| && l > 0
    ensures KraftTo(lengths, n, l) == 2 * KraftTo(lengths, n, l - 1) + Count(lengths, n, l)
  {
    if n > 0 {
      KraftStep(lengths, n - 1, l);
    }
  }

  /** A code that fits at its full depth fits at every smaller depth. */
  lemma {:induction false} FitsAt(lengths: seq<nat>, bits: nat, l: nat)
    requires Kraft(lengths, bits) <= Pow2(bits) && l <= bits
    ensures Kraft(lengths, l) <= Pow2(l)
    decreases bits - l
  {
    if l < bits {
      FitsAt(lengths, bits, l + 1);
      KraftStep(lengths, |lengths|, l + 1);
    }
  }

  lemma {:induction false} CountMonotone(lengths: seq<nat>, m: nat, n: nat, l: nat)
    requires m < n <= |lengths| && lengths[m] == l
    ensures Count(lengths, m, l) < Count(lengths, n, l)
    decreases n
  {
    if m + 1 < n {
      CountMonotone(lengths, m, n - 1, l);
    }
  }

  /** Codes of length l are the numbers just below the space used at depth l. */
  lemma CanonBelow(lengths: seq<nat>, s: nat)
    requires s < |lengths| && lengths[s] > 0
    ensures Canon(lengths, s) < Kraft(lengths, lengths[s])
  {
    KraftStep(lengths, |lengths|, lengths[s]);
    CountMonotone(lengths, s, |lengths|, lengths[s]);
  }

  lemma CanonFits(lengths: seq<nat>, bits: nat, s: nat)
    requires Fits(lengths, bits) && s < |lengths| && lengths[s] > 0
    ensures Canon(lengths, s) < Pow2(lengths[s])
  {
    CanonBelow(lengths, s);
    FitsAt(lengths, bits, lengths[s]);
  }

  /** The first d bits of symbol s's code, as a number. */
  function Prefix(lengths: seq<nat>, s: nat, d: nat): nat
    requires s < |lengths| && 0 < lengths[s] && d <= lengths[s]
  {
    Shr(Canon(lengths, s), lengths[s] - d)
  }

  lemma PrefixStep(lengths: seq<nat>, s: nat, d: nat)
    requires s < |lengths| && 0 < lengths[s] && d < lengths[s]
    ensures Prefix(lengths, s, d + 1) == 2 * Prefix(lengths, s, d) + BitValue(CodeBits(lengths, s)[d])
  {
    ShrStep(Canon(lengths, s), lengths[s] - d - 1);
  }

  lemma PrefixFull(lengths: seq<nat>, s: nat)
    requires s < |lengths| && 0 < lengths[s]
    ensures Prefix(lengths, s, lengths[s]) == Canon(lengths, s)
  {
  }

  lemma PrefixStart(lengths: seq<nat>, bits: nat, s: nat)
    requires Fits(lengths, bits) && s < |lengths| && 0 < lengths[s]
    ensures Prefix(lengths, s, 0) == 0
  {
    CanonFits(lengths, bits, s);
    ShrSmall(Canon(lengths, s), lengths[s]);
  }

  /** A proper prefix of a code lies beyond the space used by the codes of its own length. */
  lemma {:induction false} PrefixBeyond(lengths: seq<nat>, s: nat, d: nat)
    requires s < |lengths| && 0 < lengths[s] && d < lengths[s]
    ensures Prefix(lengths, s, d) >= Kraft(lengths, d)
    decreases lengths[s] - d
  {
    PrefixStep(lengths, s, d);
    if d + 1 == lengths[s] {
      assert Prefix(lengths, s, d + 1) == Canon(lengths, s);
    } else {
      PrefixBeyond(lengths, s, d + 1);
      KraftStep(lengths, |lengths|, d + 1);
    }
  }

  lemma {:induction false} PrefixBelow(lengths: seq<nat>, bits: nat, s: nat, d: nat)
    requires Fits(lengths, bits) && s < |lengths| && 0 < lengths[s] && d <= lengths[s]
    ensures Prefix(lengths, s, d) < Pow2(d)
    decreases d
  {
    if d == 0 {
      PrefixStart(lengths, bits, s);
    } else {
      PrefixBelow(lengths, bits, s, d - 1);
      PrefixStep(lengths, s, d - 1);
    }
  }

  /** No code is a prefix of another symbol's code. */
  lemma PrefixFree(lengths: seq<nat>, s: nat, t: nat)
    requires s < |lengths| && t < |lengths| && s != t
    requires 0 < lengths[s] <= lengths[t]
    ensures Prefix(lengths, t, lengths[s]) != Canon(lengths, s)
  {
    var l := lengths[s];
    if l < lengths[t] {
      CanonBelow(lengths, s);
      PrefixBeyond(lengths, t, l);
    } else if s < t {
      CountMonotone(lengths, s, t, l);
    } else {
      CountMonotone(lengths, t, s, l);
    }
  }

  // ----- Codes do not depend on how many unused symbols follow -----

  lemma {:induction false} PadCounts(lengths: seq<nat>, zeros: nat, n: nat, l: nat)
    requires n <= |lengths|
    ensures var padded := lengths + seq(zeros, _ => 0);
            KraftTo(padded, n, l) == KraftTo(lengths, n, l) && Count(padded, n, l) == Count(lengths, n, l)
  {
    if n > 0 {
      PadCounts(lengths, zeros, n - 1, l);
    }
  }

  lemma {:induction false} PadKraft(lengths: seq<nat>, zeros: nat, n: nat, l: nat)
    requires n <= zeros
    ensures KraftTo(lengths + seq(zeros, _ => 0), |lengths| + n, l) == Kraft(lengths, l)
  {
    if n == 0 {
      PadCounts(lengths, zeros, |lengths|, l);
    } else {
      PadKraft(lengths, zeros, n - 1, l);
    }
  }

  lemma PadCode(lengths: seq<nat>, zeros: nat, s: nat)
    requires s < |lengths| && lengths[s] > 0
    ensures Canon(lengths + seq(zeros, _ => 0), s) == Canon(lengths, s)
  {
    PadKraft(lengths, zeros, zeros, lengths[s] - 1);
    PadCounts(lengths, zeros, s, lengths[s]);
  }
}
