/** How many entries the tables of a code take, and where each of them starts. */
module VlcSize {
  import opened Powers
  import opened Vlc

  /** The bits the longest of the first m codes still needs below entry idx. */
  function MaxBelow(c: Code, pre: seq<bool>, nb: nat, idx: nat, m: nat): nat
    requires m <= |c.lens|
  {
    if m == 0 then 0
    else
      var rest := MaxBelow(c, pre, nb, idx, m - 1);
      if Passes(c, m - 1, pre, nb, idx) && c.lens[m - 1] - |pre| - nb > rest then c.lens[m - 1] - |pre| - nb else rest
  }

  lemma {:induction false} MaxBelowAll(c: Code, pre: seq<bool>, nb: nat, idx: nat, m: nat, s: nat)
    requires m <= |c.lens| && s < m && Passes(c, s, pre, nb, idx)
    ensures MaxBelow(c, pre, nb, idx, m) >= c.lens[s] - |pre| - nb
  {
    hide Word, Path;
    if s < m - 1 {
      MaxBelowAll(c, pre, nb, idx, m - 1, s);
    }
  }

  lemma {:induction false} MaxBelowOne(c: Code, pre: seq<bool>, nb: nat, idx: nat, m: nat) returns (s: nat)
    requires m <= |c.lens| && MaxBelow(c, pre, nb, idx, m) > 0
    ensures s < m && Passes(c, s, pre, nb, idx) && MaxBelow(c, pre, nb, idx, m) == c.lens[s] - |pre| - nb
  {
    hide Word, Path;
    if Passes(c, m - 1, pre, nb, idx) && c.lens[m - 1] - |pre| - nb > MaxBelow(c, pre, nb, idx, m - 1) {
      s := m - 1;
    } else {
      s := MaxBelowOne(c, pre, nb, idx, m - 1);
    }
  }

  /** The bits of the table below entry idx; 0 if there is none. */
  function SubBits(c: Code, pre: seq<bool>, nb: nat, idx: nat): (n: nat)
    ensures n <= nb
  {
    var most := MaxBelow(c, pre, nb, idx, |c.lens|);
    if most > nb then nb else most
  }

  /** The entries of a table and of all tables below it. */
  function Size(c: Code, pre: seq<bool>, nb: nat, longest: nat): nat
    requires nb > 0
    decreases if longest > |pre| then longest - |pre| else 0, 1, 0
  {
    Pow2(nb) + Below(c, pre, nb, longest, Pow2(nb))
  }

  /** The entries of the tables below the first `upto` entries. */
  function Below(c: Code, pre: seq<bool>, nb: nat, longest: nat, upto: nat): nat
    requires nb > 0
    decreases if longest > |pre| then longest - |pre| else 0, 0, upto
  {
    if upto == 0 then 0
    else
      var n := SubBits(c, pre, nb, upto - 1);
      Below(c, pre, nb, longest, upto - 1)
      + if n == 0 || |pre| + nb >= longest then 0 else Size(c, Path(pre, nb, upto - 1), n, longest)
  }

  /** Every table below the first `upto` entries starts where a 16-bit entry can point to. */
  ghost predicate NarrowTo(c: Code, base: nat, pre: seq<bool>, nb: nat, longest: nat, upto: nat)
    requires nb > 0
    decreases if longest > |pre| then longest - |pre| else 0, 1
  {
    forall idx: nat :: idx < upto ==> NarrowAt(c, base, pre, nb, longest, idx)
  }

  ghost predicate NarrowAt(c: Code, base: nat, pre: seq<bool>, nb: nat, longest: nat, idx: nat)
    requires nb > 0
    decreases if longest > |pre| then longest - |pre| else 0, 0
  {
    var n, start := SubBits(c, pre, nb, idx), base + Pow2(nb) + Below(c, pre, nb, longest, idx);
    n > 0 && |pre| + nb < longest ==> start <= 32767 && NarrowTo(c, start, Path(pre, nb, idx), n, longest, Pow2(n))
  }

  lemma BelowStep(c: Code, pre: seq<bool>, nb: nat, longest: nat, i: nat)
    requires nb > 0
    ensures var n := SubBits(c, pre, nb, i);
            Below(c, pre, nb, longest, i + 1) == Below(c, pre, nb, longest, i)
            + if n == 0 || |pre| + nb >= longest then 0 else Size(c, Path(pre, nb, i), n, longest)
    ensures Below(c, pre, nb, longest, 0) == 0
  {
    hide SubBits, Path, Pow2;
  }

  lemma NarrowStep(c: Code, base: nat, pre: seq<bool>, nb: nat, longest: nat, i: nat)
    requires nb > 0
    ensures NarrowTo(c, base, pre, nb, longest, i + 1) <==>
            NarrowTo(c, base, pre, nb, longest, i) && NarrowAt(c, base, pre, nb, longest, i)
    ensures NarrowTo(c, base, pre, nb, longest, 0)
  {
    hide NarrowAt;
  }
}
