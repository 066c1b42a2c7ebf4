/**
 * Variable-length codes decoded through lookup tables of several levels: each
 * table resolves some bits at once, and an entry either names a symbol or a
 * further table.
 */
module Vlc {
  import opened Powers
  import opened BitStream
  import opened ReversedBits
  import opened VlcBits

  /** A code: symbol s has the lens[s] low bits of codes[s]; length 0 means no code. */
  datatype Code = Code(lens: seq<nat>, codes: seq<nat>)

  predicate Coded(c: Code, s: nat) { s < |c.lens| == |c.codes| && c.lens[s] > 0 }

  function Word(c: Code, s: nat): (b: seq<bool>)
    requires Coded(c, s)
    ensures |b| == c.lens[s]
  {
    HighBits(c.codes[s], c.lens[s])
  }

  ghost predicate CodeOk(c: Code, longest: nat) {
    |c.lens| == |c.codes| && forall s: nat :: Coded(c, s) ==> c.codes[s] < Pow2(c.lens[s]) && c.lens[s] <= longest
  }

  ghost predicate PrefixFree(c: Code) {
    forall s: nat, t: nat :: Coded(c, s) && Coded(c, t) && Word(c, s) <= Word(c, t) ==> s == t
  }

  // ----- Tables -----

  datatype Entry = Entry(code: int, bits: int)

  /** A value stored as a signed integer of 16 bits. */
  function Int16(x: int): (r: int)
    ensures -32768 <= r <= 32767
  {
    (x + 32768) % 65536 - 32768
  }

  /** An entry as the table stores it. */
  function Store(e: Entry): Entry { Entry(Int16(e.code), Int16(e.bits)) }

  function StoreAll(t: seq<Entry>): (r: seq<Entry>)
    ensures |r| == |t| && forall k :: 0 <= k < |t| ==> r[k] == Store(t[k])
  {
    seq(|t|, k requires 0 <= k < |t| => Store(t[k]))
  }

  lemma StoreUpdate(t: seq<Entry>, k: nat, e: Entry)
    requires k < |t|
    ensures StoreAll(t[k := e]) == StoreAll(t)[k := Store(e)]
  {
    hide Store;
  }

  lemma SmallStays(x: int)
    requires -32768 <= x <= 32767
    ensures Int16(x) == x
  {
  }

  predicate Fits16(e: Entry) { -32768 <= e.code <= 32767 }

  /** A table is stored as it is exactly when its codes fit, given that its bits do. */
  lemma StoredIs(t: seq<Entry>)
    requires forall k :: 0 <= k < |t| ==> -32768 <= t[k].bits <= 32767
    ensures StoreAll(t) == t <==> AllFit(t, 0)
  {
    forall k | 0 <= k < |t|
      ensures Store(t[k]) == t[k] <==> Fits16(t[k])
    {
      SmallStays(t[k].bits);
      if Fits16(t[k]) {
        SmallStays(t[k].code);
      }
    }
  }

  ghost predicate AllFit(t: seq<Entry>, from: nat) { forall k :: from <= k < |t| ==> Fits16(t[k]) }

  /** No entry asks for more bits than a full table has. */
  ghost predicate Shallow(t: seq<Entry>, from: nat,
                          full: nat) { forall k :: from <= k < |t| ==> 0 <= t[k].bits + full && t[k].bits <= 32767 }

  /** Entry idx of the table of nb bits for prefix `pre` stands for these bits. */
  function Path(pre: seq<bool>, nb: nat, idx: nat): seq<bool> { pre + HighBits(idx, nb) }

  /** The code of s ends inside entry idx. */
  predicate Covers(c: Code, s: nat, pre: seq<bool>, nb: nat, idx: nat) {
    Coded(c, s) && |pre| < c.lens[s] <= |pre| + nb && Word(c, s) <= Path(pre, nb, idx)
  }

  /** The code of s goes on after entry idx. */
  predicate Passes(c: Code, s: nat, pre: seq<bool>, nb: nat, idx: nat) {
    Coded(c, s) && c.lens[s] > |pre| + nb && Path(pre, nb, idx) <= Word(c, s)
  }

  /**
   * The table at `base` decodes every code with the given prefix: with `full` the number of
   * bits of a full table, only full tables have further tables below them.
   */
  ghost predicate TableOk(c: Code, t: seq<Entry>, base: nat, nb: nat, pre: seq<bool>, full: nat, longest: nat)
    requires CodeOk(c, longest)
    decreases longest - |pre|
  {
    && 0 < nb <= full && base + Pow2(nb) <= |t|
    && (forall s: nat, idx: nat :: idx < Pow2(nb) && Covers(c, s, pre, nb, idx) ==>
        t[base + idx] == Entry(s, c.lens[s] - |pre|))
    && (forall s: nat, idx: nat :: idx < Pow2(nb) && Passes(c, s, pre, nb, idx) ==>
          && nb == full && t[base + idx].bits < 0 && t[base + idx].code >= base + Pow2(nb)
          && TableOk(c, t, t[base + idx].code, -t[base + idx].bits, Path(pre, nb, idx), full, longest))
  }

  // ----- Lookup -----

  /** Bits that begin with the rest of a code, or with which it begins, lead to its entry. */
  lemma EntryOf(c: Code, s: nat, pre: seq<bool>, nb: nat, stream: seq<bool>, bp: nat)
    requires Coded(c, s) && pre <= Word(c, s) && |pre| < c.lens[s] && bp + nb <= |stream|
    requires At(stream, bp, Word(c, s)[|pre|..])
    ensures var idx := Index(stream[bp..bp + nb]);
            && idx < Pow2(nb)
            && (c.lens[s] <= |pre| + nb ==> Covers(c, s, pre, nb, idx))
            && (c.lens[s] > |pre| + nb ==> Passes(c, s, pre, nb, idx) && Path(pre, nb, idx) <= Word(c, s)
                                           && At(stream, bp + nb, Word(c, s)[|pre| + nb..]))
  {
    hide Pow2, HighBits, Word;
    var next, code := stream[bp..bp + nb], Word(c, s);
    IndexBits(next);
    var rest := code[|pre|..];
    assert code == pre + rest;
    assert stream[bp..bp + |rest|] == rest;
    if |rest| <= nb {
      assert next[..|rest|] == rest;
      assert (pre + next)[..|code|] == code;
    } else {
      assert next == rest[..nb];
      assert code[..|pre| + nb] == pre + next;
      assert stream[bp + nb..bp + |rest|] == rest[nb..] == code[|pre| + nb..];
    }
  }

  lemma NextTable(c: Code, t: seq<Entry>, base: nat, nb: nat, pre: seq<bool>, full: nat, longest: nat)
    requires CodeOk(c, longest) && TableOk(c, t, base, nb, pre, full, longest)
    ensures 0 < nb <= full
  {
  }
}
