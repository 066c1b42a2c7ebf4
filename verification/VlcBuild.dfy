/** Building the lookup tables: alloc_table, build_table and init_vlc, and reading a symbol with get_vlc2. */
module VlcBuild {
  import opened Powers
  import opened BitStream
  import opened ReversedBits
  import opened VlcBits
  import opened Vlc
  import opened VlcSize

  // ----- Which entries a code concerns -----

  /** A code that concerns a table has its prefix. */
  lemma HasPrefix(c: Code, s: nat, pre: seq<bool>, nb: nat, idx: nat)
    requires Covers(c, s, pre, nb, idx) || Passes(c, s, pre, nb, idx)
    ensures Coded(c, s) && |pre| < c.lens[s] && pre <= Word(c, s)
  {
    hide Word;
    var path, code := Path(pre, nb, idx), Word(c, s);
    assert path[..|pre|] == pre;
    if Covers(c, s, pre, nb, idx) {
      assert code[..|pre|] == path[..|pre|];
    } else {
      assert path == code[..|path|];
      assert code[..|pre|] == path[..|pre|];
    }
  }

  /** The test the loop makes: code >> n == code_prefix. */
  lemma PrefixTest(c: Code, s: nat, prefix: nat, np: nat)
    requires Coded(c, s) && c.codes[s] < Pow2(c.lens[s]) && np < c.lens[s] && prefix < Pow2(np)
    ensures Shr(c.codes[s], c.lens[s] - np) == prefix <==> HighBits(prefix, np) <= Word(c, s)
  {
    hide Pow2, Shr, HighBits;
    var len, v := c.lens[s], c.codes[s];
    ShrBound(v, len - np, np);
    ShrHighBits(v, len, len - np);
    SameHighBits(Shr(v, len - np), prefix, np);
    assert Word(c, s)[..np] == HighBits(Shr(v, len - np), np);
  }

  /** The first entry a short code covers. */
  function FirstEntry(code: nat, nb: nat, n: nat): nat
    requires n <= nb
  {
    Mod(code * Pow2(nb - n), Pow2(nb))
  }

  lemma PrefixOfSum(a: seq<bool>, b: seq<bool>, x: seq<bool>)
    requires |b| <= |x|
    ensures a + b <= a + x <==> b <= x
  {
    if a + b <= a + x {
      assert (a + x)[..|a + b|] == a + b;
      assert x[..|b|] == (a + x)[|a|..|a| + |b|] == (a + b)[|a|..] == b;
    }
    if b <= x {
      assert (a + x)[..|a| + |b|] == a + x[..|b|];
    }
  }

  /** Shifting up and masking, and shifting down again, leaves the low n bits of the code. */
  lemma {:induction false} ShiftMask(code: nat, nb: nat, n: nat)
    requires n <= nb
    ensures FirstEntry(code, nb, n) == Mod(code, Pow2(n)) * Pow2(nb - n)
  {
    hide Pow2, Mod;
    Pow2Add(n, nb - n);
    var low, p, q := Mod(code, Pow2(n)), Pow2(n), Pow2(nb - n);
    Divided(code, p);
    ScaleMod(code, p, q, code / p, low);
  }

  lemma ScaleMod(x: nat, p: nat, q: nat, k: nat, r: nat)
    requires p > 0 && q > 0 && x == p * k + r && r < p
    ensures Mod(x * q, p * q) == r * q
  {
    Scale(p, k, r, q);
    MulMonotone(q, r + 1, p);
    BelowProduct(r, q, p);
    ModUnique(x * q, p * q, k, r * q);
  }

  lemma Scale(p: nat, k: nat, r: nat, q: nat)
    ensures (p * k + r) * q == (p * q) * k + r * q
  {
    var pk: nat := p * k;
    assert (pk + r) * q == pk * q + r * q;
    assert pk * q == p * (k * q) && p * (k * q) == (p * q) * k;
  }

  lemma BelowProduct(r: nat, q: nat, p: nat)
    requires q > 0 && q * (r + 1) <= q * p
    ensures r * q < p * q
  {
    assert q * (r + 1) == r * q + q && q * p == p * q;
  }

  /** An entry lies in the range of a short code exactly when its first bits are the rest of the code. */
  lemma RangeBits(idx: nat, nb: nat, n: nat, low: nat)
    requires n <= nb && idx < Pow2(nb) && low < Pow2(n)
    ensures low * Pow2(nb - n) <= idx < low * Pow2(nb - n) + Pow2(nb - n) <==>
              HighBits(idx, nb)[..n] == HighBits(low, n)
  {
    hide Pow2, HighBits, Shr;
    var k := nb - n;
    ShrHighBits(idx, nb, k);
    ShrBound(idx, k, n);
    SameHighBits(Shr(idx, k), low, n);
    ShrIsDiv(idx, k);
    DivRange(idx, Pow2(k), low);
  }

  lemma DivRange(x: nat, m: nat, q: nat)
    requires m > 0
    ensures q * m <= x < q * m + m <==> x / m == q
  {
    DivMod(x, m);
    if q * m <= x < q * m + m {
      QuotientIs(x, m, q, x - q * m);
    }
  }

  lemma CoverRange(c: Code, s: nat, pre: seq<bool>, nb: nat, idx: nat)
    requires Coded(c, s) && pre <= Word(c, s) && |pre| < c.lens[s] <= |pre| + nb && idx < Pow2(nb)
    ensures var n := c.lens[s] - |pre|;
            var j := FirstEntry(c.codes[s], nb, n);
            Covers(c, s, pre, nb, idx) <==> j <= idx < j + Pow2(nb - n)
  {
    hide Pow2, HighBits, Mod, FirstEntry;
    var n, v := c.lens[s] - |pre|, c.codes[s];
    ShiftMask(v, nb, n);
    Divided(v, Pow2(n));
    RangeBits(idx, nb, n, Mod(v, Pow2(n)));
    LowBitsOf(v, c.lens[s], n);
    var rest := Word(c, s)[|pre|..];
    assert Word(c, s) == pre + rest;
    PrefixOfSum(pre, rest, HighBits(idx, nb));
  }

  lemma LowBitsOf(v: nat, len: nat, n: nat)
    requires n <= len
    ensures HighBits(Mod(v, Pow2(n)), n) == HighBits(v, len)[len - n..]
  {
    hide Pow2, HighBits;
    ModHighBits(v, len, n);
  }

  lemma RangeInTable(code: nat, nb: nat, n: nat)
    requires n <= nb
    ensures FirstEntry(code, nb, n) + Pow2(nb - n) <= Pow2(nb)
  {
    hide Pow2, Mod, FirstEntry;
    ShiftMask(code, nb, n);
    Divided(code, Pow2(n));
    Pow2Add(n, nb - n);
    var low := Mod(code, Pow2(n));
    MulMonotone(Pow2(nb - n), low + 1, Pow2(n));
    assert Pow2(nb - n) * (low + 1) == low * Pow2(nb - n) + Pow2(nb - n);
  }

  /** The entry a long code goes through. */
  lemma PassIndex(c: Code, s: nat, pre: seq<bool>, nb: nat, idx: nat)
    requires Coded(c, s) && pre <= Word(c, s) && c.lens[s] > |pre| + nb && idx < Pow2(nb)
    ensures Passes(c, s, pre, nb, idx) <==> idx == Mod(Shr(c.codes[s], c.lens[s] - |pre| - nb), Pow2(nb))
  {
    hide Pow2, HighBits, Mod, Shr;
    var len, v := c.lens[s], c.codes[s];
    var k := len - |pre| - nb;
    var top := Shr(v, k);
    ShrHighBits(v, len, k);
    LowBitsOf(top, |pre| + nb, nb);
    Divided(top, Pow2(nb));
    SameHighBits(idx, Mod(top, Pow2(nb)), nb);
    var rest := Word(c, s)[|pre|..];
    assert Word(c, s) == pre + rest;
    assert rest[..nb] == Word(c, s)[..|pre| + nb][|pre|..];
    PrefixOfSum(pre, HighBits(idx, nb), rest);
  }

  // ----- Entries after some of the symbols -----

  /** Entry idx after the first m symbols: a symbol that ends here, the bits still needed below, or nothing. */
  ghost predicate Filled(c: Code, e: Entry, pre: seq<bool>, nb: nat, idx: nat, m: nat) {
    && (forall s: nat :: s < m && Covers(c, s, pre, nb, idx) ==> e == Entry(s, c.lens[s] - |pre|))
    && (forall s: nat :: s < m && Passes(c, s, pre, nb, idx) ==> e.bits < 0 && -e.bits >= c.lens[s] - |pre| - nb)
    && (e.bits < 0 ==> exists s: nat :: s < m && Passes(c, s, pre, nb, idx) && -e.bits == c.lens[s] - |pre| - nb)
    && (e.bits > 0 ==> exists s: nat :: s < m && Covers(c, s, pre, nb, idx))
    && (e.code == -1 || 0 <= e.code < |c.lens|)
  }

  /** The bits of an entry are few, and tell how many the longest code below it needs. */
  lemma FilledBits(c: Code, e: Entry, pre: seq<bool>, nb: nat, idx: nat, m: nat, longest: nat)
    requires CodeOk(c, longest) && m <= |c.lens| && Filled(c, e, pre, nb, idx, m)
    ensures 0 <= e.bits + longest && e.bits <= longest
    ensures MaxBelow(c, pre, nb, idx, m) == if e.bits < 0 then -e.bits else 0
  {
    hide Word, Path, Pow2;
    if e.bits > 0 {
      var s: nat :| s < m && Covers(c, s, pre, nb, idx);
    }
    if MaxBelow(c, pre, nb, idx, m) > 0 {
      var s := MaxBelowOne(c, pre, nb, idx, m);
    }
    if e.bits < 0 {
      var s: nat :| s < m && Passes(c, s, pre, nb, idx) && -e.bits == c.lens[s] - |pre| - nb;
      MaxBelowAll(c, pre, nb, idx, m, s);
    }
  }

  ghost predicate FilledAll(c: Code, t: seq<Entry>, base: nat, pre: seq<bool>, nb: nat, m: nat) {
    base + Pow2(nb) <= |t| && forall idx: nat :: idx < Pow2(nb) ==> FilledAt(c, t, base, pre, nb, idx, m)
  }

  ghost predicate FilledAt(c: Code, t: seq<Entry>, base: nat, pre: seq<bool>, nb: nat, idx: nat, m: nat) {
    base + idx < |t| && Filled(c, t[base + idx], pre, nb, idx, m)
  }

  /** Two prefixes of the same bits are comparable. */
  lemma Comparable(a: seq<bool>, b: seq<bool>, x: seq<bool>)
    requires a <= x && b <= x
    ensures a <= b || b <= a
  {
    if |a| <= |b| {
      assert a == x[..|a|] == x[..|b|][..|a|];
    } else {
      assert b == x[..|b|] == x[..|a|][..|b|];
    }
  }

  /** In a prefix-free code at most one symbol ends in an entry, and then none goes on. */
  lemma OneSymbol(c: Code, s: nat, t: nat, pre: seq<bool>, nb: nat, idx: nat)
    requires PrefixFree(c) && Covers(c, s, pre, nb, idx) && (Covers(c, t, pre, nb, idx) || Passes(c, t, pre, nb, idx))
    ensures s == t && !Passes(c, t, pre, nb, idx)
  {
    hide Word, Path;
    var path := Path(pre, nb, idx);
    if Covers(c, t, pre, nb, idx) {
      Comparable(Word(c, s), Word(c, t), path);
    } else {
      Transitive(Word(c, s), path, Word(c, t));
    }
  }

  lemma Transitive(a: seq<bool>, b: seq<bool>, x: seq<bool>)
    requires a <= b && b <= x
    ensures a <= x
  {
    assert x[..|b|][..|a|] == x[..|a|];
  }

  /** A symbol that does not concern an entry leaves it filled. */
  lemma FilledOther(c: Code, e: Entry, pre: seq<bool>, nb: nat, idx: nat, m: nat)
    requires Filled(c, e, pre, nb, idx, m) && !Covers(c, m, pre, nb, idx) && !Passes(c, m, pre, nb, idx)
    ensures Filled(c, e, pre, nb, idx, m + 1)
  {
    hide Covers, Passes;
  }

  /** An entry is still empty when the symbol that ends in it comes. */
  lemma FilledShort(c: Code, e: Entry, pre: seq<bool>, nb: nat, idx: nat, m: nat)
    requires PrefixFree(c) && Filled(c, e, pre, nb, idx, m) && Covers(c, m, pre, nb, idx)
    ensures e.bits == 0 && Filled(c, Entry(m, c.lens[m] - |pre|), pre, nb, idx, m + 1)
  {
    hide PrefixFree, Path, Word;
    if e.bits != 0 {
      var s: nat :| s < m && (Covers(c, s, pre, nb, idx) || Passes(c, s, pre, nb, idx));
      OneSymbol(c, m, s, pre, nb, idx);
    }
    assert forall s: nat :: s < m ==> !Covers(c, s, pre, nb, idx) && !Passes(c, s, pre, nb, idx);
  }

  /** A symbol that goes on after the entry raises the number of bits needed below. */
  lemma FilledLong(c: Code, e: Entry, pre: seq<bool>, nb: nat, idx: nat, m: nat)
    requires PrefixFree(c) && Filled(c, e, pre, nb, idx, m) && Passes(c, m, pre, nb, idx)
    ensures var n := c.lens[m] - |pre| - nb; Filled(c, Entry(e.code, -(if n > -e.bits then n else -e.bits)), pre, nb,
                                                    idx, m + 1)
  {
    hide PrefixFree, Path, Word;
    if e.bits > 0 {
      var s: nat :| s < m && Covers(c, s, pre, nb, idx);
      OneSymbol(c, s, m, pre, nb, idx);
    }
    forall s: nat | s < m
      ensures !Covers(c, s, pre, nb, idx)
    {
      if Covers(c, s, pre, nb, idx) {
        OneSymbol(c, s, m, pre, nb, idx);
      }
    }
    var n := c.lens[m] - |pre| - nb;
    var e' := Entry(e.code, -(if n > -e.bits then n else -e.bits));
    if n <= -e.bits {
      var s: nat :| s < m && Passes(c, s, pre, nb, idx) && -e.bits == c.lens[s] - |pre| - nb;
      assert -e'.bits == c.lens[s] - |pre| - nb;
    }
  }

  lemma EmptyFilled(c: Code, t: seq<Entry>, base: nat, pre: seq<bool>, nb: nat)
    requires base + Pow2(nb) == |t| && forall k :: base <= k < |t| ==> t[k] == Entry(-1, 0)
    ensures FilledAll(c, t, base, pre, nb, 0)
  {
    hide Covers, Passes, Pow2;
  }

  lemma FilledAllOther(c: Code, t: seq<Entry>, base: nat, pre: seq<bool>, nb: nat, m: nat)
    requires FilledAll(c, t, base, pre, nb, m)
    requires forall idx: nat :: idx < Pow2(nb) ==> !Covers(c, m, pre, nb, idx) && !Passes(c, m, pre, nb, idx)
    ensures FilledAll(c, t, base, pre, nb, m + 1)
  {
    hide Covers, Passes, Pow2, Filled;
    var m' := m + 1;
    forall idx: nat | idx < Pow2(nb)
      ensures FilledAt(c, t, base, pre, nb, idx, m')
    {
      assert FilledAt(c, t, base, pre, nb, idx, m);
      FilledOther(c, t[base + idx], pre, nb, idx, m);
    }
  }

  /** Entries from `from` to `to` have been given to symbol m. */
  ghost predicate FilledPart(c: Code, t: seq<Entry>, base: nat, pre: seq<bool>, nb: nat, m: nat, from: nat, to: nat) {
    && base + Pow2(nb) <= |t|
    && forall idx: nat :: idx < Pow2(nb) ==> PartAt(c, t, base, pre, nb, idx, m, from, to)
  }

  ghost predicate PartAt(c: Code, t: seq<Entry>, base: nat, pre: seq<bool>, nb: nat, idx: nat, m: nat, from: nat,
                         to: nat) {
    FilledAt(c, t, base, pre, nb, idx, if from <= idx < to then m + 1 else m)
  }

  lemma PartNext(c: Code, t: seq<Entry>, base: nat, pre: seq<bool>, nb: nat, m: nat, from: nat, to: nat)
    requires PrefixFree(c) && FilledPart(c, t, base, pre, nb, m, from, to) && from <= to < Pow2(nb)
    requires Covers(c, m, pre, nb, to)
    ensures base + to < |t| && t[base + to].bits == 0
    ensures FilledPart(c, t[base + to := Entry(m, c.lens[m] - |pre|)], base, pre, nb, m, from, to + 1)
  {
    hide PrefixFree, Filled, Pow2, Covers;
    assert PartAt(c, t, base, pre, nb, to, m, from, to);
    CoversCoded(c, m, pre, nb, to);
    FilledShort(c, t[base + to], pre, nb, to, m);
    var t' := t[base + to := Entry(m, c.lens[m] - |pre|)];
    var end := to + 1;
    forall idx: nat | idx < Pow2(nb)
      ensures PartAt(c, t', base, pre, nb, idx, m, from, end)
    {
      assert PartAt(c, t, base, pre, nb, idx, m, from, to);
    }
  }

  lemma CoversCoded(c: Code, s: nat, pre: seq<bool>, nb: nat, idx: nat)
    requires Covers(c, s, pre, nb, idx)
    ensures Coded(c, s)
  {
  }

  lemma PartDone(c: Code, t: seq<Entry>, base: nat, pre: seq<bool>, nb: nat, m: nat, from: nat, to: nat)
    requires FilledPart(c, t, base, pre, nb, m, from, to)
    requires forall idx: nat :: idx < Pow2(nb) ==>
               !Passes(c, m, pre, nb, idx) && (Covers(c, m, pre, nb, idx) <==> from <= idx < to)
    ensures FilledAll(c, t, base, pre, nb, m + 1)
  {
    hide Covers, Passes, Pow2, Filled;
    var m' := m + 1;
    forall idx: nat | idx < Pow2(nb)
      ensures FilledAt(c, t, base, pre, nb, idx, m')
    {
      assert PartAt(c, t, base, pre, nb, idx, m, from, to);
      if !(from <= idx < to) {
        FilledOther(c, t[base + idx], pre, nb, idx, m);
      }
    }
  }

  lemma LongDone(c: Code, t: seq<Entry>, base: nat, pre: seq<bool>, nb: nat, m: nat, j: nat, e: Entry)
    requires PrefixFree(c) && Coded(c, m) && FilledAll(c, t, base, pre, nb, m) && j < Pow2(nb)
    requires forall idx: nat :: idx < Pow2(nb) ==>
               !Covers(c, m, pre, nb, idx) && (Passes(c, m, pre, nb, idx) <==> idx == j)
    requires var n := c.lens[m] - |pre| - nb;
             var was := t[base + j];
             e == Entry(was.code, -(if n > -was.bits then n else -was.bits))
    ensures FilledAll(c, t[base + j := e], base, pre, nb, m + 1)
  {
    hide Covers, Passes, Pow2, Filled, PrefixFree;
    var t' := t[base + j := e];
    var m' := m + 1;
    forall idx: nat | idx < Pow2(nb)
      ensures FilledAt(c, t', base, pre, nb, idx, m')
    {
      assert FilledAt(c, t, base, pre, nb, idx, m);
      if idx == j {
        FilledLong(c, t[base + j], pre, nb, idx, m);
      } else {
        FilledOther(c, t[base + idx], pre, nb, idx, m);
      }
    }
  }

  // ----- What later tables leave alone -----

  /** A table and everything below it uses no entry before its own start. */
  lemma {:induction false} TableKept(c: Code, t: seq<Entry>, t': seq<Entry>, base: nat, nb: nat, pre: seq<bool>,
                                     full: nat, longest: nat)
    requires CodeOk(c, longest) && TableOk(c, t, base, nb, pre, full, longest)
    requires |t| <= |t'| && forall k :: base <= k < |t| ==> t'[k] == t[k]
    ensures TableOk(c, t', base, nb, pre, full, longest)
    decreases longest - |pre|
  {
    hide Pow2, Covers;
    forall s: nat, idx: nat | idx < Pow2(nb) && Passes(c, s, pre, nb, idx)
      ensures && nb == full && t'[base + idx].bits < 0 && t'[base + idx].code >= base + Pow2(nb)
              && TableOk(c, t', t'[base + idx].code, -t'[base + idx].bits, Path(pre, nb, idx), full, longest)
    {
      TableKept(c, t, t', t[base + idx].code, -t[base + idx].bits, Path(pre, nb, idx), full, longest);
    }
  }

  /** Entry idx is final: a symbol that ends here, or a table for those that go on. */
  ghost predicate EntryDone(c: Code, t: seq<Entry>, base: nat, nb: nat, pre: seq<bool>, full: nat, longest: nat,
                            idx: nat)
    requires CodeOk(c, longest)
  {
    && base + idx < |t|
    && (forall s: nat :: Covers(c, s, pre, nb, idx) ==> t[base + idx] == Entry(s, c.lens[s] - |pre|))
    && ((exists s: nat :: Passes(c, s, pre, nb, idx)) ==>
          && nb == full && t[base + idx].bits < 0 && t[base + idx].code >= base + Pow2(nb)
          && TableOk(c, t, t[base + idx].code, -t[base + idx].bits, Path(pre, nb, idx), full, longest))
  }

  /** The first `upto` entries are final, the rest as the symbols left them. */
  ghost predicate DoneTo(c: Code, t: seq<Entry>, base: nat, nb: nat, pre: seq<bool>, full: nat, longest: nat, upto: nat)
    requires CodeOk(c, longest)
  {
    && base + Pow2(nb) <= |t| && upto <= Pow2(nb)
    && (forall idx: nat :: idx < upto ==> EntryDone(c, t, base, nb, pre, full, longest, idx))
    && (forall idx: nat :: upto <= idx < Pow2(nb) ==> FilledAt(c, t, base, pre, nb, idx, |c.lens|))
  }

  lemma AllEntriesDone(c: Code, t: seq<Entry>, base: nat, nb: nat, pre: seq<bool>, full: nat, longest: nat)
    requires CodeOk(c, longest) && DoneTo(c, t, base, nb, pre, full, longest, Pow2(nb)) && 0 < nb <= full
    ensures TableOk(c, t, base, nb, pre, full, longest)
  {
    hide Pow2, Word, Passes, Path;
    forall s: nat, idx: nat | idx < Pow2(nb) && Covers(c, s, pre, nb, idx)
      ensures t[base + idx] == Entry(s, c.lens[s] - |pre|)
    {
      assert EntryDone(c, t, base, nb, pre, full, longest, idx);
    }
    forall s: nat, idx: nat | idx < Pow2(nb) && Passes(c, s, pre, nb, idx)
      ensures && nb == full && t[base + idx].bits < 0 && t[base + idx].code >= base + Pow2(nb)
              && TableOk(c, t, t[base + idx].code, -t[base + idx].bits, Path(pre, nb, idx), full, longest)
    {
      assert EntryDone(c, t, base, nb, pre, full, longest, idx);
    }
  }

  /** An entry with nothing below it is final as it is. */
  lemma LeafDone(c: Code, t: seq<Entry>, base: nat, nb: nat, pre: seq<bool>, full: nat, longest: nat, idx: nat)
    requires CodeOk(c, longest) && FilledAt(c, t, base, pre, nb, idx, |c.lens|) && t[base + idx].bits >= 0
    ensures EntryDone(c, t, base, nb, pre, full, longest, idx)
  {
    hide Pow2, Path, Word;
    assert forall s: nat :: Covers(c, s, pre, nb, idx) || Passes(c, s, pre, nb, idx) ==> s < |c.lens|;
  }

  /** Final entries stay final when later tables are added and later entries change. */
  lemma DoneKept(c: Code, t: seq<Entry>, t': seq<Entry>, base: nat, nb: nat, pre: seq<bool>, full: nat, longest: nat,
                 upto: nat)
    requires CodeOk(c, longest) && DoneTo(c, t, base, nb, pre, full, longest, upto) && upto < Pow2(nb) && |t| <= |t'|
    requires forall k :: base <= k < |t| && k != base + upto ==> t'[k] == t[k]
    ensures forall idx: nat :: idx < upto ==> EntryDone(c, t', base, nb, pre, full, longest, idx)
    ensures forall idx: nat :: upto < idx < Pow2(nb) ==> FilledAt(c, t', base, pre, nb, idx, |c.lens|)
  {
    hide Pow2, Covers, Passes, Path, Filled, TableOk;
    forall idx: nat | idx < upto
      ensures EntryDone(c, t', base, nb, pre, full, longest, idx)
    {
      EntryKept(c, t, t', base, nb, pre, full, longest, idx);
    }
    forall idx: nat | upto < idx < Pow2(nb)
      ensures FilledAt(c, t', base, pre, nb, idx, |c.lens|)
    {
      assert FilledAt(c, t, base, pre, nb, idx, |c.lens|);
    }
  }

  lemma EntryKept(c: Code, t: seq<Entry>, t': seq<Entry>, base: nat, nb: nat, pre: seq<bool>, full: nat, longest: nat,
                  idx: nat)
    requires CodeOk(c, longest) && EntryDone(c, t, base, nb, pre, full, longest, idx) && |t| <= |t'|
    requires t'[base + idx] == t[base + idx]
    requires forall k :: base + Pow2(nb) <= k < |t| ==> t'[k] == t[k]
    ensures EntryDone(c, t', base, nb, pre, full, longest, idx)
  {
    hide Pow2, Covers, Passes, Path, TableOk;
    if exists s: nat :: Passes(c, s, pre, nb, idx) {
      var e := t[base + idx];
      TableKept(c, t, t', e.code, -e.bits, Path(pre, nb, idx), full, longest);
    }
  }

  // ----- Where the tables stand -----

  /** Sizes and starts after the first `upto` entries have got their tables. */
  ghost predicate Layout(c: Code, t: seq<Entry>, base: nat, nb: nat, pre: seq<bool>, full: nat, longest: nat, upto: nat)
    requires nb > 0
  {
    && upto <= Pow2(nb) && |t| == base + Pow2(nb) + Below(c, pre, nb, longest, upto)
    && (|c.lens| <= 32768 ==> (FitTo(t, base, nb, upto) <==> NarrowTo(c, base, pre, nb, longest, upto)))
    && ShallowTo(t, base, nb, upto, full)
  }

  ghost predicate FitTo(t: seq<Entry>, base: nat, nb: nat, upto: nat) {
    (forall k :: base <= k < base + upto && k < |t| ==> Fits16(t[k])) && AllFit(t, base + Pow2(nb))
  }

  ghost predicate ShallowTo(t: seq<Entry>, base: nat, nb: nat, upto: nat, full: nat) {
    && (forall k :: base <= k < base + upto && k < |t| ==> 0 <= t[k].bits + full && t[k].bits <= 32767)
    && Shallow(t, base + Pow2(nb), full)
  }

  lemma LayoutStart(c: Code, t: seq<Entry>, base: nat, nb: nat, pre: seq<bool>, full: nat, longest: nat)
    requires nb > 0 && |t| == base + Pow2(nb)
    ensures Layout(c, t, base, nb, pre, full, longest, 0)
  {
    hide Pow2, Below, NarrowAt;
    BelowStep(c, pre, nb, longest, 0);
    NarrowStep(c, base, pre, nb, longest, 0);
  }

  /** An entry without a table below it. */
  lemma LayoutLeaf(c: Code, t: seq<Entry>, base: nat, nb: nat, pre: seq<bool>, full: nat, longest: nat, i: nat)
    requires nb > 0 && longest <= 31 && CodeOk(c, longest) && Layout(c, t, base, nb, pre, full, longest, i)
    requires i < Pow2(nb)
    requires FilledAt(c, t, base, pre, nb, i, |c.lens|) && t[base + i].bits >= 0
    ensures Layout(c, t, base, nb, pre, full, longest, i + 1)
  {
    hide Pow2, Below, NarrowTo, Filled;
    FilledBits(c, t[base + i], pre, nb, i, |c.lens|, longest);
    FilledCode(c, t[base + i], pre, nb, i, |c.lens|);
    BelowStep(c, pre, nb, longest, i);
    NarrowStep(c, base, pre, nb, longest, i);
  }

  lemma FilledCode(c: Code, e: Entry, pre: seq<bool>, nb: nat, idx: nat, m: nat)
    requires Filled(c, e, pre, nb, idx, m)
    ensures e.code == -1 || 0 <= e.code < |c.lens|
  {
  }

  /** An entry whose table has just been built at the end. */
  lemma LayoutBranch(c: Code, t: seq<Entry>, t': seq<Entry>, base: nat, nb: nat, pre: seq<bool>, full: nat,
                     longest: nat, i: nat, n: nat)
    requires nb > 0 && Layout(c, t, base, nb, pre, full, longest, i) && i < Pow2(nb)
    requires 0 < n == SubBits(c, pre, nb, i) <= full && |pre| + nb < longest
    requires |t'| == |t| + Size(c, Path(pre, nb, i), n, longest) && Shallow(t', |t|, full)
    requires |c.lens| <= 32768 ==> (AllFit(t', |t|) <==> NarrowTo(c, |t|, Path(pre, nb, i), n, longest, Pow2(n)))
    requires t'[base + i] == Entry(|t|, -(n as int)) && forall k :: 0 <= k < |t| && k != base + i ==> t'[k] == t[k]
    ensures Layout(c, t', base, nb, pre, full, longest, i + 1)
  {
    hide Pow2, Below, NarrowTo, Path, SubBits, Size;
    BelowStep(c, pre, nb, longest, i);
    NarrowStep(c, base, pre, nb, longest, i);
    BranchFits(t, t', base, nb, i, n);
    BranchShallow(t, t', base, nb, i, n, full);
  }

  lemma BranchFits(t: seq<Entry>, t': seq<Entry>, base: nat, nb: nat, i: nat, n: nat)
    requires base + i < base + Pow2(nb) <= |t| <= |t'| && t'[base + i] == Entry(|t|, -(n as int))
    requires forall k :: 0 <= k < |t| && k != base + i ==> t'[k] == t[k]
    ensures FitTo(t', base, nb, i + 1) <==> FitTo(t, base, nb, i) && |t| <= 32767 && AllFit(t', |t|)
  {
    hide Pow2;
    if FitTo(t', base, nb, i + 1) {
      assert Fits16(t'[base + i]);
      forall k | base <= k < base + i || base + Pow2(nb) <= k < |t|
        ensures Fits16(t[k])
      {
        assert Fits16(t'[k]);
      }
    }
    if FitTo(t, base, nb, i) && |t| <= 32767 && AllFit(t', |t|) {
      forall k | (base <= k < base + i + 1 && k < |t'|) || base + Pow2(nb) <= k < |t'|
        ensures Fits16(t'[k])
      {
      }
    }
  }

  lemma BranchShallow(t: seq<Entry>, t': seq<Entry>, base: nat, nb: nat, i: nat, n: nat, full: nat)
    requires base + i < base + Pow2(nb) <= |t| <= |t'| && t'[base + i] == Entry(|t|, -(n as int)) && n <= full
    requires ShallowTo(t, base, nb, i, full) && Shallow(t', |t|, full)
    requires forall k :: 0 <= k < |t| && k != base + i ==> t'[k] == t[k]
    ensures ShallowTo(t', base, nb, i + 1, full)
  {
    hide Pow2;
  }

  lemma LayoutDone(c: Code, t: seq<Entry>, base: nat, nb: nat, pre: seq<bool>, full: nat, longest: nat)
    requires nb > 0 && Layout(c, t, base, nb, pre, full, longest, Pow2(nb))
    ensures |t| == base + Size(c, pre, nb, longest) && Shallow(t, base, full)
    ensures |c.lens| <= 32768 ==> (AllFit(t, base) <==> NarrowTo(c, base, pre, nb, longest, Pow2(nb)))
  {
    hide Pow2, Below, NarrowTo;
  }

  // ----- The table itself -----

  const INT_MAX := 0x7fff_ffff

  /** The room for a table is the least whole number of full tables that holds it. */
  ghost predicate Allocated(size: nat, capacity: nat, bits: nat, blocks: nat) {
    && size <= capacity == Pow2(bits) * blocks
    && (capacity > 0 ==> capacity < size + Pow2(bits) && capacity + Pow2(bits) <= 0x8000_0000)
  }

  lemma AllocatedNext(size: nat, capacity: nat, bits: nat, blocks: nat, more: nat)
    requires Allocated(size, capacity, bits, blocks) && 0 < more <= Pow2(bits)
    ensures var grown := if size + more > capacity then capacity + Pow2(bits) else capacity;
            var inInt := Pow2(bits) <= INT_MAX && size + more <= INT_MAX && grown <= INT_MAX;
            && (inInt <==> size + more + Pow2(bits) <= 0x8000_0000)
            && (inInt ==> Allocated(size + more, grown, bits, if size + more > capacity then blocks + 1 else blocks))
  {
    hide Pow2;
    var full := Pow2(bits);
    assert full * (blocks + 1) == full * blocks + full;
    if full <= INT_MAX && capacity + full <= INT_MAX {
      WholeTables(bits, blocks + 1);
    }
  }

  /** 2^31 is a multiple of the smaller powers, so that below it there is room for one more full table. */
  lemma WholeTables(bits: nat, blocks: nat)
    requires Pow2(bits) <= INT_MAX && Pow2(bits) * blocks <= INT_MAX
    ensures Pow2(bits) * blocks + Pow2(bits) <= 0x8000_0000
  {
    hide Pow2;
    Power31();
    if bits >= 31 {
      Pow2Monotone(31, bits);
    }
    Pow2Add(bits, 31 - bits);
    OneMoreFits(Pow2(bits), blocks, Pow2(31 - bits));
  }

  lemma OneMoreFits(w: nat, a: nat, b: nat)
    requires w * a < w * b
    ensures w * a + w <= w * b
  {
    if b <= a {
      MulMonotone(w, b, a);
    } else {
      MulMonotone(w, a + 1, b);
      assert w * (a + 1) == w * a + w;
    }
  }

  lemma Power31()
    ensures Pow2(31) == 0x8000_0000
  {
    assert Pow2(8) == 256;
    assert Pow2(16) == 65536;
    assert Pow2(24) == 0x100_0000;
  }

  class VlcTable {
    /** The number of bits of a full table. */
    const bits: nat
    var table: seq<Entry>
    var capacity: nat
    /** The table with entries of any size, and the number of times it grew. */
    ghost var ideal: seq<Entry>
    ghost var blocks: nat

    ghost predicate Valid()
      reads this
    {
      table == StoreAll(ideal) && Allocated(|table|, capacity, bits, blocks)
    }

    constructor (bits: nat)
      ensures this.bits == bits && Valid() && ideal == []
    {
      this.bits := bits;
      table, capacity := [], 0;
      ideal, blocks := [], 0;
    }

    /**
     * alloc_table and the first loop of build_table: one more full table is
     * always room enough. The two counts of entries are of type int.
     */
    method AllocTable(size: nat) returns (inInt: bool, index: nat)
      requires Valid() && 0 < size <= Pow2(bits)
      modifies this
      ensures inInt <==> |old(ideal)| + size + Pow2(bits) <= 0x8000_0000
      ensures inInt ==>
                && Valid() && index == |old(ideal)| && |ideal| == index + size && old(ideal) <= ideal
                && forall k :: index <= k < |ideal| ==> ideal[k] == Entry(-1, 0)
    {
      hide Pow2, Allocated;
      AllocatedNext(|table|, capacity, bits, blocks, size);
      index := |table|;
      var full := Pow2(bits);
      var grown := if index + size > capacity then capacity + full else capacity;
      inInt := full <= INT_MAX && index + size <= INT_MAX && grown <= INT_MAX;
      if !inInt {
        return;
      }
      table := table + seq(size, _ => Entry(-1, 0));
      ideal := ideal + seq(size, _ => Entry(-1, 0));
      if |table| > capacity {
        capacity := capacity + full;
        blocks := blocks + 1;
      }
      EmptyStored();
    }

    /** Writes an entry, which is cut to 16 bits. */
    method Write(k: nat, code: int, n: int, ghost e: Entry)
      requires Valid() && k < |ideal| && Int16(code) == Int16(e.code) && n == e.bits
      modifies this`table, this`ideal
      ensures Valid() && ideal == old(ideal)[k := e]
    {
      hide Int16;
      StoreUpdate(ideal, k, e);
      table := table[k := Entry(Int16(code), Int16(n))];
      ideal := ideal[k := e];
    }

    /** The entries of a code that ends in this table; none of them is in use yet */
    method FillShort(c: Code, base: nat, nb: nat, ghost pre: seq<bool>, i: nat, n: nat) returns (ok: bool)
      requires Valid() && PrefixFree(c) && Coded(c, i) && pre <= Word(c, i)
      requires |pre| < c.lens[i] <= |pre| + nb && n == c.lens[i] - |pre|
      requires FilledAll(c, ideal, base, pre, nb, i)
      modifies this`table, this`ideal
      ensures Valid() && ok && FilledAll(c, ideal, base, pre, nb, i + 1)
      ensures |ideal| == |old(ideal)| && base <= |ideal| && ideal[..base] == old(ideal)[..base]
    {
      hide Pow2, PrefixFree, FirstEntry, FilledPart, Covers, Passes, Word, FilledAt, Int16;
      var j, nb1 := FirstEntry(c.codes[i], nb, n), Pow2(nb - n);
      RangeInTable(c.codes[i], nb, n);
      ShortRange(c, i, pre, nb);
      PartNone(c, ideal, base, pre, nb, i, j);
      SmallStays(0);
      for k := 0 to nb1
        invariant Valid() && |ideal| == |old(ideal)| && ideal[..base] == old(ideal)[..base]
        invariant FilledPart(c, ideal, base, pre, nb, i, j, j + k)
      {
        PartNext(c, ideal, base, pre, nb, i, j, j + k);
        if table[base + (j + k)].bits != 0 {
          return false;
        }
        Write(base + (j + k), i, n, Entry(i, n));
      }
      PartDone(c, ideal, base, pre, nb, i, j, j + nb1);
      ok := true;
    }

    /** The entry of a code that goes on in a further table */
    method MarkLong(c: Code, base: nat, nb: nat, ghost pre: seq<bool>, i: nat, n: nat, ghost longest: nat)
      requires Valid() && CodeOk(c, longest) && longest <= 31 && PrefixFree(c) && Coded(c, i) && pre <= Word(c, i)
      requires c.lens[i] > |pre| + nb && n == c.lens[i] - |pre| - nb
      requires FilledAll(c, ideal, base, pre, nb, i)
      modifies this`table, this`ideal
      ensures Valid() && FilledAll(c, ideal, base, pre, nb, i + 1)
      ensures |ideal| == |old(ideal)| && base <= |ideal| && ideal[..base] == old(ideal)[..base]
    {
      hide Pow2, PrefixFree, Covers, Passes, Word, Shr, Filled, CodeOk, Int16;
      var j := Mod(Shr(c.codes[i], n), Pow2(nb));
      LongIndex(c, i, pre, nb, j);
      ghost var e := ideal[base + j];
      assert FilledAt(c, ideal, base, pre, nb, j, i);
      FilledBits(c, e, pre, nb, j, i, longest);
      SmallStays(e.bits);
      TwiceInt16(e.code);
      var n1 := -table[base + j].bits;
      if n > n1 {
        n1 := n;
      }
      LongDone(c, ideal, base, pre, nb, i, j, Entry(e.code, -n1));
      Write(base + j, table[base + j].code, -n1, Entry(e.code, -n1));
    }

    /** One turn of the loop over the symbols */
    method AddSymbol(c: Code, base: nat, nb: nat, prefix: nat, np: nat, i: nat, ghost longest: nat) returns (ok: bool)
      requires Valid() && CodeOk(c, longest) && longest <= 31 && PrefixFree(c) && i < |c.lens| && prefix < Pow2(np)
      requires FilledAll(c, ideal, base, HighBits(prefix, np), nb, i) && base <= |ideal|
      modifies this`table, this`ideal
      ensures Valid() && ok && FilledAll(c, ideal, base, HighBits(prefix, np), nb, i + 1)
      ensures |ideal| == |old(ideal)| && base <= |ideal| && ideal[..base] == old(ideal)[..base]
    {
      hide Pow2, PrefixFree, Covers, Passes, Word, FilledAll, Shr, HighBits;
      ghost var pre := HighBits(prefix, np);
      ok := true;
      var n: int := c.lens[i] - np;
      if c.lens[i] > 0 && n > 0 {
        assert Coded(c, i);
        PrefixTest(c, i, prefix, np);
        if Shr(c.codes[i], n) == prefix {
          if n <= nb {
            ok := FillShort(c, base, nb, pre, i, n);
          } else {
            MarkLong(c, base, nb, pre, i, n - nb, longest);
          }
          return;
        }
      }
      NotConcerned(c, i, pre, nb);
      FilledAllOther(c, ideal, base, pre, nb, i);
    }

    /**
     * build_table: it cannot fail for a prefix-free code, as long as the counts
     * of entries are in range. Lengths stay below 32, the width of the code it
     * shifts.
     */
    method BuildTable(c: Code, nb: nat, prefix: nat, np: nat, ghost longest: nat) returns (inInt: bool, index: int)
      requires Valid() && CodeOk(c, longest) && longest <= 31 && PrefixFree(c)
      requires 0 < nb <= bits && prefix < Pow2(np) && np <= longest && FullOrLast(c, HighBits(prefix, np), nb, bits)
      modifies this
      decreases longest - np, 2
      ensures inInt <==> |old(ideal)| + Size(c, HighBits(prefix, np), nb, longest) + Pow2(bits) <= 0x8000_0000
      ensures inInt ==> Valid() && index == |old(ideal)| && old(ideal) <= ideal
      ensures inInt ==> TableOk(c, ideal, index, nb, HighBits(prefix, np), bits, longest)
      ensures inInt ==>
                |ideal| == index + Size(c, HighBits(prefix, np), nb, longest) && Shallow(ideal, index, bits)
      ensures inInt && |c.lens| <= 32768 ==>
                (AllFit(ideal, index) <==> NarrowTo(c, index, HighBits(prefix, np), nb, longest, Pow2(nb)))
    {
      hide *;
      ghost var pre := HighBits(prefix, np);
      ghost var start := ideal;
      TableFits(nb, bits);
      PowerPositive(nb);
      SizeAtLeast(c, |ideal|, pre, nb, longest, 0);
      var base;
      inInt, base := AllocTable(Pow2(nb));
      if !inInt {
        return false, -1;
      }
      EmptyFilled(c, ideal, base, pre, nb);
      for i := 0 to |c.lens|
        invariant Valid() && FilledAll(c, ideal, base, pre, nb, i)
        invariant |ideal| == base + Pow2(nb) && ideal[..base] == start
      {
        var ok := AddSymbol(c, base, nb, prefix, np, i, longest);
        if !ok {
          return true, -1;
        }
      }
      NoneDone(c, ideal, base, nb, pre, bits, longest);
      LayoutStart(c, ideal, base, nb, pre, bits, longest);
      for i := 0 to Pow2(nb)
        invariant Valid() && DoneTo(c, ideal, base, nb, pre, bits, longest, i)
        invariant Layout(c, ideal, base, nb, pre, bits, longest, i)
        invariant base <= |ideal| && ideal[..base] == start && |ideal| + Pow2(bits) <= 0x8000_0000
      {
        var ok;
        inInt, ok := BuildBelow(c, base, nb, prefix, np, i, longest);
        if !inInt {
          SizeAtLeast(c, base, pre, nb, longest, i + 1);
          return false, -1;
        }
        if !ok {
          return true, -1;
        }
      }
      AllEntriesDone(c, ideal, base, nb, pre, bits, longest);
      LayoutDone(c, ideal, base, nb, pre, bits, longest);
      index := base;
    }

    /** One turn of the last loop of build_table: an entry that needs more bits gets a table of its own. */
    method BuildBelow(c: Code, base: nat, nb: nat, prefix: nat, np: nat, i: nat, ghost longest: nat)
      returns (inInt: bool, ok: bool)
      requires Valid() && CodeOk(c, longest) && longest <= 31 && PrefixFree(c) && 0 < nb <= bits && prefix < Pow2(np)
      requires np <= longest && |ideal| + Pow2(bits) <= 0x8000_0000
      requires i < Pow2(nb) && FullOrLast(c, HighBits(prefix, np), nb, bits) && base <= |ideal|
      requires DoneTo(c, ideal, base, nb, HighBits(prefix, np), bits, longest, i)
      requires Layout(c, ideal, base, nb, HighBits(prefix, np), bits, longest, i)
      modifies this
      decreases longest - np, 1
      ensures inInt <==> StartAt(c, base, nb, HighBits(prefix, np), longest, i + 1) + Pow2(bits) <= 0x8000_0000
      ensures inInt ==> Valid() && ok && DoneTo(c, ideal, base, nb, HighBits(prefix, np), bits, longest, i + 1)
      ensures inInt ==> Layout(c, ideal, base, nb, HighBits(prefix, np), bits, longest, i + 1)
      ensures inInt ==> base <= |ideal| && ideal[..base] == old(ideal)[..base]
      ensures inInt ==> |ideal| + Pow2(bits) <= 0x8000_0000
    {
      hide *;
      ghost var pre := HighBits(prefix, np);
      ghost var before := ideal;
      EntryAt(c, ideal, base, nb, pre, bits, longest, i);
      ghost var e := ideal[base + i];
      EntryBits(this, c, e, pre, nb, base, i, longest);
      inInt, ok := true, true;
      var n := table[base + i].bits;
      StartNext(c, ideal, base, nb, pre, bits, longest, i);
      if n >= 0 {
        LeafKept(c, ideal, base, nb, pre, bits, longest, i);
        return;
      }
      n := -n;
      if n > nb {
        n := nb;
        Write(base + i, table[base + i].code, -n, Entry(e.code, -n));
      }
      BelowPath(c, before, base, nb, prefix, np, bits, longest, i, n);
      inInt, ok := BuildBranch(c, base, nb, prefix, np, i, n, prefix * Pow2(nb) + i, longest, before, e);
    }

    /** The table below entry i, of n bits, and the pointer to it; `before` and e tell what was there first. */
    method BuildBranch(c: Code, base: nat, nb: nat, ghost prefix: nat, np: nat, i: nat, n: nat, next: nat,
                       ghost longest: nat, ghost before: seq<Entry>, ghost e: Entry)
      returns (inInt: bool, ok: bool)
      requires Valid() && CodeOk(c, longest) && longest <= 31 && PrefixFree(c) && 0 < n <= bits && nb == bits
      requires i < Pow2(nb) && base + Pow2(nb) <= |before| == |ideal| && np + nb < longest
      requires DoneTo(c, before, base, nb, HighBits(prefix, np), bits, longest, i)
      requires Layout(c, before, base, nb, HighBits(prefix, np), bits, longest, i)
      requires e == before[base + i] && e.bits < 0 && Filled(c, e, HighBits(prefix, np), nb, i, |c.lens|)
      requires n == SubBits(c, HighBits(prefix, np), nb, i) && ideal[base + i].bits == -(n as int)
      requires forall k :: 0 <= k < |before| && k != base + i ==> ideal[k] == before[k]
      requires |HighBits(prefix, np)| == np && next < Pow2(np + nb)
      requires HighBits(next, np + nb) == Path(HighBits(prefix, np), nb, i)
      requires FullOrLast(c, Path(HighBits(prefix, np), nb, i), n, bits)
      modifies this
      decreases longest - np, 0
      ensures inInt <==>
              |before| + Size(c, Path(HighBits(prefix, np), nb, i), n, longest) + Pow2(bits) <= 0x8000_0000
      ensures inInt ==> Valid() && ok && DoneTo(c, ideal, base, nb, HighBits(prefix, np), bits, longest, i + 1)
      ensures inInt ==> Layout(c, ideal, base, nb, HighBits(prefix, np), bits, longest, i + 1)
      ensures inInt ==> base <= |ideal| && ideal[..base] == before[..base]
      ensures inInt ==> |ideal| + Pow2(bits) <= 0x8000_0000
    {
      hide *;
      ghost var pre := HighBits(prefix, np);
      ghost var mid := ideal;
      var index;
      ok := true;
      inInt, index := BuildTable(c, n, next, np + nb, longest);
      if !inInt {
        return false, false;
      }
      if index < 0 {
        return true, false;
      }
      ghost var built := ideal;
      SubBitsAre(this, c, e, mid, pre, nb, base, i, n);
      Write(base + i, index, table[base + i].bits, Entry(index, -(n as int)));
      BranchBuilt(c, before, mid, built, ideal, base, nb, pre, bits, longest, i, n);
    }
  }

  lemma EmptyStored()
    ensures Store(Entry(-1, 0)) == Entry(-1, 0)
  {
  }

  lemma TwiceInt16(x: int)
    ensures Int16(Int16(x)) == Int16(x)
  {
  }

  /** The bits of an entry are read as they were meant, and its code can be written again. */
  lemma EntryBits(v: VlcTable, c: Code, e: Entry, pre: seq<bool>, nb: nat, base: nat, i: nat, longest: nat)
    requires v.Valid() && CodeOk(c, longest) && longest <= 31 && base + i < |v.ideal| && e == v.ideal[base + i]
    requires Filled(c, e, pre, nb, i, |c.lens|)
    ensures |v.table| == |v.ideal| && v.table[base + i].bits == e.bits && Int16(v.table[base + i].code) == Int16(e.code)
    ensures SubBits(c, pre, nb, i) == if e.bits >= 0 then 0 else if -e.bits > nb then nb else -e.bits
  {
    hide Filled, Int16, CodeOk, MaxBelow;
    FilledBits(c, e, pre, nb, i, |c.lens|, longest);
    SmallStays(e.bits);
    TwiceInt16(e.code);
  }

  /** After the table below it was built, the entry still has its number of bits. */
  lemma SubBitsAre(v: VlcTable, c: Code, e: Entry, mid: seq<Entry>, pre: seq<bool>, nb: nat, base: nat, i: nat, n: nat)
    requires v.Valid() && base + i < |mid| && mid <= v.ideal && mid[base + i].bits == -(n as int) && n <= 31
    ensures |v.table| == |v.ideal| && base + i < |v.ideal| && v.table[base + i].bits == -(n as int)
  {
    hide Int16;
    assert v.ideal[base + i] == mid[base + i];
    SmallStays(-(n as int));
  }

  lemma SameEnd(built: seq<Entry>, after: seq<Entry>, from: nat, full: nat)
    requires |built| == |after| && forall k :: from <= k < |built| ==> after[k] == built[k]
    ensures AllFit(built, from) <==> AllFit(after, from)
    ensures Shallow(built, from, full) <==> Shallow(after, from, full)
  {
  }

  lemma TableFits(nb: nat, full: nat)
    requires nb <= full
    ensures Pow2(nb) <= Pow2(full)
  {
    Pow2Monotone(nb, full);
  }

  lemma HighBitsLength(v: nat, n: nat)
    ensures |HighBits(v, n)| == n
  {
  }

  lemma EntryAt(c: Code, t: seq<Entry>, base: nat, nb: nat, pre: seq<bool>, full: nat, longest: nat, i: nat)
    requires CodeOk(c, longest) && DoneTo(c, t, base, nb, pre, full, longest, i) && i < Pow2(nb)
    ensures base + Pow2(nb) <= |t| && FilledAt(c, t, base, pre, nb, i, |c.lens|)
    ensures Filled(c, t[base + i], pre, nb, i, |c.lens|)
  {
    hide Pow2, Filled;
  }

  lemma OneMore(c: Code, t: seq<Entry>, t': seq<Entry>, base: nat, nb: nat, pre: seq<bool>, full: nat, longest: nat,
                i: nat)
    requires CodeOk(c, longest) && DoneTo(c, t, base, nb, pre, full, longest, i) && i < Pow2(nb) && |t| <= |t'|
    requires forall k :: 0 <= k < |t| && k != base + i ==> t'[k] == t[k]
    requires EntryDone(c, t', base, nb, pre, full, longest, i)
    ensures DoneTo(c, t', base, nb, pre, full, longest, i + 1) && base <= |t'| && t'[..base] == t[..base]
  {
    hide Pow2, EntryDone, FilledAt;
    DoneKept(c, t, t', base, nb, pre, full, longest, i);
  }

  lemma LeafKept(c: Code, t: seq<Entry>, base: nat, nb: nat, pre: seq<bool>, full: nat, longest: nat, i: nat)
    requires nb > 0 && longest <= 31 && CodeOk(c, longest) && i < Pow2(nb)
    requires DoneTo(c, t, base, nb, pre, full, longest, i) && Layout(c, t, base, nb, pre, full, longest, i)
    requires FilledAt(c, t, base, pre, nb, i, |c.lens|) && t[base + i].bits >= 0
    ensures DoneTo(c, t, base, nb, pre, full, longest, i + 1) && Layout(c, t, base, nb, pre, full, longest, i + 1)
    ensures base <= |t|
  {
    hide *;
    LeafDone(c, t, base, nb, pre, full, longest, i);
    OneMore(c, t, t, base, nb, pre, full, longest, i);
    LayoutLeaf(c, t, base, nb, pre, full, longest, i);
  }

  /** The entry that leads to a new table is done when the table is. */
  lemma BranchBuilt(c: Code, before: seq<Entry>, mid: seq<Entry>, built: seq<Entry>, after: seq<Entry>,
                    base: nat, nb: nat, pre: seq<bool>, full: nat, longest: nat, i: nat, n: nat)
    requires nb > 0 && CodeOk(c, longest) && PrefixFree(c) && i < Pow2(nb) && nb == full && |pre| + nb < longest
    requires DoneTo(c, before, base, nb, pre, full, longest, i) && Layout(c, before, base, nb, pre, full, longest, i)
    requires base + Pow2(nb) <= |before| && Filled(c, before[base + i], pre, nb, i, |c.lens|)
    requires before[base + i].bits < 0
    requires 0 < n == SubBits(c, pre, nb, i) <= full
    requires |mid| == |before| && forall k :: 0 <= k < |before| && k != base + i ==> mid[k] == before[k]
    requires mid <= built && after == built[base + i := Entry(|before|, -(n as int))]
    requires TableOk(c, built, |before|, n, Path(pre, nb, i), full, longest) && Shallow(built, |before|, full)
    requires |built| == |before| + Size(c, Path(pre, nb, i), n, longest)
    requires |c.lens| <= 32768 ==>
               (AllFit(built, |before|) <==> NarrowTo(c, |before|, Path(pre, nb, i), n, longest, Pow2(n)))
    ensures DoneTo(c, after, base, nb, pre, full, longest, i + 1)
    ensures Layout(c, after, base, nb, pre, full, longest, i + 1)
    ensures base <= |after| && after[..base] == before[..base]
  {
    hide *;
    SameBelow(before, mid, built, after, base, i);
    TableKept(c, built, after, |before|, n, Path(pre, nb, i), full, longest);
    BranchDone(c, after, base, nb, pre, full, longest, i, before[base + i]);
    OneMore(c, before, after, base, nb, pre, full, longest, i);
    SameEnd(built, after, |before|, full);
    LayoutBranch(c, before, after, base, nb, pre, full, longest, i, n);
  }

  lemma SameBelow(before: seq<Entry>, mid: seq<Entry>, built: seq<Entry>, after: seq<Entry>, base: nat, i: nat)
    requires |mid| == |before| && mid <= built && |after| == |built| && base + i < |before|
    requires forall k :: 0 <= k < |before| && k != base + i ==> mid[k] == before[k]
    requires forall k :: 0 <= k < |built| && k != base + i ==> after[k] == built[k]
    ensures forall k :: 0 <= k < |before| && k != base + i ==> after[k] == before[k]
    ensures forall k :: |mid| <= k < |built| ==> after[k] == built[k]
  {
    forall k | 0 <= k < |before| && k != base + i
      ensures after[k] == before[k]
    {
      assert built[k] == mid[k];
    }
  }

  /** The path of an entry as a number: (code_prefix << table_nb_bits) | i */
  lemma PathNumber(prefix: nat, np: nat, nb: nat, idx: nat)
    requires prefix < Pow2(np) && idx < Pow2(nb)
    ensures prefix * Pow2(nb) + idx < Pow2(np + nb)
    ensures HighBits(prefix * Pow2(nb) + idx, np + nb) == Path(HighBits(prefix, np), nb, idx)
  {
    hide Pow2, HighBits, Shr;
    Pow2Add(np, nb);
    MulMonotone(Pow2(nb), prefix + 1, Pow2(np));
    assert Pow2(nb) * (prefix + 1) == prefix * Pow2(nb) + Pow2(nb);
    var v: nat := prefix * Pow2(nb) + idx;
    ShrIsDiv(v, nb);
    DivRange(v, Pow2(nb), prefix);
    ShrHighBits(v, np + nb, nb);
    ModUnique(v, Pow2(nb), prefix, idx);
    ModHighBits(v, np + nb, nb);
    var b := HighBits(v, np + nb);
    assert b == b[..np] + b[np..];
  }

  /** The number of bits a sub-table is given: as many as its longest code needs, but no more than a full table. */
  lemma SubTable(c: Code, t: seq<Entry>, base: nat, nb: nat, pre: seq<bool>, full: nat, longest: nat, idx: nat, n: nat)
    requires CodeOk(c, longest) && FilledAt(c, t, base, pre, nb, idx, |c.lens|) && idx < Pow2(nb)
    requires t[base + idx].bits < 0
    requires nb > 0 && FullOrLast(c, pre, nb, full)
    requires n == (if -t[base + idx].bits > nb then nb else -t[base + idx].bits)
    ensures nb == full && 0 < n <= full && FullOrLast(c, Path(pre, nb, idx), n, full) && longest > |pre| + nb
  {
    hide Pow2, Passes, Path, Filled, FullOrLast, CodeOk;
    var e := t[base + idx];
    var s := SomePasses(c, e, pre, nb, idx, full, longest);
    SubLast(c, e, pre, nb, idx, full, n);
  }

  /** What building the table below an entry asks for. */
  lemma BelowPath(c: Code, t: seq<Entry>, base: nat, nb: nat, prefix: nat, np: nat, full: nat, longest: nat, idx: nat,
                  n: nat)
    requires CodeOk(c, longest) && FilledAt(c, t, base, HighBits(prefix, np), nb, idx, |c.lens|) && idx < Pow2(nb)
    requires t[base + idx].bits < 0 && prefix < Pow2(np)
    requires nb > 0 && FullOrLast(c, HighBits(prefix, np), nb, full)
    requires n == (if -t[base + idx].bits > nb then nb else -t[base + idx].bits)
    ensures |HighBits(prefix, np)| == np && nb == full && 0 < n <= full && np + nb < longest
    ensures prefix * Pow2(nb) + idx < Pow2(np + nb)
    ensures HighBits(prefix * Pow2(nb) + idx, np + nb) == Path(HighBits(prefix, np), nb, idx)
    ensures FullOrLast(c, Path(HighBits(prefix, np), nb, idx), n, full)
  {
    hide *;
    SubTable(c, t, base, nb, HighBits(prefix, np), full, longest, idx, n);
    PathNumber(prefix, np, nb, idx);
    HighBitsLength(prefix, np);
  }

  lemma SomePasses(c: Code, e: Entry, pre: seq<bool>, nb: nat, idx: nat, full: nat, longest: nat) returns (s: nat)
    requires CodeOk(c, longest) && Filled(c, e, pre, nb, idx, |c.lens|) && e.bits < 0 && idx < Pow2(nb)
    requires FullOrLast(c, pre, nb, full)
    ensures Passes(c, s, pre, nb, idx) && nb == full && longest > |pre| + nb
  {
    hide Pow2, Path, Word, Covers;
    s :| s < |c.lens| && Passes(c, s, pre, nb, idx) && -e.bits == c.lens[s] - |pre| - nb;
  }

  lemma SubLast(c: Code, e: Entry, pre: seq<bool>, nb: nat, idx: nat, full: nat, n: nat)
    requires Filled(c, e, pre, nb, idx, |c.lens|) && e.bits < 0 && nb == full && n == if -e.bits > nb then nb
               else -e.bits
    ensures FullOrLast(c, Path(pre, nb, idx), n, full)
  {
    hide Pow2, Passes, Path, Filled;
    if n < full {
      var sub := Path(pre, nb, idx);
      forall s: nat, k: nat | k < Pow2(n)
        ensures !Passes(c, s, sub, n, k)
      {
        NoDeeper(c, e, pre, nb, idx, s, k);
      }
    }
  }

  lemma PassesLong(c: Code, s: nat, pre: seq<bool>, nb: nat, idx: nat)
    requires Passes(c, s, pre, nb, idx)
    ensures Coded(c, s) && c.lens[s] > |pre| + nb
  {
  }

  lemma NoDeeper(c: Code, e: Entry, pre: seq<bool>, nb: nat, idx: nat, s: nat, k: nat)
    requires Filled(c, e, pre, nb, idx, |c.lens|) && e.bits < 0
    ensures !Passes(c, s, Path(pre, nb, idx), -e.bits, k)
  {
    hide Passes, Covers, Path;
    if Passes(c, s, Path(pre, nb, idx), -e.bits, k) {
      DeeperPasses(c, s, pre, nb, idx, -e.bits, k);
      PassesLong(c, s, Path(pre, nb, idx), -e.bits, k);
    }
  }

  lemma DeeperPasses(c: Code, s: nat, pre: seq<bool>, nb: nat, idx: nat, n: nat, k: nat)
    requires Passes(c, s, Path(pre, nb, idx), n, k)
    ensures Passes(c, s, pre, nb, idx) && s < |c.lens| && |Path(pre, nb, idx)| == |pre| + nb
  {
    hide Word;
    HasPrefix(c, s, Path(pre, nb, idx), n, k);
  }

  /** An entry whose sub-table has been built is final. */
  lemma BranchDone(c: Code, t: seq<Entry>, base: nat, nb: nat, pre: seq<bool>, full: nat, longest: nat, idx: nat,
                   was: Entry)
    requires CodeOk(c, longest) && PrefixFree(c) && base + Pow2(nb) <= |t| && idx < Pow2(nb) && nb == full
    requires Filled(c, was, pre, nb, idx, |c.lens|) && was.bits < 0
    requires t[base + idx].bits < 0 && t[base + idx].code >= base + Pow2(nb)
    requires TableOk(c, t, t[base + idx].code, -t[base + idx].bits, Path(pre, nb, idx), full, longest)
    ensures EntryDone(c, t, base, nb, pre, full, longest, idx)
  {
    hide Pow2, Word, Path, TableOk, PrefixFree;
    var p: nat :| p < |c.lens| && Passes(c, p, pre, nb, idx);
    forall s: nat
      ensures !Covers(c, s, pre, nb, idx)
    {
      if Covers(c, s, pre, nb, idx) {
        OneSymbol(c, s, p, pre, nb, idx);
      }
    }
  }

  lemma NoneDone(c: Code, t: seq<Entry>, base: nat, nb: nat, pre: seq<bool>, full: nat, longest: nat)
    requires CodeOk(c, longest) && FilledAll(c, t, base, pre, nb, |c.lens|)
    ensures DoneTo(c, t, base, nb, pre, full, longest, 0)
  {
    hide Pow2, Filled;
  }

  /** Only a full table has tables below it. */
  ghost predicate FullOrLast(c: Code, pre: seq<bool>, nb: nat, full: nat) {
    nb == full || forall s: nat, idx: nat :: idx < Pow2(nb) ==> !Passes(c, s, pre, nb, idx)
  }

  lemma ShortRange(c: Code, s: nat, pre: seq<bool>, nb: nat)
    requires Coded(c, s) && pre <= Word(c, s) && |pre| < c.lens[s] <= |pre| + nb
    ensures var n := c.lens[s] - |pre|;
            var j, m := FirstEntry(c.codes[s], nb, n), Pow2(nb - n);
            forall idx: nat :: idx < Pow2(nb) ==>
              !Passes(c, s, pre, nb, idx) && (Covers(c, s, pre, nb, idx) <==> j <= idx < j + m)
  {
    hide Pow2, FirstEntry, Covers, Word;
    forall idx: nat | idx < Pow2(nb)
      ensures var n := c.lens[s] - |pre|;
              !Passes(c, s, pre, nb, idx)
                && (Covers(c, s, pre, nb, idx) <==>
                    FirstEntry(c.codes[s], nb, n) <= idx < FirstEntry(c.codes[s], nb, n) + Pow2(nb - n))
    {
      CoverRange(c, s, pre, nb, idx);
    }
  }

  lemma LongIndex(c: Code, s: nat, pre: seq<bool>, nb: nat, j: nat)
    requires Coded(c, s) && pre <= Word(c, s) && c.lens[s] > |pre| + nb
    requires j == Mod(Shr(c.codes[s], c.lens[s] - |pre| - nb), Pow2(nb))
    ensures j < Pow2(nb)
    ensures forall idx: nat :: idx < Pow2(nb) ==>
              !Covers(c, s, pre, nb, idx) && (Passes(c, s, pre, nb, idx) <==> idx == j)
  {
    hide Pow2, Passes, Word, Shr;
    forall idx: nat | idx < Pow2(nb)
      ensures !Covers(c, s, pre, nb, idx) && (Passes(c, s, pre, nb, idx) <==> idx == j)
    {
      PassIndex(c, s, pre, nb, idx);
    }
  }

  lemma PartNone(c: Code, t: seq<Entry>, base: nat, pre: seq<bool>, nb: nat, m: nat, from: nat)
    requires FilledAll(c, t, base, pre, nb, m)
    ensures FilledPart(c, t, base, pre, nb, m, from, from)
  {
    hide Pow2, Filled;
  }

  lemma NotConcerned(c: Code, s: nat, pre: seq<bool>, nb: nat)
    requires !(Coded(c, s) && |pre| < c.lens[s] && pre <= Word(c, s))
    ensures forall idx: nat :: !Covers(c, s, pre, nb, idx) && !Passes(c, s, pre, nb, idx)
  {
    hide Word, Covers, Passes;
    forall idx: nat
      ensures !Covers(c, s, pre, nb, idx) && !Passes(c, s, pre, nb, idx)
    {
      if Covers(c, s, pre, nb, idx) || Passes(c, s, pre, nb, idx) {
        HasPrefix(c, s, pre, nb, idx);
      }
    }
  }

  // ----- The counts of entries -----

  /** Where the table below entry i starts. */
  ghost function StartAt(c: Code, base: nat, nb: nat, pre: seq<bool>, longest: nat, i: nat): nat
    requires nb > 0
  {
    base + Pow2(nb) + Below(c, pre, nb, longest, i)
  }

  lemma PowerPositive(n: nat)
    ensures Pow2(n) > 0
  {
  }

  lemma StartNext(c: Code, t: seq<Entry>, base: nat, nb: nat, pre: seq<bool>, full: nat, longest: nat, i: nat)
    requires nb > 0 && Layout(c, t, base, nb, pre, full, longest, i)
    ensures |t| == StartAt(c, base, nb, pre, longest, i)
    ensures var n := SubBits(c, pre, nb, i);
            StartAt(c, base, nb, pre, longest, i + 1) ==
            |t| + if n == 0 || |pre| + nb >= longest then 0 else Size(c, Path(pre, nb, i), n, longest)
  {
    hide Pow2, Below, SubBits, Size, Path;
    BelowStep(c, pre, nb, longest, i);
  }

  /** A table has its own entries and those below some of them. */
  lemma SizeAtLeast(c: Code, base: nat, pre: seq<bool>, nb: nat, longest: nat, i: nat)
    requires nb > 0 && i <= Pow2(nb)
    ensures base + Pow2(nb) <= StartAt(c, base, nb, pre, longest, i) <= base + Size(c, pre, nb, longest)
  {
    hide Pow2, Below;
    BelowGrows(c, pre, nb, longest, i, Pow2(nb));
  }

  lemma {:induction false} BelowGrows(c: Code, pre: seq<bool>, nb: nat, longest: nat, i: nat, j: nat)
    requires nb > 0 && i <= j
    ensures Below(c, pre, nb, longest, i) <= Below(c, pre, nb, longest, j)
  {
    hide Below, SubBits, Path;
    if i < j {
      BelowGrows(c, pre, nb, longest, i, j - 1);
      BelowStep(c, pre, nb, longest, j - 1);
    }
  }

  // ----- init_vlc -----

  lemma NoPrefix()
    ensures HighBits(0, 0) == [] && 0 < Pow2(0)
  {
  }

  lemma FullTable(c: Code, bits: nat)
    ensures FullOrLast(c, [], bits, bits)
  {
  }

  /**
   * init_vlc for a prefix-free code: it succeeds with a table of the expected
   * size, unless a count of entries leaves the range of an int. The entries of
   * that table have 16 bits. It decodes the code if every table starts where
   * such an entry can point to; and exactly then, for codes of at most 32768
   * symbols, it is stored as it was meant.
   */
  method InitVlc(bits: nat, c: Code, ghost longest: nat)
    returns (inInt: bool, ok: bool, table: seq<Entry>, ghost ideal: seq<Entry>)
    requires CodeOk(c, longest) && longest <= 31 && PrefixFree(c) && 0 < bits
    ensures inInt <==> Size(c, [], bits, longest) + Pow2(bits) <= 0x8000_0000
    ensures inInt ==> ok && table == StoreAll(ideal) && TableOk(c, ideal, 0, bits, [], bits, longest)
    ensures inInt ==> |table| == Size(c, [], bits, longest) && Shallow(table, 0, bits) && Shallow(ideal, 0, bits)
    ensures inInt ==> bits <= 30
    ensures inInt && |c.lens| <= 32768 ==> (table == ideal <==> NarrowTo(c, 0, [], bits, longest, Pow2(bits)))
    ensures inInt && |c.lens| <= 32768 && NarrowTo(c, 0, [], bits, longest, Pow2(bits)) ==>
              TableOk(c, table, 0, bits, [], bits, longest)
  {
    hide *;
    NoPrefix();
    var vlc := new VlcTable(bits);
    FullTable(c, bits);
    var index;
    inInt, index := vlc.BuildTable(c, bits, 0, 0, longest);
    ok, table, ideal := index >= 0, vlc.table, vlc.ideal;
    if inInt {
      SmallBits(c, bits, longest);
      StoredTable(vlc);
      StoredIs(ideal);
    }
  }

  lemma SmallBits(c: Code, bits: nat, longest: nat)
    requires bits > 0 && Size(c, [], bits, longest) + Pow2(bits) <= 0x8000_0000
    ensures bits <= 30
  {
    hide Pow2;
    Power31();
    SizeAtLeast(c, 0, [], bits, longest, 0);
    if bits >= 31 {
      PowerPositive(bits);
      Pow2Monotone(31, bits);
    }
  }

  lemma StoredTable(v: VlcTable)
    requires v.Valid() && Shallow(v.ideal, 0, v.bits) && v.bits <= 31
    ensures v.table == StoreAll(v.ideal) && Shallow(v.table, 0, v.bits)
    ensures forall k :: 0 <= k < |v.ideal| ==> -32768 <= v.ideal[k].bits <= 32767
  {
    hide Int16;
    forall k | 0 <= k < |v.ideal|
      ensures -32768 <= v.ideal[k].bits <= 32767 && v.table[k].bits == v.ideal[k].bits
    {
      SmallStays(v.ideal[k].bits);
    }
  }
}
