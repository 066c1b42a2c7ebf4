/** Reading a symbol: GET_VLC and get_vlc2, which follow at most three tables. */
module VlcRead {
  import opened Powers
  import opened BitStream
  import opened ReversedBits
  import opened VlcBits
  import opened Vlc
  import opened VlcSize
  import opened VlcBuild

  /** What a lookup leads to: an entry, or a place outside the table or the stream. */
  datatype Peeked = Inside(entry: Entry) | Outside

  /** The entry that the next nb bits select in the table at `base`. */
  function Peek(t: seq<Entry>, stream: seq<bool>, bp: nat, base: int, nb: int): Peeked {
    if nb < 0 || bp + nb > |stream| then Outside
    else
      var i := base + Index(stream[bp..bp + nb]);
      if 0 <= i < |t| then Inside(t[i]) else Outside
  }

  datatype Found = Found(code: int, index: int) | Lost

  /** GET_VLC: two tests, one inside the other. */
  function GetVlc(t: seq<Entry>, stream: seq<bool>, bp: nat, bits: nat, maxDepth: nat): Found {
    match Peek(t, stream, bp, 0, bits)
    case Outside => Lost
    case Inside(e1) =>
      if !(maxDepth > 1 && e1.bits < 0) then Found(e1.code, bp + e1.bits)
      else
        match Peek(t, stream, bp + bits, e1.code, -e1.bits)
        case Outside => Lost
        case Inside(e2) =>
          var bp2 := bp + bits - e1.bits;
          if !(maxDepth > 2 && e2.bits < 0) then Found(e2.code, bp + bits + e2.bits)
          else
            match Peek(t, stream, bp2, e2.code, -e2.bits)
            case Outside => Lost
            case Inside(e3) => Found(e3.code, bp2 + e3.bits)
  }

  // ----- The code -----

  /** One lookup through the cache. */
  method Look(buffer: seq<byte>, bp: nat, t: seq<Entry>, base: int, nb: nat) returns (r: Peeked)
    requires 0 < nb <= 25 && bp / 8 + 4 <= |buffer|
    ensures bp + nb <= |RBits(buffer)| && r == Peek(t, RBits(buffer), bp, base, nb)
  {
    hide RBits, Pow2, HighBits, Index;
    var i := ShowBits(buffer, bp, nb);
    ShownIndex(RBits(buffer), bp, nb, i);
    r := if 0 <= base + i < |t| then Inside(t[base + i]) else Outside;
  }

  lemma ShownIndex(stream: seq<bool>, bp: nat, nb: nat, i: nat)
    requires bp + nb <= |stream| && i < Pow2(nb) && HighBits(i, nb) == stream[bp..bp + nb]
    ensures Index(stream[bp..bp + nb]) == i
  {
    hide Pow2, HighBits, Index;
    IndexBits(stream[bp..bp + nb]);
    SameHighBits(i, Index(stream[bp..bp + nb]), nb);
  }

  /** get_vlc2, for any table whose entries ask for at most 25 bits; a place outside the table is not read */
  method GetVlc2(buffer: seq<byte>, index: nat, t: seq<Entry>, bits: nat, maxDepth: nat) returns (r: Found)
    requires 0 < bits <= 25 && Shallow(t, 0, bits) && (index + 2 * bits) / 8 + 4 <= |buffer|
    ensures r == GetVlc(t, RBits(buffer), index, bits, maxDepth)
  {
    hide RBits, Peek;
    var p := Look(buffer, index, t, 0, bits);
    if p == Outside {
      return Lost;
    }
    PeekedShallow(t, RBits(buffer), index, 0, bits, bits);
    var code, n, bp := p.entry.code, p.entry.bits, index;
    if maxDepth > 1 && n < 0 {
      bp := bp + bits;
      p := Look(buffer, bp, t, code, -n);
      if p == Outside {
        return Lost;
      }
      PeekedShallow(t, RBits(buffer), bp, code, -n, bits);
      var nb := -n;
      code, n := p.entry.code, p.entry.bits;
      if maxDepth > 2 && n < 0 {
        bp := bp + nb;
        p := Look(buffer, bp, t, code, -n);
        if p == Outside {
          return Lost;
        }
        code, n := p.entry.code, p.entry.bits;
      }
    }
    r := Found(code, bp + n);
  }

  lemma PeekedShallow(t: seq<Entry>, stream: seq<bool>, bp: nat, base: int, nb: int, full: nat)
    requires Shallow(t, 0, full)
    ensures Peek(t, stream, bp, base, nb).Inside? ==> Peek(t, stream, bp, base, nb).entry.bits + full >= 0
  {
    hide Index;
  }

  // ----- When it finds the symbol -----

  /** The entry of a code in a table for its prefix. */
  lemma PeekFinds(c: Code, t: seq<Entry>, base: nat, nb: nat, pre: seq<bool>, full: nat, longest: nat, s: nat,
                  stream: seq<bool>, bp: nat)
    requires CodeOk(c, longest) && TableOk(c, t, base, nb, pre, full, longest) && bp + full <= |stream|
    requires Coded(c, s) && pre <= Word(c, s) && |pre| < c.lens[s] && At(stream, bp, Word(c, s)[|pre|..])
    ensures var p := Peek(t, stream, bp, base, nb);
            && nb > 0 && p.Inside?
            && (c.lens[s] <= |pre| + nb ==> p.entry == Entry(s, c.lens[s] - |pre|))
            && (c.lens[s] > |pre| + nb ==>
                  var path := Path(pre, nb, Index(stream[bp..bp + nb]));
                  && nb == full && p.entry.bits < 0 && p.entry.code >= 0 && -p.entry.bits <= full
                     && |path| == |pre| + nb
                  && TableOk(c, t, p.entry.code, -p.entry.bits, path, full, longest)
                  && path <= Word(c, s) && At(stream, bp + nb, Word(c, s)[|pre| + nb..]))
  {
    hide Pow2, HighBits, Word, Index, CodeOk, At, TableOk, Path, Covers, Passes;
    NextTable(c, t, base, nb, pre, full, longest);
    EntryOf(c, s, pre, nb, stream, bp);
    var i := Index(stream[bp..bp + nb]);
    EntryFor(c, t, base, nb, pre, full, longest, s, i);
    if c.lens[s] > |pre| + nb {
      var e := t[base + i];
      NextTable(c, t, e.code, -e.bits, Path(pre, nb, i), full, longest);
    }
  }

  /** What the table says for a code with its prefix. */
  lemma EntryFor(c: Code, t: seq<Entry>, base: nat, nb: nat, pre: seq<bool>, full: nat, longest: nat, s: nat, idx: nat)
    requires CodeOk(c, longest) && TableOk(c, t, base, nb, pre, full, longest) && Coded(c, s) && idx < Pow2(nb)
    requires Covers(c, s, pre, nb, idx) || Passes(c, s, pre, nb, idx)
    ensures base + idx < |t| && |Path(pre, nb, idx)| == |pre| + nb
    ensures c.lens[s] <= |pre| + nb ==> t[base + idx] == Entry(s, c.lens[s] - |pre|)
    ensures c.lens[s] > |pre| + nb ==>
              && nb == full && t[base + idx].bits < 0 && t[base + idx].code >= 0
              && TableOk(c, t, t[base + idx].code, -t[base + idx].bits, Path(pre, nb, idx), full, longest)
  {
    hide Pow2, Word;
  }

  function Levels(maxDepth: nat): nat { if maxDepth < 3 then maxDepth else 3 }

  /**
   * On a stream that goes on with the code of symbol s, at any bit offset, the
   * lookup finds s and skips exactly the bits of its code, if and only if the
   * code is no longer than the tables it follows, of which there are at most
   * three whatever the depth it is given.
   */
  lemma GetVlcFinds(c: Code, t: seq<Entry>, bits: nat, longest: nat, maxDepth: nat, s: nat, stream: seq<bool>, bp: nat)
    requires CodeOk(c, longest) && TableOk(c, t, 0, bits, [], bits, longest) && maxDepth > 0
    requires Coded(c, s) && At(stream, bp, Word(c, s)) && bp + 3 * bits <= |stream|
    ensures GetVlc(t, stream, bp, bits, maxDepth) == Found(s, bp + c.lens[s]) <==> c.lens[s] <= Levels(maxDepth) * bits
  {
    hide Word, CodeOk, TableOk, At, Peek, Index, Path;
    var w := Word(c, s);
    assert w[0..] == w;
    PeekFinds(c, t, 0, bits, [], bits, longest, s, stream, bp);
    if c.lens[s] > bits && maxDepth > 1 {
      SecondTable(c, t, bits, longest, maxDepth, s, stream, bp);
    }
  }

  /** The same from the second table on. */
  lemma SecondTable(c: Code, t: seq<Entry>, bits: nat, longest: nat, maxDepth: nat, s: nat, stream: seq<bool>, bp: nat)
    requires CodeOk(c, longest) && TableOk(c, t, 0, bits, [], bits, longest) && maxDepth > 1
    requires Coded(c, s) && At(stream, bp, Word(c, s)) && bp + 3 * bits <= |stream| && c.lens[s] > bits
    ensures GetVlc(t, stream, bp, bits, maxDepth) == Found(s, bp + c.lens[s]) <==> c.lens[s] <= Levels(maxDepth) * bits
  {
    hide Word, CodeOk, TableOk, At, Peek, Index, Path;
    var w := Word(c, s);
    assert w[0..] == w;
    PeekFinds(c, t, 0, bits, [], bits, longest, s, stream, bp);
    var e1 := Peek(t, stream, bp, 0, bits).entry;
    var pre := Path([], bits, Index(stream[bp..bp + bits]));
    PeekFinds(c, t, e1.code, -e1.bits, pre, bits, longest, s, stream, bp + bits);
    if c.lens[s] > bits - e1.bits {
      var e2 := Peek(t, stream, bp + bits, e1.code, -e1.bits).entry;
      var pre2 := Path(pre, -e1.bits, Index(stream[bp + bits..bp + bits - e1.bits]));
      PeekFinds(c, t, e2.code, -e2.bits, pre2, bits, longest, s, stream, bp + 2 * bits);
    }
  }

  // ----- The table as it is stored -----

  /** Where the tables start that a lookup goes on to. */
  function Starts(t: seq<Entry>, stream: seq<bool>, bp: nat, bits: nat, maxDepth: nat): seq<int> {
    match Peek(t, stream, bp, 0, bits)
    case Outside => []
    case Inside(e1) =>
      if !(maxDepth > 1 && e1.bits < 0) then []
      else
        match Peek(t, stream, bp + bits, e1.code, -e1.bits)
        case Outside => [e1.code]
        case Inside(e2) => if maxDepth > 2 && e2.bits < 0 then [e1.code, e2.code] else [e1.code]
  }

  ghost predicate Narrow(starts: seq<int>) { forall k :: 0 <= k < |starts| ==> -32768 <= starts[k] <= 32767 }

  lemma PeekStored(t: seq<Entry>, stream: seq<bool>, bp: nat, base: int, nb: int, full: nat)
    requires Shallow(t, 0, full) && full <= 30
    ensures var p, q := Peek(t, stream, bp, base, nb), Peek(StoreAll(t), stream, bp, base, nb);
            && (p.Inside? <==> q.Inside?)
            && (p.Inside? ==>
                  && q.entry.bits == p.entry.bits && q.entry.code == Int16(p.entry.code)
                  && (q.entry.code == p.entry.code <==> -32768 <= p.entry.code <= 32767))
  {
    hide Index, Int16;
    var p := Peek(t, stream, bp, base, nb);
    if p.Inside? {
      SmallStays(p.entry.bits);
      if -32768 <= p.entry.code <= 32767 {
        SmallStays(p.entry.code);
      }
    }
  }

  /** The stored table leads a lookup to the same tables exactly when each of them starts where 16 bits can point. */
  lemma SameStarts(t: seq<Entry>, stream: seq<bool>, bp: nat, bits: nat, maxDepth: nat)
    requires Shallow(t, 0, bits) && bits <= 30
    ensures Starts(StoreAll(t), stream, bp, bits, maxDepth) == Starts(t, stream, bp, bits, maxDepth) <==>
            Narrow(Starts(t, stream, bp, bits, maxDepth))
  {
    hide Peek, Int16, Shallow;
    PeekStored(t, stream, bp, 0, bits, bits);
    var p := Peek(t, stream, bp, 0, bits);
    if p.Inside? && maxDepth > 1 && p.entry.bits < 0 {
      PeekStored(t, stream, bp + bits, p.entry.code, -p.entry.bits, bits);
      var starts, stored := Starts(t, stream, bp, bits, maxDepth), Starts(StoreAll(t), stream, bp, bits, maxDepth);
      assert starts[0] == p.entry.code && stored[0] == Int16(p.entry.code);
      if Narrow(starts) && |starts| == 2 {
        assert -32768 <= starts[1] <= 32767;
      }
      if starts == stored && |starts| == 2 {
        assert starts[1] == stored[1];
      }
    }
  }

  /** Then it finds what the intended table says. */
  lemma SameFound(t: seq<Entry>, stream: seq<bool>, bp: nat, bits: nat, maxDepth: nat)
    requires Shallow(t, 0, bits) && bits <= 30 && Narrow(Starts(t, stream, bp, bits, maxDepth))
    ensures var f, g := GetVlc(t, stream, bp, bits, maxDepth), GetVlc(StoreAll(t), stream, bp, bits, maxDepth);
            && (f == Lost <==> g == Lost)
            && (f.Found? ==> g == Found(Int16(f.code), f.index))
  {
    hide Peek, Int16, Shallow;
    PeekStored(t, stream, bp, 0, bits, bits);
    var p := Peek(t, stream, bp, 0, bits);
    if p.Inside? && maxDepth > 1 && p.entry.bits < 0 {
      var starts := Starts(t, stream, bp, bits, maxDepth);
      assert starts[0] == p.entry.code;
      PeekStored(t, stream, bp + bits, p.entry.code, -p.entry.bits, bits);
      var p2 := Peek(t, stream, bp + bits, p.entry.code, -p.entry.bits);
      if p2.Inside? && maxDepth > 2 && p2.entry.bits < 0 {
        assert starts[1] == p2.entry.code;
        PeekStored(t, stream, bp + bits - p.entry.bits, p2.entry.code, -p2.entry.bits, bits);
      }
    }
  }

  /**
   * The lookup of a symbol in the stored table goes to the intended tables if
   * and only if those on the path of its code start at or below 32767, wherever
   * other tables start; and then it finds the symbol.
   */
  lemma StoredFinds(c: Code, ideal: seq<Entry>, bits: nat, longest: nat, maxDepth: nat, s: nat, stream: seq<bool>,
                    bp: nat)
    requires CodeOk(c, longest) && TableOk(c, ideal, 0, bits, [], bits, longest) && Shallow(ideal, 0, bits)
    requires bits <= 30 && |c.lens| <= 32768 && maxDepth > 0
    requires Coded(c, s) && At(stream, bp, Word(c, s)) && bp + 3 * bits <= |stream|
    requires c.lens[s] <= Levels(maxDepth) * bits
    ensures var starts := Starts(ideal, stream, bp, bits, maxDepth);
            && (Starts(StoreAll(ideal), stream, bp, bits, maxDepth) == starts <==> Narrow(starts))
            && (Narrow(starts) ==> GetVlc(StoreAll(ideal), stream, bp, bits, maxDepth) == Found(s, bp + c.lens[s]))
  {
    hide Word, CodeOk, TableOk, At, Starts, GetVlc, Shallow, Int16, Narrow, Levels;
    SameStarts(ideal, stream, bp, bits, maxDepth);
    GetVlcFinds(c, ideal, bits, longest, maxDepth, s, stream, bp);
    SmallStays(s);
    if Narrow(Starts(ideal, stream, bp, bits, maxDepth)) {
      SameFound(ideal, stream, bp, bits, maxDepth);
    }
  }

  // ----- A code whose table does not fit in 16 bits -----

  /** Two codes of 16 bits that differ in the last one. */
  function TwoLong(): Code { Code([16, 16], [0, 1]) }

  lemma Sizes()
    ensures Pow2(1) == 2 && Pow2(15) == 32768 && Pow2(16) == 65536
  {
    assert Pow2(4) == 16;
    assert Pow2(8) == 256;
    assert Pow2(12) == 4096;
  }

  /** The last bit of the code of symbol s is s; all others are 0. */
  lemma TwoLongWord(s: nat)
    requires s < 2
    ensures Coded(TwoLong(), s) && Word(TwoLong(), s)[..15] == HighBits(0, 15) && Word(TwoLong(), s)[15] == (s == 1)
  {
    hide HighBits;
    ShrHighBits(s, 16, 1);
    assert Shr(s, 1) == s / 2 == 0;
  }

  lemma TwoLongOk()
    ensures CodeOk(TwoLong(), 16) && PrefixFree(TwoLong())
  {
    hide HighBits;
    Sizes();
    var c := TwoLong();
    forall s: nat, t: nat | Coded(c, s) && Coded(c, t) && Word(c, s) <= Word(c, t)
      ensures s == t
    {
      TwoLongWord(s);
      TwoLongWord(t);
      assert Word(c, s) == Word(c, t);
    }
  }

  /** Both codes go on after entry 0 of a table of 15 bits, and after no other. */
  lemma TwoLongPasses(s: nat, idx: nat)
    requires idx < Pow2(15)
    ensures Passes(TwoLong(), s, [], 15, idx) <==> s < 2 && idx == 0
  {
    hide HighBits, Pow2;
    Sizes();
    var c := TwoLong();
    assert Path([], 15, idx) == HighBits(idx, 15);
    if s < 2 {
      TwoLongWord(s);
      SameHighBits(idx, 0, 15);
      assert Word(c, s)[..15] == HighBits(0, 15);
    }
  }

  lemma TwoLongBits(idx: nat)
    requires idx < Pow2(15)
    ensures SubBits(TwoLong(), [], 15, idx) == if idx == 0 then 1 else 0
  {
    hide Passes;
    var c := TwoLong();
    TwoLongPasses(0, idx);
    TwoLongPasses(1, idx);
    assert MaxBelow(c, [], 15, idx, 1) == if idx == 0 then 1 else 0;
  }

  lemma {:induction false} TwoLongBelow(upto: nat)
    requires 0 < upto <= Pow2(15)
    ensures Below(TwoLong(), [], 15, 16, upto) == 2
  {
    hide SubBits, Pow2, Below;
    var c := TwoLong();
    BelowStep(c, [], 15, 16, upto - 1);
    TwoLongBits(upto - 1);
    if upto > 1 {
      TwoLongBelow(upto - 1);
    } else {
      LastTable(c, Path([], 15, 0));
    }
  }

  lemma LastTable(c: Code, pre: seq<bool>)
    requires |pre| == 15
    ensures Size(c, pre, 1, 16) == 2
  {
    hide SubBits;
    Sizes();
    BelowStep(c, pre, 1, 16, 0);
    BelowStep(c, pre, 1, 16, 1);
  }

  /** The pointer to the second table, 32768, is stored as -32768. */
  lemma PointerCut(ideal: seq<Entry>)
    requires CodeOk(TwoLong(), 16) && TableOk(TwoLong(), ideal, 0, 15, [], 15, 16)
    requires |ideal| == Size(TwoLong(), [], 15, 16)
    ensures |ideal| == 32770 && ideal[0].code == 32768 && -15 <= ideal[0].bits < 0
    ensures StoreAll(ideal)[0].code == -32768 && StoreAll(ideal)[0].bits == ideal[0].bits
  {
    hide CodeOk, Covers, Passes;
    Sizes();
    TwoLongBelow(Pow2(15));
    TwoLongPasses(0, 0);
    PowerAtLeast(-ideal[0].bits);
    SmallStays(ideal[0].bits);
  }

  lemma PowerAtLeast(n: int)
    ensures n > 0 ==> Pow2(n) >= 2
  {
  }

  lemma TwoLongSize()
    ensures Size(TwoLong(), [], 15, 16) + Pow2(15) <= 0x8000_0000
  {
    hide Below;
    Sizes();
    TwoLongBelow(Pow2(15));
  }

  /** With 15 bits a table of a valid code is built, and the lookup of a symbol then leaves the table. */
  method CutPointer(stream: seq<bool>, bp: nat, maxDepth: nat) returns (table: seq<Entry>)
    ensures !NarrowTo(TwoLong(), 0, [], 15, 16, Pow2(15))
    ensures maxDepth > 1 && At(stream, bp, Word(TwoLong(), 0)) ==> GetVlc(table, stream, bp, 15, maxDepth) == Lost
  {
    hide *;
    TwoLongOk();
    TwoLongCoded();
    TwoLongSize();
    var inInt, ok;
    ghost var ideal;
    inInt, ok, table, ideal := InitVlc(15, TwoLong(), 16);
    PointerCut(ideal);
    TwoLongWide();
    if At(stream, bp, Word(TwoLong(), 0)) {
      LookupLeaves(table, stream, bp, maxDepth);
    }
  }

  lemma TwoLongCoded()
    ensures |TwoLong().lens| == 2 && Coded(TwoLong(), 0)
  {
  }

  lemma TwoLongWide()
    ensures !NarrowTo(TwoLong(), 0, [], 15, 16, Pow2(15))
  {
    hide SubBits, Below;
    Sizes();
    TwoLongBits(0);
    assert !NarrowAt(TwoLong(), 0, [], 15, 16, 0);
  }

  lemma LookupLeaves(t: seq<Entry>, stream: seq<bool>, bp: nat, maxDepth: nat)
    requires |t| > 0 && t[0].code == -32768 && -15 <= t[0].bits < 0 && Coded(TwoLong(), 0)
    requires At(stream, bp, Word(TwoLong(), 0))
    ensures maxDepth > 1 ==> GetVlc(t, stream, bp, 15, maxDepth) == Lost
  {
    hide HighBits, Index, Word;
    Sizes();
    TwoLongWord(0);
    assert stream[bp..bp + 15] == stream[bp..bp + 16][..15] == HighBits(0, 15);
    ShownIndex(stream, bp, 15, 0);
    var nb := -t[0].bits;
    if bp + 15 + nb <= |stream| {
      IndexBits(stream[bp + 15..bp + 15 + nb]);
      Pow2Monotone(nb, 15);
    }
  }
}
