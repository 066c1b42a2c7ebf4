/**
 * Pixels smaller than a byte are packed from the most significant bit down.
 * Buffers are viewed as bit strings, and every copying loop is a splice.
 */
module ReversedBits {
  import opened Powers
  import opened BitStream
  import opened ImageFilter

  /** readBitFromReversedStream */
  predicate RBit(data: seq<byte>, i: nat)
    requires i < 8 * |data|
  {
    TestBit(data[i / 8], 7 - i % 8)
  }

  function RBits(data: seq<byte>): (bits: seq<bool>)
    ensures |bits| == 8 * |data|
    ensures forall i :: 0 <= i < |bits| ==> bits[i] == RBit(data, i)
  {
    seq(8 * |data|, i requires 0 <= i < 8 * |data| => RBit(data, i))
  }

  /** The leftmost pixel of one bit is the most significant bit of its byte. */
  lemma LeftmostHighest(data: seq<byte>, i: nat)
    requires i < |data|
    ensures RBit(data, 8 * i) <==> data[i] >= 128
    ensures RBit(data, 8 * i + 7) <==> data[i] % 2 == 1
  {
    var v: nat := data[i];
    assert TestBit(v, 7) == TestBit(v / 2 / 2, 5) == TestBit(v / 2 / 2 / 2 / 2, 3);
    assert TestBit(v / 16, 3) == TestBit(v / 16 / 2 / 2, 1) == TestBit(v / 128, 0);
  }

  /** `bits` with `piece` written over it from position `pos` on. */
  function Splice(bits: seq<bool>, pos: nat, piece: seq<bool>): (r: seq<bool>)
    requires pos + |piece| <= |bits|
    ensures |r| == |bits|
    ensures forall k :: 0 <= k < |bits| ==> r[k] == if pos <= k < pos + |piece| then piece[k - pos] else bits[k]
  {
    bits[..pos] + piece + bits[pos + |piece|..]
  }

  function ClearBit(v: nat, n: nat): nat {
    if n == 0 then v - v % 2 else 2 * ClearBit(v / 2, n - 1) + v % 2
  }

  lemma {:induction false} ClearBitTest(v: nat, n: nat, j: nat)
    ensures TestBit(ClearBit(v, n), j) <==> j != n && TestBit(v, j)
  {
    if n > 0 {
      assert ClearBit(v, n) / 2 == ClearBit(v / 2, n - 1);
      if j > 0 {
        ClearBitTest(v / 2, n - 1, j - 1);
      }
    } else if j > 0 {
      assert ClearBit(v, 0) / 2 == v / 2;
    }
  }

  lemma {:induction false} ClearBitBound(v: nat, n: nat)
    ensures ClearBit(v, n) <= v
  {
    if n > 0 {
      ClearBitBound(v / 2, n - 1);
    }
  }

  lemma OneByteBits(data: seq<byte>, bp: nat, b: byte, bit: bool)
    requires bp < 8 * |data|
    requires forall j :: 0 <= j < 8 ==> TestBit(b, j) == if j == 7 - bp % 8 then bit else TestBit(data[bp / 8], j)
    ensures RBits(data[bp / 8 := b]) == RBits(data)[bp := bit]
  {
    hide TestBit;
    var a, c := RBits(data[bp / 8 := b]), RBits(data)[bp := bit];
    forall i | 0 <= i < 8 * |data|
      ensures a[i] == c[i]
    {
      if i / 8 == bp / 8 {
        assert RBit(data[bp / 8 := b], i) == TestBit(b, 7 - i % 8);
        assert i == 8 * (i / 8) + i % 8 && bp == 8 * (bp / 8) + bp % 8;
      }
    }
  }

  /** The byte with one bit given a new value. */
  function WithBit(v: byte, n: nat, bit: bool): (r: byte)
    requires n < 8
    ensures forall j :: 0 <= j < 8 ==> TestBit(r, j) == if j == n then bit else TestBit(v, j)
  {
    hide TestBit, OrBit, ClearBit;
    OrBitIsByte(v, n);
    ClearBitBound(v, n);
    var r: byte := if bit then OrBit(v, n) else ClearBit(v, n);
    assert forall j :: 0 <= j < 8 ==> TestBit(r, j) == if j == n then bit else TestBit(v, j) by {
      forall j | 0 <= j < 8
        ensures TestBit(r, j) == if j == n then bit else TestBit(v, j)
      {
        OrBitTest(v, n, j);
        ClearBitTest(v, n, j);
      }
    }
    r
  }

  /** setBitOfReversedStream */
  method SetBit(a: array<byte>, bp: nat, bit: bool)
    requires bp < 8 * a.Length
    modifies a
    ensures RBits(a[..]) == old(RBits(a[..]))[bp := bit]
  {
    hide RBits, WithBit, TestBit;
    var b := WithBit(a[bp / 8], 7 - bp % 8, bit);
    OneByteBits(a[..], bp, b, bit);
    a[bp / 8] := b;
    assert a[..] == old(a[..])[bp / 8 := b];
  }

  /** setBitOfReversedStream0: the bit is assumed to be 0 before */
  method SetBit0(a: array<byte>, bp: nat, bit: bool)
    requires bp < 8 * a.Length && !RBits(a[..])[bp]
    modifies a
    ensures RBits(a[..]) == old(RBits(a[..]))[bp := bit]
  {
    hide RBits;
    if bit {
      SetBit(a, bp, true);
    } else {
      assert RBits(a[..])[bp := false] == RBits(a[..]);
    }
  }

  lemma ZeroRBit(data: seq<byte>, i: nat)
    requires i < 8 * |data| && data[i / 8] == 0
    ensures !RBits(data)[i]
  {
    ZeroBits(7 - i % 8);
  }

  lemma SpliceNext(bits: seq<bool>, pos: nat, src: seq<bool>, from: nat, i: nat)
    requires pos + i < |bits| && from + i < |src|
    ensures Splice(bits, pos, src[from..from + i])[pos + i := src[from + i]] ==
            Splice(bits, pos, src[from..from + i + 1])
  {
  }

  lemma SpliceNothing(bits: seq<bool>, pos: nat)
    requires pos <= |bits|
    ensures Splice(bits, pos, []) == bits
  {
  }

  /** The next bit to copy still has its first value, even in the buffer that is written. */
  lemma CopyOne(before: seq<bool>, obp: nat, src: seq<bool>, ibp: nat, i: nat, now: seq<bool>, buf: seq<bool>)
    requires obp + i < |before| && ibp + i < |src| && now == Splice(before, obp, src[ibp..ibp + i])
    requires buf == src || (buf == now && src == before && obp <= ibp)
    ensures ibp + i < |buf| && buf[ibp + i] == src[ibp + i]
    ensures now[obp + i := src[ibp + i]] == Splice(before, obp, src[ibp..ibp + i + 1])
  {
    hide Splice;
    SpliceNext(before, obp, src, ibp, i);
    StillBit(before, obp, src[ibp..ibp + i], ibp + i);
  }

  /** Copies n bits, first to last; inside one buffer they may move down. */
  method CopyBits(out: array<byte>, obp: nat, buf: array<byte>, ibp: nat, n: nat)
    requires obp + n <= 8 * out.Length && ibp + n <= 8 * buf.Length && (out == buf ==> obp <= ibp)
    modifies out
    ensures RBits(out[..]) == Splice(old(RBits(out[..])), obp, old(RBits(buf[..]))[ibp..ibp + n])
  {
    hide *;
    ghost var before, src := RBits(out[..]), RBits(buf[..]);
    NoneCopied(before, obp, src, ibp);
    for i := 0 to n
      invariant CopiedTo(RBits(out[..]), before, obp, src, ibp, i)
    {
      NextCopied(RBits(out[..]), RBits(buf[..]), before, obp, src, ibp, i);
      SetBit(out, obp + i, RBit(buf[..], ibp + i));
    }
    AllCopied(RBits(out[..]), before, obp, src, ibp, n);
  }

  /** The first i bits are copied. */
  ghost predicate CopiedTo(now: seq<bool>, before: seq<bool>, obp: nat, src: seq<bool>, ibp: nat, i: nat) {
    obp + i <= |before| && ibp + i <= |src| && now == Splice(before, obp, src[ibp..ibp + i])
  }

  lemma NoneCopied(before: seq<bool>, obp: nat, src: seq<bool>, ibp: nat)
    requires obp <= |before| && ibp <= |src|
    ensures CopiedTo(before, before, obp, src, ibp, 0)
  {
    hide Splice;
    SpliceNothing(before, obp);
  }

  lemma NextCopied(now: seq<bool>, buf: seq<bool>, before: seq<bool>, obp: nat, src: seq<bool>, ibp: nat, i: nat)
    requires CopiedTo(now, before, obp, src, ibp, i) && obp + i < |before| && ibp + i < |src|
    requires buf == src || (buf == now && src == before && obp <= ibp)
    ensures ibp + i < |buf| && obp + i < |now| && CopiedTo(now[obp + i := buf[ibp + i]], before, obp, src, ibp, i + 1)
  {
    hide Splice;
    CopyOne(before, obp, src, ibp, i, now, buf);
  }

  lemma AllCopied(now: seq<bool>, before: seq<bool>, obp: nat, src: seq<bool>, ibp: nat, n: nat)
    requires CopiedTo(now, before, obp, src, ibp, n)
    ensures obp + n <= |before| && ibp + n <= |src| && now == Splice(before, obp, src[ibp..ibp + n])
  {
    hide Splice;
  }

  lemma StillBit(bits: seq<bool>, pos: nat, piece: seq<bool>, k: nat)
    requires pos + |piece| <= |bits|
    ensures pos + |piece| <= k < |bits| ==> Splice(bits, pos, piece)[k] == bits[k]
  {
  }

  /** The same into a buffer that is 0 where it is written. */
  method CopyBits0(out: array<byte>, obp: nat, buf: array<byte>, ibp: nat, n: nat)
    requires obp + n <= 8 * out.Length && ibp + n <= 8 * buf.Length && out != buf
    requires forall k :: obp <= k < obp + n ==> !RBits(out[..])[k]
    modifies out
    ensures RBits(out[..]) == Splice(old(RBits(out[..])), obp, old(RBits(buf[..]))[ibp..ibp + n])
  {
    hide RBits, Splice;
    ghost var before, src := RBits(out[..]), RBits(buf[..]);
    SpliceNothing(before, obp);
    for i := 0 to n
      invariant RBits(out[..]) == Splice(before, obp, src[ibp..ibp + i])
    {
      SpliceNext(before, obp, src, ibp, i);
      StillBit(before, obp, src[ibp..ibp + i], obp + i);
      SetBit0(out, obp + i, RBit(buf[..], ibp + i));
    }
  }

  /** Copies n whole bytes. */
  method CopyBytes(out: array<byte>, at: nat, buf: array<byte>, from: nat, n: nat)
    requires at + n <= out.Length && from + n <= buf.Length && out != buf
    modifies out
    ensures RBits(out[..]) == Splice(old(RBits(out[..])), 8 * at, RBits(buf[..])[8 * from..8 * (from + n)])
  {
    hide RBits, Splice;
    for b := 0 to n
      invariant forall k :: at <= k < at + b ==> out[k] == buf[from + (k - at)]
      invariant forall k :: 0 <= k < out.Length && (k < at || k >= at + b) ==> out[k] == old(out[k])
    {
      out[at + b] := buf[from + b];
    }
    BytesSpliced(old(out[..]), out[..], at, buf[..], from, n);
  }

  lemma BytesSpliced(was: seq<byte>, now: seq<byte>, at: nat, src: seq<byte>, from: nat, n: nat)
    requires |was| == |now| && at + n <= |was| && from + n <= |src|
    requires forall k :: at <= k < at + n ==> now[k] == src[from + (k - at)]
    requires forall k :: 0 <= k < |was| && (k < at || k >= at + n) ==> now[k] == was[k]
    ensures RBits(now) == Splice(RBits(was), 8 * at, RBits(src)[8 * from..8 * (from + n)])
  {
    hide TestBit;
    var a, b := RBits(now), Splice(RBits(was), 8 * at, RBits(src)[8 * from..8 * (from + n)]);
    forall i | 0 <= i < 8 * |now|
      ensures a[i] == b[i]
    {
      if 8 * at <= i < 8 * (at + n) {
        var j := 8 * from + (i - 8 * at);
        assert j / 8 == from + (i / 8 - at) && j % 8 == i % 8;
        assert now[i / 8] == src[from + (i / 8 - at)];
        assert RBit(now, i) == RBit(src, j);
      } else {
        assert RBit(now, i) == RBit(was, i);
      }
    }
  }

  // ----- Padding -----

  /** The first n bits of each of `rows` lines, lines being `ol` and `il` bits apart. */
  ghost predicate LinesMoved(out: seq<bool>, obp: nat, src: seq<bool>, ibp: nat, ol: nat, il: nat, n: nat, rows: nat) {
    forall y :: 0 <= y < rows ==> LineMoved(out, obp, src, ibp, ol, il, n, y)
  }

  ghost predicate LineMoved(out: seq<bool>, obp: nat, src: seq<bool>, ibp: nat, ol: nat, il: nat, n: nat, y: nat) {
    var p, q := obp + Offset(y, ol), ibp + Offset(y, il);
    p + n <= |out| && q + n <= |src| && out[p..p + n] == src[q..q + n]
  }

  /** A line written after the others: what was moved before stays. */
  lemma LineNext(was: seq<bool>, obp: nat, src: seq<bool>, ibp: nat, ol: nat, il: nat, n: nat, y: nat, now: seq<bool>)
    requires n <= ol && LinesMoved(was, obp, src, ibp, ol, il, n, y)
    requires obp + Offset(y, ol) + n <= |was| && ibp + Offset(y, il) + n <= |src|
    requires now == Splice(was, obp + Offset(y, ol), src[ibp + Offset(y, il)..ibp + Offset(y, il) + n])
    ensures LinesMoved(now, obp, src, ibp, ol, il, n, y + 1)
  {
    hide Offset;
    forall z | 0 <= z < y + 1
      ensures LineMoved(now, obp, src, ibp, ol, il, n, z)
    {
      if z < y {
        assert LineMoved(was, obp, src, ibp, ol, il, n, z);
        OffsetInside(z, y, ol);
        var p := obp + Offset(z, ol);
        assert now[p..p + n] == was[p..p + n];
      }
    }
  }

  /** Writing later bits keeps the lines moved. */
  lemma LinesKept(was: seq<bool>, obp: nat, src: seq<bool>, ibp: nat, ol: nat, il: nat, n: nat, y: nat, now: seq<bool>)
    requires n <= ol && LinesMoved(was, obp, src, ibp, ol, il, n, y) && |now| == |was|
    requires forall k :: 0 <= k < |was| && (y > 0 ==> k < obp + Offset(y - 1, ol) + n) ==> now[k] == was[k]
    ensures LinesMoved(now, obp, src, ibp, ol, il, n, y)
  {
    hide Offset;
    forall z | 0 <= z < y
      ensures LineMoved(now, obp, src, ibp, ol, il, n, z)
    {
      assert LineMoved(was, obp, src, ibp, ol, il, n, z);
      OffsetMonotone(z, y - 1, ol);
      var p := obp + Offset(z, ol);
      assert now[p..p + n] == was[p..p + n];
    }
  }

  lemma NoLines(out: seq<bool>, obp: nat, src: seq<bool>, ibp: nat, ol: nat, il: nat, n: nat)
    ensures LinesMoved(out, obp, src, ibp, ol, il, n, 0)
  {
  }

  /** removePaddingBits: inside one buffer the lines may move down */
  method RemovePaddingBits(out: array<byte>, at: nat, buf: array<byte>, from: nat, ol: nat, il: nat, h: nat)
    requires ol <= il && (out == buf ==> at <= from)
    requires 8 * at + Offset(h, ol) <= 8 * out.Length && 8 * from + Offset(h, il) <= 8 * buf.Length
    modifies out
    ensures LinesMoved(RBits(out[..]), 8 * at, old(RBits(buf[..])), 8 * from, ol, il, ol, h)
    ensures forall k :: 0 <= k < 8 * out.Length && (k < 8 * at || k >= 8 * at + Offset(h, ol)) ==>
              RBits(out[..])[k] == old(RBits(out[..]))[k]
  {
    hide Offset, RBits, Splice, LinesMoved, SameOutside, RBit;
    ghost var src, first := RBits(buf[..]), RBits(out[..]);
    var obp, ibp := 8 * at, 8 * from;
    OffsetStep(0, ol);
    OffsetStep(0, il);
    NoLines(first, 8 * at, src, 8 * from, ol, il, ol);
    SameYet(first, 8 * at);
    for y := 0 to h
      invariant obp == 8 * at + Offset(y, ol) && ibp == 8 * from + Offset(y, il)
      invariant LinesMoved(RBits(out[..]), 8 * at, src, 8 * from, ol, il, ol, y)
      invariant SameOutside(RBits(out[..]), first, 8 * at, obp)
    {
      LineBounds(y, h, ol, il);
      ghost var was := RBits(out[..]);
      StillToCome(was, first, 8 * at, obp, ibp, ibp + ol);
      CopyBits(out, obp, buf, ibp, ol);
      LineNext(was, 8 * at, src, 8 * from, ol, il, ol, y, RBits(out[..]));
      SplicedOutside(RBits(out[..]), was, first, 8 * at, obp, src[ibp..ibp + ol]);
      obp, ibp := obp + ol, ibp + il;
    }
    OutsideAre(RBits(out[..]), first, 8 * at, obp);
  }

  /** The bits before lo and from hi on are the same. */
  ghost predicate SameOutside(now: seq<bool>, was: seq<bool>, lo: nat, hi: nat) {
    |now| == |was| && forall k :: 0 <= k < |was| && (k < lo || k >= hi) ==> now[k] == was[k]
  }

  lemma SameYet(bits: seq<bool>, at: nat)
    ensures SameOutside(bits, bits, at, at)
  {
  }

  lemma OutsideAre(now: seq<bool>, was: seq<bool>, lo: nat, hi: nat)
    requires SameOutside(now, was, lo, hi)
    ensures |now| == |was| && forall k :: 0 <= k < |was| && (k < lo || k >= hi) ==> now[k] == was[k]
  {
  }

  lemma LineBounds(y: nat, h: nat, ol: nat, il: nat)
    requires y < h && ol <= il
    ensures Offset(y, ol) + ol == Offset(y + 1, ol) <= Offset(h, ol)
    ensures Offset(y, il) + il == Offset(y + 1, il) <= Offset(h, il)
    ensures Offset(y, ol) <= Offset(y, il)
  {
    hide Offset;
    OffsetInside(y, h, ol);
    OffsetInside(y, h, il);
    OffsetStep(y, ol);
    OffsetStep(y, il);
    OffsetWider(y, ol, il);
  }

  /** What lies behind the bits written so far is still there. */
  lemma StillToCome(now: seq<bool>, was: seq<bool>, lo: nat, hi: nat, from: nat, to: nat)
    requires SameOutside(now, was, lo, hi)
    ensures hi <= from <= to <= |was| ==> |now| == |was| && now[from..to] == was[from..to]
  {
  }

  lemma SplicedOutside(now: seq<bool>, was: seq<bool>, first: seq<bool>, lo: nat, pos: nat, piece: seq<bool>)
    requires SameOutside(was, first, lo, pos) && lo <= pos && pos + |piece| <= |was| && now == Splice(was, pos, piece)
    ensures SameOutside(now, first, lo, pos + |piece|)
  {
    hide Splice;
  }

  lemma OffsetWider(y: nat, a: nat, b: nat)
    requires a <= b
    ensures Offset(y, a) <= Offset(y, b)
  {
  }

  /** Fills n bits with 0. */
  method ClearBits(out: array<byte>, bp: nat, n: nat)
    requires bp + n <= 8 * out.Length
    modifies out
    ensures forall k :: 0 <= k < 8 * out.Length ==> RBits(out[..])[k] == (!(bp <= k < bp + n) && old(RBits(out[..]))[k])
  {
    hide RBits;
    for x := 0 to n
      invariant forall k :: 0 <= k < 8 * out.Length ==>
                  RBits(out[..])[k] == (!(bp <= k < bp + x) && old(RBits(out[..]))[k])
    {
      SetBit(out, bp + x, false);
    }
  }

  ghost predicate PaddingClear(bits: seq<bool>, ol: nat, il: nat, rows: nat)
    requires Offset(rows, ol) <= |bits|
  {
    forall y :: 0 <= y < rows ==> LineClear(bits, ol, il, y)
  }

  ghost predicate LineClear(bits: seq<bool>, ol: nat, il: nat, y: nat) {
    Offset(y, ol) + ol <= |bits| && forall k :: Offset(y, ol) + il <= k < Offset(y, ol) + ol ==> !bits[k]
  }

  lemma ClearNext(was: seq<bool>, now: seq<bool>, ol: nat, il: nat, y: nat)
    requires il <= ol && Offset(y, ol) + ol <= |was| == |now| && PaddingClear(was, ol, il, y)
    requires forall k :: 0 <= k < |was| && k < Offset(y, ol) ==> now[k] == was[k]
    requires forall k :: Offset(y, ol) + il <= k < Offset(y, ol) + ol ==> !now[k]
    ensures Offset(y + 1, ol) <= |now| && PaddingClear(now, ol, il, y + 1)
  {
    hide Offset;
    OffsetStep(y, ol);
    forall z | 0 <= z < y + 1
      ensures LineClear(now, ol, il, z)
    {
      if z < y {
        assert LineClear(was, ol, il, z);
        OffsetInside(z, y, ol);
      }
    }
  }

  lemma NoPadding(bits: seq<bool>, ol: nat, il: nat)
    ensures Offset(0, ol) <= |bits| && PaddingClear(bits, ol, il, 0)
  {
  }

  /** The number of values of a size_t. */
  const SIZE: nat := 0x1_0000_0000_0000_0000

  predicate PaddingInBounds(outBits: nat, srcBits: nat, base: nat, ol: nat, il: nat, h: nat) {
    h == 0 || (il <= ol && Offset(h, ol) <= outBits && base + Offset(h, il) <= srcBits)
  }

  lemma PaddingRow(outBits: nat, srcBits: nat, base: nat, ol: nat, il: nat, y: nat, h: nat)
    requires y < h && PaddingInBounds(outBits, srcBits, base, ol, il, y)
    ensures PaddingInBounds(outBits, srcBits, base, ol, il, y + 1) <==>
            il <= ol && Offset(y, ol) + ol <= outBits && base + Offset(y, il) + il <= srcBits
    ensures PaddingInBounds(outBits, srcBits, base, ol, il, h) ==>
              PaddingInBounds(outBits, srcBits, base, ol, il, y + 1)
  {
    hide Offset;
    OffsetStep(y, ol);
    OffsetStep(y, il);
    OffsetMonotone(y + 1, h, ol);
    OffsetMonotone(y + 1, h, il);
  }

  /**
   * addPaddingBits: the padding is filled with 0 bits. Every line is guarded; one
   * that is longer than its padded form would be padded without end.
   */
  method AddPaddingBits(out: array<byte>, buf: array<byte>, from: nat, ol: nat, il: nat, h: nat)
    returns (inBounds: bool)
    requires out != buf && 8 * out.Length < SIZE && il < SIZE
    modifies out
    ensures inBounds <==> PaddingInBounds(8 * out.Length, 8 * buf.Length, 8 * from, ol, il, h)
    ensures inBounds ==> LinesMoved(RBits(out[..]), 0, RBits(buf[..]), 8 * from, ol, il, il, h)
    ensures inBounds ==> Offset(h, ol) <= 8 * out.Length && PaddingClear(RBits(out[..]), ol, il, h)
  {
    hide Offset, RBits, Splice, LinesMoved, PaddingClear, PaddingInBounds;
    ghost var src := RBits(buf[..]);
    var obp, ibp := 0, 8 * from;
    var diff := if il <= ol then ol - il else SIZE - (il - ol) % SIZE;
    OffsetStep(0, ol);
    OffsetStep(0, il);
    NoLines(RBits(out[..]), 0, src, 8 * from, ol, il, il);
    NoPadding(RBits(out[..]), ol, il);
    NoPaddingRows(8 * out.Length, 8 * buf.Length, 8 * from, ol, il);
    for y := 0 to h
      invariant obp == Offset(y, ol) <= 8 * out.Length && ibp == 8 * from + Offset(y, il)
      invariant PaddingInBounds(8 * out.Length, 8 * buf.Length, 8 * from, ol, il, y)
      invariant PaddingClear(RBits(out[..]), ol, il, y)
      invariant LinesMoved(RBits(out[..]), 0, src, 8 * from, ol, il, il, y)
    {
      OffsetStep(y, ol);
      OffsetStep(y, il);
      PaddingRow(8 * out.Length, 8 * buf.Length, 8 * from, ol, il, y, h);
      if obp + il > 8 * out.Length || ibp + il > 8 * buf.Length || obp + il + diff > 8 * out.Length {
        return false;
      }
      AddLine(out, obp, buf, ibp, ol, il, src, 8 * from, y);
      obp, ibp := obp + ol, ibp + il;
    }
    inBounds := true;
  }

  lemma NoPaddingRows(outBits: nat, srcBits: nat, base: nat, ol: nat, il: nat)
    ensures PaddingInBounds(outBits, srcBits, base, ol, il, 0)
  {
  }

  /** One line with its padding. */
  method AddLine(out: array<byte>, obp: nat, buf: array<byte>, ibp: nat, ol: nat, il: nat, ghost src: seq<bool>,
                 ghost base: nat, ghost y: nat)
    requires il <= ol && out != buf && src == RBits(buf[..])
    requires obp == Offset(y, ol) && ibp == base + Offset(y, il) && obp + ol <= 8 * out.Length
    requires ibp + il <= 8 * buf.Length
    requires LinesMoved(RBits(out[..]), 0, src, base, ol, il, il, y) && PaddingClear(RBits(out[..]), ol, il, y)
    modifies out
    ensures LinesMoved(RBits(out[..]), 0, src, base, ol, il, il, y + 1)
    ensures Offset(y + 1, ol) <= 8 * out.Length && PaddingClear(RBits(out[..]), ol, il, y + 1)
  {
    hide Offset, RBits, LinesMoved, PaddingClear;
    ghost var was := RBits(out[..]);
    CopyBits(out, obp, buf, ibp, il);
    ghost var copied := RBits(out[..]);
    LineNext(was, 0, src, base, ol, il, il, y, copied);
    ClearBits(out, obp + il, ol - il);
    LinesKept(copied, 0, src, base, ol, il, il, y + 1, RBits(out[..]));
    ClearNext(was, RBits(out[..]), ol, il, y);
  }

  // ----- Bytes from their bits -----

  lemma {:induction false} BitsDetermine(u: nat, v: nat, n: nat)
    requires u < Pow2(n) && v < Pow2(n) && forall j :: 0 <= j < n ==> TestBit(u, j) == TestBit(v, j)
    ensures u == v
  {
    if n > 0 {
      assert TestBit(u, 0) == TestBit(v, 0);
      forall j | 0 <= j < n - 1
        ensures TestBit(u / 2, j) == TestBit(v / 2, j)
      {
        assert TestBit(u, j + 1) == TestBit(v, j + 1);
      }
      BitsDetermine(u / 2, v / 2, n - 1);
    }
  }

  lemma ByteFromBits(a: seq<byte>, b: seq<byte>, i: nat)
    requires i < |a| == |b| && forall k :: 8 * i <= k < 8 * i + 8 ==> RBits(a)[k] == RBits(b)[k]
    ensures a[i] == b[i]
  {
    hide TestBit;
    forall j | 0 <= j < 8
      ensures TestBit(a[i], j) == TestBit(b[i], j)
    {
      var k := 8 * i + 7 - j;
      assert k / 8 == i && 7 - k % 8 == j;
      assert RBits(a)[k] == RBits(b)[k] && RBit(a, k) == TestBit(a[i], j);
    }
    assert Pow2(4) == 16;
    assert Pow2(8) == 256;
    BitsDetermine(a[i], b[i], 8);
  }
}
