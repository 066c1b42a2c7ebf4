/**
 * From a raw image to the data that is compressed, and back: padding,
 * interlacing and filtering. One relation between the two forms is established
 * by the encoder and by the decoder, and it leaves only one image possible.
 */
module Scanlines {
  import opened BitStream
  import opened ScanlineFilter
  import opened ImageFilter
  import opened ReversedBits
  import opened Adam7
  import opened Adam7Moves

  // ----- One image, or one pass -----

  /**
   * `lines` is the image with padded lines: its filtered form is `filt`, and its pixels stand packed in `bits`
   * from `base` on.
   */
  ghost predicate LinesOf(lines: seq<byte>, filt: seq<byte>, bits: seq<bool>, base: nat, w: nat, h: nat, bpp: nat) {
    && ImageFiltered(lines, filt, LineBytes(w, bpp), ByteWidth(bpp), h)
    && LinesMoved(RBits(lines), 0, bits, base, 8 * LineBytes(w, bpp), w * bpp, w * bpp, h)
  }

  ghost predicate PassEncoded(filt: seq<byte>, bits: seq<bool>, base: nat, w: nat, h: nat, bpp: nat) {
    exists lines: seq<byte> :: LinesOf(lines, filt, bits, base, w, h, bpp)
  }

  lemma MulOffset(h: nat, w: nat, bpp: nat)
    ensures Offset(h, w * bpp) == h * w * bpp
  {
    assert h * (w * bpp) == h * w * bpp;
  }

  lemma OffsetScale(h: nat, n: nat)
    ensures Offset(h, 8 * n) == 8 * Offset(h, n)
  {
    assert h * (8 * n) == 8 * (h * n);
  }

  lemma LineWide(w: nat, bpp: nat)
    ensures w * bpp <= 8 * LineBytes(w, bpp) && (bpp % 8 == 0 ==> w * bpp == 8 * LineBytes(w, bpp))
  {
    if bpp % 8 == 0 {
      Eights(w, bpp);
    }
  }

  /** Two bit strings with the same lines agree on every bit of them. */
  lemma SameLines(lines: seq<bool>, a: seq<bool>, b: seq<bool>, base: nat, ol: nat, n: nat, h: nat)
    requires LinesMoved(lines, 0, a, base, ol, n, n, h) && LinesMoved(lines, 0, b, base, ol, n, n, h)
    requires base + Offset(h, n) <= |a| && base + Offset(h, n) <= |b|
    ensures forall k :: base <= k < base + Offset(h, n) ==> a[k] == b[k]
  {
    hide LineMoved, Offset;
    forall k | base <= k < base + Offset(h, n)
      ensures a[k] == b[k]
    {
      var y := LineAt(k - base, h, n);
      assert LineMoved(lines, 0, a, base, ol, n, n, y) && LineMoved(lines, 0, b, base, ol, n, n, y);
      SameLineBit(lines, a, b, base, ol, n, y, k);
    }
  }

  lemma SameLineBit(lines: seq<bool>, a: seq<bool>, b: seq<bool>, base: nat, ol: nat, n: nat, y: nat, k: nat)
    requires LineMoved(lines, 0, a, base, ol, n, n, y) && LineMoved(lines, 0, b, base, ol, n, n, y)
    requires base + Offset(y, n) <= k < base + Offset(y, n) + n
    ensures k < |a| && k < |b| && a[k] == b[k]
  {
    hide Offset;
    var q := base + Offset(y, n);
    assert a[q..q + n][k - q] == b[q..q + n][k - q];
  }

  lemma LineAt(k: nat, h: nat, n: nat) returns (y: nat)
    requires k < Offset(h, n)
    ensures y < h && Offset(y, n) <= k < Offset(y, n) + n
  {
    DivideCells(k, h, n);
    y := k / n;
  }

  /** The filtered form determines the packed pixels. */
  lemma OnePass(filt: seq<byte>, a: seq<bool>, b: seq<bool>, base: nat, w: nat, h: nat, bpp: nat)
    requires bpp > 0 && PassEncoded(filt, a, base, w, h, bpp) && PassEncoded(filt, b, base, w, h, bpp)
    requires base + h * w * bpp <= |a| && base + h * w * bpp <= |b|
    ensures forall k :: base <= k < base + h * w * bpp ==> a[k] == b[k]
  {
    hide ImageFiltered, LinesMoved, RBits, LineBytes;
    var la: seq<byte> :| LinesOf(la, filt, a, base, w, h, bpp);
    var lb: seq<byte> :| LinesOf(lb, filt, b, base, w, h, bpp);
    OneImage(la, lb, filt, LineBytes(w, bpp), ByteWidth(bpp), h);
    SameLines(RBits(la), a, b, base, 8 * LineBytes(w, bpp), w * bpp, h);
    MulOffset(h, w, bpp);
  }

  /** Only the bits of the pixels matter. */
  lemma PassEncodedSame(filt: seq<byte>, a: seq<bool>, b: seq<bool>, base: nat, w: nat, h: nat, bpp: nat)
    requires PassEncoded(filt, a, base, w, h, bpp) && |b| == |a|
    requires forall k :: base <= k < base + h * w * bpp && k < |a| ==> a[k] == b[k]
    ensures PassEncoded(filt, b, base, w, h, bpp)
  {
    hide ImageFiltered, RBits, LineBytes, Offset, LineMoved;
    var lines: seq<byte> :| LinesOf(lines, filt, a, base, w, h, bpp);
    MulOffset(h, w, bpp);
    var n := w * bpp;
    forall y | 0 <= y < h
      ensures LineMoved(RBits(lines), 0, b, base, 8 * LineBytes(w, bpp), n, n, y)
    {
      assert LineMoved(RBits(lines), 0, a, base, 8 * LineBytes(w, bpp), n, n, y);
      OffsetInside(y, h, n);
      LineSame(RBits(lines), a, b, base, 8 * LineBytes(w, bpp), n, y);
    }
    assert LinesOf(lines, filt, b, base, w, h, bpp);
  }

  lemma LineSame(lines: seq<bool>, a: seq<bool>, b: seq<bool>, base: nat, ol: nat, n: nat, y: nat)
    requires LineMoved(lines, 0, a, base, ol, n, n, y) && |a| == |b|
    requires forall k :: base + Offset(y, n) <= k < base + Offset(y, n) + n && k < |a| ==> a[k] == b[k]
    ensures LineMoved(lines, 0, b, base, ol, n, n, y)
  {
    hide Offset;
    var q := base + Offset(y, n);
    assert a[q..q + n] == b[q..q + n];
  }

  /** The bits of a slice of a buffer. */
  lemma SliceBits(data: seq<byte>, from: nat, slice: seq<byte>)
    requires from + |slice| <= |data| && slice == data[from..from + |slice|]
    ensures forall k :: 0 <= k < 8 * |slice| ==> RBits(slice)[k] == RBits(data)[8 * from + k]
  {
    forall k | 0 <= k < 8 * |slice|
      ensures RBits(slice)[k] == RBits(data)[8 * from + k]
    {
      assert (8 * from + k) / 8 == from + k / 8 && (8 * from + k) % 8 == k % 8;
      assert RBit(slice, k) == RBit(data, 8 * from + k);
    }
  }

  /** Lines moved out of a buffer are lines moved between the slice that holds them and the target. */
  lemma LinesOfSlice(out: seq<bool>, base: nat, data: seq<byte>, from: nat, slice: seq<byte>, ol: nat, il: nat, n: nat,
                     h: nat)
    requires from + |slice| <= |data| && slice == data[from..from + |slice|] && Offset(h, il) <= 8 * |slice| && n <= il
    requires LinesMoved(out, base, RBits(data), 8 * from, ol, il, n, h)
    ensures LinesMoved(RBits(slice), 0, out, base, il, ol, n, h)
  {
    hide Offset, RBits, LineMoved;
    SliceBits(data, from, slice);
    forall y | 0 <= y < h
      ensures LineMoved(RBits(slice), 0, out, base, il, ol, n, y)
    {
      assert LineMoved(out, base, RBits(data), 8 * from, ol, il, n, y);
      OffsetInside(y, h, il);
      LineTurned(out, base, RBits(data), 8 * from, RBits(slice), ol, il, n, y);
    }
  }

  lemma LineTurned(out: seq<bool>, base: nat, src: seq<bool>, from: nat, slice: seq<bool>, ol: nat, il: nat, n: nat,
                   y: nat)
    requires LineMoved(out, base, src, from, ol, il, n, y) && Offset(y, il) + n <= |slice| && from + |slice| <= |src|
    requires forall k :: 0 <= k < |slice| ==> slice[k] == src[from + k]
    ensures LineMoved(slice, 0, out, base, il, ol, n, y)
  {
    hide Offset;
    var q := Offset(y, il);
    assert slice[q..q + n] == src[from + q..from + q + n];
  }

  /** Without padding the lines stand as they are. */
  lemma DirectLines(data: seq<byte>, from: nat, lines: seq<byte>, n: nat, h: nat)
    requires |lines| == Offset(h, n) && from + |lines| <= |data| && lines == data[from..from + |lines|]
    ensures LinesMoved(RBits(lines), 0, RBits(data), 8 * from, 8 * n, 8 * n, 8 * n, h)
  {
    hide Offset, RBits, LineMoved;
    OffsetScale(h, n);
    SliceBits(data, from, lines);
    var width := 8 * n;
    forall y | 0 <= y < h
      ensures LineMoved(RBits(lines), 0, RBits(data), 8 * from, width, width, width, y)
    {
      OffsetInside(y, h, 8 * n);
      LineDirect(RBits(lines), RBits(data), 8 * from, 8 * n, y);
    }
  }

  lemma LineDirect(slice: seq<bool>, src: seq<bool>, from: nat, n: nat, y: nat)
    requires Offset(y, n) + n <= |slice| && from + |slice| <= |src|
    requires forall k :: 0 <= k < |slice| ==> slice[k] == src[from + k]
    ensures LineMoved(slice, 0, src, from, n, n, n, y)
  {
    hide Offset;
    var q := Offset(y, n);
    assert slice[q..q + n] == src[from + q..from + q + n];
  }

  // ----- Whole images -----

  /** Pass i of the filtered data. */
  ghost predicate PassOk(filt: seq<byte>, slots: seq<bool>, w: nat, h: nat, bpp: nat, i: nat) {
    && FilterStart(i, w, h, bpp) + FilterSize(i, w, h, bpp) <= |filt|
    && PassEncoded(filt[FilterStart(i, w, h, bpp)..FilterStart(i, w, h, bpp) + FilterSize(i, w, h, bpp)], slots,
                   8 * PassStart(i, w, h, bpp), PassW(i, w, h), PassH(i, w, h), bpp)
  }

  /** The first `passes` passes of the filtered data. */
  ghost predicate PassesOk(filt: seq<byte>, slots: seq<bool>, w: nat, h: nat, bpp: nat, passes: nat) {
    forall i :: 0 <= i < passes ==> PassOk(filt, slots, w, h, bpp, i)
  }

  ghost predicate InterlacedData(filt: seq<byte>, slots: seq<bool>, bits: seq<bool>, w: nat, h: nat, bpp: nat) {
    8 * PassStart(7, w, h, bpp) <= |slots| && PassesOk(filt, slots, w, h, bpp, 7) && Interlaced(slots, bits, w, h, bpp)
  }

  /** `filt` is the filtered, padded and possibly interlaced form of the image `bits`. */
  ghost predicate Processed(filt: seq<byte>, bits: seq<bool>, w: nat, h: nat, bpp: nat, interlace: bool) {
    if interlace then exists slots: seq<bool> :: InterlacedData(filt, slots, bits, w, h, bpp)
    else PassEncoded(filt, bits, 0, w, h, bpp)
  }

  /** The size of the filtered data. */
  function DataSize(w: nat, h: nat, bpp: nat, interlace: bool): nat {
    if interlace then FilterStart(7, w, h, bpp) else Offset(h, LineBytes(w, bpp) + 1)
  }

  /** Two sets of slots with the same filtered form agree on the bits of every pixel. */
  lemma SameSlots(filt: seq<byte>, a: seq<bool>, b: seq<bool>, bits: seq<bool>, w: nat, h: nat, bpp: nat)
    requires bpp > 0 && PassesOk(filt, a, w, h, bpp, 7) && PassesOk(filt, b, w, h, bpp, 7)
    requires 8 * PassStart(7, w, h, bpp) <= |a| && 8 * PassStart(7, w, h, bpp) <= |b| && Interlaced(b, bits, w, h, bpp)
    ensures Interlaced(a, bits, w, h, bpp)
  {
    hide PixelMoved, PassOk, PassW, PassH, PassStart;
    forall x: nat, y: nat | x < w && y < h
      ensures PixelMoved(a, bits, x, y, w, h, bpp)
    {
      assert PixelMoved(b, bits, x, y, w, h, bpp);
      var i := PassOf(x, y);
      assert PassOk(filt, a, w, h, bpp, i) && PassOk(filt, b, w, h, bpp, i);
      SameSlot(filt, a, b, bits, x, y, w, h, bpp);
    }
  }

  lemma SameSlot(filt: seq<byte>, a: seq<bool>, b: seq<bool>, bits: seq<bool>, x: nat, y: nat, w: nat, h: nat, bpp: nat)
    requires bpp > 0 && x < w && y < h && PixelMoved(b, bits, x, y, w, h, bpp)
    requires PassOk(filt, a, w, h, bpp, PassOf(x, y)) && PassOk(filt, b, w, h, bpp, PassOf(x, y))
    requires 8 * PassStart(7, w, h, bpp) <= |a| && 8 * PassStart(7, w, h, bpp) <= |b|
    ensures PixelMoved(a, bits, x, y, w, h, bpp)
  {
    hide *;
    var i := PassOf(x, y);
    SlotWithin(x, y, w, h, bpp);
    PassSame(filt, a, b, i, w, h, bpp);
    SlotSame(a, b, bits, x, y, w, h, bpp);
  }

  lemma SlotSame(a: seq<bool>, b: seq<bool>, bits: seq<bool>, x: nat, y: nat, w: nat, h: nat, bpp: nat)
    requires PixelMoved(b, bits, x, y, w, h, bpp) && SlotOf(x, y, w, h, bpp) + bpp <= |a|
    requires forall k :: SlotOf(x, y, w, h, bpp) <= k < SlotOf(x, y, w, h, bpp) + bpp && k < |b| ==> a[k] == b[k]
    ensures PixelMoved(a, bits, x, y, w, h, bpp)
  {
    hide SlotOf, PixelBit;
    var p := SlotOf(x, y, w, h, bpp);
    assert a[p..p + bpp] == b[p..p + bpp];
  }

  lemma SlotWithin(x: nat, y: nat, w: nat, h: nat, bpp: nat)
    requires x < w && y < h
    ensures var i := PassOf(x, y);
            && 8 * PassStart(i, w, h, bpp) <= SlotOf(x, y, w, h, bpp)
            && SlotOf(x, y, w, h, bpp) + bpp <= 8 * PassStart(i, w, h, bpp) + PassBits(i, w, h, bpp)
            && 8 * PassStart(i, w, h, bpp) + PassBits(i, w, h, bpp) <= 8 * PassStart(7, w, h, bpp)
  {
    hide PassW, PassH, PassStart, PassBits, PassOf, SlotX, SlotY, PixelBit;
    var i := PassOf(x, y);
    SlotOfPixel(x, y, w, h);
    SlotInside(i, SlotX(x, y), SlotY(x, y), w, h, bpp);
    StartsGrow(i + 1, 7, w, h, bpp);
  }

  lemma PassSame(filt: seq<byte>, a: seq<bool>, b: seq<bool>, i: nat, w: nat, h: nat, bpp: nat)
    requires bpp > 0 && PassOk(filt, a, w, h, bpp, i) && PassOk(filt, b, w, h, bpp, i)
    requires 8 * PassStart(i, w, h, bpp) + PassBits(i, w, h, bpp) <= |a|
    requires 8 * PassStart(i, w, h, bpp) + PassBits(i, w, h, bpp) <= |b|
    ensures forall k :: 8 * PassStart(i, w, h, bpp) <= k < 8 * PassStart(i, w, h, bpp) + PassBits(i, w, h, bpp) ==>
              a[k] == b[k]
  {
    hide PassW, PassH, PassStart, PassEncoded, FilterStart, FilterSize;
    var f, n := FilterStart(i, w, h, bpp), FilterSize(i, w, h, bpp);
    OnePass(filt[f..f + n], a, b, 8 * PassStart(i, w, h, bpp), PassW(i, w, h), PassH(i, w, h), bpp);
  }

  /** The filtered data determines every bit of the image. */
  lemma ProcessedOnce(filt: seq<byte>, a: seq<bool>, b: seq<bool>, w: nat, h: nat, bpp: nat, interlace: bool)
    requires bpp > 0 && ImageBits(w, h, bpp) <= |a| && ImageBits(w, h, bpp) <= |b|
    requires Processed(filt, a, w, h, bpp, interlace) && Processed(filt, b, w, h, bpp, interlace)
    ensures a[..ImageBits(w, h, bpp)] == b[..ImageBits(w, h, bpp)]
  {
    hide PassEncoded, PassesOk, Interlaced, PassStart;
    if interlace {
      var sa: seq<bool> :| InterlacedData(filt, sa, a, w, h, bpp);
      var sb: seq<bool> :| InterlacedData(filt, sb, b, w, h, bpp);
      SameSlots(filt, sa, sb, b, w, h, bpp);
      OneInterlaced(sa, a, b, w, h, bpp);
    } else {
      OnePass(filt, a, b, 0, w, h, bpp);
      assert a[..ImageBits(w, h, bpp)] == b[..ImageBits(w, h, bpp)];
    }
  }

  // ----- preProcessScanlines -----

  /** The filter types chosen for each row of each pass. */
  ghost predicate TypesFor(types: seq<seq<byte>>, w: nat, h: nat, interlace: bool) {
    && |types| == (if interlace then 7 else 1)
    && forall i :: 0 <= i < |types| ==> RowTypes(types[i], if interlace then PassH(i, w, h) else h)
  }

  predicate RowTypes(types: seq<byte>, rows: nat) { |types| == rows && forall y :: 0 <= y < rows ==> types[y] <= 4 }

  /** The passes before pass i stand before its data. */
  lemma PassesKept(was: seq<byte>, now: seq<byte>, slots: seq<bool>, w: nat, h: nat, bpp: nat, i: nat)
    requires PassesOk(was, slots, w, h, bpp, i) && PassOk(now, slots, w, h, bpp, i) && |was| == |now|
    requires forall k :: 0 <= k < |was| && k < FilterStart(i, w, h, bpp) ==> now[k] == was[k]
    ensures PassesOk(now, slots, w, h, bpp, i + 1)
  {
    hide PassEncoded, PassW, PassH, FilterSize, PassStart, FilterStart;
    forall j | 0 <= j < i
      ensures PassOk(now, slots, w, h, bpp, j)
    {
      assert PassOk(was, slots, w, h, bpp, j);
      StartsGrow(j + 1, i, w, h, bpp);
      NextStarts(j, w, h, bpp);
      var f, n := FilterStart(j, w, h, bpp), FilterSize(j, w, h, bpp);
      assert now[f..f + n] == was[f..f + n];
    }
  }

  lemma NextStarts(i: nat, w: nat, h: nat, bpp: nat)
    ensures FilterStart(i + 1, w, h, bpp) == FilterStart(i, w, h, bpp) + FilterSize(i, w, h, bpp)
    ensures PaddedStart(i + 1, w, h, bpp) == PaddedStart(i, w, h, bpp) + PaddedSize(i, w, h, bpp)
    ensures PassStart(i + 1, w, h, bpp) == PassStart(i, w, h, bpp) + PassSize(i, w, h, bpp)
  {
  }

  /** Where the data of a pass lies. */
  lemma EncodeBounds(i: nat, w: nat, h: nat, bpp: nat)
    requires i < 7
    ensures var pw, ph := PassW(i, w, h), PassH(i, w, h);
            && FilterSize(i, w, h, bpp) == Offset(ph, LineBytes(pw, bpp) + 1)
            && FilterStart(i, w, h, bpp) + FilterSize(i, w, h, bpp) <= FilterStart(7, w, h, bpp)
            && PaddedSize(i, w, h, bpp) == Offset(ph, LineBytes(pw, bpp))
            && PaddedStart(i, w, h, bpp) + PaddedSize(i, w, h, bpp) <= PaddedStart(7, w, h, bpp)
            && 8 * PassStart(i, w, h, bpp) + ph * pw * bpp <= 8 * PassStart(7, w, h, bpp)
            && PassStart(i, w, h, bpp) <= PaddedStart(i, w, h, bpp) <= FilterStart(i, w, h, bpp)
            && PaddedStart(7, w, h, bpp) <= FilterStart(7, w, h, bpp)
            && (bpp % 8 == 0 ==>
                  && pw * bpp == 8 * LineBytes(pw, bpp)
                  && PassStart(i, w, h, bpp) == PaddedStart(i, w, h, bpp)
                  && PassStart(7, w, h, bpp) == PaddedStart(7, w, h, bpp))
  {
    hide PassW, PassH, Offset, LineBytes, PassStart, PaddedStart, FilterStart, FilterSize;
    PassOrdered(i, w, h, bpp);
    NextStarts(i, w, h, bpp);
    StartsGrow(i + 1, 7, w, h, bpp);
    StartsOrdered(i, w, h, bpp);
    StartsOrdered(7, w, h, bpp);
    LineWide(PassW(i, w, h), bpp);
  }

  lemma NoPasses(filt: seq<byte>, slots: seq<bool>, w: nat, h: nat, bpp: nat)
    ensures PassesOk(filt, slots, w, h, bpp, 0)
  {
  }

  lemma Interlacing(filt: seq<byte>, slots: seq<bool>, bits: seq<bool>, w: nat, h: nat, bpp: nat)
    requires 8 * PassStart(7, w, h, bpp) <= |slots| && PassesOk(filt, slots, w, h, bpp, 7)
    requires Interlaced(slots, bits, w, h, bpp)
    ensures Processed(filt, bits, w, h, bpp, true)
  {
    hide PassesOk, Interlaced, PassStart;
    assert InterlacedData(filt, slots, bits, w, h, bpp);
  }

  // ----- postProcessScanlines -----

  /** Every row of pass i has one of the five filter types. */
  predicate PassTypesOk(filt: seq<byte>, w: nat, h: nat, bpp: nat, i: nat)
    requires FilterStart(i, w, h, bpp) + FilterSize(i, w, h, bpp) <= |filt|
  {
    var f := FilterStart(i, w, h, bpp);
    TypesOk(filt[f..f + FilterSize(i, w, h, bpp)], LineBytes(PassW(i, w, h), bpp), PassH(i, w, h))
  }

  ghost predicate AllTypesOk(filt: seq<byte>, w: nat, h: nat, bpp: nat, passes: nat) {
    forall i :: 0 <= i < passes ==>
      FilterStart(i, w, h, bpp) + FilterSize(i, w, h, bpp) <= |filt| && PassTypesOk(filt, w, h, bpp, i)
  }

  /** What error the filtered data leads to. */
  ghost function DataError(filt: seq<byte>, w: nat, h: nat, bpp: nat, interlace: bool): nat {
    if bpp == 0 then 31
    else if (if interlace then AllTypesOk(filt, w, h, bpp, 7) else TypesOk(filt, LineBytes(w, bpp), h)) then 0 else 36
  }

  lemma PackBounds(w: nat, h: nat, bpp: nat)
    ensures var n := LineBytes(w, bpp);
            && w * bpp <= 8 * n && Offset(h, w * bpp) <= Offset(h, 8 * n) == 8 * Offset(h, n)
            && (bpp % 8 == 0 ==> w * bpp == 8 * n)
  {
    hide Offset, LineBytes;
    LineWide(w, bpp);
    OffsetScale(h, LineBytes(w, bpp));
    OffsetWider(h, w * bpp, 8 * LineBytes(w, bpp));
  }

  lemma PassFound(lines: seq<byte>, filt: seq<byte>, bits: seq<bool>, base: nat, w: nat, h: nat, bpp: nat)
    requires LinesOf(lines, filt, bits, base, w, h, bpp)
    ensures PassEncoded(filt, bits, base, w, h, bpp)
  {
  }

  /** Bits of bytes that were not written. */
  lemma UnfilterBits(was: seq<byte>, now: seq<byte>, at: nat, size: nat)
    requires |was| == |now| && forall k :: 0 <= k < |was| && (k < at || k >= at + size) ==> now[k] == was[k]
    ensures forall k :: 0 <= k < 8 * |was| && (k < 8 * at || k >= 8 * (at + size)) ==> RBits(now)[k] == RBits(was)[k]
  {
    forall k | 0 <= k < 8 * |was| && (k < 8 * at || k >= 8 * (at + size))
      ensures RBits(now)[k] == RBits(was)[k]
    {
      assert RBit(now, k) == RBit(was, k);
    }
  }

  /** After pass i the data of the later passes is untouched, and the earlier passes stay packed. */
  lemma DecodeStep(filt: seq<byte>, was: seq<byte>, now: seq<byte>, w: nat, h: nat, bpp: nat, i: nat)
    requires i < 7 && |was| == |now| == |filt| == FilterStart(7, w, h, bpp)
    requires PassesOk(filt, RBits(was), w, h, bpp, i) && PassOk(was, RBits(now), w, h, bpp, i)
    requires forall k :: FilterStart(i, w, h, bpp) <= k < |filt| ==> was[k] == filt[k]
    requires forall k ::
               0 <= k < 8 * |was| && (k < 8 * PassStart(i, w, h, bpp) || k >= 8 * PaddedStart(i + 1, w, h, bpp)) ==>
                 RBits(now)[k] == RBits(was)[k]
    ensures PassesOk(filt, RBits(now), w, h, bpp, i + 1)
    ensures forall k :: FilterStart(i + 1, w, h, bpp) <= k < |filt| ==> now[k] == filt[k]
  {
    hide RBits, PassOk, FilterStart, PaddedStart, PassStart;
    SamePassData(filt, was, RBits(now), w, h, bpp, i);
    forall j | 0 <= j < i
      ensures PassOk(filt, RBits(now), w, h, bpp, j)
    {
      assert PassOk(filt, RBits(was), w, h, bpp, j);
      EarlierPass(filt, RBits(was), RBits(now), w, h, bpp, j, i);
    }
    StartsOrdered(i + 1, w, h, bpp);
    StartsGrow(i, i + 1, w, h, bpp);
    forall k | FilterStart(i + 1, w, h, bpp) <= k < |filt|
      ensures now[k] == filt[k]
    {
      ByteFromBits(was, now, k);
    }
  }

  lemma SamePassData(filt: seq<byte>, was: seq<byte>, bits: seq<bool>, w: nat, h: nat, bpp: nat, i: nat)
    requires |was| == |filt| && PassOk(was, bits, w, h, bpp, i)
    requires forall k :: FilterStart(i, w, h, bpp) <= k < |filt| ==> was[k] == filt[k]
    ensures PassOk(filt, bits, w, h, bpp, i)
  {
    hide PassEncoded, FilterStart, FilterSize, PassStart, PassW, PassH;
    var f, n := FilterStart(i, w, h, bpp), FilterSize(i, w, h, bpp);
    assert was[f..f + n] == filt[f..f + n];
  }

  lemma EarlierPass(filt: seq<byte>, a: seq<bool>, b: seq<bool>, w: nat, h: nat, bpp: nat, j: nat, i: nat)
    requires j < i && PassOk(filt, a, w, h, bpp, j) && |a| == |b|
    requires forall k :: 0 <= k < |a| && k < 8 * PassStart(i, w, h, bpp) ==> b[k] == a[k]
    ensures PassOk(filt, b, w, h, bpp, j)
  {
    hide PassEncoded, FilterStart, FilterSize, PassStart, PassW, PassH;
    NextStarts(j, w, h, bpp);
    StartsGrow(j + 1, i, w, h, bpp);
    var f, n := FilterStart(j, w, h, bpp), FilterSize(j, w, h, bpp);
    PassEncodedSame(filt[f..f + n], a, b, 8 * PassStart(j, w, h, bpp), PassW(j, w, h), PassH(j, w, h), bpp);
  }

  lemma SameTypes(filt: seq<byte>, was: seq<byte>, w: nat, h: nat, bpp: nat, i: nat)
    requires |was| == |filt| && FilterStart(i, w, h, bpp) + FilterSize(i, w, h, bpp) <= |filt|
    requires forall k :: FilterStart(i, w, h, bpp) <= k < |filt| ==> was[k] == filt[k]
    ensures PassTypesOk(was, w, h, bpp, i) == PassTypesOk(filt, w, h, bpp, i)
  {
    hide TypesOk, FilterStart, FilterSize, PassW, PassH;
    var f, n := FilterStart(i, w, h, bpp), FilterSize(i, w, h, bpp);
    assert was[f..f + n] == filt[f..f + n];
  }

  lemma NoPassTypes(filt: seq<byte>, w: nat, h: nat, bpp: nat)
    ensures AllTypesOk(filt, w, h, bpp, 0)
  {
  }

  lemma MoreTypes(filt: seq<byte>, w: nat, h: nat, bpp: nat, i: nat)
    requires i < 7 && AllTypesOk(filt, w, h, bpp, i) && FilterStart(i, w, h, bpp) + FilterSize(i, w, h, bpp) <= |filt|
    ensures PassTypesOk(filt, w, h, bpp, i) ==> AllTypesOk(filt, w, h, bpp, i + 1)
    ensures !PassTypesOk(filt, w, h, bpp, i) ==> !AllTypesOk(filt, w, h, bpp, 7)
  {
    hide PassTypesOk, FilterStart, FilterSize;
  }

  // ----- The round trip -----

  lemma EncodedTypes(filt: seq<byte>, bits: seq<bool>, base: nat, w: nat, h: nat, bpp: nat)
    requires PassEncoded(filt, bits, base, w, h, bpp)
    ensures TypesOk(filt, LineBytes(w, bpp), h)
  {
    hide Offset, LineBytes, LinesMoved, Reconstructs;
    var lines: seq<byte> :| LinesOf(lines, filt, bits, base, w, h, bpp);
    forall y | 0 <= y < h
      ensures TypeOk(filt, LineBytes(w, bpp), y)
    {
      assert RowFiltered(lines, filt, LineBytes(w, bpp), ByteWidth(bpp), y);
    }
  }

  /** Data the encoder produced is decoded without error. */
  lemma ProcessedDecodes(filt: seq<byte>, bits: seq<bool>, w: nat, h: nat, bpp: nat, interlace: bool)
    requires bpp > 0 && Processed(filt, bits, w, h, bpp, interlace)
    ensures DataError(filt, w, h, bpp, interlace) == 0
  {
    hide PassEncoded, TypesOk, LineBytes, PassW, PassH, PassStart, FilterStart, FilterSize, Interlaced;
    if interlace {
      var slots: seq<bool> :| InterlacedData(filt, slots, bits, w, h, bpp);
      forall i | 0 <= i < 7
        ensures FilterStart(i, w, h, bpp) + FilterSize(i, w, h, bpp) <= |filt| && PassTypesOk(filt, w, h, bpp, i)
      {
        assert PassOk(filt, slots, w, h, bpp, i);
        var f := FilterStart(i, w, h, bpp);
        EncodedTypes(filt[f..f + FilterSize(i, w, h, bpp)], slots, 8 * PassStart(i, w, h, bpp), PassW(i, w, h),
                     PassH(i, w, h), bpp);
      }
    } else {
      EncodedTypes(filt, bits, 0, w, h, bpp);
    }
  }
}
