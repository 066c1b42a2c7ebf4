/**
 * The sizes of scanlines and passes as the code computes them, in unsigned
 * integers of 32 bits, and when they are the true ones.
 */
module Sizes32 {
  import opened Powers
  import opened BitStream
  import opened ScanlineFilter
  import opened ImageFilter
  import opened ReversedBits
  import opened Adam7
  import opened Adam7Moves
  import opened Scanlines

  const U32: nat := 0x1_0000_0000

  /** The decoder's limit on the number of pixels. */
  const MAX_PIXELS: nat := 268435455

  // ----- What the code computes -----

  function Line32(w: nat, bpp: nat): nat { (w * bpp % U32 + 7) % U32 / 8 }

  function RawW32(i: nat, w: nat): nat { (w + DX(i) - IX(i) - 1) % U32 / DX(i) }

  function RawH32(i: nat, h: nat): nat { (h + DY(i) - IY(i) - 1) % U32 / DY(i) }

  function PassW32(i: nat, w: nat, h: nat): nat { if RawH32(i, h) == 0 then 0 else RawW32(i, w) }

  function PassH32(i: nat, w: nat, h: nat): nat { if RawW32(i, w) == 0 then 0 else RawH32(i, h) }

  function FilterSize32(i: nat, w: nat, h: nat, bpp: nat): nat {
    PassH32(i, w, h) * (1 + Line32(PassW32(i, w, h), bpp)) % U32
  }

  function PaddedSize32(i: nat, w: nat, h: nat, bpp: nat): nat {
    PassH32(i, w, h) * Line32(PassW32(i, w, h), bpp) % U32
  }

  function PassSize32(i: nat, w: nat, h: nat, bpp: nat): nat {
    (PassH32(i, w, h) * PassW32(i, w, h) * bpp % U32 + 7) % U32 / 8
  }

  function FilterStart32(i: nat, w: nat, h: nat, bpp: nat): nat {
    if i == 0 then 0 else FilterStart32(i - 1, w, h, bpp) + FilterSize32(i - 1, w, h, bpp)
  }

  function PaddedStart32(i: nat, w: nat, h: nat, bpp: nat): nat {
    if i == 0 then 0 else PaddedStart32(i - 1, w, h, bpp) + PaddedSize32(i - 1, w, h, bpp)
  }

  function PassStart32(i: nat, w: nat, h: nat, bpp: nat): nat {
    if i == 0 then 0 else PassStart32(i - 1, w, h, bpp) + PassSize32(i - 1, w, h, bpp)
  }

  /** The size of the buffer preProcessScanlines allocates for its output. */
  function DataSize32(w: nat, h: nat, bpp: nat, interlace: bool): nat {
    if interlace then FilterStart32(7, w, h, bpp) else (h + h * Line32(w, bpp)) % U32
  }

  // ----- When these are the true sizes -----

  predicate LineFits(w: nat, bpp: nat) { w * bpp + 7 < U32 }

  predicate PassFits(i: nat, w: nat, h: nat, bpp: nat) {
    && LineFits(PassW(i, w, h), bpp) && FilterSize(i, w, h, bpp) < U32 && PassBits(i, w, h, bpp) + 7 < U32
  }

  /** No product wraps around. */
  predicate Fits(w: nat, h: nat, bpp: nat, interlace: bool) {
    if interlace then
      && w + 7 < U32 && h + 7 < U32 && (forall i :: 0 <= i < 7 ==> PassFits(i, w, h, bpp))
      && (if bpp >= 8 then h * w else h * w * bpp) < U32
    else LineFits(w, bpp) && Offset(h, LineBytes(w, bpp) + 1) < U32
  }

  lemma Line32Is(w: nat, bpp: nat)
    ensures LineFits(w, bpp) ==> Line32(w, bpp) == LineBytes(w, bpp)
    ensures !LineFits(w, bpp) ==> Line32(w, bpp) < 0x2000_0000 <= LineBytes(w, bpp)
    ensures Line32(w, bpp) <= LineBytes(w, bpp)
  {
    var x: nat := w * bpp;
    Wrapped(x);
  }

  lemma Wrapped(x: nat)
    ensures x % U32 <= x && (x < U32 ==> x % U32 == x)
    ensures x + 7 < U32 ==> (x % U32 + 7) % U32 / 8 == (x + 7) / 8
    ensures (x % U32 + 7) % U32 / 8 < 0x2000_0000
    ensures x + 7 >= U32 ==> (x + 7) / 8 >= 0x2000_0000
  {
  }

  lemma PassIs(i: nat, w: nat, h: nat)
    requires w + 7 < U32 && h + 7 < U32
    ensures PassW32(i, w, h) == PassW(i, w, h) && PassH32(i, w, h) == PassH(i, w, h)
  {
    hide IX, IY, DX, DY;
    Strides(i);
    Wrapped(w + DX(i) - IX(i) - 1);
    Wrapped(h + DY(i) - IY(i) - 1);
  }

  lemma Strides(i: nat)
    ensures IX(i) < DX(i) <= 8 && IY(i) < DY(i) <= 8
  {
  }

  /** A size computed in 32 bits is the true one or smaller. */
  lemma FilterSizeIs(i: nat, w: nat, h: nat, bpp: nat)
    requires w + 7 < U32 && h + 7 < U32
    ensures FilterSize32(i, w, h, bpp) <= FilterSize(i, w, h, bpp)
    ensures FilterSize32(i, w, h, bpp) == FilterSize(i, w, h, bpp) <==>
            LineFits(PassW(i, w, h), bpp) && FilterSize(i, w, h, bpp) < U32
  {
    hide PassW, PassH, Line32, LineBytes, PassW32, PassH32;
    PassIs(i, w, h);
    PassOrdered(i, w, h, bpp);
    Line32Is(PassW(i, w, h), bpp);
    RowsIs(PassH(i, w, h), PassW(i, w, h), bpp);
  }

  lemma RowsIs(rows: nat, w: nat, bpp: nat)
    requires rows > 0 || w == 0
    ensures var size, size32 := Offset(rows, LineBytes(w, bpp) + 1), rows * (1 + Line32(w, bpp)) % U32;
            size32 <= size && (size32 == size <==> LineFits(w, bpp) && size < U32)
  {
    hide Line32, LineBytes;
    Line32Is(w, bpp);
    var l, l32 := LineBytes(w, bpp), Line32(w, bpp);
    OffsetWider(rows, l32 + 1, l + 1);
    Wrapped(Offset(rows, l32 + 1));
    assert Offset(rows, l32 + 1) == rows * (1 + l32);
    if l32 < l {
      assert rows > 0;
      MoreColumns(rows, l32 + 1, l + 1);
    }
  }

  lemma MoreColumns(rows: nat, a: nat, b: nat)
    requires rows > 0 && a < b
    ensures Offset(rows, a) < Offset(rows, b)
  {
    assert rows * b == rows * a + rows * (b - a);
    MulMonotone(rows, 1, b - a);
  }

  lemma {:induction false} FilterStartIs(n: nat, w: nat, h: nat, bpp: nat)
    requires w + 7 < U32 && h + 7 < U32
    ensures FilterStart32(n, w, h, bpp) <= FilterStart(n, w, h, bpp)
    ensures FilterStart32(n, w, h, bpp) == FilterStart(n, w, h, bpp) <==>
            forall i :: 0 <= i < n ==> LineFits(PassW(i, w, h), bpp) && FilterSize(i, w, h, bpp) < U32
  {
    hide FilterSize, FilterSize32, PassW, LineFits;
    if n > 0 {
      FilterStartIs(n - 1, w, h, bpp);
      FilterSizeIs(n - 1, w, h, bpp);
    }
  }

  /** The other two layouts, where nothing wraps. */
  lemma SizesAre(i: nat, w: nat, h: nat, bpp: nat)
    requires w + 7 < U32 && h + 7 < U32 && PassFits(i, w, h, bpp)
    ensures PaddedSize32(i, w, h, bpp) == PaddedSize(i, w, h, bpp) && PassSize32(i, w, h, bpp) == PassSize(i, w, h, bpp)
  {
    hide PassW, PassH, Line32, LineBytes, PassW32, PassH32, FilterSize;
    PassIs(i, w, h);
    Line32Is(PassW(i, w, h), bpp);
    PassOrdered(i, w, h, bpp);
    Wrapped(PassBits(i, w, h, bpp));
    Wrapped(PaddedSize(i, w, h, bpp));
  }

  lemma {:induction false} StartsAre(n: nat, w: nat, h: nat, bpp: nat)
    requires w + 7 < U32 && h + 7 < U32 && forall i :: 0 <= i < n ==> PassFits(i, w, h, bpp)
    ensures FilterStart32(n, w, h, bpp) == FilterStart(n, w, h, bpp)
    ensures PaddedStart32(n, w, h, bpp) == PaddedStart(n, w, h, bpp)
    ensures PassStart32(n, w, h, bpp) == PassStart(n, w, h, bpp)
  {
    hide FilterSize32, PaddedSize, PaddedSize32, PassSize, PassSize32, PassW;
    if n > 0 {
      StartsAre(n - 1, w, h, bpp);
      SizesAre(n - 1, w, h, bpp);
      FilterSizeIs(n - 1, w, h, bpp);
    }
  }

  // ----- The passes share out the pixels -----

  function Pixels(i: nat, w: nat, h: nat): nat { PassW(i, w, h) * PassH(i, w, h) }

  function PixelsTo(n: nat, w: nat, h: nat): nat {
    if n == 0 then 0 else PixelsTo(n - 1, w, h) + Pixels(n - 1, w, h)
  }

  lemma PixelsAre(i: nat, w: nat, h: nat)
    ensures Pixels(i, w, h) == RawW(i, w) * RawH(i, h)
  {
    hide RawW, RawH;
  }

  lemma Split(w: nat, h: nat, a: nat, b: nat)
    requires h == a + b
    ensures w * h == w * a + w * b && h * w == a * w + b * w
  {
  }

  lemma HalfTwice(h: nat)
    ensures (h + 1) / 2 / 2 == (h + 1) / 4 && ((h + 1) / 2 + 1) / 2 == (h + 3) / 4
    ensures (h + 3) / 4 / 2 == (h + 3) / 8 && ((h + 3) / 4 + 1) / 2 == (h + 7) / 8
    ensures h == h / 2 + (h + 1) / 2 && (h + 1) / 2 == (h + 1) / 4 + (h + 3) / 4
    ensures (h + 3) / 4 == (h + 3) / 8 + (h + 7) / 8
  {
  }

  lemma RawSizes(w: nat, h: nat)
    ensures RawW(0, w) == (w + 7) / 8 && RawW(1, w) == (w + 3) / 8 && RawW(2, w) == (w + 3) / 4
    ensures RawW(3, w) == (w + 1) / 4
    ensures RawW(4, w) == (w + 1) / 2 && RawW(5, w) == w / 2 && RawW(6, w) == w
    ensures RawH(0, h) == (h + 7) / 8 && RawH(1, h) == (h + 7) / 8 && RawH(2, h) == (h + 3) / 8
    ensures RawH(3, h) == (h + 3) / 4
    ensures RawH(4, h) == (h + 1) / 4 && RawH(5, h) == (h + 1) / 2 && RawH(6, h) == h / 2
  {
  }

  /** Together the seven passes have exactly the pixels of the image. */
  lemma PixelsConserved(w: nat, h: nat)
    ensures PixelsTo(7, w, h) == w * h
  {
    hide Pixels, RawW, RawH;
    RawSizes(w, h);
    HalfTwice(w);
    HalfTwice(h);
    PixelsAre(0, w, h);
    PixelsAre(1, w, h);
    PixelsAre(2, w, h);
    PixelsAre(3, w, h);
    PixelsAre(4, w, h);
    PixelsAre(5, w, h);
    PixelsAre(6, w, h);
    SevenPixels(w, h);
    Split(w, h, h / 2, (h + 1) / 2);
    Split((h + 1) / 2, w, w / 2, (w + 1) / 2);
    Split((w + 1) / 2, (h + 1) / 2, (h + 1) / 4, (h + 3) / 4);
    Split((h + 3) / 4, (w + 1) / 2, (w + 1) / 4, (w + 3) / 4);
    Split((w + 3) / 4, (h + 3) / 4, (h + 3) / 8, (h + 7) / 8);
    Split((h + 7) / 8, (w + 3) / 4, (w + 3) / 8, (w + 7) / 8);
  }

  lemma SevenPixels(w: nat, h: nat)
    ensures PixelsTo(7, w, h) == Pixels(0, w, h) + Pixels(1, w, h) + Pixels(2, w, h) + Pixels(3, w, h) + Pixels(4, w, h)
                                 + Pixels(5, w, h) + Pixels(6, w, h)
  {
    hide Pixels;
    assert PixelsTo(2, w, h) == PixelsTo(1, w, h) + Pixels(1, w, h);
    assert PixelsTo(4, w, h) == PixelsTo(3, w, h) + Pixels(3, w, h);
    assert PixelsTo(6, w, h) == PixelsTo(5, w, h) + Pixels(5, w, h);
  }

  // ----- Within the decoder's limit the data is short -----

  lemma RowsShort(rows: nat, w: nat, bpp: nat)
    requires bpp <= 64 && (rows > 0 ==> w > 0)
    ensures Offset(rows, LineBytes(w, bpp) + 1) <= 9 * (w * rows)
  {
    assert LineBytes(w, bpp) <= 8 * w by {
      MulMonotone(w, bpp, 64);
    }
    if rows > 0 {
      OffsetWider(rows, LineBytes(w, bpp) + 1, 9 * w);
      assert rows * (9 * w) == 9 * (w * rows);
    }
  }

  lemma {:induction false} DataShort(n: nat, w: nat, h: nat, bpp: nat)
    requires bpp <= 64
    ensures FilterStart(n, w, h, bpp) <= 9 * PixelsTo(n, w, h)
  {
    hide PassW, PassH, FilterSize, LineBytes, Offset;
    if n > 0 {
      DataShort(n - 1, w, h, bpp);
      PassOrdered(n - 1, w, h, bpp);
      RowsShort(PassH(n - 1, w, h), PassW(n - 1, w, h), bpp);
    }
  }

  /** The scanlines of an image the decoder accepts are fewer than 2^32 bytes. */
  lemma DataSizeShort(w: nat, h: nat, bpp: nat, interlace: bool)
    requires w >= 1 && bpp <= 64 && w * h <= MAX_PIXELS
    ensures DataSize(w, h, bpp, interlace) < U32
  {
    hide *;
    DataShort(7, w, h, bpp);
    PixelsConserved(w, h);
    RowsShort(h, w, bpp);
    ShortEnough(w, h, bpp, interlace, w * h);
  }

  lemma ShortEnough(w: nat, h: nat, bpp: nat, interlace: bool, pixels: nat)
    requires pixels <= MAX_PIXELS && FilterStart(7, w, h, bpp) <= 9 * pixels
    requires Offset(h, LineBytes(w, bpp) + 1) <= 9 * pixels
    ensures DataSize(w, h, bpp, interlace) < U32
  {
    hide FilterStart, Offset, LineBytes;
  }

  // ----- Where the encoder reads and writes -----

  /**
   * One image or pass: a padded copy where asked for, and its filtered rows. The
   * lines have n bytes and il bits as computed.
   */
  predicate ImageInBounds(outSize: nat, at: nat, paddedSize: nat, srcSize: nat, from: nat, n: nat, il: nat, rows: nat,
                          bpp: nat, types: seq<byte>, tries: bool, pad: bool) {
    if pad then
      && PaddingInBounds(8 * paddedSize, 8 * srcSize, 8 * from, 8 * n, il, rows)
      && FilterInBounds(outSize, at, paddedSize, 0, n, ByteWidth(bpp), rows, types, tries)
    else FilterInBounds(outSize, at, srcSize, from, n, ByteWidth(bpp), rows, types, tries)
  }

  /** Without interlacing padding is added where a line does not end with a byte. */
  predicate WholePads(w: nat, bpp: nat) { bpp < 8 && w * bpp % U32 != 8 * Line32(w, bpp) }

  predicate WholeInBounds(size: nat, w: nat, h: nat, bpp: nat, types: seq<byte>, tries: bool) {
    ImageInBounds(DataSize32(w, h, bpp, false), 0, h * Line32(w, bpp) % U32, size, 0, Line32(w, bpp), w * bpp % U32, h,
                  bpp, types, tries, WholePads(w, bpp))
  }

  function Times(a: nat, b: nat): nat { a * b }

  /** Where Adam7_interlace writes slot (x, y) of pass i, in bits. */
  function SlotBit32(i: nat, x: nat, y: nat, w: nat, h: nat, bpp: nat): nat {
    var width: nat := PassW32(i, w, h);
    var start: nat := PassStart32(i, w, h, bpp);
    if bpp >= 8 then
      var pixel: nat := (Times(y, width) + x) % U32;
      8 * (start + Times(pixel, bpp / 8))
    else
      var line: nat := Times(bpp, width) % U32;
      8 * start + (Times(y, line) + Times(x, bpp)) % U32
  }

  /** Where it reads the pixel of this slot. */
  function PixelBit32(i: nat, x: nat, y: nat, w: nat, bpp: nat): nat {
    if bpp >= 8 then
      var pixel: nat := (Times(PixelY(i, y), w) + PixelX(i, x)) % U32;
      8 * Times(pixel, bpp / 8)
    else
      var line: nat := Times(bpp, w) % U32;
      (Times(PixelY(i, y), line) + Times(PixelX(i, x), bpp)) % U32
  }

  predicate SlotInBounds(size: nat, w: nat, h: nat, bpp: nat, i: nat, x: nat, y: nat) {
    && SlotBit32(i, x, y, w, h, bpp) + bpp <= 8 * PassStart32(7, w, h, bpp)
    && PixelBit32(i, x, y, w, bpp) + bpp <= 8 * size
  }

  predicate SlotsInBounds(size: nat, w: nat, h: nat, bpp: nat, i: nat) {
    forall x, y :: 0 <= x < PassW32(i, w, h) && 0 <= y < PassH32(i, w, h) ==> SlotInBounds(size, w, h, bpp, i, x, y)
  }

  /** Filtering pass i, and the buffer it reads. */
  predicate PassInBounds(w: nat, h: nat, bpp: nat, i: nat, types: seq<byte>, tries: bool) {
    ImageInBounds(FilterStart32(7, w, h, bpp), FilterStart32(i, w, h, bpp), PaddedSize32(i, w, h, bpp),
                  PassStart32(7, w, h, bpp),
                  if bpp < 8 then PassStart32(i, w, h, bpp) else PaddedStart32(i, w, h, bpp),
                  Line32(PassW32(i, w, h), bpp), PassW32(i, w, h) * bpp % U32, PassH32(i, w, h), bpp, types, tries,
                  bpp < 8)
  }

  /**
   * preProcessScanlines stays inside the buffers it allocates and inside the
   * image, which has `size` bytes.
   */
  predicate InBounds(size: nat, w: nat, h: nat, bpp: nat, interlace: bool, types: seq<seq<byte>>, tries: bool) {
    if interlace then
      && |types| == 7 && (forall i :: 0 <= i < 7 ==> SlotsInBounds(size, w, h, bpp, i))
      && forall i :: 0 <= i < 7 ==> PassInBounds(w, h, bpp, i, types[i], tries)
    else |types| > 0 && WholeInBounds(size, w, h, bpp, types[0], tries)
  }

  /** Rows of at least one pixel have at least the bytes of a pixel. */
  lemma PixelPerLine(w: nat, bpp: nat)
    requires w >= 1
    ensures ByteWidth(bpp) <= LineBytes(w, bpp)
  {
    MulMonotone(bpp, 1, w);
    assert bpp * w == w * bpp;
  }

  /** Rows that fit are in bounds, padded or not. */
  lemma RoomyImage(outSize: nat, at: nat, paddedSize: nat, srcSize: nat, from: nat, n: nat, il: nat, rows: nat,
                   bpp: nat,
                   types: seq<byte>, tries: bool, pad: bool)
    requires RowTypes(types, rows)
    requires if pad then
               && PaddingInBounds(8 * paddedSize, 8 * srcSize, 8 * from, 8 * n, il, rows)
               && Roomy(outSize, at, paddedSize, 0, n, ByteWidth(bpp), rows)
             else Roomy(outSize, at, srcSize, from, n, ByteWidth(bpp), rows)
    ensures ImageInBounds(outSize, at, paddedSize, srcSize, from, n, il, rows, bpp, types, tries, pad)
  {
    hide RowInBounds, Roomy, PaddingInBounds;
    forall y | 0 <= y < rows
      ensures pad ==> RowInBounds(outSize, at, paddedSize, 0, n, ByteWidth(bpp), types[y], tries, y)
      ensures !pad ==> RowInBounds(outSize, at, srcSize, from, n, ByteWidth(bpp), types[y], tries, y)
    {
      RoomyRow(outSize, at, if pad then paddedSize else srcSize, if pad then 0 else from, n, ByteWidth(bpp), rows,
               types[y], tries, y);
    }
  }

  /** Without interlacing, where nothing wraps. */
  lemma WholeFits(size: nat, w: nat, h: nat, bpp: nat, types: seq<byte>, tries: bool)
    requires LineFits(w, bpp) && Offset(h, LineBytes(w, bpp) + 1) < U32 && (w >= 1 || h == 0) && ValidBpp(bpp)
    requires h * w * bpp <= 8 * size && RowTypes(types, h)
    ensures WholeInBounds(size, w, h, bpp, types, tries)
    ensures DataSize32(w, h, bpp, false) == DataSize(w, h, bpp, false)
  {
    hide Line32, LineBytes, ImageInBounds, RowTypes, ByteWidth, DataSize, DataSize32, Offset;
    WholeSizes(w, h, bpp);
    WholeRoom(size, w, h, bpp);
    var l := LineBytes(w, bpp);
    if w >= 1 {
      PixelPerLine(w, bpp);
    }
    RoomyImage(DataSize32(w, h, bpp, false), 0, h * Line32(w, bpp) % U32, size, 0, Line32(w, bpp), w * bpp % U32, h,
               bpp,
               types, tries, WholePads(w, bpp));
  }

  /** The sizes without interlacing, where nothing wraps. */
  lemma WholeSizes(w: nat, h: nat, bpp: nat)
    requires LineFits(w, bpp) && Offset(h, LineBytes(w, bpp) + 1) < U32
    ensures Line32(w, bpp) == LineBytes(w, bpp) && w * bpp % U32 == w * bpp
    ensures h * Line32(w, bpp) % U32 == Offset(h, LineBytes(w, bpp))
    ensures DataSize32(w, h, bpp, false) == DataSize(w, h, bpp, false) == Offset(h, LineBytes(w, bpp) + 1)
  {
    hide Line32, LineBytes;
    Line32Is(w, bpp);
    var l := LineBytes(w, bpp);
    OffsetStep(h, l);
    assert Offset(h, l) == h * l && Offset(h, l + 1) == h + h * l;
    Wrapped(h + h * l);
    Wrapped(h * l);
    Wrapped(w * bpp);
  }

  lemma WholeRoom(size: nat, w: nat, h: nat, bpp: nat)
    requires h * w * bpp <= 8 * size
    ensures w * bpp <= 8 * LineBytes(w, bpp) && Offset(h, w * bpp) <= 8 * size
    ensures Offset(h, 8 * LineBytes(w, bpp)) == 8 * Offset(h, LineBytes(w, bpp))
    ensures w * bpp == 8 * LineBytes(w, bpp) ==> Offset(h, LineBytes(w, bpp)) <= size
    ensures bpp % 8 == 0 ==> w * bpp == 8 * LineBytes(w, bpp)
  {
    hide Offset, LineBytes;
    LineWide(w, bpp);
    MulOffset(h, w, bpp);
    OffsetScale(h, LineBytes(w, bpp));
  }

  /** Where nothing wraps the loops of Adam7 use the true positions. */
  lemma SlotExact(i: nat, x: nat, y: nat, w: nat, h: nat, bpp: nat)
    requires i < 7 && ValidBpp(bpp) && Fits(w, h, bpp, true) && x < PassW(i, w, h) && y < PassH(i, w, h)
    ensures SlotBit32(i, x, y, w, h, bpp) == SlotBit(i, x, y, w, h, bpp)
    ensures PixelBit32(i, x, y, w, bpp) == PixelBit(PixelX(i, x), PixelY(i, y), w, bpp)
  {
    hide *;
    PassSizes(i, w, h, bpp);
    PixelOfSlot(i, x, y, w, h);
    PassBitsFit(i, x, y, w, h, bpp);
    ExactAt(x, y, PassW(i, w, h), bpp, PassBits(i, w, h, bpp));
    PixelExact(PixelX(i, x), PixelY(i, y), w, h, bpp);
    BitsAre(i, x, y, w, h, bpp);
  }

  lemma PassBitsFit(i: nat, x: nat, y: nat, w: nat, h: nat, bpp: nat)
    requires i < 7 && Fits(w, h, bpp, true) && x < PassW(i, w, h) && y < PassH(i, w, h)
    ensures PixelBit(x, y, PassW(i, w, h), bpp) + bpp <= PassBits(i, w, h, bpp) < U32 && bpp * PassW(i, w, h) < U32
    ensures (if bpp >= 8 then h * w else h * w * bpp) < U32
  {
    hide PassW, PassH, FilterSize, PixelBit;
    assert PassFits(i, w, h, bpp);
    PixelInside(x, y, PassW(i, w, h), PassH(i, w, h), bpp);
    LineBits(i, w, h, bpp);
  }

  lemma BitsAre(i: nat, x: nat, y: nat, w: nat, h: nat, bpp: nat)
    ensures var width, start := PassW32(i, w, h), PassStart32(i, w, h, bpp);
            SlotBit32(i, x, y, w, h, bpp) ==
            if bpp >= 8 then 8 * start + 8 * Times((Times(y, width) + x) % U32, bpp / 8)
            else 8 * start + (Times(y, Times(bpp, width) % U32) + Times(x, bpp)) % U32
    ensures PixelBit32(i, x, y, w, bpp) ==
            if bpp >= 8 then 8 * Times((Times(PixelY(i, y), w) + PixelX(i, x)) % U32, bpp / 8)
            else (Times(PixelY(i, y), Times(bpp, w) % U32) + Times(PixelX(i, x), bpp)) % U32
    ensures SlotBit(i, x, y, w, h, bpp) == 8 * PassStart(i, w, h, bpp) + PixelBit(x, y, PassW(i, w, h), bpp)
  {
    hide Times, PassW32, PassStart32, PassW, PassStart, PixelBit, PixelX, PixelY;
  }

  lemma ExactAt(x: nat, y: nat, pw: nat, bpp: nat, bits: nat)
    requires ValidBpp(bpp) && PixelBit(x, y, pw, bpp) + bpp <= bits < U32 && bpp * pw < U32
    ensures bpp >= 8 ==> 8 * Times((Times(y, pw) + x) % U32, bpp / 8) == PixelBit(x, y, pw, bpp)
    ensures bpp < 8 ==> (Times(y, Times(bpp, pw) % U32) + Times(x, bpp)) % U32 == PixelBit(x, y, pw, bpp)
  {
    if bpp >= 8 {
      IndexBelow(y * pw + x, bpp, bits);
      BytesExact(x, y, pw, bpp);
    } else {
      BitCells(x, y, pw, bpp);
      Wrapped(bpp * pw);
      Wrapped(PixelBit(x, y, pw, bpp));
    }
  }

  lemma BytesExact(x: nat, y: nat, width: nat, bpp: nat)
    requires bpp % 8 == 0 && (y * width + x) % U32 == y * width + x
    ensures 8 * Times((Times(y, width) + x) % U32, bpp / 8) == PixelBit(x, y, width, bpp)
  {
    ByteCells(y * width + x, bpp);
  }

  lemma PixelExact(px: nat, py: nat, w: nat, h: nat, bpp: nat)
    requires ValidBpp(bpp) && px < w && py < h && (if bpp >= 8 then h * w else h * w * bpp) < U32
    ensures bpp >= 8 ==> 8 * Times((Times(py, w) + px) % U32, bpp / 8) == PixelBit(px, py, w, bpp)
    ensures bpp < 8 ==> (Times(py, Times(bpp, w) % U32) + Times(px, bpp)) % U32 == PixelBit(px, py, w, bpp)
  {
    hide Times;
    if bpp >= 8 {
      IndexBound(px, py, w, h);
      Wrapped(py * w + px);
      BytesExact(px, py, w, bpp);
    } else {
      PixelInside(px, py, w, h, bpp);
      RowWithin(w, h, bpp);
      ExactAt(px, py, w, bpp, h * w * bpp);
    }
  }

  lemma RowWithin(w: nat, h: nat, bpp: nat)
    requires h >= 1
    ensures bpp * w <= h * w * bpp
  {
    MulMonotone(w, 1, h);
    MulMonotone(bpp, w, h * w);
  }

  lemma IndexBelow(k: nat, bpp: nat, bits: nat)
    requires bpp > 0 && k * bpp + bpp <= bits < U32
    ensures k % U32 == k
  {
    MulMonotone(k, 1, bpp);
    Wrapped(k);
  }

  lemma LineBits(i: nat, w: nat, h: nat, bpp: nat)
    requires LineFits(PassW(i, w, h), bpp)
    ensures bpp * PassW(i, w, h) < U32
  {
    hide PassW;
    assert bpp * PassW(i, w, h) == PassW(i, w, h) * bpp;
  }

  lemma PassFitsIn(i: nat, w: nat, h: nat, bpp: nat, types: seq<byte>, tries: bool)
    requires i < 7 && ValidBpp(bpp) && Fits(w, h, bpp, true) && RowTypes(types, PassH(i, w, h))
    ensures PassInBounds(w, h, bpp, i, types, tries)
  {
    hide PassW, PassH, PassW32, PassH32, PassStart, PassStart32, PaddedStart, PaddedStart32, FilterStart,
      FilterStart32, LineBytes, Line32, FilterSize, FilterSize32, ByteWidth, ImageInBounds, RowTypes, Offset,
        PaddedSize32;
    PassSizes(i, w, h, bpp);
    PassRoom(i, w, h, bpp, PassW(i, w, h), PassH(i, w, h), LineBytes(PassW(i, w, h), bpp),
             PassW(i, w, h) * bpp);
    RoomyImage(FilterStart32(7, w, h, bpp), FilterStart32(i, w, h, bpp), PaddedSize32(i, w, h, bpp),
               PassStart32(7, w, h, bpp),
               if bpp < 8 then PassStart32(i, w, h, bpp) else PaddedStart32(i, w, h, bpp),
               Line32(PassW32(i, w, h), bpp), PassW32(i, w, h) * bpp % U32, PassH32(i, w, h), bpp, types, tries,
               bpp < 8);
  }

  /** What the encoder computes for pass i where nothing wraps. */
  lemma PassSizes(i: nat, w: nat, h: nat, bpp: nat)
    requires i < 7 && Fits(w, h, bpp, true)
    ensures PassW32(i, w, h) == PassW(i, w, h) && PassH32(i, w, h) == PassH(i, w, h)
    ensures var pw, ph := PassW(i, w, h), PassH(i, w, h);
            && Line32(pw, bpp) == LineBytes(pw, bpp) && pw * bpp % U32 == pw * bpp
            && PaddedSize32(i, w, h, bpp) == Offset(ph, LineBytes(pw, bpp))
    ensures FilterStart32(i, w, h, bpp) == FilterStart(i, w, h, bpp)
    ensures FilterStart32(7, w, h, bpp) == FilterStart(7, w, h, bpp)
    ensures PaddedStart32(i, w, h, bpp) == PaddedStart(i, w, h, bpp)
    ensures PassStart32(i, w, h, bpp) == PassStart(i, w, h, bpp)
    ensures PassStart32(7, w, h, bpp) == PassStart(7, w, h, bpp)
  {
    hide PassW, PassH, PassW32, PassH32, PassStart, PassStart32, PaddedStart, PaddedStart32, FilterStart,
      FilterStart32, LineBytes, Line32, FilterSize, FilterSize32;
    PassIs(i, w, h);
    assert PassFits(i, w, h, bpp);
    Line32Is(PassW(i, w, h), bpp);
    Wrapped(PassW(i, w, h) * bpp);
    StartsAre(i, w, h, bpp);
    StartsAre(7, w, h, bpp);
    SizesAre(i, w, h, bpp);
  }

  /** The buffers of pass i have room. */
  lemma PassRoom(i: nat, w: nat, h: nat, bpp: nat, pw: nat, ph: nat, n: nat, il: nat)
    requires i < 7 && pw == PassW(i, w, h) && ph == PassH(i, w, h) && n == LineBytes(pw, bpp) && il == pw * bpp
    ensures ByteWidth(bpp) <= n || ph == 0
    ensures FilterStart(i, w, h, bpp) + Offset(ph, n + 1) <= FilterStart(7, w, h, bpp)
    ensures PaddingInBounds(8 * Offset(ph, n), 8 * PassStart(7, w, h, bpp), 8 * PassStart(i, w, h, bpp), 8 * n, il,
                            ph)
    ensures bpp % 8 == 0 ==> PaddedStart(i, w, h, bpp) + Offset(ph, n) <= PassStart(7, w, h, bpp)
  {
    hide PassW, PassH, PassStart, PaddedStart, FilterStart, LineBytes, FilterSize, ByteWidth, Offset, PaddedSize;
    EncodeBounds(i, w, h, bpp);
    RowsHavePixels(i, w, h);
    if pw >= 1 {
      PixelPerLine(pw, bpp);
    }
    LineWide(pw, bpp);
    MulOffset(ph, pw, bpp);
    OffsetScale(ph, n);
    NextStarts(i, w, h, bpp);
    StartsGrow(i + 1, 7, w, h, bpp);
  }

  lemma RowsHavePixels(i: nat, w: nat, h: nat)
    ensures PassW(i, w, h) >= 1 || PassH(i, w, h) == 0
  {
    hide RawW, RawH;
  }

  /** Where nothing wraps the encoder stays in bounds, and its buffer has the true size. */
  lemma FitsInBounds(size: nat, w: nat, h: nat, bpp: nat, interlace: bool, types: seq<seq<byte>>, tries: bool)
    requires ValidBpp(bpp) && Fits(w, h, bpp, interlace) && (interlace || w >= 1 || h == 0)
    requires h * w * bpp <= 8 * size && TypesFor(types, w, h, interlace)
    ensures InBounds(size, w, h, bpp, interlace, types, tries)
    ensures DataSize32(w, h, bpp, interlace) == DataSize(w, h, bpp, interlace)
  {
    hide PassFits, PassInBounds, PassW, PassH, PassW32, PassH32, FilterStart, FilterStart32,
      WholeInBounds, LineBytes, Line32, LineFits, RowTypes, SlotInBounds;
    if interlace {
      StartsAre(7, w, h, bpp);
      forall i | 0 <= i < 7
        ensures SlotsInBounds(size, w, h, bpp, i) && PassInBounds(w, h, bpp, i, types[i], tries)
      {
        PassFitsIn(i, w, h, bpp, types[i], tries);
        PassIs(i, w, h);
        forall x, y | 0 <= x < PassW32(i, w, h) && 0 <= y < PassH32(i, w, h)
          ensures SlotInBounds(size, w, h, bpp, i, x, y)
        {
          SlotFits(size, i, x, y, w, h, bpp);
        }
      }
    } else {
      WholeFits(size, w, h, bpp, types[0], tries);
    }
  }

  lemma SlotFits(size: nat, i: nat, x: nat, y: nat, w: nat, h: nat, bpp: nat)
    requires i < 7 && ValidBpp(bpp) && Fits(w, h, bpp, true) && h * w * bpp <= 8 * size
    requires x < PassW(i, w, h) && y < PassH(i, w, h)
    ensures SlotInBounds(size, w, h, bpp, i, x, y)
  {
    hide *;
    SlotExact(i, x, y, w, h, bpp);
    InBuffers(i, x, y, w, h, bpp);
    PassSizes(i, w, h, bpp);
    SlotBoundsAre(size, w, h, bpp, i, x, y);
  }

  lemma SlotBoundsAre(size: nat, w: nat, h: nat, bpp: nat, i: nat, x: nat, y: nat)
    ensures SlotInBounds(size, w, h, bpp, i, x, y) <==>
            && SlotBit32(i, x, y, w, h, bpp) + bpp <= 8 * PassStart32(7, w, h, bpp)
            && PixelBit32(i, x, y, w, bpp) + bpp <= 8 * size
  {
    hide SlotBit32, PixelBit32;
  }

  // ----- Where something wraps, the data is wrong or the encoder leaves its buffers -----

  lemma WholeTooBig(w: nat, h: nat, bpp: nat)
    requires h >= 1 && !(LineFits(w, bpp) && Offset(h, LineBytes(w, bpp) + 1) < U32)
    ensures DataSize32(w, h, bpp, false) < DataSize(w, h, bpp, false)
  {
    hide Line32, LineBytes;
    RowsIs(h, w, bpp);
    var l := Line32(w, bpp);
    assert h * (1 + l) == h + h * l;
  }

  /** The last pass that has pixels has the most. */
  lemma LastPass(w: nat, h: nat) returns (last: nat)
    requires w >= 1 && h >= 1
    ensures last < 7 && Pixels(last, w, h) > 0
    ensures forall i :: last < i < 7 ==> Pixels(i, w, h) == 0
    ensures forall i :: 0 <= i < 7 ==> Pixels(i, w, h) <= Pixels(last, w, h)
  {
    hide RawW, RawH, Pixels;
    if h >= 2 {
      last := 6;
      forall i | 0 <= i < 7
        ensures Pixels(i, w, h) <= Pixels(6, w, h)
      {
        LastLargest(i, w, h);
      }
      LastNotEmpty(w, h);
    } else {
      last := if w >= 2 then 5 else 0;
      forall i | 0 <= i < 7
        ensures Pixels(i, w, 1) <= Pixels(last, w, 1) && (i > last ==> Pixels(i, w, 1) == 0)
      {
        OneLine(i, w, last);
      }
      OneLine(last, w, last);
    }
  }

  lemma LastNotEmpty(w: nat, h: nat)
    requires w >= 1 && h >= 2
    ensures Pixels(6, w, h) > 0
  {
    hide RawW, RawH, Pixels;
    RawSizes(w, h);
    PixelsAre(6, w, h);
    Product(1, 1, w, h / 2);
  }

  lemma LastLargest(i: nat, w: nat, h: nat)
    requires i < 7 && h >= 2
    ensures Pixels(i, w, h) <= Pixels(6, w, h)
  {
    hide RawW, RawH, Pixels;
    RawSizes(w, h);
    PixelsAre(i, w, h);
    PixelsAre(6, w, h);
    if i == 5 {
      HalfColumns(w, h);
    } else if i != 6 {
      Product(RawW(i, w), RawH(i, h), w, h / 2);
    }
  }

  lemma OneLine(i: nat, w: nat, last: nat)
    requires i < 7 && w >= 1 && last == if w >= 2 then 5 else 0
    ensures Pixels(i, w, 1) <= Pixels(last, w, 1) && (i > last ==> Pixels(i, w, 1) == 0) && Pixels(last, w, 1) > 0
  {
    hide RawW, RawH, Pixels;
    RawSizes(w, 1);
    PixelsAre(i, w, 1);
    PixelsAre(last, w, 1);
  }

  lemma Product(a: nat, b: nat, c: nat, d: nat)
    requires a <= c && b <= d
    ensures a * b <= c * d
  {
    MulMonotone(a, b, d);
    MulMonotone(d, a, c);
  }

  lemma HalfColumns(w: nat, h: nat)
    requires h >= 2
    ensures w / 2 * ((h + 1) / 2) <= w * (h / 2)
  {
    Product(w / 2, (h + 1) / 2, w / 2, 2 * (h / 2));
    assert w / 2 * (2 * (h / 2)) == 2 * (w / 2) * (h / 2);
    Product(2 * (w / 2), h / 2, w, h / 2);
  }

  lemma BitsOfPixels(i: nat, w: nat, h: nat, bpp: nat)
    ensures PassBits(i, w, h, bpp) == Pixels(i, w, h) * bpp
  {
    hide PassW, PassH;
    assert PassH(i, w, h) * PassW(i, w, h) == Pixels(i, w, h);
  }

  lemma {:induction false} PixelsWithin(i: nat, n: nat, w: nat, h: nat)
    requires i < n
    ensures Pixels(i, w, h) <= PixelsTo(n, w, h)
  {
    hide Pixels;
    if i < n - 1 {
      PixelsWithin(i, n - 1, w, h);
    }
  }

  /** If the unpadded size of some pass wraps, the last pass is written past the end of its buffer. */
  lemma PassTooBig(size: nat, i: nat, w: nat, h: nat, bpp: nat, types: seq<seq<byte>>, tries: bool)
    requires w >= 1 && h >= 1 && w * h <= MAX_PIXELS && ValidBpp(bpp) && w + 7 < U32 && h + 7 < U32
    requires i < 7 && PassBits(i, w, h, bpp) + 7 >= U32
    ensures !InBounds(size, w, h, bpp, true, types, tries)
  {
    hide *;
    var last := LastPass(w, h);
    PixelsConserved(w, h);
    PixelsWithin(last, 7, w, h);
    BitsOfPixels(i, w, h, bpp);
    BitsOfPixels(last, w, h, bpp);
    assert Pixels(i, w, h) <= Pixels(last, w, h);
    ManyBits(Pixels(i, w, h), Pixels(last, w, h), bpp, w * h);
    LastOverflows(size, last, w, h, bpp, types, tries);
  }

  lemma ManyBits(n: nat, m: nat, bpp: nat, limit: nat)
    requires n <= m <= limit <= MAX_PIXELS && ValidBpp(bpp) && n * bpp + 7 >= U32
    ensures bpp >= 8 && bpp % 8 == 0 && m * bpp >= U32 && m < U32
  {
    Product(n, bpp, m, bpp);
    if bpp < 8 {
      Product(n, bpp, MAX_PIXELS, 7);
    } else {
      Eights(m, bpp);
    }
  }

  lemma {:induction false} NothingAfter(last: nat, n: nat, w: nat, h: nat, bpp: nat)
    requires last < n <= 7 && w + 7 < U32 && h + 7 < U32 && forall i :: last < i < 7 ==> Pixels(i, w, h) == 0
    ensures PassStart32(n, w, h, bpp) == PassStart32(last, w, h, bpp) + PassSize32(last, w, h, bpp)
  {
    hide Pixels, PassSize32;
    if last + 1 < n {
      NothingAfter(last, n - 1, w, h, bpp);
      EmptyPass(n - 1, w, h, bpp);
    }
  }

  lemma EmptyPass(i: nat, w: nat, h: nat, bpp: nat)
    requires w + 7 < U32 && h + 7 < U32 && Pixels(i, w, h) == 0
    ensures PassSize32(i, w, h, bpp) == 0
  {
    hide PassW, PassH, PassW32, PassH32;
    PassIs(i, w, h);
    var n: nat := PassH(i, w, h) * PassW(i, w, h);
    assert n == 0;
  }

  lemma LastOverflows(size: nat, last: nat, w: nat, h: nat, bpp: nat, types: seq<seq<byte>>, tries: bool)
    requires last < 7 && w + 7 < U32 && h + 7 < U32 && (forall i :: last < i < 7 ==> Pixels(i, w, h) == 0)
    requires bpp >= 8 && bpp % 8 == 0 && 0 < Pixels(last, w, h) < U32 && Pixels(last, w, h) * bpp >= U32
    ensures !InBounds(size, w, h, bpp, true, types, tries)
  {
    hide Pixels, PassStart32, PassSize32, PassW, PassH, PassInBounds;
    NothingAfter(last, 7, w, h, bpp);
    WrappedSize(last, w, h, bpp);
    var x, y := LastSlot(last, w, h, bpp);
    assert SlotBit32(last, x, y, w, h, bpp) + bpp > 8 * PassStart32(7, w, h, bpp);
    assert !SlotInBounds(size, w, h, bpp, last, x, y);
    assert !SlotsInBounds(size, w, h, bpp, last);
  }

  lemma WrappedSize(i: nat, w: nat, h: nat, bpp: nat)
    ensures PassSize32(i, w, h, bpp) < 0x2000_0000
  {
    hide PassW32, PassH32;
    Wrapped(PassH32(i, w, h) * PassW32(i, w, h) * bpp);
  }

  /** The bottom right slot of a pass ends after all its pixels. */
  lemma LastSlot(i: nat, w: nat, h: nat, bpp: nat) returns (x: nat, y: nat)
    requires w + 7 < U32 && h + 7 < U32 && bpp >= 8 && bpp % 8 == 0 && 0 < Pixels(i, w, h) < U32
    ensures x < PassW32(i, w, h) && y < PassH32(i, w, h)
    ensures SlotBit32(i, x, y, w, h, bpp) + bpp == 8 * PassStart32(i, w, h, bpp) + Pixels(i, w, h) * bpp
  {
    hide PassW, PassH, PassW32, PassH32, PassStart32;
    PassIs(i, w, h);
    var pw, ph := PassW(i, w, h), PassH(i, w, h);
    Positive(pw, ph);
    x, y := pw - 1, ph - 1;
    var n: nat := Pixels(i, w, h);
    assert y * pw + x == n - 1 by { assert (ph - 1) * pw == ph * pw - pw; }
    Wrapped(n - 1);
    ByteCells(n, bpp);
    assert (n - 1) * (bpp / 8) + bpp / 8 == n * (bpp / 8);
  }

  lemma Positive(a: nat, b: nat)
    requires a * b > 0
    ensures a > 0 && b > 0
  {
  }

  /**
   * For every image size within the decoder's limit: if some 32-bit product
   * wraps, then the encoder leaves its buffers or its data has the wrong size.
   */
  lemma WrapShows(size: nat, w: nat, h: nat, bpp: nat, interlace: bool, types: seq<seq<byte>>, tries: bool)
    requires w >= 1 && h >= 1 && w * h <= MAX_PIXELS && ValidBpp(bpp) && !Fits(w, h, bpp, interlace)
    ensures !InBounds(size, w, h, bpp, interlace, types, tries)
            || DataSize32(w, h, bpp, interlace) != DataSize(w, h, bpp, interlace)
    ensures DataSize32(w, h, bpp, interlace) <= DataSize(w, h, bpp, interlace)
  {
    hide InBounds, PassW, PassBits, FilterSize, FilterStart, FilterStart32, LineBytes, Line32;
    SmallSides(w, h);
    if interlace {
      FilterStartIs(7, w, h, bpp);
      SmallImage(w, h, bpp);
      var i :| 0 <= i < 7 && !PassFits(i, w, h, bpp);
      if PassBits(i, w, h, bpp) + 7 >= U32 {
        PassTooBig(size, i, w, h, bpp, types, tries);
      }
    } else {
      WholeTooBig(w, h, bpp);
    }
  }

  lemma SmallSides(w: nat, h: nat)
    requires w >= 1 && h >= 1 && w * h <= MAX_PIXELS
    ensures w + 7 < U32 && h + 7 < U32
  {
    MulMonotone(w, 1, h);
    MulMonotone(h, 1, w);
  }

  lemma SmallImage(w: nat, h: nat, bpp: nat)
    requires w * h <= MAX_PIXELS
    ensures h * w < U32 && (bpp < 8 ==> h * w * bpp < U32)
  {
    var n: nat := h * w;
    assert n == w * h;
    if bpp < 8 {
      Product(n, bpp, MAX_PIXELS, 7);
    }
  }

  // ----- Images that fail -----

  /**
   * A single row of 2^26 pixels of 64 bits is within the decoder's limit, and
   * the size of its data wraps to one byte. Writing its filter type and no bytes
   * stays in bounds; a filter that starts with a whole pixel does not, and
   * neither does a strategy that tries all filters.
   */
  lemma LongRow(size: nat, filter: byte, tries: bool)
    requires size >= 0x2000_0000 && filter <= 4
    ensures 67108864 * 1 <= MAX_PIXELS && !Fits(67108864, 1, 64, false)
    ensures DataSize32(67108864, 1, 64, false) == 1 && DataSize(67108864, 1, 64, false) == 0x2000_0001
    ensures InBounds(size, 67108864, 1, 64, false, [[filter]], tries) <==> !tries && (filter == 0 || filter == 2)
  {
    hide FilterInBounds, Reach;
    assert 67108864 * 64 == U32;
    assert Line32(67108864, 64) == 0 && LineBytes(67108864, 64) == 0x2000_0000;
    assert Offset(1, 0x2000_0001) == 0x2000_0001;
    LongRowFilter(size, filter, tries);
  }

  lemma LongRowFilter(size: nat, filter: byte, tries: bool)
    requires size >= 8 && filter <= 4
    ensures FilterInBounds(1, 0, size, 0, 0, 8, 1, [filter], tries) <==> !tries && (filter == 0 || filter == 2)
  {
    assert Offset(0, 0) == 0 && Offset(0, 1) == 0;
    assert RowInBounds(1, 0, size, 0, 0, 8, [filter][0], tries, 0) <==> !tries && (filter == 0 || filter == 2);
  }

  /** For a square of 65536 by 65536 bytes the encoder allocates 65536 bytes and writes 2^32 more. */
  lemma BigSquare(size: nat, types: seq<seq<byte>>, tries: bool)
    ensures !InBounds(size, 65536, 65536, 8, false, types, tries) && DataSize32(65536, 65536, 8, false) == 65536
  {
    hide ImageInBounds;
    assert Line32(65536, 8) == 65536;
    assert 65536 * 65536 == U32;
    if |types| > 0 {
      SecondRow(size, types[0], tries);
    }
  }

  /** Its second row starts beyond the buffer. */
  lemma SecondRow(size: nat, types: seq<byte>, tries: bool)
    ensures !ImageInBounds(65536, 0, 0, size, 0, 65536, 524288, 65536, 8, types, tries, false)
  {
    assert Offset(1, 65537) == 65537;
    if |types| >= 65536 {
      assert !RowInBounds(65536, 0, size, 0, 65536, 1, types[1], tries, 1);
    }
  }

  /**
   * An interlaced image of 16384 by 16383 pixels of 64 bits is within the limit too, but its sixth and seventh
   * pass wrap.
   */
  lemma BigInterlaced(size: nat, types: seq<seq<byte>>, tries: bool)
    ensures 16384 * 16383 <= MAX_PIXELS && !Fits(16384, 16383, 64, true)
    ensures !InBounds(size, 16384, 16383, 64, true, types, tries)
  {
    hide InBounds, LineFits, FilterSize, PassBits;
    SeventhPass();
    assert !PassFits(6, 16384, 16383, 64);
    PassTooBig(size, 6, 16384, 16383, 64, types, tries);
  }

  lemma SeventhPass()
    ensures PassBits(6, 16384, 16383, 64) == 8191 * 16384 * 64
  {
    assert RawW(6, 16384) == 16384 && RawH(6, 16383) == 8191;
  }
}
