/**
 * Adam7 interlacing: the pixels of an image are dealt out to seven reduced
 * images ("passes"), each starting at a byte.
 */
module Adam7 {
  import opened Powers
  import opened BitStream
  import opened ImageFilter
  import opened ReversedBits

  function IX(i: nat): nat { if i == 1 then 4 else if i == 3 then 2 else if i == 5 then 1 else 0 }
  function IY(i: nat): nat { if i == 2 then 4 else if i == 4 then 2 else if i == 6 then 1 else 0 }
  function DX(i: nat): nat { if i <= 1 then 8 else if i <= 3 then 4 else if i <= 5 then 2 else 1 }
  function DY(i: nat): nat { if i <= 2 then 8 else if i <= 4 then 4 else 2 }

  // ----- Sizes: Adam7_getpassvalues -----

  function RawW(i: nat, w: nat): nat { (w + DX(i) - IX(i) - 1) / DX(i) }

  function RawH(i: nat, h: nat): nat { (h + DY(i) - IY(i) - 1) / DY(i) }

  function PassW(i: nat, w: nat, h: nat): nat { if RawH(i, h) == 0 then 0 else RawW(i, w) }

  function PassH(i: nat, w: nat, h: nat): nat { if RawW(i, w) == 0 then 0 else RawH(i, h) }

  function FilterSize(i: nat, w: nat, h: nat, bpp: nat): nat {
    if PassW(i, w, h) > 0 && PassH(i, w, h) > 0 then Offset(PassH(i, w, h), LineBytes(PassW(i, w, h), bpp) + 1) else 0
  }

  function PaddedSize(i: nat, w: nat, h: nat, bpp: nat): nat { Offset(PassH(i, w, h), LineBytes(PassW(i, w, h), bpp)) }

  function PassBits(i: nat, w: nat, h: nat, bpp: nat): nat { PassH(i, w, h) * PassW(i, w, h) * bpp }

  function PassSize(i: nat, w: nat, h: nat, bpp: nat): nat { (PassBits(i, w, h, bpp) + 7) / 8 }

  function FilterStart(i: nat, w: nat, h: nat, bpp: nat): nat {
    if i == 0 then 0 else FilterStart(i - 1, w, h, bpp) + FilterSize(i - 1, w, h, bpp)
  }

  function PaddedStart(i: nat, w: nat, h: nat, bpp: nat): nat {
    if i == 0 then 0 else PaddedStart(i - 1, w, h, bpp) + PaddedSize(i - 1, w, h, bpp)
  }

  function PassStart(i: nat, w: nat, h: nat, bpp: nat): nat {
    if i == 0 then 0 else PassStart(i - 1, w, h, bpp) + PassSize(i - 1, w, h, bpp)
  }

  /** Without padding a pass is at most as long as with it. */
  lemma {:induction false} PackedFits(rows: nat, w: nat, bpp: nat)
    ensures (rows * w * bpp + 7) / 8 <= Offset(rows, LineBytes(w, bpp))
    ensures bpp % 8 == 0 ==> (rows * w * bpp + 7) / 8 == Offset(rows, LineBytes(w, bpp))
  {
    if rows > 0 {
      PackedFits(rows - 1, w, bpp);
      PackedStep(rows - 1, w, bpp);
      OffsetStep(rows - 1, LineBytes(w, bpp));
    }
  }

  lemma PackedStep(rows: nat, w: nat, bpp: nat)
    ensures ((rows + 1) * w * bpp + 7) / 8 <= (rows * w * bpp + 7) / 8 + LineBytes(w, bpp)
    ensures bpp % 8 == 0 ==> ((rows + 1) * w * bpp + 7) / 8 == (rows * w * bpp + 7) / 8 + LineBytes(w, bpp)
  {
    Distribute(rows, w, bpp);
    if bpp % 8 == 0 {
      Eights(rows * w, bpp);
    }
    RoundUp(rows * w * bpp, w * bpp);
  }

  lemma RoundUp(a: nat, b: nat)
    ensures (a + b + 7) / 8 <= (a + 7) / 8 + (b + 7) / 8
    ensures a % 8 == 0 ==> (a + b + 7) / 8 == (a + 7) / 8 + (b + 7) / 8
  {
  }

  lemma Distribute(rows: nat, w: nat, bpp: nat)
    ensures (rows + 1) * w * bpp == rows * w * bpp + w * bpp
  {
    assert (rows + 1) * w == rows * w + w;
  }

  lemma Eights(k: nat, bpp: nat)
    requires bpp % 8 == 0
    ensures (k * bpp) % 8 == 0
  {
    var m := bpp / 8;
    assert k * bpp == 8 * (k * m);
  }

  /** The three layouts are ordered, pass by pass; with whole bytes nothing is padded. */
  lemma {:induction false} StartsOrdered(i: nat, w: nat, h: nat, bpp: nat)
    ensures PassStart(i, w, h, bpp) <= PaddedStart(i, w, h, bpp) <= FilterStart(i, w, h, bpp)
    ensures bpp % 8 == 0 ==> PassStart(i, w, h, bpp) == PaddedStart(i, w, h, bpp)
  {
    if i > 0 {
      StartsOrdered(i - 1, w, h, bpp);
      PassOrdered(i - 1, w, h, bpp);
    }
  }

  lemma PassOrdered(i: nat, w: nat, h: nat, bpp: nat)
    ensures PassSize(i, w, h, bpp) <= PaddedSize(i, w, h, bpp) <= FilterSize(i, w, h, bpp)
    ensures bpp % 8 == 0 ==> PassSize(i, w, h, bpp) == PaddedSize(i, w, h, bpp)
    ensures PassW(i, w, h) > 0 <==> PassH(i, w, h) > 0
    ensures FilterSize(i, w, h, bpp) == Offset(PassH(i, w, h), LineBytes(PassW(i, w, h), bpp) + 1)
  {
    hide PassW, PassH;
    PassBothOrNone(i, w, h);
    PackedFits(PassH(i, w, h), PassW(i, w, h), bpp);
    OffsetStep(PassH(i, w, h), LineBytes(PassW(i, w, h), bpp));
    OffsetStep(0, LineBytes(PassW(i, w, h), bpp) + 1);
  }

  lemma PassBothOrNone(i: nat, w: nat, h: nat)
    ensures PassW(i, w, h) > 0 <==> PassH(i, w, h) > 0
  {
  }

  lemma {:induction false} StartsGrow(i: nat, j: nat, w: nat, h: nat, bpp: nat)
    requires i <= j
    ensures PassStart(i, w, h, bpp) <= PassStart(j, w, h, bpp)
    ensures PaddedStart(i, w, h, bpp) <= PaddedStart(j, w, h, bpp)
    ensures FilterStart(i, w, h, bpp) <= FilterStart(j, w, h, bpp)
  {
    if i < j {
      StartsGrow(i, j - 1, w, h, bpp);
    }
  }

  // ----- The size the decoder predicts -----

  /** lodepng_get_raw_size_idat, which divides before it multiplies, plus the filter byte of each row */
  function RawSize(w: nat, h: nat, bpp: nat): nat { h * (w / 8 * bpp + (w % 8 * bpp + 7) / 8) + h }

  lemma RawLine(w: nat, bpp: nat)
    ensures w / 8 * bpp + (w % 8 * bpp + 7) / 8 == LineBytes(w, bpp)
  {
    var q, r := w / 8, w % 8;
    assert w * bpp == 8 * (q * bpp) + r * bpp by {
      assert w == 8 * q + r;
      assert (8 * q + r) * bpp == 8 * (q * bpp) + r * bpp;
    }
  }

  lemma RawSizeIs(w: nat, h: nat, bpp: nat)
    ensures RawSize(w, h, bpp) == Offset(h, LineBytes(w, bpp)) + h
  {
    RawLine(w, bpp);
  }

  function Predicted(w: nat, h: nat, bpp: nat): nat {
    RawSize((w + 7) / 8, (h + 7) / 8, bpp)
    + (if w > 4 then RawSize((w + 3) / 8, (h + 7) / 8, bpp) else 0)
    + RawSize((w + 3) / 4, (h + 3) / 8, bpp)
    + (if w > 2 then RawSize((w + 1) / 4, (h + 3) / 4, bpp) else 0)
    + RawSize((w + 1) / 2, (h + 1) / 4, bpp)
    + (if w > 1 then RawSize(w / 2, (h + 1) / 2, bpp) else 0)
    + RawSize(w, h / 2, bpp)
  }

  lemma RawIsFilter(i: nat, w: nat, h: nat, bpp: nat, pw: nat, ph: nat)
    requires pw == RawW(i, w) && ph == RawH(i, h)
    ensures FilterSize(i, w, h, bpp) == if pw > 0 then RawSize(pw, ph, bpp) else 0
  {
    hide Offset, LineBytes, RawSize;
    RawSizeIs(pw, ph, bpp);
    OffsetStep(ph, LineBytes(pw, bpp));
    OffsetStep(0, LineBytes(pw, bpp));
  }

  /** The decoder's prediction, written out pass by pass, is the size the encoder computes. */
  lemma PredictionIsSize(w: nat, h: nat, bpp: nat)
    requires w >= 1 && h >= 1
    ensures Predicted(w, h, bpp) == FilterStart(7, w, h, bpp)
  {
    hide FilterSize, RawSize, FilterStart;
    RawIsFilter(0, w, h, bpp, (w + 7) / 8, (h + 7) / 8);
    RawIsFilter(1, w, h, bpp, (w + 3) / 8, (h + 7) / 8);
    RawIsFilter(2, w, h, bpp, (w + 3) / 4, (h + 3) / 8);
    RawIsFilter(3, w, h, bpp, (w + 1) / 4, (h + 3) / 4);
    RawIsFilter(4, w, h, bpp, (w + 1) / 2, (h + 1) / 4);
    RawIsFilter(5, w, h, bpp, w / 2, (h + 1) / 2);
    RawIsFilter(6, w, h, bpp, w, h / 2);
    SevenSizes(w, h, bpp);
  }

  lemma SevenSizes(w: nat, h: nat, bpp: nat)
    ensures FilterStart(7, w, h, bpp) ==
            FilterSize(0, w, h, bpp) + FilterSize(1, w, h, bpp) + FilterSize(2, w, h, bpp) + FilterSize(3, w, h, bpp)
            + FilterSize(4, w, h, bpp) + FilterSize(5, w, h, bpp) + FilterSize(6, w, h, bpp)
  {
    hide FilterSize;
    assert FilterStart(2, w, h, bpp) == FilterStart(1, w, h, bpp) + FilterSize(1, w, h, bpp);
    assert FilterStart(4, w, h, bpp) == FilterStart(3, w, h, bpp) + FilterSize(3, w, h, bpp);
    assert FilterStart(6, w, h, bpp) == FilterStart(5, w, h, bpp) + FilterSize(5, w, h, bpp);
  }

  // ----- Every pixel has one slot -----

  function PassOf(x: nat, y: nat): (i: nat)
    ensures i <= 6
  {
    if y % 2 == 1 then 6
    else if x % 2 == 1 then 5
    else if y % 4 == 2 then 4
    else if x % 4 == 2 then 3
    else if y % 8 == 4 then 2
    else if x % 8 == 4 then 1
    else 0
  }

  function SlotX(x: nat, y: nat): nat {
    PassAxes(x, y);
    (x - IX(PassOf(x, y))) / DX(PassOf(x, y))
  }

  function SlotY(x: nat, y: nat): nat {
    PassAxes(x, y);
    (y - IY(PassOf(x, y))) / DY(PassOf(x, y))
  }

  function PixelX(i: nat, sx: nat): nat { IX(i) + sx * DX(i) }

  function PixelY(i: nat, sy: nat): nat { IY(i) + sy * DY(i) }

  /** One axis: every d-th position from o on. */
  lemma Axis(x: nat, w: nat, d: nat, o: nat)
    requires d in {1, 2, 4, 8} && o < d && x % d == o && x < w
    ensures 0 <= (x - o) / d < (w + d - o - 1) / d && o + (x - o) / d * d == x
  {
    var q := x / d;
    DivMod(x, d);
    DivUnique(x - o, d, q, 0);
    assert d * (q + 1) == d * q + d;
    DivAtLeast(w + d - o - 1, d, q + 1);
  }

  lemma PassAxes(x: nat, y: nat)
    ensures var i := PassOf(x, y); x % DX(i) == IX(i) <= x && y % DY(i) == IY(i) <= y
  {
    Residues(x);
    Residues(y);
    if y % 2 == 1 {
    } else if x % 2 == 1 {
    } else if y % 4 == 2 {
    } else if x % 4 == 2 {
    } else if y % 8 == 4 {
    } else {
    }
  }

  lemma Residues(x: nat)
    ensures x % 2 == x % 4 % 2 && x % 4 == x % 8 % 4 && x % 8 <= x && x % 4 <= x && x % 2 <= x
  {
    Residue4(x);
    Residue8(x);
    ResidueSmall(x);
  }

  lemma Residue4(x: nat)
    ensures x % 2 == x % 4 % 2
  {
    var r := x % 4;
    assert x == 2 * (2 * (x / 4) + r / 2) + r % 2;
    ModUnique(x, 2, 2 * (x / 4) + r / 2, r % 2);
  }

  lemma Residue8(x: nat)
    ensures x % 4 == x % 8 % 4
  {
    var r := x % 8;
    assert x == 4 * (2 * (x / 8) + r / 4) + r % 4;
    ModUnique(x, 4, 2 * (x / 8) + r / 4, r % 4);
  }

  lemma ResidueSmall(x: nat)
    ensures x % 8 <= x && x % 4 <= x && x % 2 <= x
  {
  }

  /** Row y of the pattern of section 8.2 of the PNG Specification. */
  function PatternRow(y: nat): (r: seq<nat>)
    requires y < 8
    ensures |r| == 8
  {
    if y == 0 then [1, 6, 4, 6, 2, 6, 4, 6]
    else if y == 4 then [3, 6, 4, 6, 3, 6, 4, 6]
    else if y % 2 == 0 then [5, 6, 5, 6, 5, 6, 5, 6]
    else [7, 7, 7, 7, 7, 7, 7, 7]
  }

  /** The pattern, repeated over the image, numbers the passes from 1. */
  lemma PassPattern(x: nat, y: nat)
    ensures PassOf(x, y) + 1 == PatternRow(y % 8)[x % 8]
  {
    hide PassOf, PatternRow;
    PassPeriod(x, y);
    PatternCell(x % 8, y % 8);
  }

  lemma PassPeriod(x: nat, y: nat)
    ensures PassOf(x, y) == PassOf(x % 8, y % 8)
  {
    ModEight(x);
    ModEight(y);
  }

  lemma ModEight(x: nat)
    ensures x % 8 % 2 == x % 2 && x % 8 % 4 == x % 4 && x % 8 % 8 == x % 8
  {
  }

  lemma PatternCell(x: nat, y: nat)
    requires x < 8 && y < 8
    ensures PassOf(x, y) + 1 == PatternRow(y)[x]
  {
  }

  /** Every pixel of the image has a slot in its pass. */
  lemma SlotOfPixel(x: nat, y: nat, w: nat, h: nat)
    requires x < w && y < h
    ensures var i, sx, sy := PassOf(x, y), SlotX(x, y), SlotY(x, y);
            sx < PassW(i, w, h) && sy < PassH(i, w, h) && PixelX(i, sx) == x && PixelY(i, sy) == y
  {
    hide PassOf;
    var i := PassOf(x, y);
    PassAxes(x, y);
    Axis(x, w, DX(i), IX(i));
    Axis(y, h, DY(i), IY(i));
  }

  lemma AxisBack(s: nat, w: nat, d: nat, o: nat)
    requires d in {1, 2, 4, 8} && o < d && s < (w + d - o - 1) / d
    ensures o + s * d < w && (o + s * d) % d == o && (o + s * d - o) / d == s
  {
    assert d * (s + 1) == d * s + d;
    DivAtLeast(w + d - o - 1, d, s + 1);
    DivUnique(o + s * d, d, s, o);
    DivUnique(s * d, d, s, 0);
  }

  lemma PassFromAxes(i: nat, x: nat, y: nat)
    requires i < 7 && x % DX(i) == IX(i) && y % DY(i) == IY(i)
    ensures PassOf(x, y) == i
  {
  }

  /** Every slot of a pass is that of one pixel of the image. */
  lemma PixelOfSlot(i: nat, sx: nat, sy: nat, w: nat, h: nat)
    requires i < 7 && sx < PassW(i, w, h) && sy < PassH(i, w, h)
    ensures var x, y := PixelX(i, sx), PixelY(i, sy);
            x < w && y < h && PassOf(x, y) == i && SlotX(x, y) == sx && SlotY(x, y) == sy
  {
    hide PassOf;
    AxisBack(sx, w, DX(i), IX(i));
    AxisBack(sy, h, DY(i), IY(i));
    PassFromAxes(i, PixelX(i, sx), PixelY(i, sy));
  }

  // ----- Where pixels and slots stand -----

  /** Cell k of a row of cells of the same width. */
  lemma CellsApart(k: nat, l: nat, width: nat)
    requires k < l
    ensures k * width + width <= l * width
  {
    assert (k + 1) * width == k * width + width;
    OffsetMonotone(k + 1, l, width);
  }

  lemma IndexBound(x: nat, y: nat, w: nat, h: nat)
    requires x < w && y < h
    ensures y * w + x < h * w
  {
    CellsApart(y, h, w);
  }

  lemma IndexUnique(x: nat, y: nat, x': nat, y': nat, w: nat)
    requires x < w && x' < w && y * w + x == y' * w + x'
    ensures x == x' && y == y'
  {
    if y < y' {
      CellsApart(y, y', w);
    } else if y' < y {
      CellsApart(y', y, w);
    }
  }

  /** The size of an image in bits. */
  function ImageBits(w: nat, h: nat, bpp: nat): (n: nat)
    ensures n == h * w * bpp
  {
    var pixels: nat := h * w;
    pixels * bpp
  }

  function PixelBit(x: nat, y: nat, w: nat, bpp: nat): nat { (y * w + x) * bpp }

  function SlotBit(i: nat, sx: nat, sy: nat, w: nat, h: nat, bpp: nat): nat {
    8 * PassStart(i, w, h, bpp) + PixelBit(sx, sy, PassW(i, w, h), bpp)
  }

  lemma PixelInside(x: nat, y: nat, w: nat, h: nat, bpp: nat)
    requires x < w && y < h
    ensures PixelBit(x, y, w, bpp) + bpp <= h * w * bpp
  {
    IndexBound(x, y, w, h);
    CellsApart(y * w + x, h * w, bpp);
  }

  predicate Apart(p: nat, q: nat, n: nat) { p + n <= q || q + n <= p }

  /** Different pixels do not overlap in the image. */
  lemma PixelsApart(x: nat, y: nat, x': nat, y': nat, w: nat, bpp: nat)
    requires x < w && x' < w && (x != x' || y != y')
    ensures Apart(PixelBit(x, y, w, bpp), PixelBit(x', y', w, bpp), bpp)
  {
    var k, l := y * w + x, y' * w + x';
    if k < l {
      CellsApart(k, l, bpp);
    } else if l < k {
      CellsApart(l, k, bpp);
    } else {
      IndexUnique(x, y, x', y', w);
    }
  }

  lemma SlotInside(i: nat, sx: nat, sy: nat, w: nat, h: nat, bpp: nat)
    requires sx < PassW(i, w, h) && sy < PassH(i, w, h)
    ensures SlotBit(i, sx, sy, w, h, bpp) + bpp <= 8 * PassStart(i, w, h, bpp) +
            PassBits(i, w, h, bpp) <= 8 * PassStart(i + 1, w, h, bpp)
  {
    hide PassW, PassH, PixelBit;
    PixelInside(sx, sy, PassW(i, w, h), PassH(i, w, h), bpp);
  }

  lemma SlotInBuffer(i: nat, sx: nat, sy: nat, w: nat, h: nat, bpp: nat)
    requires i < 7 && sx < PassW(i, w, h) && sy < PassH(i, w, h)
    ensures SlotBit(i, sx, sy, w, h, bpp) + bpp <= 8 * PassStart(7, w, h, bpp)
  {
    hide *;
    SlotInside(i, sx, sy, w, h, bpp);
    StartsGrow(i + 1, 7, w, h, bpp);
  }

  /** Different slots do not overlap. */
  lemma SlotsApart(i: nat, sx: nat, sy: nat, j: nat, tx: nat, ty: nat, w: nat, h: nat, bpp: nat)
    requires sx < PassW(i, w, h) && sy < PassH(i, w, h) && tx < PassW(j, w, h) && ty < PassH(j, w, h)
    requires i != j || sx != tx || sy != ty
    ensures Apart(SlotBit(i, sx, sy, w, h, bpp), SlotBit(j, tx, ty, w, h, bpp), bpp)
  {
    hide PassW, PassH, PassStart, PixelBit, PassBits;
    if i == j {
      PixelsApart(sx, sy, tx, ty, PassW(i, w, h), bpp);
    } else if i < j {
      SlotInside(i, sx, sy, w, h, bpp);
      StartsGrow(i + 1, j, w, h, bpp);
    } else {
      SlotInside(j, tx, ty, w, h, bpp);
      StartsGrow(j + 1, i, w, h, bpp);
    }
  }

  // ----- Pixels moved so far -----

  function SlotOf(x: nat, y: nat, w: nat, h: nat, bpp: nat): nat {
    SlotBit(PassOf(x, y), SlotX(x, y), SlotY(x, y), w, h, bpp)
  }

  /** The pixel has the same bits in its slot and in the image. */
  ghost predicate PixelMoved(slots: seq<bool>, pixels: seq<bool>, x: nat, y: nat, w: nat, h: nat, bpp: nat) {
    var p, q := SlotOf(x, y, w, h, bpp), PixelBit(x, y, w, bpp);
    p + bpp <= |slots| && q + bpp <= |pixels| && slots[p..p + bpp] == pixels[q..q + bpp]
  }

  /** `slots` holds the seven passes of the image `pixels`. */
  ghost predicate Interlaced(slots: seq<bool>, pixels: seq<bool>, w: nat, h: nat, bpp: nat) {
    forall x: nat, y: nat :: x < w && y < h ==> PixelMoved(slots, pixels, x, y, w, h, bpp)
  }

  /** In the order of the loops the pixel comes before slot (sx, sy) of pass i. */
  predicate Before(x: nat, y: nat, i: nat, sy: nat, sx: nat) {
    var j := PassOf(x, y);
    j < i || (j == i && (SlotY(x, y) < sy || (SlotY(x, y) == sy && SlotX(x, y) < sx)))
  }

  lemma BeforeNext(x: nat, y: nat, i: nat, sy: nat, sx: nat, w: nat, h: nat)
    requires x < w && y < h && i < 7 && sx < PassW(i, w, h) && sy < PassH(i, w, h)
    ensures Before(x, y, i, sy, sx + 1) <==> Before(x, y, i, sy, sx) || (x == PixelX(i, sx) && y == PixelY(i, sy))
    ensures !Before(x, y, i, sy, sx) && Before(x, y, i, sy, sx + 1) ==>
              PassOf(x, y) == i && SlotX(x, y) == sx && SlotY(x, y) == sy
  {
    hide PassOf, SlotX, SlotY, PixelX, PixelY, PassW, PassH;
    SlotOfPixel(x, y, w, h);
    PixelOfSlot(i, sx, sy, w, h);
  }

  ghost predicate InterlacedTo(slots: seq<bool>, pixels: seq<bool>, w: nat, h: nat, bpp: nat, i: nat, sy: nat,
                               sx: nat) {
    forall x: nat, y: nat :: x < w && y < h && Before(x, y, i, sy, sx) ==> PixelMoved(slots, pixels, x, y, w, h, bpp)
  }

  /** Writing another slot leaves a pixel moved. */
  lemma SlotKept(slots: seq<bool>, pixels: seq<bool>, x: nat, y: nat, w: nat, h: nat, bpp: nat, pos: nat,
                 piece: seq<bool>)
    requires PixelMoved(slots, pixels, x, y, w, h, bpp) && |piece| == bpp && pos + bpp <= |slots|
    requires Apart(SlotOf(x, y, w, h, bpp), pos, bpp)
    ensures PixelMoved(Splice(slots, pos, piece), pixels, x, y, w, h, bpp)
  {
    hide SlotOf, PixelBit, Splice;
    var p := SlotOf(x, y, w, h, bpp);
    assert Splice(slots, pos, piece)[p..p + bpp] == slots[p..p + bpp];
  }

  lemma SlotWritten(slots: seq<bool>, pixels: seq<bool>, x: nat, y: nat, w: nat, h: nat, bpp: nat)
    requires SlotOf(x, y, w, h, bpp) + bpp <= |slots| && PixelBit(x, y, w, bpp) + bpp <= |pixels|
    ensures PixelMoved(Splice(slots, SlotOf(x, y, w, h, bpp),
                              pixels[PixelBit(x, y, w, bpp)..PixelBit(x, y, w, bpp) + bpp]), pixels, x, y, w, h, bpp)
  {
    hide SlotOf, PixelBit, Splice;
    var p, piece := SlotOf(x, y, w, h, bpp), pixels[PixelBit(x, y, w, bpp)..PixelBit(x, y, w, bpp) + bpp];
    assert Splice(slots, p, piece)[p..p + bpp] == piece;
  }

  lemma InterlaceNext(slots: seq<bool>, pixels: seq<bool>, w: nat, h: nat, bpp: nat, i: nat, sy: nat, sx: nat)
    requires InterlacedTo(slots, pixels, w, h, bpp, i, sy, sx) && i < 7 && sx < PassW(i, w, h) && sy < PassH(i, w, h)
    requires SlotBit(i, sx, sy, w, h, bpp) + bpp <= |slots|
    requires PixelBit(PixelX(i, sx), PixelY(i, sy), w, bpp) + bpp <= |pixels|
    ensures var q := PixelBit(PixelX(i, sx), PixelY(i, sy), w, bpp);
            InterlacedTo(Splice(slots, SlotBit(i, sx, sy, w, h, bpp), pixels[q..q + bpp]), pixels, w, h, bpp, i, sy,
                         sx + 1)
  {
    hide Before, PixelMoved, Splice, PassOf, SlotX, SlotY, SlotBit, PixelBit, PassW, PassH, PixelX, PixelY, Apart;
    var p, q := SlotBit(i, sx, sy, w, h, bpp), PixelBit(PixelX(i, sx), PixelY(i, sy), w, bpp);
    var now := Splice(slots, p, pixels[q..q + bpp]);
    forall x: nat, y: nat | x < w && y < h && Before(x, y, i, sy, sx + 1)
      ensures PixelMoved(now, pixels, x, y, w, h, bpp)
    {
      InterlaceOne(slots, pixels, w, h, bpp, i, sy, sx, x, y);
    }
  }

  lemma InterlaceOne(slots: seq<bool>, pixels: seq<bool>, w: nat, h: nat, bpp: nat, i: nat, sy: nat, sx: nat, x: nat,
                     y: nat)
    requires i < 7 && sx < PassW(i, w, h) && sy < PassH(i, w, h) && x < w && y < h
    requires Before(x, y, i, sy, sx + 1) && (Before(x, y, i, sy, sx) ==> PixelMoved(slots, pixels, x, y, w, h, bpp))
    requires SlotBit(i, sx, sy, w, h, bpp) + bpp <= |slots|
    requires PixelBit(PixelX(i, sx), PixelY(i, sy), w, bpp) + bpp <= |pixels|
    ensures var q := PixelBit(PixelX(i, sx), PixelY(i, sy), w, bpp);
            PixelMoved(Splice(slots, SlotBit(i, sx, sy, w, h, bpp), pixels[q..q + bpp]), pixels, x, y, w, h, bpp)
  {
    hide PixelMoved, Splice, PassOf, SlotX, SlotY, SlotBit, PixelBit, PassW, PassH, PixelX, PixelY, Apart;
    BeforeNext(x, y, i, sy, sx, w, h);
    SlotOfPixel(x, y, w, h);
    var q := PixelBit(PixelX(i, sx), PixelY(i, sy), w, bpp);
    if Before(x, y, i, sy, sx) {
      SlotsApart(PassOf(x, y), SlotX(x, y), SlotY(x, y), i, sx, sy, w, h, bpp);
      SlotKept(slots, pixels, x, y, w, h, bpp, SlotBit(i, sx, sy, w, h, bpp), pixels[q..q + bpp]);
    } else {
      SlotWritten(slots, pixels, x, y, w, h, bpp);
    }
  }
}
