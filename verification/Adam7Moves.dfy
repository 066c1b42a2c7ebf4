/** The loops that interlace and deinterlace an image. */
module Adam7Moves {
  import opened BitStream
  import opened ImageFilter
  import opened ReversedBits
  import opened Adam7

  /** Pixels are smaller than a byte or made of at most eight whole bytes. */
  predicate ValidBpp(bpp: nat) { 0 < bpp <= 64 && (bpp < 8 || bpp % 8 == 0) }

  lemma ByteCells(k: nat, bpp: nat)
    requires bpp % 8 == 0
    ensures 8 * (k * (bpp / 8)) == k * bpp
  {
    var m := bpp / 8;
    assert bpp == 8 * m;
    assert k * (8 * m) == 8 * (k * m);
  }

  lemma BitCells(x: nat, y: nat, w: nat, bpp: nat)
    ensures y * (bpp * w) + x * bpp == PixelBit(x, y, w, bpp)
  {
    assert (y * w + x) * bpp == y * w * bpp + x * bpp;
    assert y * (bpp * w) == y * w * bpp;
  }

  /** The byte position of pixel (x, y) in an image of whole-byte pixels. */
  function ByteAt(x: nat, y: nat, w: nat, bpp: nat): (p: nat)
    requires bpp % 8 == 0
    ensures 8 * p == PixelBit(x, y, w, bpp)
  {
    ByteCells(y * w + x, bpp);
    (y * w + x) * (bpp / 8)
  }

  /** The bit position of pixel (x, y) in an image whose lines have bpp * w bits. */
  function BitAtPixel(x: nat, y: nat, w: nat, bpp: nat): (p: nat)
    ensures p == PixelBit(x, y, w, bpp)
  {
    BitCells(x, y, w, bpp);
    y * (bpp * w) + x * bpp
  }

  /** The positions of a slot and its pixel lie inside their buffers. */
  lemma InBuffers(i: nat, sx: nat, sy: nat, w: nat, h: nat, bpp: nat)
    requires i < 7 && sx < PassW(i, w, h) && sy < PassH(i, w, h)
    ensures SlotBit(i, sx, sy, w, h, bpp) + bpp <= 8 * PassStart(7, w, h, bpp)
    ensures PixelBit(PixelX(i, sx), PixelY(i, sy), w, bpp) + bpp <= h * w * bpp
  {
    hide PassOf, PassW, PassH, PixelBit, SlotBit, PixelX, PixelY, PassStart;
    SlotInBuffer(i, sx, sy, w, h, bpp);
    PixelOfSlot(i, sx, sy, w, h);
    PixelInside(PixelX(i, sx), PixelY(i, sy), w, h, bpp);
  }

  /** At the end of a row the next row begins. */
  lemma RowEnds(slots: seq<bool>, pixels: seq<bool>, w: nat, h: nat, bpp: nat, i: nat, sy: nat)
    requires InterlacedTo(slots, pixels, w, h, bpp, i, sy, PassW(i, w, h))
    ensures InterlacedTo(slots, pixels, w, h, bpp, i, sy + 1, 0)
  {
    hide PixelMoved, PassOf, SlotX, SlotY, PassW, PassH;
    forall x: nat, y: nat | x < w && y < h && Before(x, y, i, sy + 1, 0)
      ensures PixelMoved(slots, pixels, x, y, w, h, bpp)
    {
      SlotOfPixel(x, y, w, h);
      assert Before(x, y, i, sy, PassW(i, w, h));
    }
  }

  lemma PassEnds(slots: seq<bool>, pixels: seq<bool>, w: nat, h: nat, bpp: nat, i: nat)
    requires InterlacedTo(slots, pixels, w, h, bpp, i, PassH(i, w, h), 0)
    ensures InterlacedTo(slots, pixels, w, h, bpp, i + 1, 0, 0)
  {
    hide PixelMoved, PassOf, SlotX, SlotY, PassW, PassH;
    forall x: nat, y: nat | x < w && y < h && Before(x, y, i + 1, 0, 0)
      ensures PixelMoved(slots, pixels, x, y, w, h, bpp)
    {
      SlotOfPixel(x, y, w, h);
      assert Before(x, y, i, PassH(i, w, h), 0);
    }
  }

  lemma NoPixels(slots: seq<bool>, pixels: seq<bool>, w: nat, h: nat, bpp: nat)
    ensures InterlacedTo(slots, pixels, w, h, bpp, 0, 0, 0)
  {
  }

  lemma AllPixels(slots: seq<bool>, pixels: seq<bool>, w: nat, h: nat, bpp: nat)
    requires InterlacedTo(slots, pixels, w, h, bpp, 7, 0, 0)
    ensures Interlaced(slots, pixels, w, h, bpp)
  {
    hide PixelMoved;
    assert forall x: nat, y: nat :: Before(x, y, 7, 0, 0);
  }

  // ----- Deinterlacing -----

  /** The bits of a pixel are all 0. */
  ghost predicate PixelClear(pixels: seq<bool>, x: nat, y: nat, w: nat, bpp: nat) {
    var q := PixelBit(x, y, w, bpp);
    q + bpp <= |pixels| && forall k :: q <= k < q + bpp ==> !pixels[k]
  }

  /** Pixels not yet reached are still 0 where that matters. */
  ghost predicate ClearFrom(pixels: seq<bool>, w: nat, h: nat, bpp: nat, i: nat, sy: nat, sx: nat) {
    forall x: nat, y: nat :: x < w && y < h && !Before(x, y, i, sy, sx) ==> PixelClear(pixels, x, y, w, bpp)
  }

  lemma PixelKept(slots: seq<bool>, pixels: seq<bool>, x: nat, y: nat, w: nat, h: nat, bpp: nat, pos: nat,
                  piece: seq<bool>)
    requires |piece| == bpp && pos + bpp <= |pixels| && Apart(PixelBit(x, y, w, bpp), pos, bpp)
    ensures PixelMoved(slots, pixels, x, y, w, h, bpp) ==>
              PixelMoved(slots, Splice(pixels, pos, piece), x, y, w, h, bpp)
    ensures PixelClear(pixels, x, y, w, bpp) ==> PixelClear(Splice(pixels, pos, piece), x, y, w, bpp)
  {
    hide SlotOf, PixelBit, Splice;
    var q := PixelBit(x, y, w, bpp);
    if q + bpp <= |pixels| {
      assert Splice(pixels, pos, piece)[q..q + bpp] == pixels[q..q + bpp];
    }
  }

  lemma PixelWritten(slots: seq<bool>, pixels: seq<bool>, x: nat, y: nat, w: nat, h: nat, bpp: nat)
    requires SlotOf(x, y, w, h, bpp) + bpp <= |slots| && PixelBit(x, y, w, bpp) + bpp <= |pixels|
    ensures PixelMoved(slots,
                       Splice(pixels, PixelBit(x, y, w, bpp),
                              slots[SlotOf(x, y, w, h, bpp)..SlotOf(x, y, w, h, bpp) + bpp]), x, y, w, h, bpp)
  {
    hide SlotOf, PixelBit, Splice;
    var q, piece := PixelBit(x, y, w, bpp), slots[SlotOf(x, y, w, h, bpp)..SlotOf(x, y, w, h, bpp) + bpp];
    assert Splice(pixels, q, piece)[q..q + bpp] == piece;
  }

  lemma DeinterlaceOne(slots: seq<bool>, pixels: seq<bool>, w: nat, h: nat, bpp: nat, i: nat, sy: nat, sx: nat, x: nat,
                       y: nat)
    requires i < 7 && sx < PassW(i, w, h) && sy < PassH(i, w, h) && x < w && y < h
    requires SlotBit(i, sx, sy, w, h, bpp) + bpp <= |slots|
    requires PixelBit(PixelX(i, sx), PixelY(i, sy), w, bpp) + bpp <= |pixels|
    requires Before(x, y, i, sy, sx) ==> PixelMoved(slots, pixels, x, y, w, h, bpp)
    ensures var p := SlotBit(i, sx, sy, w, h, bpp);
            var now := Splice(pixels, PixelBit(PixelX(i, sx), PixelY(i, sy), w, bpp), slots[p..p + bpp]);
            && (Before(x, y, i, sy, sx + 1) ==> PixelMoved(slots, now, x, y, w, h, bpp))
            && (!Before(x, y, i, sy, sx + 1) && PixelClear(pixels, x, y, w, bpp) ==> PixelClear(now, x, y, w, bpp))
  {
    hide PixelMoved, PixelClear, Splice, PassOf, SlotX, SlotY, SlotBit, PixelBit, PassW, PassH, PixelX, PixelY, Apart,
      Before;
    BeforeNext(x, y, i, sy, sx, w, h);
    PixelOfSlot(i, sx, sy, w, h);
    var p := SlotBit(i, sx, sy, w, h, bpp);
    if x == PixelX(i, sx) && y == PixelY(i, sy) {
      PixelWritten(slots, pixels, x, y, w, h, bpp);
    } else {
      PixelsApart(x, y, PixelX(i, sx), PixelY(i, sy), w, bpp);
      PixelKept(slots, pixels, x, y, w, h, bpp, PixelBit(PixelX(i, sx), PixelY(i, sy), w, bpp), slots[p..p + bpp]);
    }
  }

  lemma DeinterlaceNext(slots: seq<bool>, pixels: seq<bool>, w: nat, h: nat, bpp: nat, i: nat, sy: nat, sx: nat)
    requires InterlacedTo(slots, pixels, w, h, bpp, i, sy, sx) && i < 7 && sx < PassW(i, w, h) && sy < PassH(i, w, h)
    requires SlotBit(i, sx, sy, w, h, bpp) + bpp <= |slots|
    requires PixelBit(PixelX(i, sx), PixelY(i, sy), w, bpp) + bpp <= |pixels|
    ensures var p := SlotBit(i, sx, sy, w, h, bpp);
            var now := Splice(pixels, PixelBit(PixelX(i, sx), PixelY(i, sy), w, bpp), slots[p..p + bpp]);
            && InterlacedTo(slots, now, w, h, bpp, i, sy, sx + 1)
            && (ClearFrom(pixels, w, h, bpp, i, sy, sx) ==> ClearFrom(now, w, h, bpp, i, sy, sx + 1))
  {
    hide Before, PixelMoved, PixelClear, Splice, PassOf, SlotX, SlotY, SlotBit, PixelBit, PassW, PassH, PixelX, PixelY,
      Apart;
    var p := SlotBit(i, sx, sy, w, h, bpp);
    var now := Splice(pixels, PixelBit(PixelX(i, sx), PixelY(i, sy), w, bpp), slots[p..p + bpp]);
    forall x: nat, y: nat | x < w && y < h && Before(x, y, i, sy, sx + 1)
      ensures PixelMoved(slots, now, x, y, w, h, bpp)
    {
      DeinterlaceOne(slots, pixels, w, h, bpp, i, sy, sx, x, y);
    }
    if ClearFrom(pixels, w, h, bpp, i, sy, sx) {
      forall x: nat, y: nat | x < w && y < h && !Before(x, y, i, sy, sx + 1)
        ensures PixelClear(now, x, y, w, bpp)
      {
        BeforeNext(x, y, i, sy, sx, w, h);
        DeinterlaceOne(slots, pixels, w, h, bpp, i, sy, sx, x, y);
      }
    }
  }

  lemma ClearHere(pixels: seq<bool>, w: nat, h: nat, bpp: nat, i: nat, sy: nat, sx: nat)
    requires ClearFrom(pixels, w, h, bpp, i, sy, sx) && i < 7 && sx < PassW(i, w, h) && sy < PassH(i, w, h)
    ensures PixelClear(pixels, PixelX(i, sx), PixelY(i, sy), w, bpp)
  {
    hide PassOf, SlotX, SlotY, PassW, PassH, PixelX, PixelY, PixelClear;
    PixelOfSlot(i, sx, sy, w, h);
    assert !Before(PixelX(i, sx), PixelY(i, sy), i, sy, sx);
  }

  /** The same pixels are still to come after the end of a row and of a pass. */
  lemma ClearGoesOn(pixels: seq<bool>, w: nat, h: nat, bpp: nat, i: nat, sy: nat)
    ensures ClearFrom(pixels, w, h, bpp, i, sy, PassW(i, w, h)) ==> ClearFrom(pixels, w, h, bpp, i, sy + 1, 0)
    ensures ClearFrom(pixels, w, h, bpp, i, PassH(i, w, h), 0) ==> ClearFrom(pixels, w, h, bpp, i + 1, 0, 0)
  {
    hide PixelClear, PassOf, SlotX, SlotY, PassW, PassH;
    assert forall x: nat, y: nat :: Before(x, y, i, sy, PassW(i, w, h)) ==> Before(x, y, i, sy + 1, 0);
    assert forall x: nat, y: nat :: Before(x, y, i, PassH(i, w, h), 0) ==> Before(x, y, i + 1, 0, 0);
  }

  lemma AllClear(data: seq<byte>, w: nat, h: nat, bpp: nat)
    requires h * w * bpp <= 8 * |data| && forall k :: 0 <= k < |data| ==> data[k] == 0
    ensures ClearFrom(RBits(data), w, h, bpp, 0, 0, 0)
  {
    hide PixelBit;
    forall k | 0 <= k < 8 * |data|
      ensures !RBits(data)[k]
    {
      ZeroRBit(data, k);
    }
    forall x: nat, y: nat | x < w && y < h
      ensures PixelClear(RBits(data), x, y, w, bpp)
    {
      PixelInside(x, y, w, h, bpp);
    }
  }

  // ----- The round trip -----

  /** The passes determine every bit of the image. */
  lemma OneInterlaced(slots: seq<bool>, a: seq<bool>, b: seq<bool>, w: nat, h: nat, bpp: nat)
    requires Interlaced(slots, a, w, h, bpp) && Interlaced(slots, b, w, h, bpp)
    requires ImageBits(w, h, bpp) <= |a| && ImageBits(w, h, bpp) <= |b|
    ensures a[..ImageBits(w, h, bpp)] == b[..ImageBits(w, h, bpp)]
  {
    hide PixelMoved;
    forall k | 0 <= k < ImageBits(w, h, bpp)
      ensures a[k] == b[k]
    {
      var x, y, c := PixelAt(k, w, h, bpp);
      assert PixelMoved(slots, a, x, y, w, h, bpp) && PixelMoved(slots, b, x, y, w, h, bpp);
      SameBit(slots, a, b, x, y, w, h, bpp, k);
    }
  }

  lemma SameBit(slots: seq<bool>, a: seq<bool>, b: seq<bool>, x: nat, y: nat, w: nat, h: nat, bpp: nat, k: nat)
    requires PixelMoved(slots, a, x, y, w, h, bpp) && PixelMoved(slots, b, x, y, w, h, bpp)
    requires PixelBit(x, y, w, bpp) <= k < PixelBit(x, y, w, bpp) + bpp
    ensures k < |a| && k < |b| && a[k] == b[k]
  {
    hide PixelBit, SlotOf;
    var q := PixelBit(x, y, w, bpp);
    assert a[q..q + bpp][k - q] == b[q..q + bpp][k - q];
  }

  /** The pixel a bit of the image belongs to. */
  lemma PixelAt(k: nat, w: nat, h: nat, bpp: nat) returns (x: nat, y: nat, c: nat)
    requires k < h * w * bpp
    ensures x < w && y < h && c < bpp && k == PixelBit(x, y, w, bpp) + c
  {
    DivideCells(k, h * w, bpp);
    DivideCells(k / bpp, h, w);
    x, y, c := k / bpp % w, k / bpp / w, k % bpp;
  }

  lemma DivideCells(k: nat, m: nat, n: nat)
    requires k < m * n
    ensures n > 0 && k / n < m && k == k / n * n + k % n
  {
    if n > 0 && k / n >= m {
      OffsetMonotone(m, k / n, n);
    }
  }
}
