/** The loops of Adam7 with their 32-bit positions. */
module Passes32 {
  import opened Powers
  import opened BitStream
  import opened ImageFilter
  import opened ReversedBits
  import opened Adam7
  import opened Adam7Moves
  import opened Scanlines
  import opened Sizes32

  // ----- Interlacing: every position is guarded -----

  /** One pixel, as bytes or as bits. */
  method CopyPixel(out: array<byte>, p: nat, buf: array<byte>, q: nat, bpp: nat)
    requires ValidBpp(bpp) && out != buf && p + bpp <= 8 * out.Length && q + bpp <= 8 * buf.Length
    requires bpp >= 8 ==> p % 8 == 0 && q % 8 == 0
    modifies out
    ensures RBits(out[..]) == Splice(old(RBits(out[..])), p, RBits(buf[..])[q..q + bpp])
  {
    hide RBits, Splice;
    if bpp >= 8 {
      CopyBytes(out, p / 8, buf, q / 8, bpp / 8);
    } else {
      CopyBits(out, p, buf, q, bpp);
    }
  }

  lemma WholeBytes(i: nat, x: nat, y: nat, w: nat, h: nat, bpp: nat)
    requires bpp >= 8
    ensures SlotBit32(i, x, y, w, h, bpp) % 8 == 0 && PixelBit32(i, x, y, w, bpp) % 8 == 0
  {
    hide Times, PassStart32, PassW32, PixelX, PixelY;
  }

  method InterlacePixel(out: array<byte>, buf: array<byte>, w: nat, h: nat, bpp: nat, i: nat, x: nat, y: nat)
    returns (ok: bool)
    requires ValidBpp(bpp) && out != buf && i < 7 && out.Length == PassStart32(7, w, h, bpp)
    modifies out
    ensures ok <==> SlotInBounds(buf.Length, w, h, bpp, i, x, y)
    ensures Fits(w, h, bpp, true) && x < PassW(i, w, h) && y < PassH(i, w, h) && h * w * bpp <= 8 * buf.Length
            && InterlacedTo(old(RBits(out[..])), RBits(buf[..]), w, h, bpp, i, y, x) ==>
              InterlacedTo(RBits(out[..]), RBits(buf[..]), w, h, bpp, i, y, x + 1)
  {
    hide *;
    SlotBoundsAre(buf.Length, w, h, bpp, i, x, y);
    var p, q := SlotBit32(i, x, y, w, h, bpp), PixelBit32(i, x, y, w, bpp);
    if bpp >= 8 {
      WholeBytes(i, x, y, w, h, bpp);
    }
    ghost var exact := Fits(w, h, bpp, true) && x < PassW(i, w, h) && y < PassH(i, w,
                            h) && h * w * bpp <= 8 * buf.Length;
    ghost var was := RBits(out[..]);
    if exact {
      SlotFits(buf.Length, i, x, y, w, h, bpp);
    }
    if p + bpp > 8 * out.Length || q + bpp > 8 * buf.Length {
      return false;
    }
    CopyPixel(out, p, buf, q, bpp);
    ok := true;
    if exact && InterlacedTo(was, RBits(buf[..]), w, h, bpp, i, y, x) {
      SlotExact(i, x, y, w, h, bpp);
      InterlaceNext(was, RBits(buf[..]), w, h, bpp, i, y, x);
    }
  }

  /** All slots of the first y rows, and x more, are in bounds. */
  predicate SlotsTo(size: nat, w: nat, h: nat, bpp: nat, i: nat, y: nat, x: nat) {
    forall a, b :: 0 <= a < PassW32(i, w, h) && 0 <= b < PassH32(i, w, h) && (b < y || (b == y && a < x)) ==>
      SlotInBounds(size, w, h, bpp, i, a, b)
  }

  lemma SlotsMore(size: nat, w: nat, h: nat, bpp: nat, i: nat, y: nat, x: nat)
    requires SlotsTo(size, w, h, bpp, i, y, x) && x < PassW32(i, w, h) && y < PassH32(i, w, h)
    ensures SlotInBounds(size, w, h, bpp, i, x, y) ==> SlotsTo(size, w, h, bpp, i, y, x + 1)
    ensures !SlotInBounds(size, w, h, bpp, i, x, y) ==> !SlotsInBounds(size, w, h, bpp, i)
  {
    hide SlotInBounds, PassW32, PassH32;
  }

  lemma SlotsEnd(size: nat, w: nat, h: nat, bpp: nat, i: nat, y: nat)
    ensures SlotsTo(size, w, h, bpp, i, 0, 0)
    ensures SlotsTo(size, w, h, bpp, i, y, PassW32(i, w, h)) ==> SlotsTo(size, w, h, bpp, i, y + 1, 0)
    ensures SlotsTo(size, w, h, bpp, i, PassH32(i, w, h), 0) ==> SlotsInBounds(size, w, h, bpp, i)
  {
    hide SlotInBounds, PassW32, PassH32;
  }

  method InterlacePass(out: array<byte>, buf: array<byte>, w: nat, h: nat, bpp: nat, i: nat) returns (ok: bool)
    requires ValidBpp(bpp) && out != buf && i < 7 && out.Length == PassStart32(7, w, h, bpp)
    modifies out
    ensures ok <==> SlotsInBounds(buf.Length, w, h, bpp, i)
    ensures ok && Fits(w, h, bpp, true) && h * w * bpp <= 8 * buf.Length
            && InterlacedTo(old(RBits(out[..])), RBits(buf[..]), w, h, bpp, i, 0, 0) ==>
              InterlacedTo(RBits(out[..]), RBits(buf[..]), w, h, bpp, i + 1, 0, 0)
  {
    hide *;
    ghost var exact := Fits(w, h, bpp, true) && h * w * bpp <= 8 * buf.Length
                       && InterlacedTo(RBits(out[..]), RBits(buf[..]), w, h, bpp, i, 0, 0);
    if exact {
      PassSizes(i, w, h, bpp);
    }
    SlotsEnd(buf.Length, w, h, bpp, i, 0);
    for y := 0 to PassH32(i, w, h)
      invariant SlotsTo(buf.Length, w, h, bpp, i, y, 0)
      invariant exact ==> InterlacedTo(RBits(out[..]), RBits(buf[..]), w, h, bpp, i, y, 0)
    {
      for x := 0 to PassW32(i, w, h)
        invariant SlotsTo(buf.Length, w, h, bpp, i, y, x)
        invariant exact ==> InterlacedTo(RBits(out[..]), RBits(buf[..]), w, h, bpp, i, y, x)
      {
        ok := InterlacePixel(out, buf, w, h, bpp, i, x, y);
        SlotsMore(buf.Length, w, h, bpp, i, y, x);
        if !ok {
          return;
        }
      }
      SlotsEnd(buf.Length, w, h, bpp, i, y);
      if exact {
        RowEnds(RBits(out[..]), RBits(buf[..]), w, h, bpp, i, y);
      }
    }
    ok := true;
    SlotsEnd(buf.Length, w, h, bpp, i, 0);
    if exact {
      PassEnds(RBits(out[..]), RBits(buf[..]), w, h, bpp, i);
    }
  }

  /** Adam7_interlace: it stays in bounds exactly if every slot does. */
  method Interlace(out: array<byte>, buf: array<byte>, w: nat, h: nat, bpp: nat) returns (ok: bool)
    requires ValidBpp(bpp) && out != buf && out.Length == PassStart32(7, w, h, bpp)
    modifies out
    ensures ok <==> forall i :: 0 <= i < 7 ==> SlotsInBounds(buf.Length, w, h, bpp, i)
    ensures ok && Fits(w, h, bpp, true) && h * w * bpp <= 8 * buf.Length ==>
              Interlaced(RBits(out[..]), RBits(buf[..]), w, h, bpp)
  {
    hide *;
    ghost var exact := Fits(w, h, bpp, true) && h * w * bpp <= 8 * buf.Length;
    NoPixels(RBits(out[..]), RBits(buf[..]), w, h, bpp);
    for i := 0 to 7
      invariant forall j :: 0 <= j < i ==> SlotsInBounds(buf.Length, w, h, bpp, j)
      invariant exact ==> InterlacedTo(RBits(out[..]), RBits(buf[..]), w, h, bpp, i, 0, 0)
    {
      ok := InterlacePass(out, buf, w, h, bpp, i);
      if !ok {
        return;
      }
    }
    ok := true;
    if exact {
      AllPixels(RBits(out[..]), RBits(buf[..]), w, h, bpp);
    }
  }

  // ----- Deinterlacing: within the decoder's limit every position is in range -----

  /** Images the decoder accepts. */
  predicate Accepted(w: nat, h: nat, bpp: nat) { w >= 1 && h >= 1 && w * h <= MAX_PIXELS && ValidBpp(bpp) }

  /** For pixels smaller than a byte nothing wraps within the limit. */
  lemma SmallPixelsFit(w: nat, h: nat, bpp: nat, interlace: bool)
    requires Accepted(w, h, bpp) && bpp < 8
    ensures Fits(w, h, bpp, interlace)
  {
    hide PassW, PassH, LineBytes, FilterSize, FilterStart, Offset, PassBits;
    SmallSides(w, h);
    SmallImage(w, h, bpp);
    DataSizeShort(w, h, bpp, interlace);
    PixelsConserved(w, h);
    if interlace {
      forall i | 0 <= i < 7
        ensures PassFits(i, w, h, bpp)
      {
        SmallPass(i, w, h, bpp);
      }
    } else {
      SmallLine(w, bpp, w * h);
      MulMonotone(w, 1, h);
    }
  }

  lemma SmallLine(w: nat, bpp: nat, pixels: nat)
    requires w <= pixels <= MAX_PIXELS && bpp < 8
    ensures LineFits(w, bpp)
  {
    Product(w, bpp, MAX_PIXELS, 7);
  }

  lemma SmallPass(i: nat, w: nat, h: nat, bpp: nat)
    requires Accepted(w, h, bpp) && bpp < 8 && i < 7 && PixelsTo(7, w, h) == w * h
    ensures PassFits(i, w, h, bpp)
  {
    hide PassW, PassH, LineBytes, FilterSize, FilterStart, Offset, PassBits, Pixels;
    PixelsWithin(i, 7, w, h);
    BitsOfPixels(i, w, h, bpp);
    Product(Pixels(i, w, h), bpp, MAX_PIXELS, 7);
    RowPixels(i, w, h);
    SmallLine(PassW(i, w, h), bpp, w * h);
    PassShort(i, w, h, bpp);
  }

  lemma RowPixels(i: nat, w: nat, h: nat)
    ensures PassW(i, w, h) <= Pixels(i, w, h)
  {
    hide RawW, RawH;
    if PassH(i, w, h) >= 1 {
      MulMonotone(PassW(i, w, h), 1, PassH(i, w, h));
    }
  }

  lemma PassShort(i: nat, w: nat, h: nat, bpp: nat)
    requires Accepted(w, h, bpp) && i < 7
    ensures FilterSize(i, w, h, bpp) < U32 && Offset(PassH(i, w, h), LineBytes(PassW(i, w, h), bpp) + 1) < U32
  {
    hide PassW, PassH, LineBytes, FilterStart, Offset, FilterSize;
    DataSizeShort(w, h, bpp, true);
    EncodeBounds(i, w, h, bpp);
  }

  lemma {:induction false} StartShort(n: nat, w: nat, h: nat, bpp: nat)
    requires w + 7 < U32 && h + 7 < U32
    ensures PassStart32(n, w, h, bpp) <= PassStart(n, w, h, bpp)
  {
    hide PassW, PassH, PassW32, PassH32, PassBits;
    if n > 0 {
      StartShort(n - 1, w, h, bpp);
      PassIs(n - 1, w, h);
      ShortSize(PassBits(n - 1, w, h, bpp));
      PassBitsAre(n - 1, w, h, bpp);
    }
  }

  lemma PassBitsAre(i: nat, w: nat, h: nat, bpp: nat)
    ensures PassBits(i, w, h, bpp) == PassH(i, w, h) * PassW(i, w, h) * bpp
  {
    hide PassW, PassH;
  }

  lemma ShortSize(bits: nat)
    ensures (bits % U32 + 7) % U32 / 8 <= (bits + 7) / 8
  {
  }

  /** Reading a slot and writing its pixel, for every image the decoder accepts. */
  lemma DeinterlaceInRange(i: nat, x: nat, y: nat, w: nat, h: nat, bpp: nat)
    requires Accepted(w, h, bpp) && i < 7 && x < PassW(i, w, h) && y < PassH(i, w, h)
    ensures SlotBit32(i, x, y, w, h, bpp) + bpp <= 8 * PassStart(7, w, h, bpp)
    ensures PixelBit32(i, x, y, w, bpp) == PixelBit(PixelX(i, x), PixelY(i, y), w, bpp)
    ensures PixelBit32(i, x, y, w, bpp) + bpp <= h * w * bpp
  {
    hide *;
    AcceptedParts(w, h, bpp);
    InBuffers(i, x, y, w, h, bpp);
    if bpp < 8 {
      SmallPixelsFit(w, h, bpp, true);
      SlotExact(i, x, y, w, h, bpp);
    } else {
      StartShort(i, w, h, bpp);
      PassIs(i, w, h);
      SmallImage(w, h, bpp);
      PixelOfSlot(i, x, y, w, h);
      PixelExact(PixelX(i, x), PixelY(i, y), w, h, bpp);
      IndexInPass(i, x, y, w, h);
      BytesExact(x, y, PassW(i, w, h), bpp);
      BitsAre(i, x, y, w, h, bpp);
    }
  }

  lemma AcceptedParts(w: nat, h: nat, bpp: nat)
    requires Accepted(w, h, bpp)
    ensures w >= 1 && h >= 1 && w * h <= MAX_PIXELS && ValidBpp(bpp) && 0 < bpp <= 64 && (bpp >= 8 ==> bpp % 8 == 0)
    ensures w + 7 < U32 && h + 7 < U32 && ByteWidth(bpp) > 0
  {
    SmallSides(w, h);
  }

  lemma IndexInPass(i: nat, x: nat, y: nat, w: nat, h: nat)
    requires i < 7 && x < PassW(i, w, h) && y < PassH(i, w, h) && w * h <= MAX_PIXELS
    ensures (y * PassW(i, w, h) + x) % U32 == y * PassW(i, w, h) + x
  {
    hide PassW, PassH, Pixels;
    PixelsConserved(w, h);
    PixelsWithin(i, 7, w, h);
    IndexBound(x, y, PassW(i, w, h), PassH(i, w, h));
    PixelsIs(i, w, h);
    Wrapped(y * PassW(i, w, h) + x);
  }

  lemma PixelsIs(i: nat, w: nat, h: nat)
    ensures Pixels(i, w, h) == PassH(i, w, h) * PassW(i, w, h)
  {
    hide PassW, PassH;
  }

  method DeinterlacePixel(out: array<byte>, buf: array<byte>, w: nat, h: nat, bpp: nat, i: nat, x: nat, y: nat)
    requires Accepted(w, h, bpp) && out != buf && PassStart(7, w, h, bpp) <= buf.Length && h * w * bpp <= 8 * out.Length
    requires i < 7 && x < PassW(i, w, h) && y < PassH(i, w, h)
    requires Fits(w, h, bpp, true) ==> InterlacedTo(RBits(buf[..]), RBits(out[..]), w, h, bpp, i, y, x)
    requires bpp < 8 ==> ClearFrom(RBits(out[..]), w, h, bpp, i, y, x)
    modifies out
    ensures Fits(w, h, bpp, true) ==> InterlacedTo(RBits(buf[..]), RBits(out[..]), w, h, bpp, i, y, x + 1)
    ensures bpp < 8 ==> ClearFrom(RBits(out[..]), w, h, bpp, i, y, x + 1)
  {
    hide *;
    AcceptedParts(w, h, bpp);
    DeinterlaceInRange(i, x, y, w, h, bpp);
    if bpp < 8 {
      SmallPixelsFit(w, h, bpp, true);
    }
    if Fits(w, h, bpp, true) {
      SlotExact(i, x, y, w, h, bpp);
      InBuffers(i, x, y, w, h, bpp);
      DeinterlaceNext(RBits(buf[..]), RBits(out[..]), w, h, bpp, i, y, x);
    }
    var p, q := PixelBit32(i, x, y, w, bpp), SlotBit32(i, x, y, w, h, bpp);
    if bpp >= 8 {
      WholeBytes(i, x, y, w, h, bpp);
      CopyBytes(out, p / 8, buf, q / 8, bpp / 8);
    } else {
      ClearHere(RBits(out[..]), w, h, bpp, i, y, x);
      ClearBitsOf(RBits(out[..]), PixelX(i, x), PixelY(i, y), w, bpp);
      CopyBits0(out, p, buf, q, bpp);
    }
  }

  lemma ClearBitsOf(pixels: seq<bool>, x: nat, y: nat, w: nat, bpp: nat)
    requires PixelClear(pixels, x, y, w, bpp)
    ensures var q := PixelBit(x, y, w, bpp); q + bpp <= |pixels| && forall k :: q <= k < q + bpp ==> !pixels[k]
  {
    hide PixelBit;
  }

  method DeinterlacePass(out: array<byte>, buf: array<byte>, w: nat, h: nat, bpp: nat, i: nat)
    requires Accepted(w, h, bpp) && out != buf && PassStart(7, w, h, bpp) <= buf.Length && h * w * bpp <= 8 * out.Length
    requires i < 7 && (Fits(w, h, bpp, true) ==> InterlacedTo(RBits(buf[..]), RBits(out[..]), w, h, bpp, i, 0, 0))
    requires bpp < 8 ==> ClearFrom(RBits(out[..]), w, h, bpp, i, 0, 0)
    modifies out
    ensures Fits(w, h, bpp, true) ==> InterlacedTo(RBits(buf[..]), RBits(out[..]), w, h, bpp, i + 1, 0, 0)
    ensures bpp < 8 ==> ClearFrom(RBits(out[..]), w, h, bpp, i + 1, 0, 0)
  {
    hide *;
    AcceptedParts(w, h, bpp);
    PassIs(i, w, h);
    for y := 0 to PassH32(i, w, h)
      invariant Fits(w, h, bpp, true) ==> InterlacedTo(RBits(buf[..]), RBits(out[..]), w, h, bpp, i, y, 0)
      invariant bpp < 8 ==> ClearFrom(RBits(out[..]), w, h, bpp, i, y, 0)
    {
      for x := 0 to PassW32(i, w, h)
        invariant Fits(w, h, bpp, true) ==> InterlacedTo(RBits(buf[..]), RBits(out[..]), w, h, bpp, i, y, x)
        invariant bpp < 8 ==> ClearFrom(RBits(out[..]), w, h, bpp, i, y, x)
      {
        DeinterlacePixel(out, buf, w, h, bpp, i, x, y);
      }
      if Fits(w, h, bpp, true) {
        RowEnds(RBits(buf[..]), RBits(out[..]), w, h, bpp, i, y);
      }
      ClearGoesOn(RBits(out[..]), w, h, bpp, i, y);
    }
    if Fits(w, h, bpp, true) {
      PassEnds(RBits(buf[..]), RBits(out[..]), w, h, bpp, i);
    }
    ClearGoesOn(RBits(out[..]), w, h, bpp, i, 0);
  }

  /** Adam7_deinterlace: small pixels are written into a buffer that must be 0. No access leaves the buffers. */
  method Deinterlace(out: array<byte>, buf: array<byte>, w: nat, h: nat, bpp: nat)
    requires Accepted(w, h, bpp) && out != buf && PassStart(7, w, h, bpp) <= buf.Length && h * w * bpp <= 8 * out.Length
    requires bpp < 8 ==> forall k :: 0 <= k < out.Length ==> out[k] == 0
    modifies out
    ensures Fits(w, h, bpp, true) ==> Interlaced(RBits(buf[..]), RBits(out[..]), w, h, bpp)
  {
    hide *;
    NoPixels(RBits(buf[..]), RBits(out[..]), w, h, bpp);
    if bpp < 8 {
      AllClear(out[..], w, h, bpp);
    }
    for i := 0 to 7
      invariant Fits(w, h, bpp, true) ==> InterlacedTo(RBits(buf[..]), RBits(out[..]), w, h, bpp, i, 0, 0)
      invariant bpp < 8 ==> ClearFrom(RBits(out[..]), w, h, bpp, i, 0, 0)
    {
      DeinterlacePass(out, buf, w, h, bpp, i);
    }
    if Fits(w, h, bpp, true) {
      AllPixels(RBits(buf[..]), RBits(out[..]), w, h, bpp);
    }
  }
}
