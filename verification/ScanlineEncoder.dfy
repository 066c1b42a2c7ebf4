/** preProcessScanlines with its 32-bit sizes: every access to a buffer is guarded. */
module ScanlineEncoder {
  import Powers
  import opened BitStream
  import opened ScanlineFilter
  import opened ImageFilter
  import opened ReversedBits
  import opened Adam7
  import opened Adam7Moves
  import opened Scanlines
  import opened Sizes32
  import opened Passes32

  /** The sizes are the true ones of an image of width w, and everything has room. */
  predicate ImageExact(outSize: nat, at: nat, paddedSize: nat, srcSize: nat, from: nat, n: nat, il: nat, rows: nat,
                       bpp: nat, pad: bool, w: nat) {
    && n == LineBytes(w, bpp) && il == w * bpp
    && if pad then
         && paddedSize == Offset(rows, n) && PaddingInBounds(8 * paddedSize, 8 * srcSize, 8 * from, 8 * n, il, rows)
         && Roomy(outSize, at, paddedSize, 0, n, ByteWidth(bpp), rows)
       else il == 8 * n && Roomy(outSize, at, srcSize, from, n, ByteWidth(bpp), rows)
  }

  /** Adds padding where asked to and filters. */
  method EncodeImage(out: array<byte>, at: nat, src: array<byte>, from: nat, n: nat, il: nat, rows: nat, bpp: nat,
                     types: seq<byte>, tries: bool, pad: bool, paddedSize: nat, ghost w: nat)
    returns (ok: bool)
    requires bpp > 0 && out != src && rows <= |types| && (forall y :: 0 <= y < rows ==> types[y] <= 4)
    requires 8 * paddedSize < SIZE && il < SIZE
    modifies out
    ensures ok <==> ImageInBounds(out.Length, at, paddedSize, src.Length, from, n, il, rows, bpp, types, tries, pad)
    ensures ImageExact(out.Length, at, paddedSize, src.Length, from, n, il, rows, bpp, pad, w) ==>
              && ok
              && at + Offset(rows, n + 1) <= out.Length
              && PassEncoded(out[at..at + Offset(rows, n + 1)], RBits(src[..]), 8 * from, w, rows, bpp)
              && forall k :: 0 <= k < out.Length && (k < at || k >= at + Offset(rows, n + 1)) ==> out[k] == old(out[k])
  {
    hide Offset, ImageFiltered, LinesMoved, RBits, LineBytes, ByteWidth, FilterInBounds, PaddingInBounds, RowInBounds;
    ghost var exact := ImageExact(out.Length, at, paddedSize, src.Length, from, n, il, rows, bpp, pad, w);
    var error;
    ghost var lines: seq<byte> := [];
    if pad {
      var padded := new byte[paddedSize];
      ok := AddPaddingBits(padded, src, from, 8 * n, il, rows);
      if !ok {
        return;
      }
      error, ok := Filter(out, at, padded, 0, n, rows, bpp, types, tries);
      if exact {
        lines := padded[..];
        assert padded[0..0 + Offset(rows, n)] == lines;
      }
    } else {
      error, ok := Filter(out, at, src, from, n, rows, bpp, types, tries);
      if exact {
        lines := src[from..from + Offset(rows, n)];
        DirectLines(src[..], from, lines, n, rows);
      }
    }
    if exact {
      assert LinesOf(lines, out[at..at + Offset(rows, n + 1)], RBits(src[..]), 8 * from, w, rows, bpp);
    }
  }

  // ----- Without interlacing -----

  method EncodeWhole(out: array<byte>, img: array<byte>, w: nat, h: nat, bpp: nat, types: seq<byte>, tries: bool)
    returns (ok: bool)
    requires ValidBpp(bpp) && out != img && RowTypes(types, h) && out.Length == DataSize32(w, h, bpp, false)
    modifies out
    ensures ok <==> WholeInBounds(img.Length, w, h, bpp, types, tries)
    ensures Fits(w, h, bpp, false) && (w >= 1 || h == 0) && h * w * bpp <= 8 * img.Length ==>
              ok && out.Length == DataSize(w, h, bpp, false) && PassEncoded(out[..], RBits(img[..]), 0, w, h, bpp)
  {
    hide RBits, PassEncoded, LineBytes, Offset, ImageInBounds, ImageExact, DataSize, DataSize32, Line32, LineFits,
      ByteWidth;
    ghost var exact := Fits(w, h, bpp, false) && (w >= 1 || h == 0) && h * w * bpp <= 8 * img.Length;
    if exact {
      WholeExact(img.Length, w, h, bpp);
    }
    ok := EncodeImage(out, 0, img, 0, Line32(w, bpp), w * bpp % U32, h, bpp, types, tries, WholePads(w, bpp),
                      h * Line32(w, bpp) % U32, w);
    if exact {
      assert out[0..0 + Offset(h, LineBytes(w, bpp) + 1)] == out[..];
    }
  }

  lemma WholeExact(size: nat, w: nat, h: nat, bpp: nat)
    requires ValidBpp(bpp) && Fits(w, h, bpp, false) && (w >= 1 || h == 0) && h * w * bpp <= 8 * size
    ensures DataSize32(w, h, bpp, false) == DataSize(w, h, bpp, false) == Offset(h, LineBytes(w, bpp) + 1)
    ensures Line32(w, bpp) == LineBytes(w, bpp)
    ensures ImageExact(DataSize32(w, h, bpp, false), 0, h * Line32(w, bpp) % U32, size, 0, Line32(w, bpp),
                       w * bpp % U32, h, bpp, WholePads(w, bpp), w)
  {
    hide LineBytes, Offset, DataSize, DataSize32, Line32, LineFits, ByteWidth;
    WholeSizes(w, h, bpp);
    WholeRoom(size, w, h, bpp);
    if w >= 1 {
      PixelPerLine(w, bpp);
    }
  }

  // ----- The passes -----

  lemma RowsBelow(i: nat, w: nat, h: nat)
    ensures PassH32(i, w, h) <= PassH(i, w, h)
  {
    hide IX, IY, DX, DY;
    Strides(i);
    Narrower(w + DX(i) - IX(i) - 1, DX(i));
    Narrower(h + DY(i) - IY(i) - 1, DY(i));
  }

  lemma Narrower(x: nat, d: nat)
    requires d > 0
    ensures x % U32 / d <= x / d
  {
    Wrapped(x);
    Powers.DivAtLeast(x, d, x % U32 / d);
    Powers.DivMod(x % U32, d);
  }

  lemma PassExact(i: nat, w: nat, h: nat, bpp: nat)
    requires i < 7 && ValidBpp(bpp) && Fits(w, h, bpp, true)
    ensures FilterStart32(i, w, h, bpp) == FilterStart(i, w, h, bpp)
    ensures FilterStart32(7, w, h, bpp) == FilterStart(7, w, h, bpp)
    ensures Line32(PassW32(i, w, h), bpp) == LineBytes(PassW(i, w, h), bpp) && PassH32(i, w, h) == PassH(i, w, h)
    ensures ImageExact(FilterStart32(7, w, h, bpp), FilterStart32(i, w, h, bpp), PaddedSize32(i, w, h, bpp),
                       PassStart32(7, w, h, bpp),
                       if bpp < 8 then PassStart32(i, w, h, bpp) else PaddedStart32(i, w, h, bpp),
                       Line32(PassW32(i, w, h), bpp), PassW32(i, w, h) * bpp % U32, PassH32(i, w, h), bpp, bpp < 8,
                       PassW(i, w, h))
  {
    hide PassW, PassH, PassW32, PassH32, PassStart, PassStart32, PaddedStart, PaddedStart32, FilterStart,
      FilterStart32, LineBytes, Line32, FilterSize, FilterSize32, ByteWidth, Offset, PaddedSize32, PassFits;
    PassSizes(i, w, h, bpp);
    LineWide(PassW(i, w, h), bpp);
    PassRoom(i, w, h, bpp, PassW(i, w, h), PassH(i, w, h), LineBytes(PassW(i, w, h), bpp),
             PassW(i, w, h) * bpp);
  }

  /** One pass of the loop of preProcessScanlines. */
  method EncodePass(out: array<byte>, adam7: array<byte>, w: nat, h: nat, bpp: nat, i: nat, types: seq<byte>,
                    tries: bool)
    returns (ok: bool)
    requires ValidBpp(bpp) && out != adam7 && i < 7 && RowTypes(types, PassH(i, w, h))
    requires out.Length == FilterStart32(7, w, h, bpp) && adam7.Length == PassStart32(7, w, h, bpp)
    modifies out
    ensures ok <==> PassInBounds(w, h, bpp, i, types, tries)
    ensures Fits(w, h, bpp, true) && PassesOk(old(out[..]), RBits(adam7[..]), w, h, bpp, i) ==>
              ok && PassesOk(out[..], RBits(adam7[..]), w, h, bpp, i + 1)
  {
    hide *;
    RowsBelow(i, w, h);
    TypesAre(types, PassH(i, w, h));
    SmallSizes(i, w, h, bpp);
    var from := if bpp < 8 then PassStart32(i, w, h, bpp) else PaddedStart32(i, w, h, bpp);
    if Fits(w, h, bpp, true) {
      PassExact(i, w, h, bpp);
    }
    PassBoundsAre(w, h, bpp, i, types, tries);
    ok := EncodeImage(out, FilterStart32(i, w, h, bpp), adam7, from, Line32(PassW32(i, w, h), bpp),
                      PassW32(i, w, h) * bpp % U32, PassH32(i, w, h), bpp, types, tries, bpp < 8,
                      PaddedSize32(i, w, h, bpp), PassW(i, w, h));
    if Fits(w, h, bpp, true) && PassesOk(old(out[..]), RBits(adam7[..]), w, h, bpp, i) {
      PassWritten(old(out[..]), out[..], RBits(adam7[..]), w, h, bpp, i, from);
    }
  }

  lemma TypesAre(types: seq<byte>, rows: nat)
    requires RowTypes(types, rows)
    ensures |types| == rows && forall y :: 0 <= y < rows ==> types[y] <= 4
  {
  }

  lemma SmallSizes(i: nat, w: nat, h: nat, bpp: nat)
    ensures 8 * PaddedSize32(i, w, h, bpp) < SIZE && PassW32(i, w, h) * bpp % U32 < SIZE
    ensures U32 == 0x1_0000_0000 && (ValidBpp(bpp) ==> bpp > 0)
  {
    hide PassW32, PassH32, Line32;
  }

  lemma PassBoundsAre(w: nat, h: nat, bpp: nat, i: nat, types: seq<byte>, tries: bool)
    ensures PassInBounds(w, h, bpp, i, types, tries) <==>
            ImageInBounds(FilterStart32(7, w, h, bpp), FilterStart32(i, w, h, bpp), PaddedSize32(i, w, h, bpp),
                          PassStart32(7, w, h, bpp),
                          if bpp < 8 then PassStart32(i, w, h, bpp) else PaddedStart32(i, w, h, bpp),
                          Line32(PassW32(i, w, h), bpp), PassW32(i, w, h) * bpp % U32, PassH32(i, w, h), bpp, types,
                          tries, bpp < 8)
  {
    hide ImageInBounds, FilterStart32, PaddedSize32, PassStart32, PaddedStart32, Line32, PassW32, PassH32;
  }

  lemma PassWritten(was: seq<byte>, now: seq<byte>, slots: seq<bool>, w: nat, h: nat, bpp: nat, i: nat, from: nat)
    requires i < 7 && |was| == |now| == FilterStart(7, w, h, bpp) && PassesOk(was, slots, w, h, bpp, i)
    requires ValidBpp(bpp) && Fits(w, h, bpp, true)
    requires from == if bpp < 8 then PassStart32(i, w, h, bpp) else PaddedStart32(i, w, h, bpp)
    requires var f, size := FilterStart(i, w, h, bpp), Offset(PassH(i, w, h), LineBytes(PassW(i, w, h), bpp) + 1);
             && f + size <= |now|
             && PassEncoded(now[f..f + size], slots, 8 * from, PassW(i, w, h), PassH(i, w, h), bpp)
             && forall k :: 0 <= k < |was| && (k < f || k >= f + size) ==> now[k] == was[k]
    ensures PassesOk(now, slots, w, h, bpp, i + 1)
  {
    hide PassW, PassH, PassEncoded, LineBytes, PassStart, PaddedStart, FilterStart, PassStart32, PaddedStart32,
      FilterSize, Offset, PassFits, PassesOk, Line32, PaddedSize32, FilterStart32, PassW32, PassH32;
    PassSizes(i, w, h, bpp);
    EncodeBounds(i, w, h, bpp);
    assert PassOk(now, slots, w, h, bpp, i);
    PassesKept(was, now, slots, w, h, bpp, i);
  }

  /** The seven passes, interlaced and filtered. */
  method EncodePasses(out: array<byte>, img: array<byte>, w: nat, h: nat, bpp: nat, types: seq<seq<byte>>, tries: bool)
    returns (ok: bool)
    requires ValidBpp(bpp) && out != img && TypesFor(types, w, h, true) && out.Length == FilterStart32(7, w, h, bpp)
    modifies out
    ensures ok <==> InBounds(img.Length, w, h, bpp, true, types, tries)
    ensures Fits(w, h, bpp, true) && h * w * bpp <= 8 * img.Length ==>
              ok && Processed(out[..], RBits(img[..]), w, h, bpp, true)
  {
    hide *;
    PassTypesAre(types, w, h);
    BoundsAre(img.Length, w, h, bpp, types, tries);
    ghost var exact := Fits(w, h, bpp, true) && h * w * bpp <= 8 * img.Length;
    if exact {
      FitsInBounds(img.Length, w, h, bpp, true, types, tries);
    }
    var adam7 := new byte[PassStart32(7, w, h, bpp)];
    ok := Interlace(adam7, img, w, h, bpp);
    if !ok {
      return;
    }
    NoPasses(out[..], RBits(adam7[..]), w, h, bpp);
    for i := 0 to 7
      invariant forall j :: 0 <= j < i ==> PassInBounds(w, h, bpp, j, types[j], tries)
      invariant exact ==> PassesOk(out[..], RBits(adam7[..]), w, h, bpp, i)
      invariant exact ==> Interlaced(RBits(adam7[..]), RBits(img[..]), w, h, bpp)
    {
      ok := EncodePass(out, adam7, w, h, bpp, i, types[i], tries);
      if !ok {
        return;
      }
    }
    if exact {
      PassSizes(0, w, h, bpp);
      Interlacing(out[..], RBits(adam7[..]), RBits(img[..]), w, h, bpp);
    }
  }

  lemma PassTypesAre(types: seq<seq<byte>>, w: nat, h: nat)
    requires TypesFor(types, w, h, true)
    ensures |types| == 7 && forall i :: 0 <= i < 7 ==> RowTypes(types[i], PassH(i, w, h))
  {
    hide RowTypes, PassH;
  }

  lemma BoundsAre(size: nat, w: nat, h: nat, bpp: nat, types: seq<seq<byte>>, tries: bool)
    requires |types| == 7
    ensures InBounds(size, w, h, bpp, true, types, tries) <==>
            && (forall i :: 0 <= i < 7 ==> SlotsInBounds(size, w, h, bpp, i))
            && forall i :: 0 <= i < 7 ==> PassInBounds(w, h, bpp, i, types[i], tries)
  {
    hide SlotsInBounds, PassInBounds;
  }

  /**
   * preProcessScanlines, with the filter types as the strategy chose them; it
   * may have tried all five for each row. It stays in bounds exactly as
   * `InBounds` says. It may finish with wrong sizes, and then only the size of
   * its output is stated; where nothing wraps its output is the data of the image.
   */
  method PreProcess(img: array<byte>, w: nat, h: nat, bpp: nat, interlace: bool, types: seq<seq<byte>>, tries: bool)
    returns (inBounds: bool, error: nat, out: array<byte>)
    requires bpp == 0 || ValidBpp(bpp)
    requires TypesFor(types, w, h, interlace)
    ensures fresh(out) && error == if bpp == 0 then 31 else 0
    ensures inBounds <==> bpp == 0 || InBounds(img.Length, w, h, bpp, interlace, types, tries)
    ensures bpp > 0 ==> out.Length == DataSize32(w, h, bpp, interlace)
    ensures bpp > 0 && Fits(w, h, bpp, interlace) && (interlace || w >= 1 || h == 0)
            && h * w * bpp <= 8 * img.Length ==>
              inBounds && out.Length == DataSize(w, h, bpp, interlace)
              && Processed(out[..], RBits(img[..]), w, h, bpp, interlace)
  {
    hide RBits, PassEncoded, DataSize, Fits, InterlacedData, SlotsInBounds, PassInBounds, WholeInBounds, FilterStart32,
      FilterStart, Line32, RowTypes;
    if bpp == 0 {
      out := new byte[0];
      return true, 31, out;
    }
    error := 0;
    out := new byte[DataSize32(w, h, bpp, interlace)];
    if !interlace {
      inBounds := EncodeWhole(out, img, w, h, bpp, types[0], tries);
    } else {
      inBounds := EncodePasses(out, img, w, h, bpp, types, tries);
      if Fits(w, h, bpp, true) && h * w * bpp <= 8 * img.Length {
        FitsInBounds(img.Length, w, h, bpp, true, types, tries);
      }
    }
  }
}
