/** The round trip of the scanline stage. */
module ScanlineCodec {
  import opened BitStream
  import opened ImageFilter
  import opened ReversedBits
  import opened Adam7
  import opened Adam7Moves
  import opened Scanlines
  import opened Sizes32
  import opened Passes32
  import opened ScanlineEncoder
  import opened ScanlineDecoder

  /**
   * For every image size within the decoder's limit whose products fit in 32
   * bits, every pixel size, both ways of interlacing and every choice of
   * filters, the decoder gives back every bit of the image.
   */
  method ScanlineRoundTrip(img: array<byte>, w: nat, h: nat, bpp: nat, interlace: bool, types: seq<seq<byte>>,
                           tries: bool)
    returns (inBounds: bool, error: nat, back: array<byte>)
    requires Accepted(w, h, bpp) && h * w * bpp <= 8 * img.Length && TypesFor(types, w, h, interlace)
    ensures inBounds <==> InBounds(img.Length, w, h, bpp, interlace, types, tries)
    ensures Fits(w, h, bpp, interlace) ==>
              inBounds && error == 0 && back.Length == (h * w * bpp + 7) / 8
              && RBits(back[..])[..ImageBits(w, h, bpp)] == RBits(img[..])[..ImageBits(w, h, bpp)]
  {
    hide *;
    AcceptedParts(w, h, bpp);
    var data;
    inBounds, error, data := PreProcess(img, w, h, bpp, interlace, types, tries);
    back := new byte[(h * w * bpp + 7) / 8](_ => 0);
    if data.Length == DataSize(w, h, bpp, interlace) {
      ghost var filt, bits := data[..], RBits(img[..]);
      error := PostProcess(back, data, w, h, bpp, interlace);
      if Fits(w, h, bpp, interlace) {
        ProcessedDecodes(filt, bits, w, h, bpp, interlace);
        ImageBitsAre(w, h, bpp);
        ProcessedOnce(filt, RBits(back[..]), bits, w, h, bpp, interlace);
      }
    }
  }

  lemma ImageBitsAre(w: nat, h: nat, bpp: nat)
    ensures ImageBits(w, h, bpp) == h * w * bpp
  {
  }

  /** In bounds there is always a pass with rows to filter, so the output is not empty. */
  lemma SomeData32(size: nat, w: nat, h: nat, bpp: nat, interlace: bool, types: seq<seq<byte>>, tries: bool)
    requires 1 <= w < U32 && 1 <= h < U32 && InBounds(size, w, h, bpp, interlace, types, tries)
    ensures DataSize32(w, h, bpp, interlace) > 0
  {
    hide FilterStart32, Line32, SlotsInBounds, PassH32, PassW32, ImageInBounds, PassStart32, PaddedStart32,
      PaddedSize32, ByteWidth;
    if interlace {
      var i := if h >= 2 then 6 else if w >= 2 then 5 else 0;
      SomeRows(w, h);
      assert PassInBounds(w, h, bpp, i, types[i], tries);
      FirstRow(FilterStart32(7, w, h, bpp), FilterStart32(i, w, h, bpp), PaddedSize32(i, w, h, bpp),
               PassStart32(7, w, h, bpp), if bpp < 8 then PassStart32(i, w, h, bpp) else PaddedStart32(i, w, h, bpp),
               Line32(PassW32(i, w, h), bpp), PassW32(i, w, h) * bpp % U32, PassH32(i, w, h), bpp, types[i], tries,
               bpp < 8);
    } else {
      FirstRow(DataSize32(w, h, bpp, false), 0, h * Line32(w, bpp) % U32, size, 0, Line32(w, bpp), w * bpp % U32, h,
               bpp,
               types[0], tries, WholePads(w, bpp));
    }
  }

  /** Where there is a row its filter type is written. */
  lemma FirstRow(outSize: nat, at: nat, paddedSize: nat, srcSize: nat, from: nat, n: nat, il: nat, rows: nat, bpp: nat,
                 types: seq<byte>, tries: bool, pad: bool)
    requires ImageInBounds(outSize, at, paddedSize, srcSize, from, n, il, rows, bpp, types, tries, pad) && rows >= 1
    ensures outSize > at
  {
    hide PaddingInBounds, Offset;
    assert RowInBounds(outSize, at, if pad then paddedSize else srcSize, if pad then 0 else from, n, ByteWidth(bpp),
                       types[0], tries, 0);
  }

  lemma SomeRows(w: nat, h: nat)
    requires 1 <= w < U32 && 1 <= h < U32
    ensures PassH32(if h >= 2 then 6 else if w >= 2 then 5 else 0, w, h) > 0
  {
    hide RawW32, RawH32;
    LastRows(w, h);
  }

  lemma LastRows(w: nat, h: nat)
    requires 1 <= w < U32 && 1 <= h < U32
    ensures RawW32(6, w) == w && RawH32(6, h) == h / 2 && RawW32(5, w) == w / 2
    ensures RawH32(5, 1) == 1 && RawW32(0, 1) == 1 && RawH32(0, 1) == 1
  {
    Wrapped(w);
    Wrapped(h);
  }
}
