/** Image data as a PNG file holds it: scanlines, compressed with zlib. */
module Idat {
  import opened Powers
  import opened BitStream
  import opened ImageFilter
  import opened ReversedBits
  import opened Adam7
  import opened Adam7Moves
  import opened Scanlines
  import opened Sizes32
  import opened Passes32
  import opened ScanlineEncoder
  import opened ScanlineDecoder
  import opened ScanlineCodec
  import opened Inflate
  import opened Deflator
  import opened DeflateStream
  import opened Zlib

  /** The image is within the decoder's limit, and no size wraps. */
  predicate Decodable(w: nat, h: nat, bpp: nat, interlace: bool) {
    w * h <= MAX_PIXELS && Fits(w, h, bpp, interlace)
  }

  // ----- Encoding -----

  /** preProcessScanlines followed by the compression of the IDAT chunk */
  method EncodeIdat(img: array<byte>, w: nat, h: nat, bpp: nat, interlace: bool, types: seq<seq<byte>>, tries: bool,
                    settings: Settings)
    returns (inBounds: bool, error: nat, idat: seq<byte>, ghost data: seq<byte>)
    requires 1 <= w < U32 && 1 <= h < U32 && (bpp == 0 || ValidBpp(bpp))
    requires h * w * bpp <= 8 * img.Length && TypesFor(types, w, h, interlace)
    ensures inBounds <==> bpp == 0 || InBounds(img.Length, w, h, bpp, interlace, types, tries)
    ensures inBounds ==> error == if bpp == 0 then 31 else DeflateError(settings)
    ensures inBounds && error == 0 ==>
              && |data| == DataSize32(w, h, bpp, interlace) > 0
              && (forall ignore :: Zipped(idat, data, ignore) <==> Survives(data, settings))
    ensures inBounds && error == 0 && Fits(w, h, bpp, interlace) ==>
              |data| == DataSize(w, h, bpp, interlace) && Processed(data, RBits(img[..]), w, h, bpp, interlace)
  {
    hide RBits, Processed, DataSize, DataSize32, TypesFor, DeflateError, Zipped, Survives, Fits, InBounds;
    var scanlines;
    inBounds, error, scanlines := PreProcess(img, w, h, bpp, interlace, types, tries);
    idat, data := [], scanlines[..];
    if !inBounds || error != 0 {
      return;
    }
    SomeData32(img.Length, w, h, bpp, interlace, types, tries);
    var defined;
    defined, error, idat := Compress(scanlines[..], settings);
  }

  /** Data within the decoder's limit is short enough to be stored. */
  lemma ShortSurvives(data: seq<byte>, settings: Settings)
    requires 0 < |data| < U32
    ensures Survives(data, settings)
  {
    WrapAtEnd(data);
  }

  // ----- Decoding -----

  /** The decoder's prediction of the size of the scanlines. */
  function Prediction(w: nat, h: nat, bpp: nat, interlace: bool): nat {
    if interlace then Predicted(w, h, bpp) else RawSize(w, h, bpp)
  }

  lemma PredictionIsDataSize(w: nat, h: nat, bpp: nat, interlace: bool)
    requires w >= 1 && h >= 1
    ensures Prediction(w, h, bpp, interlace) == DataSize(w, h, bpp, interlace)
  {
    hide Predicted, FilterStart, RawSize, Offset, LineBytes;
    if interlace {
      PredictionIsSize(w, h, bpp);
    } else {
      RawSizeIs(w, h, bpp);
      OffsetStep(h, LineBytes(w, bpp));
    }
  }

  /** lodepng_get_raw_size */
  function OutSize(w: nat, h: nat, bpp: nat): (n: nat)
    ensures n == (h * w * bpp + 7) / 8
  {
    RawLine(h * w, bpp);
    h * w / 8 * bpp + (h * w % 8 * bpp + 7) / 8
  }

  /** The decoder's two tests of a 32-bit product refuse exactly the images with too many pixels. */
  lemma PixelLimit(w: nat, h: nat)
    requires h >= 1 && w < U32
    ensures w * h % U32 / h == w && w * h % U32 <= 268435455 <==> w * h <= 268435455
  {
    var n: nat := w * h;
    Wrapped(n);
    if n < U32 {
      assert n == h * w;
      ExactQuotient(n, h, w);
    } else {
      assert n == h * w;
      DivAtLeast(n % U32, h, w);
    }
  }

  lemma ExactQuotient(n: nat, h: nat, w: nat)
    requires h >= 1 && n == h * w
    ensures n / h == w
  {
    DivUnique(n, h, w, 0);
  }

  /**
   * The image data part of decodeGeneric: the limit on the pixels,
   * decompression, the check of the size and postProcessScanlines. Whatever the
   * data is, no access leaves its buffer. Where nothing wraps the image has this
   * data; where the length of a line wraps the image is mostly left black.
   */
  method DecodeIdat(idat: seq<byte>, w: nat, h: nat, bpp: nat, interlace: bool, ignoreAdler: bool)
    returns (error: nat, out: array<byte>)
    requires 1 <= w < U32 && h >= 1 && (bpp == 0 || ValidBpp(bpp))
    ensures w * h > MAX_PIXELS ==> error == 92
    ensures w * h <= MAX_PIXELS && Unzip(idat, ignoreAdler).Fail? ==> error == Unzip(idat, ignoreAdler).error
    ensures w * h <= MAX_PIXELS && Unzip(idat, ignoreAdler).Ok? ==>
              var data := Unzip(idat, ignoreAdler).out;
              if |data| != DataSize(w, h, bpp, interlace) then error == 91
                else Decoded(data, error, out[..], w, h, bpp, interlace)
  {
    hide RBits, Processed, DataSize, Unzip, Prediction, DataError, Fits, Decoded;
    out := new byte[0];
    PixelLimit(w, h);
    var numpixels := w * h % U32;
    if numpixels / h != w || numpixels > MAX_PIXELS {
      return 92, out;
    }
    var data;
    error, data := Decompress(idat, ignoreAdler);
    PredictionIsDataSize(w, h, bpp, interlace);
    if error == 0 && |data| != Prediction(w, h, bpp, interlace) {
      error := 91;
    }
    if error != 0 {
      return;
    }
    out := new byte[OutSize(w, h, bpp)](_ => 0);
    var buf := new byte[|data|](k requires 0 <= k < |data| => data[k]);
    assert buf[..] == data;
    error := PostProcess(out, buf, w, h, bpp, interlace);
    DecodedIs(data, error, out[..], w, h, bpp, interlace);
  }

  /** What becomes of data of the right size. */
  ghost predicate Decoded(data: seq<byte>, error: nat, out: seq<byte>, w: nat, h: nat, bpp: nat, interlace: bool) {
    if bpp == 0 then error == 31
    else if Fits(w, h, bpp, interlace) then
      && error == DataError(data, w, h, bpp, interlace) && |out| == (h * w * bpp + 7) / 8
      && (error == 0 ==> Processed(data, RBits(out), w, h, bpp, interlace))
    else
      && (error == 0 || error == 36) && |out| == (h * w * bpp + 7) / 8
      && (!interlace ==>
            && error == (if TypesOk(data, Line32(w, bpp), h) then 0 else 36)
            && forall k :: RowsEnd(h, Line32(w, bpp), ByteWidth(bpp)) <= k < |out| ==> out[k] == 0)
  }

  lemma DecodedIs(data: seq<byte>, error: nat, out: seq<byte>, w: nat, h: nat, bpp: nat, interlace: bool)
    requires |out| == (h * w * bpp + 7) / 8
    requires bpp == 0 || Fits(w, h, bpp, interlace) ==> error == DataError(data, w, h, bpp, interlace)
    requires error == 0 && Fits(w, h, bpp, interlace) ==> Processed(data, RBits(out), w, h, bpp, interlace)
    requires bpp > 0 ==> error == 0 || error == 36
    requires bpp > 0 && !interlace ==> error == if TypesOk(data, Line32(w, bpp), h) then 0 else 36
    requires bpp > 0 && !interlace && !Fits(w, h, bpp, interlace) ==>
               forall k :: RowsEnd(h, Line32(w, bpp), ByteWidth(bpp)) <= k < |out| ==> out[k] == 0
    ensures Decoded(data, error, out, w, h, bpp, interlace)
  {
    hide Fits, Processed, TypesOk, Line32, RowsEnd, ByteWidth, RBits, AllTypesOk;
  }

  /** Of the long row of 2^26 pixels at most the first one is decoded: all other bytes of the image are 0. */
  lemma LongRowBlack(data: seq<byte>, error: nat, out: seq<byte>)
    requires Decoded(data, error, out, 67108864, 1, 64, false)
    ensures |out| == 0x2000_0000 && forall k :: 8 <= k < |out| ==> out[k] == 0
  {
    hide Processed, TypesOk, DataError, Fits;
    LongRow(0x2000_0000, 0, false);
    assert Line32(67108864, 64) == 0 && ByteWidth(64) == 8;
    assert RowsEnd(1, 0, 8) == 8;
  }

  // ----- The round trip -----

  /** Encoding in bounds and decoding without error to the bits of the image. */
  ghost predicate Recovered(inBounds: bool, error: nat, back: seq<byte>, img: seq<byte>, w: nat, h: nat,
                            bpp: nat)
    requires h * w * bpp <= 8 * |img|
  {
    && inBounds && error == 0 && |back| == (h * w * bpp + 7) / 8
    && RBits(back)[..ImageBits(w, h, bpp)] == RBits(img)[..ImageBits(w, h, bpp)]
  }

  lemma DecodableInBounds(size: nat, w: nat, h: nat, bpp: nat, interlace: bool, types: seq<seq<byte>>, tries: bool)
    requires w >= 1 && ValidBpp(bpp) && h * w * bpp <= 8 * size && TypesFor(types, w, h, interlace)
    ensures Decodable(w, h, bpp, interlace) ==> InBounds(size, w, h, bpp, interlace, types, tries)
  {
    hide Fits, InBounds, TypesFor;
    if Fits(w, h, bpp, interlace) {
      FitsInBounds(size, w, h, bpp, interlace, types, tries);
    }
  }

  lemma NotInBounds(error: nat, back: seq<byte>, img: seq<byte>, w: nat, h: nat, bpp: nat)
    requires h * w * bpp <= 8 * |img|
    ensures !Recovered(false, error, back, img, w, h, bpp)
  {
    hide RBits;
  }

  /** What the encoder wrote is short enough to come back. */
  lemma ComesBack(idat: seq<byte>, data: seq<byte>, settings: Settings, size: nat, w: nat, h: nat, bpp: nat,
                  interlace: bool, types: seq<seq<byte>>, tries: bool)
    requires w >= 1 && h >= 1 && ValidBpp(bpp) && w * h <= MAX_PIXELS
    requires InBounds(size, w, h, bpp, interlace, types, tries)
    requires h * w * bpp <= 8 * size && TypesFor(types, w, h, interlace)
    requires |data| == DataSize32(w, h, bpp, interlace) > 0
    requires forall ignore :: Zipped(idat, data, ignore) <==> Survives(data, settings)
    ensures forall ignore :: Zipped(idat, data, ignore)
    ensures Fits(w, h, bpp, interlace) <==> |data| == DataSize(w, h, bpp, interlace)
  {
    hide *;
    ValidIs(bpp);
    DataSizeShort(w, h, bpp, interlace);
    if Fits(w, h, bpp, interlace) {
      FitsInBounds(size, w, h, bpp, interlace, types, tries);
    } else {
      WrapShows(size, w, h, bpp, interlace, types, tries);
    }
    ShortSurvives(data, settings);
  }

  lemma ZippedIs(idat: seq<byte>, data: seq<byte>, ignoreAdler: bool)
    requires Zipped(idat, data, ignoreAdler)
    ensures Unzip(idat, ignoreAdler).Ok? && Unzip(idat, ignoreAdler).out == data
  {
  }

  /** The bits of two images with the same data. */
  lemma SameImage(data: seq<byte>, back: seq<byte>, img: seq<byte>, w: nat, h: nat, bpp: nat, interlace: bool)
    requires ValidBpp(bpp) && h * w * bpp <= 8 * |img| && |back| == (h * w * bpp + 7) / 8
    requires Processed(data, RBits(back), w, h, bpp, interlace) && Processed(data, RBits(img), w, h, bpp, interlace)
    ensures Recovered(true, 0, back, img, w, h, bpp)
  {
    hide Processed, RBits;
    ProcessedOnce(data, RBits(back), RBits(img), w, h, bpp, interlace);
  }

  lemma Failed(inBounds: bool, error: nat, back: seq<byte>, img: seq<byte>, w: nat, h: nat, bpp: nat)
    requires h * w * bpp <= 8 * |img| && error != 0
    ensures !Recovered(inBounds, error, back, img, w, h, bpp)
  {
    hide RBits;
  }

  /**
   * An image is recovered from its stored data exactly when it is within the
   * decoder's limit and none of the encoder's 32-bit sizes wraps.
   */
  method IdatRoundTrip(img: array<byte>, w: nat, h: nat, bpp: nat, interlace: bool, types: seq<seq<byte>>, tries: bool,
                       settings: Settings, ignoreAdler: bool)
    returns (inBounds: bool, error: nat, error': nat, back: array<byte>)
    requires 1 <= w < U32 && 1 <= h < U32 && ValidBpp(bpp)
    requires h * w * bpp <= 8 * img.Length && TypesFor(types, w, h, interlace)
    ensures inBounds ==> error == DeflateError(settings)
    ensures !inBounds || error == 0 ==>
              (Recovered(inBounds, error', back[..], img[..], w, h, bpp) <==> Decodable(w, h, bpp, interlace))
  {
    hide *;
    back := new byte[0];
    error' := 0;
    var idat;
    ghost var data;
    DecodableInBounds(img.Length, w, h, bpp, interlace, types, tries);
    ValidIs(bpp);
    inBounds, error, idat, data := EncodeIdat(img, w, h, bpp, interlace, types, tries, settings);
    if !inBounds || error != 0 {
      NotInBounds(error', back[..], img[..], w, h, bpp);
      return;
    }
    error', back := DecodeIdat(idat, w, h, bpp, interlace, ignoreAdler);
    DecodableIs(w, h, bpp, interlace);
    if w * h > MAX_PIXELS {
      Failed(inBounds, error', back[..], img[..], w, h, bpp);
      return;
    }
    ComesBack(idat, data, settings, img.Length, w, h, bpp, interlace, types, tries);
    ZippedIs(idat, data, ignoreAdler);
    if Fits(w, h, bpp, interlace) {
      ProcessedDecodes(data, RBits(img[..]), w, h, bpp, interlace);
      DecodedFits(data, error', back[..], w, h, bpp, interlace);
      SameImage(data, back[..], img[..], w, h, bpp, interlace);
    } else {
      Failed(inBounds, error', back[..], img[..], w, h, bpp);
    }
  }

  lemma DecodedFits(data: seq<byte>, error: nat, out: seq<byte>, w: nat, h: nat, bpp: nat, interlace: bool)
    requires Decoded(data, error, out, w, h, bpp, interlace) && bpp > 0 && Fits(w, h, bpp, interlace)
    ensures error == DataError(data, w, h, bpp, interlace) && |out| == (h * w * bpp + 7) / 8
    ensures error == 0 ==> Processed(data, RBits(out), w, h, bpp, interlace)
  {
    hide Fits, Processed, TypesOk, Line32, RowsEnd, ByteWidth, RBits, DataError;
  }

  lemma ValidIs(bpp: nat)
    requires ValidBpp(bpp)
    ensures 0 < bpp <= 64
  {
  }

  lemma DecodableIs(w: nat, h: nat, bpp: nat, interlace: bool)
    ensures Decodable(w, h, bpp, interlace) <==> w * h <= MAX_PIXELS && Fits(w, h, bpp, interlace)
  {
    hide Fits;
  }
}
