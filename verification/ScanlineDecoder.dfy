/** postProcessScanlines with its 32-bit sizes: for every image within the decoder's limit no access leaves a buffer. */
module ScanlineDecoder {
  import opened Powers
  import opened BitStream
  import opened ScanlineFilter
  import opened ImageFilter
  import opened ReversedBits
  import opened Adam7
  import opened Adam7Moves
  import opened Scanlines
  import opened Sizes32
  import opened Passes32

  // ----- Room for short lines -----

  /** Rows that are read as shorter than they are end where they should, or before. */
  lemma RowsEndShort(h: nat, n: nat, full: nat, bytewidth: nat)
    requires n <= full && (bytewidth <= full || h == 0)
    ensures RowsEnd(h, n, bytewidth) <= Offset(h, full) && Offset(h, n) <= Offset(h, full)
    ensures Offset(h, n + 1) <= Offset(h, full + 1) == h + Offset(h, full)
  {
    hide Offset;
    OffsetWider(h, n, full);
    OffsetWider(h, n + 1, full + 1);
    OffsetStep(h, full);
    if h > 0 {
      OffsetWider(h - 1, n, full);
      OffsetStep(h - 1, full);
    }
  }

  lemma LinesFit(outSize: nat, at: nat, size: nat, from: nat, n: nat, full: nat, h: nat, bytewidth: nat)
    requires n <= full && (bytewidth <= full || h == 0)
    requires at + Offset(h, full) <= outSize && from + Offset(h, full + 1) <= size
    ensures UnfilterFits(outSize, at, size, from, n, h, bytewidth)
  {
    hide Offset, RowsEnd;
    RowsEndShort(h, n, full, bytewidth);
  }

  lemma {:induction false} PaddedBelow(n: nat, w: nat, h: nat, bpp: nat)
    requires Accepted(w, h, bpp) && n <= 7
    ensures PaddedStart32(n, w, h, bpp) <= FilterStart32(n, w, h, bpp) <= FilterStart(n, w, h, bpp)
  {
    hide PaddedSize32, FilterSize32, FilterStart, Accepted;
    AcceptedParts(w, h, bpp);
    FilterStartIs(n, w, h, bpp);
    if n > 0 {
      PaddedBelow(n - 1, w, h, bpp);
      PaddedNarrower(n - 1, w, h, bpp);
    }
  }

  lemma PaddedNarrower(i: nat, w: nat, h: nat, bpp: nat)
    requires Accepted(w, h, bpp) && i < 7
    ensures PaddedSize32(i, w, h, bpp) <= FilterSize32(i, w, h, bpp)
  {
    hide PassW, PassH, PassW32, PassH32, Line32, LineBytes, FilterSize, Offset, Accepted;
    AcceptedParts(w, h, bpp);
    PassIs(i, w, h);
    PassShort(i, w, h, bpp);
    var rows, l, l32 := PassH(i, w, h), LineBytes(PassW(i, w, h), bpp), Line32(PassW(i, w, h), bpp);
    Line32Is(PassW(i, w, h), bpp);
    OffsetWider(rows, l32 + 1, l + 1);
    OffsetStep(rows, l32);
    RowsTimes(rows, l32);
  }

  lemma RowsTimes(rows: nat, l: nat)
    requires Offset(rows, l + 1) < U32
    ensures rows * l % U32 == Offset(rows, l) <= Offset(rows, l + 1) == rows * (1 + l) % U32
  {
    OffsetStep(rows, l);
    Wrapped(Offset(rows, l));
    Wrapped(Offset(rows, l + 1));
  }

  /** Pass i can be unfiltered in place, whatever wraps. */
  lemma PassUnfilters(i: nat, w: nat, h: nat, bpp: nat)
    requires Accepted(w, h, bpp) && i < 7
    ensures PaddedStart32(i, w, h, bpp) <= FilterStart32(i, w, h, bpp)
    ensures UnfilterFits(FilterStart(7, w, h, bpp), PaddedStart32(i, w, h, bpp), FilterStart(7, w, h, bpp),
                         FilterStart32(i, w, h, bpp), Line32(PassW32(i, w, h), bpp), PassH32(i, w, h), ByteWidth(bpp))
  {
    hide *;
    AcceptedParts(w, h, bpp);
    PaddedBelow(i, w, h, bpp);
    PassIs(i, w, h);
    var pw, ph := PassW(i, w, h), PassH(i, w, h);
    Line32Is(pw, bpp);
    EncodeBounds(i, w, h, bpp);
    RowsHavePixels(i, w, h);
    if pw >= 1 {
      PixelPerLine(pw, bpp);
    }
    OffsetStep(ph, LineBytes(pw, bpp));
    LinesFit(FilterStart(7, w, h, bpp), PaddedStart32(i, w, h, bpp), FilterStart(7, w, h, bpp),
             FilterStart32(i, w, h, bpp), Line32(pw, bpp), LineBytes(pw, bpp), ph, ByteWidth(bpp));
  }

  // ----- One image or pass -----

  /** Packing the lines of an image that was unfiltered at `padded`; `exact` if its sizes are the true ones. */
  method Pack(buf: array<byte>, at: nat, padded: nat, il: nat, n: nat, h: nat, bpp: nat, ghost w: nat,
              ghost filt: seq<byte>, ghost exact: bool)
    requires ValidBpp(bpp) && (bpp < 8 ==> exact)
    requires exact ==>
               && n == LineBytes(w, bpp) && il == w * bpp && at <= padded && (bpp >= 8 ==> at == padded)
               && padded + Offset(h, n) <= buf.Length
               && ImageFiltered(buf[padded..padded + Offset(h, n)], filt, n, ByteWidth(bpp), h)
    modifies buf
    ensures exact ==>
              && PassEncoded(filt, RBits(buf[..]), 8 * at, w, h, bpp)
              && forall k :: 0 <= k < 8 * buf.Length && (k < 8 * at || k >= 8 * (padded + Offset(h, n))) ==>
                   RBits(buf[..])[k] == old(RBits(buf[..]))[k]
  {
    hide RBits, Offset, LineBytes, ByteWidth, ImageFiltered, LinesMoved, PassEncoded;
    ghost var lines: seq<byte> := if exact then buf[padded..padded + Offset(h, n)] else [];
    PackBounds(w, h, bpp);
    if bpp < 8 {
      ghost var before := buf[..];
      RemovePaddingBits(buf, at, buf, padded, il, n * 8, h);
      LinesOfSlice(RBits(buf[..]), 8 * at, before, padded, lines, w * bpp, 8 * n, w * bpp, h);
    } else if exact {
      DirectLines(buf[..], padded, lines, n, h);
    }
    if exact {
      PassFound(lines, filt, RBits(buf[..]), 8 * at, w, h, bpp);
    }
  }

  /** One pass of the loop of postProcessScanlines. */
  method DecodePass(buf: array<byte>, w: nat, h: nat, bpp: nat, i: nat) returns (error: nat)
    requires Accepted(w, h, bpp) && i < 7 && buf.Length == FilterStart(7, w, h, bpp)
    requires FilterStart(i, w, h, bpp) + FilterSize(i, w, h, bpp) <= buf.Length
    modifies buf
    ensures error == 0 || error == 36
    ensures Fits(w, h, bpp, true) ==> error == if PassTypesOk(old(buf[..]), w, h, bpp, i) then 0 else 36
    ensures Fits(w, h, bpp, true) && error == 0 ==>
              && PassOk(old(buf[..]), RBits(buf[..]), w, h, bpp, i)
              && KeptOutside(old(RBits(buf[..])), RBits(buf[..]), 8 * PassStart(i, w, h, bpp),
                             8 * PaddedStart(i + 1, w, h, bpp))
  {
    hide *;
    AcceptedParts(w, h, bpp);
    PassUnfilters(i, w, h, bpp);
    var pw, ph := PassW32(i, w, h), PassH32(i, w, h);
    var n := Line32(pw, bpp);
    ghost var exact := Fits(w, h, bpp, true);
    ghost var was := buf[..];
    if bpp < 8 {
      SmallPixelsFit(w, h, bpp, true);
    }
    if exact {
      PassData(was, w, h, bpp, i, pw, ph, n);
      PassTypesAre(was, w, h, bpp, i, ph, n);
    }
    error := Unfilter(buf, PaddedStart32(i, w, h, bpp), buf, FilterStart32(i, w, h, bpp), n, ph, ByteWidth(bpp));
    if error == 0 {
      if exact {
        RowsEndShort(ph, n, n, ByteWidth(bpp));
        UnfilterBits(was, buf[..], PaddedStart(i, w, h, bpp), Offset(ph, n));
      }
      ghost var mid := buf[..];
      Pack(buf, PassStart32(i, w, h, bpp), PaddedStart32(i, w, h, bpp), Bits32(pw, bpp), n, ph, bpp, PassW(i, w, h),
           if exact then PassBytes(was, w, h, bpp, i) else [], exact);
      if exact {
        PassIsOk(was, RBits(buf[..]), w, h, bpp, i);
        KeptTwice(RBits(was), RBits(mid), RBits(buf[..]), 8 * PassStart(i, w, h, bpp), 8 * PaddedStart(i, w, h, bpp),
                  8 * PaddedStart(i + 1, w, h, bpp));
      }
    }
  }

  function Bits32(w: nat, bpp: nat): nat { w * bpp % U32 }

  /** The data of pass i. */
  function PassBytes(data: seq<byte>, w: nat, h: nat, bpp: nat, i: nat): seq<byte>
    requires FilterStart(i, w, h, bpp) + FilterSize(i, w, h, bpp) <= |data|
  {
    data[FilterStart(i, w, h, bpp)..FilterStart(i, w, h, bpp) + FilterSize(i, w, h, bpp)]
  }

  /** Only bits between lo and hi changed. */
  ghost predicate KeptOutside(was: seq<bool>, now: seq<bool>, lo: nat, hi: nat) {
    |was| == |now| && forall k :: 0 <= k < |was| && (k < lo || k >= hi) ==> now[k] == was[k]
  }

  lemma KeptTwice(was: seq<bool>, mid: seq<bool>, now: seq<bool>, lo: nat, from: nat, hi: nat)
    requires lo <= from && |was| == |mid| == |now|
    requires forall k :: 0 <= k < |was| && (k < from || k >= hi) ==> mid[k] == was[k]
    requires forall k :: 0 <= k < |was| && (k < lo || k >= hi) ==> now[k] == mid[k]
    ensures KeptOutside(was, now, lo, hi)
  {
  }

  /** Where nothing wraps the sizes of a pass are the true ones. */
  lemma PassData(was: seq<byte>, w: nat, h: nat, bpp: nat, i: nat, pw: nat, ph: nat, n: nat)
    requires i < 7 && ValidBpp(bpp) && Fits(w, h, bpp, true) && |was| == FilterStart(7, w, h, bpp)
    requires pw == PassW32(i, w, h) && ph == PassH32(i, w, h) && n == Line32(pw, bpp)
    ensures pw == PassW(i, w, h) && ph == PassH(i, w, h) && n == LineBytes(pw, bpp) && Bits32(pw, bpp) == pw * bpp
    ensures ByteWidth(bpp) <= n || ph == 0
    ensures FilterStart32(i, w, h, bpp) == FilterStart(i, w, h, bpp)
    ensures PaddedStart32(i, w, h, bpp) == PaddedStart(i, w, h, bpp)
    ensures PassStart32(i, w, h, bpp) == PassStart(i, w, h, bpp) <= PaddedStart(i, w, h, bpp)
    ensures bpp >= 8 ==> PassStart(i, w, h, bpp) == PaddedStart(i, w, h, bpp)
    ensures PaddedStart(i, w, h, bpp) + Offset(ph, n) == PaddedStart(i + 1, w, h, bpp) <= |was|
    ensures FilterStart(i, w, h, bpp) + FilterSize(i, w, h, bpp) <= |was|
    ensures FilterSize(i, w, h, bpp) == Offset(ph, n + 1)
  {
    hide PassW, PassH, PassW32, PassH32, Line32, LineBytes, Offset, FilterStart, FilterStart32, PaddedStart,
      PaddedStart32, PassStart, PassStart32, FilterSize, ByteWidth, Fits;
    PassSizes(i, w, h, bpp);
    PassRoom(i, w, h, bpp, PassW(i, w, h), PassH(i, w, h), LineBytes(PassW(i, w, h), bpp),
             PassW(i, w, h) * bpp);
    EncodeBounds(i, w, h, bpp);
    NextStarts(i, w, h, bpp);
    StartsOrdered(7, w, h, bpp);
    StartsGrow(i + 1, 7, w, h, bpp);
  }

  lemma PassTypesAre(was: seq<byte>, w: nat, h: nat, bpp: nat, i: nat, ph: nat, n: nat)
    requires FilterStart(i, w, h, bpp) + FilterSize(i, w, h, bpp) <= |was|
    requires FilterSize(i, w, h, bpp) == Offset(ph, n + 1)
    requires ph == PassH(i, w, h) && n == LineBytes(PassW(i, w, h), bpp)
    ensures PassBytes(was, w, h, bpp, i) ==
            was[FilterStart(i, w, h, bpp)..FilterStart(i, w, h, bpp) + Offset(ph, n + 1)]
    ensures PassTypesOk(was, w, h, bpp, i) <==> TypesOk(PassBytes(was, w, h, bpp, i), n, ph)
  {
    hide TypesOk, FilterStart, FilterSize, PassH, PassW, LineBytes, Offset;
  }

  lemma PassIsOk(was: seq<byte>, slots: seq<bool>, w: nat, h: nat, bpp: nat, i: nat)
    requires FilterStart(i, w, h, bpp) + FilterSize(i, w, h, bpp) <= |was|
    requires PassEncoded(PassBytes(was, w, h, bpp, i), slots, 8 * PassStart(i, w, h, bpp), PassW(i, w, h),
                         PassH(i, w, h), bpp)
    ensures PassOk(was, slots, w, h, bpp, i)
  {
    hide PassEncoded, FilterStart, FilterSize, PassStart, PassW, PassH;
  }

  // ----- All passes -----

  /** The seven passes, unfiltered and packed in place. */
  method DecodePasses(buf: array<byte>, w: nat, h: nat, bpp: nat) returns (error: nat)
    requires Accepted(w, h, bpp) && buf.Length == FilterStart(7, w, h, bpp)
    modifies buf
    ensures error == 0 || error == 36
    ensures Fits(w, h, bpp, true) ==> error == if AllTypesOk(old(buf[..]), w, h, bpp, 7) then 0 else 36
    ensures Fits(w, h, bpp, true) && error == 0 ==> PassesOk(old(buf[..]), RBits(buf[..]), w, h, bpp, 7)
  {
    hide *;
    ghost var exact := Fits(w, h, bpp, true);
    ghost var filt := buf[..];
    NoPasses(filt, RBits(buf[..]), w, h, bpp);
    NoPassTypes(filt, w, h, bpp);
    StartZero(w, h, bpp);
    for i := 0 to 7
      invariant exact ==> PassesOk(filt, RBits(buf[..]), w, h, bpp, i) && AllTypesOk(filt, w, h, bpp, i)
      invariant exact ==> forall k :: FilterStart(i, w, h, bpp) <= k < buf.Length ==> buf[k] == filt[k]
    {
      EncodeBounds(i, w, h, bpp);
      ghost var was := buf[..];
      error := DecodePass(buf, w, h, bpp, i);
      if exact {
        SameTypes(filt, was, w, h, bpp, i);
        MoreTypes(filt, w, h, bpp, i);
        if error == 0 {
          KeptIs(RBits(was), RBits(buf[..]), 8 * PassStart(i, w, h, bpp), 8 * PaddedStart(i + 1, w, h, bpp));
          DecodeStep(filt, was, buf[..], w, h, bpp, i);
        }
      }
      if error != 0 {
        return;
      }
    }
    error := 0;
  }

  lemma StartZero(w: nat, h: nat, bpp: nat)
    ensures FilterStart(0, w, h, bpp) == 0
  {
  }

  lemma KeptIs(was: seq<bool>, now: seq<bool>, lo: nat, hi: nat)
    requires KeptOutside(was, now, lo, hi)
    ensures |was| == |now| && forall k :: 0 <= k < |was| && (k < lo || k >= hi) ==> now[k] == was[k]
  {
  }

  // ----- Without interlacing -----

  lemma WholeUnfilters(w: nat, h: nat, bpp: nat, outSize: nat)
    requires Accepted(w, h, bpp) && outSize == (h * w * bpp + 7) / 8
    ensures var N := LineBytes(w, bpp);
            && ByteWidth(bpp) <= N && Line32(w, bpp) <= N
            && (bpp % 8 == 0 ==> outSize == Offset(h, N)) && (w * bpp == 8 * N ==> outSize == Offset(h, N))
            && (LineFits(w, bpp) ==> Line32(w, bpp) == N && Bits32(w, bpp) == w * bpp)
            && (bpp < 8 ==> LineFits(w, bpp)) && (bpp >= 8 ==> bpp % 8 == 0 && w * bpp == 8 * N)
            && (LineFits(w, bpp) <==> Fits(w, h, bpp, false))
  {
    hide LineBytes, Line32, Offset, ByteWidth, DataSize;
    AcceptedParts(w, h, bpp);
    PixelPerLine(w, bpp);
    Line32Is(w, bpp);
    LineWide(w, bpp);
    MulOffset(h, w, bpp);
    OffsetScale(h, LineBytes(w, bpp));
    Wrapped(w * bpp);
    DataSizeShort(w, h, bpp, false);
    DataSizeIs(w, h, bpp);
    if bpp < 8 {
      SmallPixelsFit(w, h, bpp, false);
    }
  }

  lemma DataSizeIs(w: nat, h: nat, bpp: nat)
    ensures DataSize(w, h, bpp, false) == Offset(h, LineBytes(w, bpp) + 1)
  {
    hide LineBytes, Offset;
  }

  lemma TypesOfPrefix(filt: seq<byte>, n: nat, h: nat)
    requires Offset(h, n + 1) <= |filt|
    ensures TypesOk(filt[0..0 + Offset(h, n + 1)], n, h) <==> TypesOk(filt, n, h)
  {
    hide Offset, TypeOk;
    var prefix := filt[0..0 + Offset(h, n + 1)];
    forall y | 0 <= y < h
      ensures TypeOk(prefix, n, y) <==> TypeOk(filt, n, y)
    {
      TypeOfPrefix(filt, prefix, n, h, y);
    }
  }

  lemma TypeOfPrefix(filt: seq<byte>, prefix: seq<byte>, n: nat, h: nat, y: nat)
    requires Offset(h, n + 1) <= |filt| && prefix == filt[0..0 + Offset(h, n + 1)] && y < h
    ensures TypeOk(prefix, n, y) <==> TypeOk(filt, n, y)
  {
    hide Offset;
    OffsetInside(y, h, n + 1);
  }

  /** Without interlacing only images with padding need the second step. */
  method DecodeWhole(out: array<byte>, buf: array<byte>, w: nat, h: nat, bpp: nat) returns (error: nat)
    requires Accepted(w, h, bpp) && out != buf && buf.Length == Offset(h, LineBytes(w, bpp) + 1)
    requires out.Length == (h * w * bpp + 7) / 8
    modifies out, buf
    ensures error == if TypesOk(old(buf[..]), Line32(w, bpp), h) then 0 else 36
    ensures Fits(w, h, bpp, false) && error == 0 ==> PassEncoded(old(buf[..]), RBits(out[..]), 0, w, h, bpp)
    ensures !Fits(w, h, bpp, false) ==>
              forall k :: RowsEnd(h, Line32(w, bpp), ByteWidth(bpp)) <= k < out.Length ==> out[k] == old(out[k])
  {
    hide *;
    AcceptedParts(w, h, bpp);
    WholeUnfilters(w, h, bpp, out.Length);
    if bpp < 8 && Bits32(w, bpp) != Line32(w, bpp) * 8 {
      error := DecodePadded(out, buf, w, h, bpp, Bits32(w, bpp), Line32(w, bpp));
    } else {
      error := DecodeDirect(out, buf, w, h, bpp, Line32(w, bpp));
    }
  }

  /** Lines with padding are unfiltered in place first. */
  method DecodePadded(out: array<byte>, buf: array<byte>, w: nat, h: nat, bpp: nat, il: nat, n: nat)
    returns (error: nat)
    requires Accepted(w, h, bpp) && bpp < 8 && il == w * bpp && n == LineBytes(w, bpp) && ByteWidth(bpp) <= n
    requires out != buf && buf.Length == Offset(h, n + 1) && out.Length == (h * w * bpp + 7) / 8
    modifies out, buf
    ensures error == if TypesOk(old(buf[..]), n, h) then 0 else 36
    ensures error == 0 ==> PassEncoded(old(buf[..]), RBits(out[..]), 0, w, h, bpp)
  {
    hide *;
    AcceptedParts(w, h, bpp);
    ghost var filt := buf[..];
    assert buf[0..0 + Offset(h, n + 1)] == filt;
    OffsetStep(h, n);
    LinesFit(buf.Length, 0, buf.Length, 0, n, n, h, ByteWidth(bpp));
    error := Unfilter(buf, 0, buf, 0, n, h, ByteWidth(bpp));
    if error == 0 {
      ghost var mid := buf[..];
      PackBounds(w, h, bpp);
      MulOffset(h, w, bpp);
      RemovePaddingBits(out, 0, buf, 0, il, n * 8, h);
      LinesOfSlice(RBits(out[..]), 0, mid, 0, mid[0..0 + Offset(h, n)], w * bpp, 8 * n, w * bpp, h);
      WholeFound(mid[0..0 + Offset(h, n)], filt, RBits(out[..]), w, h, bpp);
    }
  }

  /** Other lines are unfiltered where they belong. */
  method DecodeDirect(out: array<byte>, buf: array<byte>, w: nat, h: nat, bpp: nat, n: nat) returns (error: nat)
    requires Accepted(w, h, bpp) && n <= LineBytes(w, bpp) && ByteWidth(bpp) <= LineBytes(w, bpp)
    requires n == LineBytes(w, bpp) ==> w * bpp == 8 * n
    requires out != buf && buf.Length == Offset(h, LineBytes(w, bpp) + 1) && out.Length == Offset(h, LineBytes(w, bpp))
    modifies out
    ensures error == if TypesOk(buf[..], n, h) then 0 else 36
    ensures n == LineBytes(w, bpp) && error == 0 ==> PassEncoded(buf[..], RBits(out[..]), 0, w, h, bpp)
    ensures forall k :: RowsEnd(h, n, ByteWidth(bpp)) <= k < out.Length ==> out[k] == old(out[k])
  {
    hide *;
    AcceptedParts(w, h, bpp);
    LinesFit(out.Length, 0, buf.Length, 0, n, LineBytes(w, bpp), h, ByteWidth(bpp));
    RowsEndShort(h, n, LineBytes(w, bpp), ByteWidth(bpp));
    TypesOfPrefix(buf[..], n, h);
    assert buf[0..0 + Offset(h, n + 1)] == buf[..][0..0 + Offset(h, n + 1)];
    error := Unfilter(out, 0, buf, 0, n, h, ByteWidth(bpp));
    if error == 0 && n == LineBytes(w, bpp) {
      DirectLines(out[..], 0, out[0..0 + Offset(h, n)], n, h);
      WholeFound(out[0..0 + Offset(h, n)], buf[..], RBits(out[..]), w, h, bpp);
    }
  }

  lemma WholeFound(lines: seq<byte>, filt: seq<byte>, bits: seq<bool>, w: nat, h: nat, bpp: nat)
    requires |filt| == Offset(h, LineBytes(w, bpp) + 1)
    requires ImageFiltered(lines, filt[0..0 + Offset(h, LineBytes(w, bpp) + 1)], LineBytes(w, bpp), ByteWidth(bpp), h)
    requires LinesMoved(RBits(lines), 0, bits, 0, 8 * LineBytes(w, bpp), w * bpp, w * bpp, h)
    ensures PassEncoded(filt, bits, 0, w, h, bpp)
  {
    hide ImageFiltered, LinesMoved, RBits, LineBytes, ByteWidth, Offset;
    assert filt[0..0 + Offset(h, LineBytes(w, bpp) + 1)] == filt;
    assert LinesOf(lines, filt, bits, 0, w, h, bpp);
  }

  /**
   * postProcessScanlines for data of the right size; `buf` is overwritten with
   * intermediate data. Where nothing wraps the image has this data. Where the
   * length of a line wraps, the rows are read as if they were shorter, and the
   * rest of the image stays as it was.
   */
  method PostProcess(out: array<byte>, buf: array<byte>, w: nat, h: nat, bpp: nat, interlace: bool) returns (error: nat)
    requires (bpp == 0 || Accepted(w, h, bpp)) && out != buf
    requires buf.Length == DataSize(w, h, bpp, interlace) && out.Length == (h * w * bpp + 7) / 8
    requires interlace && bpp < 8 ==> forall k :: 0 <= k < out.Length ==> out[k] == 0
    modifies out, buf
    ensures bpp == 0 || Fits(w, h, bpp, interlace) ==> error == DataError(old(buf[..]), w, h, bpp, interlace)
    ensures error == 0 && Fits(w, h, bpp, interlace) ==> Processed(old(buf[..]), RBits(out[..]), w, h, bpp, interlace)
    ensures bpp > 0 ==> error == 0 || error == 36
    ensures bpp > 0 && !interlace ==> error == if TypesOk(old(buf[..]), Line32(w, bpp), h) then 0 else 36
    ensures bpp > 0 && !interlace && !Fits(w, h, bpp, interlace) ==>
              forall k :: RowsEnd(h, Line32(w, bpp), ByteWidth(bpp)) <= k < out.Length ==> out[k] == old(out[k])
  {
    hide *;
    DataErrorIs(buf[..], w, h, bpp);
    DataSizesAre(w, h, bpp);
    if bpp == 0 {
      return 31;
    }
    if !interlace {
      WholeUnfilters(w, h, bpp, out.Length);
      error := DecodeWhole(out, buf, w, h, bpp);
      WholeProcessed(old(buf[..]), RBits(out[..]), w, h, bpp);
    } else {
      error := DecodePasses(buf, w, h, bpp);
      if error == 0 {
        StartsOrdered(7, w, h, bpp);
        Deinterlace(out, buf, w, h, bpp);
        if Fits(w, h, bpp, true) {
          Interlacing(old(buf[..]), RBits(buf[..]), RBits(out[..]), w, h, bpp);
        }
      }
    }
  }

  lemma DataErrorIs(filt: seq<byte>, w: nat, h: nat, bpp: nat)
    ensures bpp == 0 ==> forall i :: DataError(filt, w, h, bpp, i) == 31
    ensures bpp > 0 ==> DataError(filt, w, h, bpp, false) == if TypesOk(filt, LineBytes(w, bpp), h) then 0 else 36
    ensures bpp > 0 ==> DataError(filt, w, h, bpp, true) == if AllTypesOk(filt, w, h, bpp, 7) then 0 else 36
  {
    hide TypesOk, AllTypesOk, LineBytes;
  }

  lemma DataSizesAre(w: nat, h: nat, bpp: nat)
    ensures DataSize(w, h, bpp, false) == Offset(h, LineBytes(w, bpp) + 1)
    ensures DataSize(w, h, bpp, true) == FilterStart(7, w, h, bpp)
  {
    hide LineBytes, Offset, FilterStart;
  }

  lemma WholeProcessed(filt: seq<byte>, bits: seq<bool>, w: nat, h: nat, bpp: nat)
    ensures PassEncoded(filt, bits, 0, w, h, bpp) ==> Processed(filt, bits, w, h, bpp, false)
  {
    hide PassEncoded;
  }
}
