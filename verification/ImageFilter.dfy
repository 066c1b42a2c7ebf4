/** Filtering and unfiltering whole images, row by row. */
module ImageFilter {
  import opened BitStream
  import opened ScanlineFilter

  /** The offset of row y when rows are n apart. */
  function Offset(y: nat, n: nat): nat { y * n }

  lemma OffsetStep(y: nat, n: nat)
    ensures Offset(0, n) == 0 && Offset(y + 1, n) == Offset(y, n) + n && Offset(y, n + 1) == Offset(y, n) + y
  {
  }

  lemma OffsetMonotone(y: nat, z: nat, n: nat)
    requires y <= z
    ensures Offset(y, n) <= Offset(z, n)
  {
  }

  /** Row y lies inside an image of h rows. */
  lemma OffsetInside(y: nat, h: nat, n: nat)
    requires y < h
    ensures Offset(y, n) + n <= Offset(h, n)
  {
    hide Offset;
    OffsetStep(y, n);
    OffsetMonotone(y + 1, h, n);
  }

  function Row(img: seq<byte>, n: nat, y: nat): seq<byte>
    requires Offset(y, n) + n <= |img|
  {
    img[Offset(y, n)..Offset(y, n) + n]
  }

  /** The row above row y. */
  function RowAbove(img: seq<byte>, n: nat, y: nat): (r: seq<byte>)
    requires Offset(y, n) <= |img|
    ensures |r| == if y == 0 then 0 else n
  {
    if y == 0 then [] else OffsetStep(y - 1, n); Row(img, n, y - 1)
  }

  function FilterType(filt: seq<byte>, n: nat, y: nat): byte
    requires Offset(y, n + 1) < |filt|
  {
    filt[Offset(y, n + 1)]
  }

  function FilteredBytes(filt: seq<byte>, n: nat, y: nat): seq<byte>
    requires Offset(y, n + 1) + n + 1 <= |filt|
  {
    filt[Offset(y, n + 1) + 1..Offset(y, n + 1) + 1 + n]
  }

  /** Row y of `img` and row y of the filtered image fit together. */
  ghost predicate RowFiltered(img: seq<byte>, filt: seq<byte>, n: nat, bytewidth: nat, y: nat)
  {
    && Offset(y, n) + n <= |img| && Offset(y, n + 1) + n + 1 <= |filt|
    && FilterType(filt, n, y) <= 4
    && Reconstructs(Row(img, n, y), FilteredBytes(filt, n, y), RowAbove(img, n, y), bytewidth, FilterType(filt, n, y))
  }

  ghost predicate RowsFiltered(img: seq<byte>, filt: seq<byte>, n: nat, bytewidth: nat, rows: nat) {
    forall y :: 0 <= y < rows ==> RowFiltered(img, filt, n, bytewidth, y)
  }

  /** `filt` is `img` with each row filtered and its filter type in front. */
  ghost predicate ImageFiltered(img: seq<byte>, filt: seq<byte>, n: nat, bytewidth: nat, h: nat) {
    |img| == Offset(h, n) && |filt| == Offset(h, n + 1) && RowsFiltered(img, filt, n, bytewidth, h)
  }

  lemma RowSlices(img: seq<byte>, n: nat, y: nat)
    requires Offset(y, n) + n <= |img|
    ensures img[..Offset(y + 1, n)] == img[..Offset(y, n)] + Row(img, n, y)
  {
    hide Offset;
    OffsetStep(y, n);
  }

  lemma RowAboveSame(a: seq<byte>, b: seq<byte>, n: nat, y: nat)
    requires Offset(y, n) <= |a| && Offset(y, n) <= |b| && a[..Offset(y, n)] == b[..Offset(y, n)]
    ensures RowAbove(a, n, y) == RowAbove(b, n, y)
  {
    hide Offset;
    if y > 0 {
      OffsetStep(y - 1, n);
      var p := Offset(y - 1, n);
      assert a[p..p + n] == a[..p + n][p..] && b[p..p + n] == b[..p + n][p..];
    }
  }

  /** Row by row a filtered image determines the image it came from. */
  lemma {:induction false} RowsAgree(a: seq<byte>, b: seq<byte>, filt: seq<byte>, n: nat, bytewidth: nat, rows: nat)
    requires Offset(rows, n) <= |a| && Offset(rows, n) <= |b| && bytewidth > 0
    requires RowsFiltered(a, filt, n, bytewidth, rows) && RowsFiltered(b, filt, n, bytewidth, rows)
    ensures a[..Offset(rows, n)] == b[..Offset(rows, n)]
  {
    hide Offset, Reconstructs;
    OffsetStep(0, n);
    if rows > 0 {
      var y := rows - 1;
      OffsetInside(y, rows, n);
      assert RowFiltered(a, filt, n, bytewidth, y) && RowFiltered(b, filt, n, bytewidth, y);
      RowsAgree(a, b, filt, n, bytewidth, y);
      RowAboveSame(a, b, n, y);
      OneReconstruction(Row(a, n, y), Row(b, n, y), FilteredBytes(filt, n, y), RowAbove(a, n, y), bytewidth,
                        FilterType(filt, n, y));
      RowSlices(a, n, y);
      RowSlices(b, n, y);
    }
  }

  lemma OneImage(a: seq<byte>, b: seq<byte>, filt: seq<byte>, n: nat, bytewidth: nat, h: nat)
    requires ImageFiltered(a, filt, n, bytewidth, h) && ImageFiltered(b, filt, n, bytewidth, h) && bytewidth > 0
    ensures a == b
  {
    hide Offset, RowsFiltered;
    RowsAgree(a, b, filt, n, bytewidth, h);
  }

  // ----- Filtering -----

  function LineBytes(w: nat, bpp: nat): nat { (w * bpp + 7) / 8 }

  function ByteWidth(bpp: nat): nat { (bpp + 7) / 8 }

  lemma RowFilteredSame(img: seq<byte>, filt: seq<byte>, filt': seq<byte>, n: nat, bytewidth: nat, y: nat)
    requires RowFiltered(img, filt, n, bytewidth, y) && |filt| == |filt'|
    requires forall k :: 0 <= k < Offset(y, n + 1) + n + 1 ==> filt'[k] == filt[k]
    ensures RowFiltered(img, filt', n, bytewidth, y)
  {
    hide Offset, Reconstructs;
    assert FilteredBytes(filt, n, y) == FilteredBytes(filt', n, y);
  }

  lemma RowsFilteredSame(img: seq<byte>, filt: seq<byte>, filt': seq<byte>, n: nat, bytewidth: nat, rows: nat)
    requires RowsFiltered(img, filt, n, bytewidth, rows) && |filt| == |filt'|
    requires Offset(rows, n + 1) <= |filt| && forall k :: 0 <= k < Offset(rows, n + 1) ==> filt'[k] == filt[k]
    ensures RowsFiltered(img, filt', n, bytewidth, rows)
  {
    hide Offset, RowFiltered;
    forall y | 0 <= y < rows
      ensures RowFiltered(img, filt', n, bytewidth, y)
    {
      OffsetInside(y, rows, n + 1);
      RowFilteredSame(img, filt, filt', n, bytewidth, y);
    }
  }

  /**
   * Filtering row y stays inside the buffers. A strategy that tries all five
   * types writes them to buffers of n bytes first, and copies the best.
   */
  predicate RowInBounds(outSize: nat, at: nat, srcSize: nat, from: nat, n: nat, bytewidth: nat, filter: nat,
                        tries: bool,
                        y: nat) {
    var reach := if tries then n else Reach(filter, n, bytewidth);
    && (tries ==> bytewidth <= n)
    && from + Offset(y, n) + reach <= srcSize && at + Offset(y, n + 1) + 1 + reach <= outSize
  }

  predicate FilterInBounds(outSize: nat, at: nat, srcSize: nat, from: nat, n: nat, bytewidth: nat, h: nat,
                           types: seq<byte>, tries: bool)
  {
    h <= |types| && forall y :: 0 <= y < h ==> RowInBounds(outSize, at, srcSize, from, n, bytewidth, types[y], tries, y)
  }

  /** Both images fit, and a line has at least one pixel. */
  predicate Roomy(outSize: nat, at: nat, srcSize: nat, from: nat, n: nat, bytewidth: nat, h: nat) {
    at + Offset(h, n + 1) <= outSize && from + Offset(h, n) <= srcSize && (bytewidth <= n || h == 0)
  }

  lemma RoomyRow(outSize: nat, at: nat, srcSize: nat, from: nat, n: nat, bytewidth: nat, h: nat, filter: nat,
                 tries: bool, y: nat)
    requires Roomy(outSize, at, srcSize, from, n, bytewidth, h) && y < h
    ensures RowInBounds(outSize, at, srcSize, from, n, bytewidth, filter, tries, y)
    ensures filter <= 4 ==> Reach(filter, n, bytewidth) == n
  {
    hide Offset;
    OffsetInside(y, h, n);
    OffsetInside(y, h, n + 1);
  }

  /**
   * filter, for lines of n bytes, with the filter type of each row as the
   * strategy chose it. Every access is guarded; where the images fit none fails.
   */
  method Filter(out: array<byte>, at: nat, src: array<byte>, from: nat, n: nat, h: nat, bpp: nat, types: seq<byte>,
                tries: bool)
    returns (error: nat, inBounds: bool)
    requires out != src && h <= |types| && forall y :: 0 <= y < h ==> types[y] <= 4
    modifies out
    ensures error == if bpp == 0 then 31 else 0
    ensures inBounds <==>
              bpp == 0 || FilterInBounds(out.Length, at, src.Length, from, n, ByteWidth(bpp), h, types, tries)
    ensures bpp > 0 && Roomy(out.Length, at, src.Length, from, n, ByteWidth(bpp), h) ==>
              && inBounds
              && ImageFiltered(src[from..from + Offset(h, n)], out[at..at + Offset(h, n + 1)], n, ByteWidth(bpp), h)
              && forall k :: 0 <= k < out.Length && (k < at || k >= at + Offset(h, n + 1)) ==> out[k] == old(out[k])
  {
    hide Offset, RowsFiltered, RowInBounds;
    if bpp == 0 {
      return 31, true;
    }
    error, inBounds := 0, true;
    var bytewidth := ByteWidth(bpp);
    ghost var roomy := Roomy(out.Length, at, src.Length, from, n, bytewidth, h);
    ghost var img := if roomy then src[from..from + Offset(h, n)] else [];
    ghost var size := if roomy then Offset(h, n + 1) else 0;
    if roomy {
      NoRows(img, out[at..at + size], n, bytewidth);
    }
    for y := 0 to h
      invariant FilterInBounds(out.Length, at, src.Length, from, n, bytewidth, y, types, tries)
      invariant roomy ==> RowsFiltered(img, out[at..at + size], n, bytewidth, y)
      invariant roomy ==> forall k :: 0 <= k < out.Length && (k < at || k >= at + size) ==> out[k] == old(out[k])
    {
      inBounds := FilterRow(out, at, src, from, n, bytewidth, y, types[y], tries, h);
      if roomy {
        RoomyRow(out.Length, at, src.Length, from, n, bytewidth, h, types[y], tries, y);
      }
      if !inBounds {
        return;
      }
    }
  }

  /** The bytes the filter reads of row y and, if there is one, of the row above. */
  function RowBytes(src: seq<byte>, from: nat, n: nat, y: nat, reach: nat): seq<byte>
    requires from + Offset(y, n) + reach <= |src|
  {
    src[from + Offset(y, n)..from + Offset(y, n) + reach]
  }

  function BytesAbove(src: seq<byte>, from: nat, n: nat, y: nat, reach: nat): (r: seq<byte>)
    requires from + Offset(y, n) + reach <= |src|
    ensures r == [] || |r| == reach
  {
    if y == 0 then [] else OffsetStep(y - 1, n); RowBytes(src, from, n, y - 1, reach)
  }

  /** One row, filtered where it goes or first in a buffer of its own. */
  method FilterRow(out: array<byte>, at: nat, src: array<byte>, from: nat, n: nat, bytewidth: nat, y: nat,
                   filter: byte, tries: bool, ghost h: nat)
    returns (ok: bool)
    requires out != src && filter <= 4 && bytewidth > 0 && y < h
    modifies out
    ensures ok <==> RowInBounds(out.Length, at, src.Length, from, n, bytewidth, filter, tries, y)
    ensures Roomy(out.Length, at, src.Length, from, n, bytewidth, h) ==>
              var img, was := src[from..from + Offset(h, n)], old(out[at..at + Offset(h, n + 1)]);
              && (RowsFiltered(img, was, n, bytewidth, y) ==>
                    RowsFiltered(img, out[at..at + Offset(h, n + 1)], n, bytewidth, y + 1))
              && forall k :: 0 <= k < out.Length && (k < at || k >= at + Offset(h, n + 1)) ==> out[k] == old(out[k])
  {
    hide Offset, RowsFiltered, Filtered;
    ghost var before := out[..];
    ghost var roomy := Roomy(out.Length, at, src.Length, from, n, bytewidth, h);
    if roomy {
      RoomyRow(out.Length, at, src.Length, from, n, bytewidth, h, filter, tries, y);
      OffsetInside(y, h, n + 1);
    }
    var start := at + Offset(y, n + 1);
    if tries {
      var best;
      ok, best := TryTypes(src, from, n, bytewidth, y, filter);
      if !ok || start + 1 + n > out.Length {
        return false;
      }
      out[start] := filter;
      CopyRow(out, start + 1, best);
    } else {
      var reach := Reach(filter, n, bytewidth);
      if from + Offset(y, n) + reach > src.Length || start + 1 + reach > out.Length {
        return false;
      }
      out[start] := filter;
      FilterScanline(out, start + 1, RowBytes(src[..], from, n, y, reach), BytesAbove(src[..], from, n, y, reach), n,
                     bytewidth, filter);
    }
    ok := true;
    if roomy {
      RowInPlace(before, out[..], src[..], at, from, n, bytewidth, y, filter, h);
    }
  }

  /** All five types, each in a buffer of n bytes; the strategy then takes one of them. */
  method TryTypes(src: array<byte>, from: nat, n: nat, bytewidth: nat, y: nat, choice: nat)
    returns (ok: bool, best: array<byte>)
    requires choice <= 4 && bytewidth > 0
    ensures fresh(best) && (ok <==> bytewidth <= n && from + Offset(y, n) + n <= src.Length)
    ensures ok ==> best.Length == n
                   && Filtered(best[..], RowBytes(src[..], from, n, y, n), BytesAbove(src[..], from, n, y, n),
                               bytewidth,
                               choice)
  {
    hide Offset, Filtered;
    best := new byte[n];
    for filter := 0 to 5
      invariant fresh(best) && best.Length == n
      invariant filter > 0 ==> from + Offset(y, n) + n <= src.Length
      invariant filter > 1 ==> bytewidth <= n
      invariant filter > choice ==> Filtered(best[..], RowBytes(src[..], from, n, y, n),
                                             BytesAbove(src[..], from, n, y, n), bytewidth, choice)
    {
      var attempt := new byte[n];
      var reach := Reach(filter, n, bytewidth);
      if reach > n || from + Offset(y, n) + reach > src.Length {
        return false, best;
      }
      FilterScanline(attempt, 0, RowBytes(src[..], from, n, y, reach), BytesAbove(src[..], from, n, y, reach), n,
                     bytewidth, filter);
      assert attempt[0..0 + reach] == attempt[..];
      if filter == choice {
        best := attempt;
      }
    }
    ok := true;
  }

  method CopyRow(out: array<byte>, at: nat, row: array<byte>)
    requires out != row && at + row.Length <= out.Length
    modifies out
    ensures out[at..at + row.Length] == row[..]
    ensures forall k :: 0 <= k < out.Length && (k < at || k >= at + row.Length) ==> out[k] == old(out[k])
  {
    for x := 0 to row.Length
      invariant forall k :: 0 <= k < x ==> out[at + k] == row[k]
      invariant forall k :: 0 <= k < out.Length && (k < at || k >= at + row.Length) ==> out[k] == old(out[k])
    {
      out[at + x] := row[x];
    }
  }

  lemma RowInPlace(was: seq<byte>, now: seq<byte>, src: seq<byte>, at: nat, from: nat, n: nat, bytewidth: nat, y: nat,
                   filter: byte, h: nat)
    requires y < h && filter <= 4 && |was| == |now| && Roomy(|now|, at, |src|, from, n, bytewidth, h)
    requires from + Offset(y, n) + n <= |src| && at + Offset(y, n + 1) + 1 + n <= |now|
    requires now[at + Offset(y, n + 1)] == filter
    requires Filtered(now[at + Offset(y, n + 1) + 1..at + Offset(y, n + 1) + 1 + n], RowBytes(src, from, n, y, n),
                      BytesAbove(src, from, n, y, n), bytewidth, filter)
    requires forall k :: 0 <= k < |was| && (k < at + Offset(y, n + 1) || k >= at + Offset(y, n + 1) + 1 + n) ==>
               now[k] == was[k]
    ensures var img, before := src[from..from + Offset(h, n)], was[at..at + Offset(h, n + 1)];
            && (RowsFiltered(img, before, n, bytewidth, y) ==>
                  RowsFiltered(img, now[at..at + Offset(h, n + 1)], n, bytewidth, y + 1))
            && forall k :: 0 <= k < |was| && (k < at || k >= at + Offset(h, n + 1)) ==> now[k] == was[k]
  {
    hide Offset, RowsFiltered, Filtered;
    OffsetInside(y, h, n);
    OffsetInside(y, h, n + 1);
    var size, p := Offset(h, n + 1), Offset(y, n + 1);
    var img, before, after := src[from..from + Offset(h, n)], was[at..at + size], now[at..at + size];
    assert after[p] == filter;
    SubSlice(now, at, size, p + 1, p + 1 + n);
    SubSlice(src, from, Offset(h, n), Offset(y, n), Offset(y, n) + n);
    if y > 0 {
      OffsetStep(y - 1, n);
      SubSlice(src, from, Offset(h, n), Offset(y - 1, n), Offset(y - 1, n) + n);
    }
    if RowsFiltered(img, before, n, bytewidth, y) {
      RowsNext(img, before, after, n, bytewidth, y, filter);
    }
  }

  lemma NoRows(img: seq<byte>, filt: seq<byte>, n: nat, bytewidth: nat)
    ensures RowsFiltered(img, filt, n, bytewidth, 0)
  {
  }

  lemma RowsNext(img: seq<byte>, before: seq<byte>, after: seq<byte>, n: nat, bytewidth: nat, y: nat, filter: byte)
    requires Offset(y, n) + n <= |img| && Offset(y, n + 1) + n + 1 <= |after| == |before| && filter <= 4
    requires RowsFiltered(img, before, n, bytewidth, y)
    requires forall k :: 0 <= k < Offset(y, n + 1) ==> after[k] == before[k]
    requires FilterType(after, n, y) == filter
    requires Filtered(FilteredBytes(after, n, y), Row(img, n, y), RowAbove(img, n, y), bytewidth, filter)
    ensures RowsFiltered(img, after, n, bytewidth, y + 1)
  {
    hide Offset, Reconstructs, Filtered;
    RowsFilteredSame(img, before, after, n, bytewidth, y);
    FilteredReconstructs(FilteredBytes(after, n, y), Row(img, n, y), RowAbove(img, n, y), bytewidth, filter);
  }

  // ----- Unfiltering -----

  /** Every row has one of the five filter types. */
  predicate TypesOk(filt: seq<byte>, n: nat, rows: nat) {
    forall y :: 0 <= y < rows ==> TypeOk(filt, n, y)
  }

  predicate TypeOk(filt: seq<byte>, n: nat, y: nat) {
    Offset(y, n + 1) < |filt| && FilterType(filt, n, y) <= 4
  }

  lemma TypesStep(filt: seq<byte>, n: nat, y: nat)
    requires TypesOk(filt, n, y) && Offset(y, n + 1) < |filt|
    ensures TypesOk(filt, n, y + 1) <==> FilterType(filt, n, y) <= 4
  {
    hide Offset;
    assert TypeOk(filt, n, y) <==> FilterType(filt, n, y) <= 4;
  }

  lemma TypesFewer(filt: seq<byte>, n: nat, y: nat, h: nat)
    requires TypesOk(filt, n, h) && y <= h
    ensures TypesOk(filt, n, y)
  {
  }

  /** A row stays reconstructed when only later bytes of the image change. */
  lemma RowsImageSame(img: seq<byte>, img': seq<byte>, filt: seq<byte>, n: nat, bytewidth: nat, rows: nat)
    requires RowsFiltered(img, filt, n, bytewidth, rows) && |img| == |img'|
    requires Offset(rows, n) <= |img| && img[..Offset(rows, n)] == img'[..Offset(rows, n)]
    ensures RowsFiltered(img', filt, n, bytewidth, rows)
  {
    hide Offset, RowFiltered;
    forall y | 0 <= y < rows
      ensures RowFiltered(img', filt, n, bytewidth, y)
    {
      assert RowFiltered(img, filt, n, bytewidth, y);
      OffsetInside(y, rows, n);
      RowImageSame(img, img', filt, n, bytewidth, y, Offset(rows, n));
    }
  }

  lemma RowImageSame(img: seq<byte>, img': seq<byte>, filt: seq<byte>, n: nat, bytewidth: nat, y: nat, end: nat)
    requires RowFiltered(img, filt, n, bytewidth, y) && |img| == |img'| && Offset(y, n) + n <= end <= |img|
    requires img[..end] == img'[..end]
    ensures RowFiltered(img', filt, n, bytewidth, y)
  {
    hide Offset, Reconstructs;
    var p := Offset(y, n);
    assert img[p..p + n] == img[..end][p..p + n] && img'[p..p + n] == img'[..end][p..p + n];
    assert img[..p] == img[..end][..p] && img'[..p] == img'[..end][..p];
    RowAboveSame(img, img', n, y);
  }

  lemma RowsImageNext(before: seq<byte>, after: seq<byte>, filt: seq<byte>, n: nat, bytewidth: nat, y: nat)
    requires Offset(y, n) + n <= |after| == |before| && Offset(y, n + 1) + n + 1 <= |filt|
    requires RowsFiltered(before, filt, n, bytewidth, y) && before[..Offset(y, n)] == after[..Offset(y, n)]
    requires FilterType(filt, n, y) <= 4
    requires Reconstructs(Row(after, n, y), FilteredBytes(filt, n, y), RowAbove(after, n, y), bytewidth,
                          FilterType(filt, n, y))
    ensures RowsFiltered(after, filt, n, bytewidth, y + 1)
  {
    hide Offset, Reconstructs;
    RowsImageSame(before, after, filt, n, bytewidth, y);
  }

  /** What a row may touch: a whole pixel, even on a shorter line. */
  function Span(n: nat, bytewidth: nat): nat { if n < bytewidth then bytewidth else n }

  /** Where the first y rows of n bytes end, with what they touch. */
  function RowsEnd(y: nat, n: nat, bytewidth: nat): nat { if y == 0 then 0 else Offset(y - 1, n) + Span(n, bytewidth) }

  lemma RowsEndIs(y: nat, n: nat, bytewidth: nat)
    ensures Offset(y, n) <= RowsEnd(y, n, bytewidth) <= RowsEnd(y + 1, n, bytewidth)
    ensures bytewidth <= n ==> RowsEnd(y, n, bytewidth) == Offset(y, n)
    ensures RowsEnd(y + 1, n, bytewidth) == Offset(y, n) + Span(n, bytewidth)
  {
    hide Offset;
    OffsetStep(0, n);
    if y > 0 {
      OffsetStep(y - 1, n);
    }
  }

  lemma {:induction false} RowsEndGrows(y: nat, h: nat, n: nat, bytewidth: nat)
    requires y <= h
    ensures RowsEnd(y, n, bytewidth) <= RowsEnd(h, n, bytewidth)
  {
    hide RowsEnd;
    if y < h {
      RowsEndGrows(y, h - 1, n, bytewidth);
      RowsEndIs(h - 1, n, bytewidth);
    }
  }

  /** Lines of n bytes can be unfiltered from one buffer to the other. */
  predicate UnfilterFits(outSize: nat, at: nat, size: nat, from: nat, n: nat, h: nat, bytewidth: nat) {
    && at + Offset(h, n) <= outSize && from + Offset(h, n + 1) <= size
    && at + RowsEnd(h, n, bytewidth) <= outSize && from + h + RowsEnd(h, n, bytewidth) <= size
  }

  lemma RowFits(outSize: nat, at: nat, size: nat, from: nat, n: nat, h: nat, bytewidth: nat, y: nat)
    requires UnfilterFits(outSize, at, size, from, n, h, bytewidth) && y < h
    ensures at + Offset(y, n) + Span(n, bytewidth) <= outSize
    ensures from + Offset(y, n + 1) + 1 + Span(n, bytewidth) <= size && Offset(y, n + 1) + n + 1 <= Offset(h, n + 1)
  {
    hide Offset, RowsEnd;
    RowsEndIs(y, n, bytewidth);
    RowsEndGrows(y + 1, h, n, bytewidth);
    OffsetStep(y, n);
    OffsetInside(y, h, n + 1);
  }

  /** One turn of the loop of unfilter; `filt` is the filtered image the buffer held at first. */
  method UnfilterRow(out: array<byte>, at: nat, buf: array<byte>, from: nat, n: nat, bytewidth: nat, y: nat,
                     ghost h: nat, ghost filt: seq<byte>)
    returns (error: nat)
    requires y < h && 0 < bytewidth && |filt| == Offset(h, n + 1) && (out == buf ==> at <= from)
    requires UnfilterFits(out.Length, at, buf.Length, from, n, h, bytewidth)
    modifies out
    ensures from + Offset(y, n + 1) < buf.Length
    ensures error == if old(buf[from + Offset(y, n + 1)]) <= 4 then 0 else 36
    ensures bytewidth <= n && error == 0 && RowsFiltered(old(out[at..at + Offset(h, n)]), filt, n, bytewidth, y)
            && old(forall k :: Offset(y, n + 1) <= k < |filt| ==> buf[from + k] == filt[k]) ==>
              RowsFiltered(out[at..at + Offset(h, n)], filt, n, bytewidth, y + 1)
    ensures forall k ::
              0 <= k < out.Length && (k < at + Offset(y, n) || k >= at + RowsEnd(y + 1, n, bytewidth)) ==>
                out[k] == old(out[k])
  {
    hide Offset, RowsFiltered, Reconstructs, UnfilterFits, RowsEnd;
    RowFits(out.Length, at, buf.Length, from, n, h, bytewidth, y);
    RowsEndIs(y, n, bytewidth);
    FitsIs(out.Length, at, buf.Length, from, n, h, bytewidth);
    OffsetStep(y, n);
    if y > 0 { OffsetStep(y - 1, n); }
    var filter := buf[from + Offset(y, n + 1)];
    ghost var held := forall k :: Offset(y, n + 1) <= k < |filt| ==> buf[from + k] == filt[k];
    ghost var q := Offset(y, n + 1) + 1;
    if held {
      HeldRow(buf[..], from, filt, q, n);
      assert buf[..][from + q..from + q + n] == buf[from + q..from + q + n];
    }
    error := UnfilterScanline(out, at + Offset(y, n), buf, from + Offset(y, n + 1) + 1, y > 0, bytewidth, filter, n);
    if error == 0 && bytewidth <= n && held {
      OffsetInside(y, h, n);
      RowDoneIf(old(out[..]), out[..], at, filt, n, bytewidth, y, h);
    }
  }

  /** The row that starts at q in the filtered image is still in the buffer. */
  lemma HeldRow(buf: seq<byte>, from: nat, filt: seq<byte>, q: nat, n: nat)
    requires 0 < q && q + n <= |filt| && from + |filt| <= |buf|
    requires forall k :: q - 1 <= k < |filt| ==> buf[from + k] == filt[k]
    ensures buf[from + q..from + q + n] == filt[q..q + n] && filt[q - 1] == buf[from + q - 1]
  {
  }

  lemma FitsIs(outSize: nat, at: nat, size: nat, from: nat, n: nat, h: nat, bytewidth: nat)
    requires UnfilterFits(outSize, at, size, from, n, h, bytewidth)
    ensures at + Offset(h, n) <= outSize && from + Offset(h, n + 1) <= size
    ensures at + RowsEnd(h, n, bytewidth) <= outSize
  {
  }

  lemma RowDoneIf(was: seq<byte>, now: seq<byte>, at: nat, filt: seq<byte>, n: nat, bytewidth: nat, y: nat, h: nat)
    requires y < h && |filt| == Offset(h, n + 1) && at + Offset(h, n) <= |now| == |was|
    requires Offset(y, n) + n <= Offset(h, n) && Offset(y, n + 1) + n + 1 <= |filt| && (y > 0 ==> n <= Offset(y, n))
    requires FilterType(filt, n, y) <= 4
    requires Reconstructs(now[at + Offset(y, n)..at + Offset(y, n) + n], FilteredBytes(filt, n, y),
                          if y > 0 then was[at + Offset(y, n) - n..at + Offset(y, n)]
                            else [], bytewidth, FilterType(filt, n, y))
    requires forall k :: 0 <= k < |was| && (k < at + Offset(y, n) || k >= at + Offset(y, n) + n) ==> now[k] == was[k]
    ensures RowsFiltered(was[at..at + Offset(h, n)], filt, n, bytewidth, y) ==>
              RowsFiltered(now[at..at + Offset(h, n)], filt, n, bytewidth, y + 1)
  {
    hide Offset, RowsFiltered, Reconstructs, FilteredBytes, FilterType;
    if RowsFiltered(was[at..at + Offset(h, n)], filt, n, bytewidth, y) {
      RowDone(was, now, at, filt, n, bytewidth, y, h);
    }
  }

  lemma RowDone(was: seq<byte>, now: seq<byte>, at: nat, filt: seq<byte>, n: nat, bytewidth: nat, y: nat, h: nat)
    requires y < h && |filt| == Offset(h, n + 1) && at + Offset(h, n) <= |now| == |was|
    requires Offset(y, n) + n <= Offset(h, n) && Offset(y, n + 1) + n + 1 <= |filt| && (y > 0 ==> n <= Offset(y, n))
    requires RowsFiltered(was[at..at + Offset(h, n)], filt, n, bytewidth, y) && FilterType(filt, n, y) <= 4
    requires Reconstructs(now[at + Offset(y, n)..at + Offset(y, n) + n], FilteredBytes(filt, n, y),
                          if y > 0 then was[at + Offset(y, n) - n..at + Offset(y, n)]
                            else [], bytewidth, FilterType(filt, n, y))
    requires forall k :: 0 <= k < |was| && (k < at + Offset(y, n) || k >= at + Offset(y, n) + n) ==> now[k] == was[k]
    ensures RowsFiltered(now[at..at + Offset(h, n)], filt, n, bytewidth, y + 1)
  {
    hide Offset, RowsFiltered, Reconstructs, FilteredBytes, FilterType;
    var size, p := Offset(h, n), Offset(y, n);
    SameBefore(was, now, at, p, n, size);
    if y > 0 { OffsetStep(y - 1, n); }
    RowsImageNext(was[at..at + size], now[at..at + size], filt, n, bytewidth, y);
  }

  /**
   * unfilter, for lines of n bytes: the output may overlap the input if it does
   * not start after it. Lines shorter than a pixel are handled too, but then
   * one row may run into the next.
   */
  method Unfilter(out: array<byte>, at: nat, buf: array<byte>, from: nat, n: nat, h: nat, bytewidth: nat)
    returns (error: nat)
    requires bytewidth > 0 && (out == buf ==> at <= from)
    requires UnfilterFits(out.Length, at, buf.Length, from, n, h, bytewidth)
    modifies out
    ensures error == 0 || error == 36
    ensures bytewidth <= n || h == 0 || out != buf ==>
              error == if TypesOk(old(buf[from..from + Offset(h, n + 1)]), n, h) then 0 else 36
    ensures (bytewidth <= n || h == 0) && error == 0 ==>
              ImageFiltered(out[at..at + Offset(h, n)], old(buf[from..from + Offset(h, n + 1)]), n, bytewidth, h)
    ensures forall k :: 0 <= k < out.Length && (k < at || k >= at + RowsEnd(h, n, bytewidth)) ==> out[k] == old(out[k])
  {
    hide Offset, RowsFiltered, TypesOk, UnfilterFits, RowsEnd;
    FitsIs(out.Length, at, buf.Length, from, n, h, bytewidth);
    ghost var size := Offset(h, n);
    ghost var filt := buf[from..from + Offset(h, n + 1)];
    NoRows(out[at..at + size], filt, n, bytewidth);
    NoTypes(filt, n);
    RowsEndGrows(0, h, n, bytewidth);
    error := 0;
    for y := 0 to h
      invariant RowsEnd(y, n, bytewidth) <= RowsEnd(h, n, bytewidth)
      invariant bytewidth <= n || y == 0 ==> RowsFiltered(out[at..at + size], filt, n, bytewidth, y)
      invariant bytewidth <= n || out != buf ==> TypesOk(filt, n, y)
      invariant forall k :: 0 <= k < out.Length && (k < at || k >= at + RowsEnd(y, n, bytewidth)) ==>
                  out[k] == old(out[k])
    {
      RowFits(out.Length, at, buf.Length, from, n, h, bytewidth, y);
      RowsEndIs(y, n, bytewidth);
      RowsEndGrows(y + 1, h, n, bytewidth);
      if bytewidth <= n || out != buf {
        StillThere(buf[..], if out == buf then at else buf.Length, from, filt, n, y, h, old(buf[..]));
        TypesStep(filt, n, y);
      }
      error := UnfilterRow(out, at, buf, from, n, bytewidth, y, h, filt);
      if error != 0 {
        if TypesOk(filt, n, h) { TypesFewer(filt, n, y + 1, h); }
        return;
      }
    }
  }

  /** What a write into was[at + p..at + p + n] leaves of the slice at `at`. */
  lemma SameBefore(was: seq<byte>, now: seq<byte>, at: nat, p: nat, n: nat, size: nat)
    requires |was| == |now| && p + n <= size && at + size <= |was|
    requires forall k :: 0 <= k < |was| && (k < at + p || k >= at + p + n) ==> now[k] == was[k]
    ensures was[at..at + size][..p] == now[at..at + size][..p]
    ensures now[at..at + size][p..p + n] == now[at + p..at + p + n]
    ensures n <= p ==> now[at..at + size][p - n..p] == was[at + p - n..at + p]
  {
    hide *;
    SubSlice(now, at, size, 0, p);
    SubSlice(was, at, size, 0, p);
    SubSlice(now, at, size, p, p + n);
    if n <= p {
      SubSlice(now, at, size, p - n, p);
      assert now[at + p - n..at + p] == was[at + p - n..at + p];
    }
  }

  lemma SubSlice(s: seq<byte>, at: nat, size: nat, from: nat, to: nat)
    requires from <= to <= size && at + size <= |s|
    ensures s[at..at + size][from..to] == s[at + from..at + to]
  {
    hide *;
    var a, b := s[at..at + size][from..to], s[at + from..at + to];
    forall k | 0 <= k < to - from
      ensures a[k] == b[k]
    {
      assert s[at..at + size][from + k] == s[at + (from + k)];
    }
  }

  lemma NoTypes(filt: seq<byte>, n: nat)
    ensures TypesOk(filt, n, 0)
  {
  }

  /** The rows still to be read have not been overwritten. */
  lemma StillThere(buf: seq<byte>, at: nat, from: nat, filt: seq<byte>, n: nat, y: nat, h: nat, was: seq<byte>)
    requires y < h && from + Offset(h, n + 1) <= |buf| == |was| && filt == was[from..from + Offset(h, n + 1)]
    requires (at <= from && forall k :: at + Offset(y, n) <= k < |buf| ==> buf[k] == was[k]) || buf == was
    ensures forall k :: Offset(y, n + 1) <= k < |filt| ==> buf[from + k] == filt[k]
  {
    hide Offset;
    OffsetStep(y, n);
  }
}
