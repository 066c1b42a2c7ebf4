/**
 * The five PNG filters. A scanline and the one above it predict each byte; a
 * filter stores the difference. Unfiltering runs in place: the reconstructed
 * bytes overwrite the buffer the filtered ones are read from.
 */
module ScanlineFilter {
  import opened BitStream

  // ----- The predictors of section 9.2 of the PNG Specification -----

  function Abs(x: int): nat { if x < 0 then -x else x }

  /** Section 9.4 of the PNG Specification. */
  function Paeth(a: byte, b: byte, c: byte): byte {
    var p := (a as int) + (b as int) - (c as int);
    var pa, pb, pc := Abs(p - a), Abs(p - b), Abs(p - c);
    if pa <= pb && pa <= pc then a else if pb <= pc then b else c
  }

  /**
   * paethPredictor compares in another order, and gives the same byte: of the
   * byte to the left, the one above and the one above that, the nearest to
   * a + b - c; of equally near ones the first.
   */
  function PaethPredictor(a: byte, b: byte, c: byte): (r: byte)
    ensures r == Paeth(a, b, c)
    ensures r == a || r == b || r == c
    ensures var p := (a as int) + (b as int) - (c as int);
            && Abs(p - r) <= Abs(p - a) && Abs(p - r) <= Abs(p - b) && Abs(p - r) <= Abs(p - c)
            && (r != a ==> Abs(p - r) < Abs(p - a))
            && (r != a && r != b ==> Abs(p - r) < Abs(p - b))
  {
    var pa, pb := Abs((b as int) - (c as int)), Abs((a as int) - (c as int));
    var pc := Abs((a as int) + (b as int) - (c as int) - (c as int));
    if pc < pa && pc < pb then c else if pb < pa then b else a
  }

  /** The byte of the pixel to the left; 0 before the line starts. */
  function LeftOf(line: seq<byte>, bytewidth: nat, i: nat): byte
    requires i < |line|
  {
    if i < bytewidth || bytewidth == 0 then 0 else line[i - bytewidth]
  }

  /** The byte above; 0 if there is no line above. */
  function Above(prev: seq<byte>, i: nat): byte {
    if i < |prev| then prev[i] else 0
  }

  function AboveLeft(prev: seq<byte>, bytewidth: nat, i: nat): byte {
    if i < bytewidth then 0 else Above(prev, i - bytewidth)
  }

  function Predict(filter: nat, line: seq<byte>, prev: seq<byte>, bytewidth: nat, i: nat): byte
    requires i < |line|
  {
    var a, b, c := LeftOf(line, bytewidth, i), Above(prev, i), AboveLeft(prev, bytewidth, i);
    if filter == 0 then 0
    else if filter == 1 then a
    else if filter == 2 then b
    else if filter == 3 then ((a as int) + (b as int)) / 2
    else Paeth(a, b, c)
  }

  /**
   * Sections 9.2 and 9.3 of the PNG Specification: nothing, left, above, half
   * their sum rounded down, and the choice between these and the upper left.
   */
  lemma Predictions(line: seq<byte>, prev: seq<byte>, bytewidth: nat, i: nat)
    requires i < |line| && bytewidth > 0
    ensures var a, b := LeftOf(line, bytewidth, i), Above(prev, i);
            && Predict(0, line, prev, bytewidth, i) == 0
            && Predict(1, line, prev, bytewidth, i) == a && Predict(2, line, prev, bytewidth, i) == b
            && (var h := Predict(3, line, prev, bytewidth, i) as nat;
                2 * h <= a as nat + b as nat <= 2 * h + 1)
            && (i >= bytewidth ==> a == line[i - bytewidth]) && (i < bytewidth ==> a == 0)
            && (i < |prev| ==> b == prev[i]) && (prev == [] ==> b == 0)
            && (i >= bytewidth && i - bytewidth < |prev| ==>
                  Predict(4, line, prev, bytewidth, i) == PaethPredictor(a, b, prev[i - bytewidth]))
            && (i < bytewidth || prev == [] ==>
                  Predict(4, line, prev, bytewidth, i) == PaethPredictor(a, b, 0))
  {
  }

  function Plus(x: byte, y: byte): byte { ((x as int) + (y as int)) % 256 }

  function Minus(x: byte, y: byte): byte { ((x as int) - (y as int)) % 256 }

  /** `filt` holds the filtered bytes of `line`. */
  predicate Filtered(filt: seq<byte>, line: seq<byte>, prev: seq<byte>, bytewidth: nat, filter: nat) {
    |filt| == |line| && forall i :: 0 <= i < |line| ==>
      filt[i] == Minus(line[i], Predict(filter, line, prev, bytewidth, i))
  }

  /** `line` is what the filtered bytes reconstruct to. */
  predicate Reconstructs(line: seq<byte>, filt: seq<byte>, prev: seq<byte>, bytewidth: nat, filter: nat) {
    |filt| == |line| && forall i :: 0 <= i < |line| ==>
      line[i] == Plus(filt[i], Predict(filter, line, prev, bytewidth, i))
  }

  /** A filtered line reconstructs to the line it came from. */
  lemma FilteredReconstructs(filt: seq<byte>, line: seq<byte>, prev: seq<byte>, bytewidth: nat, filter: nat)
    requires Filtered(filt, line, prev, bytewidth, filter)
    ensures Reconstructs(line, filt, prev, bytewidth, filter)
  {
    hide Predict, Plus, Minus;
    forall i | 0 <= i < |line|
      ensures line[i] == Plus(filt[i], Predict(filter, line, prev, bytewidth, i))
    {
      AddBack(line[i], Predict(filter, line, prev, bytewidth, i));
    }
  }

  lemma AddBack(x: byte, p: byte)
    ensures Plus(Minus(x, p), p) == x
  {
  }

  /** A prediction looks only at bytes before its own. */
  lemma PredictSame(a: seq<byte>, b: seq<byte>, prev: seq<byte>, bytewidth: nat, filter: nat, i: nat)
    requires bytewidth > 0 && i < |a| == |b| && a[..i] == b[..i]
    ensures Predict(filter, a, prev, bytewidth, i) == Predict(filter, b, prev, bytewidth, i)
  {
    hide Paeth;
    if i >= bytewidth {
      assert a[i - bytewidth] == a[..i][i - bytewidth] == b[..i][i - bytewidth] == b[i - bytewidth];
    }
  }

  /** Two lines that reconstruct the same bytes agree up to n. */
  lemma {:induction false} AgreeUpTo(a: seq<byte>, b: seq<byte>, filt: seq<byte>, prev: seq<byte>, bytewidth: nat,
                                     filter: nat, n: nat)
    requires bytewidth > 0 && n <= |filt|
    requires Reconstructs(a, filt, prev, bytewidth, filter) && Reconstructs(b, filt, prev, bytewidth, filter)
    ensures a[..n] == b[..n]
  {
    hide Predict, Plus;
    if n > 0 {
      AgreeUpTo(a, b, filt, prev, bytewidth, filter, n - 1);
      PredictSame(a, b, prev, bytewidth, filter, n - 1);
      assert a[..n] == a[..n - 1] + [a[n - 1]] && b[..n] == b[..n - 1] + [b[n - 1]];
    }
  }

  /** Reconstruction is unique. */
  lemma OneReconstruction(a: seq<byte>, b: seq<byte>, filt: seq<byte>, prev: seq<byte>, bytewidth: nat, filter: nat)
    requires bytewidth > 0
    requires Reconstructs(a, filt, prev, bytewidth, filter) && Reconstructs(b, filt, prev, bytewidth, filter)
    ensures a == b
  {
    AgreeUpTo(a, b, filt, prev, bytewidth, filter, |filt|);
    assert a[..|filt|] == a && b[..|filt|] == b;
  }

  // ----- Filtering one scanline -----

  /** The filter's byte as the code computes it, case by case. */
  function FilterByte(line: seq<byte>, prev: seq<byte>, bytewidth: nat, filter: nat, i: nat): (r: byte)
    requires i < |line| && (prev == [] || |prev| == |line|) && bytewidth > 0 && filter <= 4
    ensures r == Minus(line[i], Predict(filter, line, prev, bytewidth, i))
  {
    match filter
    case 0 => line[i]
    case 1 => if i < bytewidth then line[i] else Minus(line[i], line[i - bytewidth])
    case 2 => if prev != [] then Minus(line[i], prev[i]) else line[i]
    case 3 =>
      if prev != [] then
        if i < bytewidth then Minus(line[i], prev[i] / 2)
        else Minus(line[i], ((line[i - bytewidth] as int) + (prev[i] as int)) / 2)
      else if i < bytewidth then line[i] else Minus(line[i], line[i - bytewidth] / 2)
    case _ =>
      if prev != [] then
        if i < bytewidth then Minus(line[i], prev[i])
        else Minus(line[i], PaethPredictor(line[i - bytewidth], prev[i], prev[i - bytewidth]))
      else if i < bytewidth then line[i] else Minus(line[i], line[i - bytewidth])
  }

  /** How many bytes a filter handles: types 1, 3 and 4 start with one whole pixel, however short the line is. */
  function Reach(filter: nat, length: nat, bytewidth: nat): nat {
    if filter > 4 then 0 else if filter % 2 == 0 && filter < 4 then length else if length < bytewidth then bytewidth
    else length
  }

  /**
   * filterScanline on a line of `length` bytes, writing from position `at` on;
   * `line` is what it reads, which is more than the line if a pixel is longer.
   * An unknown filter writes nothing.
   */
  method FilterScanline(out: array<byte>, at: nat, line: seq<byte>, prev: seq<byte>, length: nat, bytewidth: nat,
                        filter: nat)
    requires |line| == Reach(filter, length, bytewidth) && (prev == [] || |prev| == |line|) && 0 < bytewidth
    requires at + |line| <= out.Length
    modifies out
    ensures filter <= 4 ==> Filtered(out[at..at + |line|], line, prev, bytewidth, filter)
    ensures forall k :: 0 <= k < out.Length && (k < at || k >= at + |line|) ==> out[k] == old(out[k])
  {
    hide PaethPredictor, Predict, Minus, FilterByte;
    if filter > 4 {
      return;
    }
    var first := if filter == 0 || filter == 2 then 0 else bytewidth;
    for i := 0 to first
      invariant forall k :: 0 <= k < i ==> out[at + k] == Minus(line[k], Predict(filter, line, prev, bytewidth, k))
      invariant forall k :: 0 <= k < out.Length && (k < at || k >= at + |line|) ==> out[k] == old(out[k])
    {
      out[at + i] := FilterByte(line, prev, bytewidth, filter, i);
    }
    var i := first;
    while i < length
      invariant first <= i <= |line| && (i <= length || i == first)
      invariant forall k :: 0 <= k < i ==> out[at + k] == Minus(line[k], Predict(filter, line, prev, bytewidth, k))
      invariant forall k :: 0 <= k < out.Length && (k < at || k >= at + |line|) ==> out[k] == old(out[k])
    {
      out[at + i] := FilterByte(line, prev, bytewidth, filter, i);
      i := i + 1;
    }
  }

  // ----- Unfiltering one scanline in place -----

  /** The reconstructed byte as the code computes it from the bytes already reconstructed. */
  function UnfilterByte(x: byte, left: byte, above: byte, aboveLeft: byte, hasPrev: bool, first: bool,
                        filter: nat): (r: byte)
    requires filter <= 4 && (first ==> left == 0 && aboveLeft == 0) && (!hasPrev ==> above == 0 && aboveLeft == 0)
    ensures r == Plus(x, if filter == 0 then 0 else if filter == 1 then left else if filter == 2 then above
                         else if filter == 3 then ((left as int) + (above as int)) / 2
                           else Paeth(left, above, aboveLeft))
  {
    match filter
    case 0 => x
    case 1 => if first then x else Plus(x, left)
    case 2 => if hasPrev then Plus(x, above) else x
    case 3 =>
      if hasPrev then
        if first then Plus(x, above / 2) else Plus(x, ((left as int) + (above as int)) / 2)
      else if first then x else Plus(x, left / 2)
    case _ =>
      if hasPrev then
        if first then Plus(x, above) else Plus(x, PaethPredictor(left, above, aboveLeft))
      else if first then x else Plus(x, left)
  }

  /** The first n bytes are reconstructed. */
  predicate ReconstructsTo(line: seq<byte>, filt: seq<byte>, prev: seq<byte>, bytewidth: nat, filter: nat, n: nat) {
    |filt| == |line| >= n && forall k :: 0 <= k < n ==>
      line[k] == Plus(filt[k], Predict(filter, line, prev, bytewidth, k))
  }

  lemma ReconstructNext(line: seq<byte>, line': seq<byte>, filt: seq<byte>, prev: seq<byte>, bytewidth: nat,
                        filter: nat, n: nat)
    requires ReconstructsTo(line, filt, prev, bytewidth, filter, n) && n < |line| && bytewidth > 0
    requires line' == line[n := Plus(filt[n], Predict(filter, line, prev, bytewidth, n))]
    ensures ReconstructsTo(line', filt, prev, bytewidth, filter, n + 1)
  {
    hide Predict, Plus;
    forall k | 0 <= k < n + 1
      ensures line'[k] == Plus(filt[k], Predict(filter, line', prev, bytewidth, k))
    {
      assert line[..k] == line'[..k];
      PredictSame(line, line', prev, bytewidth, filter, k);
    }
  }

  /**
   * unfilterScanline: reconstructs buf[from..] into recon[at..]; the two may be
   * one buffer if the target lies before the source. The line above stands
   * just before the target. On a line shorter than a pixel types 1, 3 and 4
   * write a whole pixel.
   */
  method UnfilterScanline(recon: array<byte>, at: nat, buf: array<byte>, from: nat, hasPrev: bool, bytewidth: nat,
                          filter: nat, length: nat)
    returns (error: nat)
    requires 0 < bytewidth && at + Reach(filter, length, bytewidth) <= recon.Length
    requires from + Reach(filter, length, bytewidth) <= buf.Length
    requires hasPrev ==> length <= at
    requires recon == buf ==> at <= from
    modifies recon
    ensures error == if filter <= 4 then 0 else 36
    ensures error == 0 ==> Reconstructs(recon[at..at + length], old(buf[from..from + length]),
                                        if hasPrev then old(recon[at - length..at]) else [], bytewidth, filter)
    ensures forall k :: 0 <= k < recon.Length && (k < at || k >= at + Reach(filter, length, bytewidth)) ==>
              recon[k] == old(recon[k])
  {
    hide Predict, Plus, Paeth, ReconstructsTo, Reconstructs, UnfilterByte;
    if filter > 4 {
      return 36;
    }
    error := 0;
    ghost var filt := buf[from..from + length];
    ghost var prev := if hasPrev then recon[at - length..at] else [];
    NothingYet(recon[at..at + length], filt, prev, bytewidth, filter);
    var first := if filter == 0 || filter == 2 then 0 else bytewidth;
    for i := 0 to first
      invariant forall k :: 0 <= k < recon.Length && (k < at || k >= at + i) ==> recon[k] == old(recon[k])
      invariant ReconstructsTo(recon[at..at + length], filt, prev, bytewidth, filter, if i < length then i else length)
    {
      UnfilterOne(recon, at, buf, from, hasPrev, bytewidth, filter, length, i, filt, prev);
    }
    var i := first;
    while i < length
      invariant first <= i && (i <= length || i == first)
      invariant forall k :: 0 <= k < recon.Length && (k < at || k >= at + i) ==> recon[k] == old(recon[k])
      invariant ReconstructsTo(recon[at..at + length], filt, prev, bytewidth, filter, if i < length then i else length)
    {
      UnfilterOne(recon, at, buf, from, hasPrev, bytewidth, filter, length, i, filt, prev);
      i := i + 1;
    }
    AllDone(recon[at..at + length], filt, prev, bytewidth, filter);
  }

  /** One byte. */
  method UnfilterOne(recon: array<byte>, at: nat, buf: array<byte>, from: nat, hasPrev: bool, bytewidth: nat,
                     filter: nat, length: nat, i: nat, ghost filt: seq<byte>, ghost prev: seq<byte>)
    requires filter <= 4 && bytewidth > 0 && (hasPrev ==> length <= at) && (i < length || i < bytewidth)
    requires at + i < recon.Length && from + i < buf.Length && at + length <= recon.Length && |filt| == length
    requires i < length ==> buf[from + i] == filt[i]
    requires prev == [] || |prev| == length
    requires i < length ==> hasPrev == (prev != [])
    requires i < length && hasPrev ==> recon[at - length..at] == prev
    requires ReconstructsTo(recon[at..at + length], filt, prev, bytewidth, filter, if i < length then i else length)
    modifies recon
    ensures var j := i + 1;
            ReconstructsTo(recon[at..at + length], filt, prev, bytewidth, filter, if j < length then j else length)
    ensures forall k :: 0 <= k < recon.Length && k != at + i ==> recon[k] == old(recon[k])
  {
    hide Predict, Plus, Paeth, ReconstructsTo, UnfilterByte;
    ghost var line := recon[at..at + length];
    var left := if i < bytewidth then 0 else recon[at + i - bytewidth];
    var above := if hasPrev then recon[at - length + i] else 0;
    var aboveLeft := if hasPrev && i >= bytewidth then recon[at - length + i - bytewidth] else 0;
    var x := UnfilterByte(buf[from + i], left, above, aboveLeft, hasPrev, i < bytewidth, filter);
    if i < length {
      PredictFrom(line, prev, bytewidth, filter, i, left, above, aboveLeft);
      recon[at + i] := x;
      assert recon[at..at + length] == line[i := x];
      ReconstructNext(line, recon[at..at + length], filt, prev, bytewidth, filter, i);
    } else {
      recon[at + i] := x;
      assert recon[at..at + length] == line;
    }
  }

  lemma NothingYet(line: seq<byte>, filt: seq<byte>, prev: seq<byte>, bytewidth: nat, filter: nat)
    requires |filt| == |line|
    ensures ReconstructsTo(line, filt, prev, bytewidth, filter, 0)
  {
  }

  lemma AllDone(line: seq<byte>, filt: seq<byte>, prev: seq<byte>, bytewidth: nat, filter: nat)
    ensures ReconstructsTo(line, filt, prev, bytewidth, filter, |line|) ==>
              Reconstructs(line, filt, prev, bytewidth, filter)
  {
  }

  lemma PredictFrom(line: seq<byte>, prev: seq<byte>, bytewidth: nat, filter: nat, i: nat, a: byte, b: byte, c: byte)
    requires i < |line| && bytewidth > 0 && (prev == [] || |prev| == |line|)
    requires a == (if i < bytewidth then 0 else line[i - bytewidth])
    requires b == (if prev != [] then prev[i] else 0)
    requires c == (if prev != [] && i >= bytewidth then prev[i - bytewidth] else 0)
    ensures Predict(filter, line, prev, bytewidth, i) ==
            if filter == 0 then 0 else if filter == 1 then a else if filter == 2 then b
            else if filter == 3 then ((a as int) + (b as int)) / 2 else Paeth(a, b, c)
  {
    hide Paeth;
  }
}
