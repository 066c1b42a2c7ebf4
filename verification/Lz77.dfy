/** LZ77 tokens, their symbols and extra bits (section 3.2.5 of RFC 1951), and what they stand for. */
module Lz77 {
  import opened Powers
  import opened BitStream

  function LengthBase(): (r: seq<nat>)
    ensures |r| == 29
  {
    [3, 4, 5, 6, 7, 8, 9, 10, 11, 13, 15, 17, 19, 23, 27, 31, 35, 43, 51, 59,
     67, 83, 99, 115, 131, 163, 195, 227, 258]
  }

  function LengthExtra(): (r: seq<nat>)
    ensures |r| == 29
  {
    [0, 0, 0, 0, 0, 0, 0, 0, 1, 1, 1, 1, 2, 2, 2, 2, 3, 3, 3, 3,
     4, 4, 4, 4, 5, 5, 5, 5, 0]
  }

  function DistanceBase(): (r: seq<nat>)
    ensures |r| == 30
  {
    [1, 2, 3, 4, 5, 7, 9, 13, 17, 25, 33, 49, 65, 97, 129, 193, 257, 385, 513,
     769, 1025, 1537, 2049, 3073, 4097, 6145, 8193, 12289, 16385, 24577]
  }

  function DistanceExtra(): (r: seq<nat>)
    ensures |r| == 30
  {
    [0, 0, 0, 0, 1, 1, 2, 2, 3, 3, 4, 4, 5, 5, 6, 6, 7, 7, 8,
     8, 9, 9, 10, 10, 11, 11, 12, 12, 13, 13]
  }

  datatype Token = Literal(value: byte) | Match(length: nat, distance: nat)

  // ----- Meaning -----

  /** The decoder's copy: each byte is read after the previous one was written. */
  function CopyMatch(out: seq<byte>, length: nat, distance: nat): (r: seq<byte>)
    requires 0 < distance <= |out|
    ensures |r| == |out| + length && out <= r
    decreases length
  {
    if length == 0 then out
    else CopyMatch(out + [out[|out| - distance]], length - 1, distance)
  }

  predicate TokenOk(out: seq<byte>, t: Token) {
    t.Match? ==> 3 <= t.length <= 258 && 1 <= t.distance <= 32768 && t.distance <= |out|
  }

  function ApplyToken(out: seq<byte>, t: Token): (r: seq<byte>)
    requires TokenOk(out, t)
    ensures out <= r
  {
    match t
    case Literal(b) => out + [b]
    case Match(l, d) => CopyMatch(out, l, d)
  }

  predicate TokensOk(out: seq<byte>, ts: seq<Token>)
    decreases |ts|
  {
    ts != [] ==> TokenOk(out, ts[0]) && TokensOk(ApplyToken(out, ts[0]), ts[1..])
  }

  /** Everything a decoder has written after these tokens. */
  function ExpandTokens(out: seq<byte>, ts: seq<Token>): seq<byte>
    requires TokensOk(out, ts)
    decreases |ts|
  {
    if ts == [] then out else ExpandTokens(ApplyToken(out, ts[0]), ts[1..])
  }

  lemma {:induction false} ExpandTokensAppend(out: seq<byte>, ts: seq<Token>, t: Token)
    requires TokensOk(out, ts) && TokenOk(ExpandTokens(out, ts), t)
    ensures TokensOk(out, ts + [t])
    ensures ExpandTokens(out, ts + [t]) == ApplyToken(ExpandTokens(out, ts), t)
    decreases |ts|
  {
    if ts == [] {
      assert ts + [t] == [t];
      assert [t][1..] == [];
    } else {
      ExpandTokensAppend(ApplyToken(out, ts[0]), ts[1..], t);
      assert (ts + [t])[1..] == ts[1..] + [t];
    }
  }

  /** The bytes from pos on repeat those `offset` earlier, `length` of them. */
  predicate Repeats(data: seq<byte>, pos: nat, length: nat, offset: nat) {
    && 0 < offset <= pos && pos + length <= |data|
    && forall k :: pos <= k < pos + length ==> data[k] == data[k - offset]
  }

  /** Copying a match restores the bytes it was found in, overlapping or not. */
  lemma {:induction false} CopyRestores(data: seq<byte>, pos: nat, length: nat, offset: nat)
    requires Repeats(data, pos, length, offset)
    ensures CopyMatch(data[..pos], length, offset) == data[..pos + length]
    decreases length
  {
    if length > 0 {
      assert data[..pos] + [data[pos - offset]] == data[..pos + 1];
      CopyRestores(data, pos + 1, length - 1, offset);
    }
  }

  // ----- Symbols and extra bits -----

  predicate IsIndex(base: seq<nat>, value: nat, r: nat) {
    r < |base| && base[r] <= value && (r + 1 < |base| ==> value < base[r + 1])
  }

  predicate Increasing(base: seq<nat>) {
    forall i, j :: 0 <= i < j < |base| ==> base[i] < base[j]
  }

  /** searchCodeIndex: the last entry that is not above the value. */
  method SearchCodeIndex(base: seq<nat>, value: nat) returns (r: nat)
    requires |base| > 0 && Increasing(base) && base[0] <= value
    ensures IsIndex(base, value, r)
  {
    var left, right := 1, |base| - 1;
    while left <= right
      invariant 1 <= left <= right + 1 <= |base|
      invariant forall k :: 1 <= k < left ==> base[k] < value
      invariant forall k :: right < k < |base| ==> base[k] >= value
      decreases right + 1 - left
    {
      var mid := (left + right) / 2;
      if base[mid] >= value {
        right := mid - 1;
      } else {
        left := mid + 1;
      }
    }
    if left >= |base| || base[left] > value {
      left := left - 1;
    }
    return left;
  }

  /** The index searchCodeIndex finds. */
  function IndexIn(base: seq<nat>, value: nat, n: nat): (r: nat)
    requires 0 < n <= |base| && base[0] <= value
    requires n < |base| ==> value < base[n]
    ensures IsIndex(base, value, r)
  {
    if base[n - 1] <= value then n - 1 else IndexIn(base, value, n - 1)
  }

  lemma IndexUnique(base: seq<nat>, value: nat, r: nat, s: nat)
    requires Increasing(base) && IsIndex(base, value, r) && IsIndex(base, value, s)
    ensures r == s
  {
  }

  predicate Ascending(base: seq<nat>) {
    forall i :: 0 <= i < |base| - 1 ==> base[i] < base[i + 1]
  }

  lemma AscendingIncreasing(base: seq<nat>)
    requires Ascending(base)
    ensures Increasing(base)
  {
    forall i, j | 0 <= i < j < |base|
      ensures base[i] < base[j]
    {
      AscendingPair(base, i, j);
    }
  }

  lemma {:induction false} AscendingPair(base: seq<nat>, i: nat, j: nat)
    requires Ascending(base) && i < j < |base|
    ensures base[i] < base[j]
  {
    if i + 1 < j {
      AscendingPair(base, i, j - 1);
    }
  }

  lemma LengthTable()
    ensures |LengthBase()| == |LengthExtra()| == 29 && Increasing(LengthBase())
    ensures LengthBase()[0] == 3 && LengthBase()[28] == 258 && LengthExtra()[28] == 0
    ensures forall i :: 0 <= i < 29 ==> LengthExtra()[i] <= 5
  {
    assert Ascending(LengthBase());
    AscendingIncreasing(LengthBase());
  }

  lemma DistanceTable()
    ensures |DistanceBase()| == |DistanceExtra()| == 30 && Increasing(DistanceBase())
    ensures DistanceBase()[0] == 1 && DistanceBase()[29] == 24577 && DistanceExtra()[29] == 13
    ensures forall i :: 0 <= i < 30 ==> DistanceExtra()[i] <= 13
  {
    assert Ascending(DistanceBase());
    AscendingIncreasing(DistanceBase());
  }

  lemma PowersTo13()
    ensures Pow2(0) == 1 && Pow2(1) == 2 && Pow2(2) == 4 && Pow2(3) == 8 && Pow2(4) == 16
    ensures Pow2(5) == 32 && Pow2(6) == 64 && Pow2(7) == 128 && Pow2(8) == 256 && Pow2(9) == 512
    ensures Pow2(10) == 1024 && Pow2(11) == 2048 && Pow2(12) == 4096 && Pow2(13) == 8192
  {
    assert Pow2(2) == 4;
    assert Pow2(4) == 16;
    assert Pow2(6) == 64;
    assert Pow2(8) == 256;
    assert Pow2(10) == 1024;
    assert Pow2(12) == 4096;
  }

  /** The gaps of the tables are covered by their extra bits. */
  lemma LengthGaps(i: nat)
    requires i < 28
    ensures LengthBase()[i + 1] - LengthBase()[i] <= Pow2(LengthExtra()[i])
  {
    PowersTo13();
  }

  lemma DistanceGaps(i: nat)
    requires i < 29
    ensures DistanceBase()[i + 1] - DistanceBase()[i] <= Pow2(DistanceExtra()[i])
  {
    PowersTo13();
  }

  lemma LengthExtraFits(length: nat, i: nat)
    requires 3 <= length <= 258 && IsIndex(LengthBase(), length, i)
    ensures length - LengthBase()[i] < Pow2(LengthExtra()[i])
  {
    LengthTable();
    if i < 28 {
      LengthGaps(i);
    }
  }

  lemma DistanceExtraFits(distance: nat, i: nat)
    requires 1 <= distance <= 32768 && IsIndex(DistanceBase(), distance, i)
    ensures distance - DistanceBase()[i] < Pow2(DistanceExtra()[i])
  {
    DistanceTable();
    if i < 29 {
      DistanceGaps(i);
    } else {
      PowersTo13();
    }
  }

  function LengthIndex(length: nat): (i: nat)
    requires 3 <= length <= 258
    ensures IsIndex(LengthBase(), length, i)
  {
    IndexIn(LengthBase(), length, 29)
  }

  function DistanceIndex(distance: nat): (i: nat)
    requires 1 <= distance <= 32768
    ensures IsIndex(DistanceBase(), distance, i)
  {
    IndexIn(DistanceBase(), distance, 30)
  }

  predicate InRange(t: Token) {
    t.Match? ==> 3 <= t.length <= 258 && 1 <= t.distance <= 32768
  }

  predicate AllInRange(ts: seq<Token>) {
    forall k :: 0 <= k < |ts| ==> InRange(ts[k])
  }

  /** How the encoder stores a token: a literal, or length symbol, extra length, distance symbol, extra distance. */
  function StoredToken(t: Token): seq<nat>
    requires InRange(t)
  {
    match t
    case Literal(b) => [b]
    case Match(l, d) =>
      [257 + LengthIndex(l), l - LengthBase()[LengthIndex(l)], DistanceIndex(d), d - DistanceBase()[DistanceIndex(d)]]
  }

  function StoredTokens(ts: seq<Token>): seq<nat>
    requires AllInRange(ts)
  {
    if ts == [] then [] else StoredTokens(ts[..|ts| - 1]) + StoredToken(ts[|ts| - 1])
  }

  lemma StoredTokensAppend(ts: seq<Token>, t: Token)
    requires AllInRange(ts) && InRange(t)
    ensures AllInRange(ts + [t]) && StoredTokens(ts + [t]) == StoredTokens(ts) + StoredToken(t)
  {
    assert (ts + [t])[..|ts|] == ts;
  }

  method LengthCode(length: nat) returns (code: nat)
    requires 3 <= length <= 258
    ensures code == LengthIndex(length)
  {
    hide IndexIn;
    LengthTable();
    code := SearchCodeIndex(LengthBase(), length);
    IndexUnique(LengthBase(), length, code, LengthIndex(length));
  }

  method DistanceCode(distance: nat) returns (code: nat)
    requires 1 <= distance <= 32768
    ensures code == DistanceIndex(distance)
  {
    hide IndexIn;
    DistanceTable();
    code := SearchCodeIndex(DistanceBase(), distance);
    IndexUnique(DistanceBase(), distance, code, DistanceIndex(distance));
  }

  /** addLengthDistance */
  method AddLengthDistance(values: seq<nat>, length: nat, distance: nat) returns (r: seq<nat>)
    requires 3 <= length <= 258 && 1 <= distance <= 32768
    ensures r == values + StoredToken(Match(length, distance))
  {
    hide LengthIndex, DistanceIndex;
    var lengthCode := LengthCode(length);
    var distCode := DistanceCode(distance);
    r := values + [257 + lengthCode, length - LengthBase()[lengthCode], distCode, distance - DistanceBase()[distCode]];
  }
}
