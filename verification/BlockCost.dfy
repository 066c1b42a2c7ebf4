/** How many bits the symbols of a block take, and that the trees of a dynamic block take the fewest. */
module BlockCost {
  import opened Powers
  import opened BitStream
  import opened PrefixCode
  import opened Lz77
  import opened CodeLengths
  import opened StreamFormat
  import opened BlockFormat
  import opened SymbolWriter

  /** The length of the code of symbol s; 0 if it has none. */
  function LenAt(lengths: seq<nat>, s: nat): nat { if s < |lengths| then lengths[s] else 0 }

  /** The bits of the first n symbols, each as often as it occurs. */
  function SymbolBits(f: seq<nat>, lengths: seq<nat>, n: nat): nat
    requires n <= |f|
  {
    if n == 0 then 0 else SymbolBits(f, lengths, n - 1) + f[n - 1] * LenAt(lengths, n - 1)
  }

  lemma {:induction false} BumpBits(f: seq<nat>, s: nat, lengths: seq<nat>, n: nat)
    requires s < |f| && n <= |f|
    ensures SymbolBits(Bump(f, s), lengths, n) == SymbolBits(f, lengths, n) + if s < n then LenAt(lengths, s) else 0
  {
    hide LenAt;
    if n > 0 {
      BumpBits(f, s, lengths, n - 1);
      OnceMore(f[n - 1], LenAt(lengths, n - 1));
    }
  }

  lemma OnceMore(f: nat, l: nat)
    ensures (f + 1) * l == f * l + l
  {
  }

  lemma {:induction false} ZeroBits(f: seq<nat>, lengths: seq<nat>, n: nat)
    requires n <= |f| && forall s :: 0 <= s < |f| ==> f[s] == 0
    ensures SymbolBits(f, lengths, n) == 0
  {
    if n > 0 {
      ZeroBits(f, lengths, n - 1);
    }
  }

  // ----- The bits of the tokens -----

  /** The extra bits of a token do not depend on the codes. */
  function ExtraBits(t: Token): nat
    requires InRange(t)
  {
    if t.Literal? then 0 else LengthExtra()[LengthIndex(t.length)] + DistanceExtra()[DistanceIndex(t.distance)]
  }

  function AllExtraBits(ts: seq<Token>): nat
    requires AllInRange(ts)
  {
    if ts == [] then 0 else AllExtraBits(ts[..|ts| - 1]) + ExtraBits(ts[|ts| - 1])
  }

  lemma TokenLength(ll: seq<nat>, d: seq<nat>, t: Token)
    requires Codable(ll, d, t)
    ensures |TokenBits(ll, d, t)| == LenAt(ll, LitSymbol(t)) + ExtraBits(t) +
            if t.Match? then LenAt(d, DistanceIndex(t.distance)) else 0
  {
    hide LengthBase, LengthExtra, DistanceBase, DistanceExtra, LengthIndex, DistanceIndex, Canon;
  }

  lemma {:induction false} TokensLength(ll: seq<nat>, d: seq<nat>, ts: seq<Token>)
    requires AllCodable(ll, d, ts) && AllInRange(ts)
    ensures |TokensBits(ll, d, ts)| ==
            SymbolBits(LitFreq(ts), ll, 286) + SymbolBits(DistFreq(ts), d, 30) + AllExtraBits(ts)
    decreases |ts|
  {
    hide SymbolBits, LitSymbol, DistanceIndex, Bump, TokenBits, TokensBits, ExtraBits, LenAt, Codable;
    if ts == [] {
      NoTokenBits(ll, d);
      ZeroBits(LitFreq(ts), ll, 286);
      ZeroBits(DistFreq(ts), d, 30);
    } else {
      var k := |ts| - 1;
      var init, t := ts[..k], ts[k];
      assert ts == init + [t];
      TokensLength(ll, d, init);
      TokensBitsAppend(ll, d, init, t);
      TokenLength(ll, d, t);
      BumpBits(LitFreq(init), LitSymbol(t), ll, 286);
      if t.Match? {
        BumpBits(DistFreq(init), DistanceIndex(t.distance), d, 30);
      }
    }
  }

  lemma NoTokenBits(ll: seq<nat>, d: seq<nat>)
    ensures TokensBits(ll, d, []) == []
  {
  }

  /** A symbol that occurs has a code wherever the tokens can be coded. */
  lemma {:induction false} FreqCoded(ll: seq<nat>, d: seq<nat>, ts: seq<Token>)
    requires AllCodable(ll, d, ts) && AllInRange(ts)
    ensures forall s :: 0 <= s < 286 && LitFreq(ts)[s] > 0 ==> s != 256 && LenAt(ll, s) > 0
    ensures forall s :: 0 <= s < 30 && DistFreq(ts)[s] > 0 ==> LenAt(d, s) > 0
    decreases |ts|
  {
    hide LengthIndex, DistanceIndex;
    if ts != [] {
      FreqCoded(ll, d, ts[..|ts| - 1]);
      assert Codable(ll, d, ts[|ts| - 1]);
    }
  }

  // ----- No code takes fewer bits -----

  /** The part of a code that concerns the first k symbols. */
  function Restrict(m: seq<nat>, k: nat): (r: seq<nat>)
    ensures |r| == k && forall s :: 0 <= s < k ==> r[s] == LenAt(m, s)
  {
    seq(k, s requires 0 <= s < k => LenAt(m, s))
  }

  lemma {:induction false} RestrictKraft(m: seq<nat>, k: nat, n: nat, bits: nat)
    requires n <= k
    ensures KraftTo(Restrict(m, k), n, bits) <= KraftTo(m, if n < |m| then n else |m|, bits)
  {
    if n > 0 {
      RestrictKraft(m, k, n - 1, bits);
    }
  }

  lemma {:induction false} KraftGrows(m: seq<nat>, a: nat, b: nat, bits: nat)
    requires a <= b <= |m|
    ensures KraftTo(m, a, bits) <= KraftTo(m, b, bits)
  {
    if a < b {
      KraftGrows(m, a, b - 1, bits);
    }
  }

  lemma {:induction false} BitsOfPart(f: seq<nat>, m: seq<nat>, k: nat, n: nat)
    requires n <= k <= |f|
    ensures TextBits(f[..k], Restrict(m, k), n) == SymbolBits(f, m, n)
  {
    if n > 0 {
      BitsOfPart(f, m, k, n - 1);
    }
  }

  lemma {:induction false} NoMoreBits(f: seq<nat>, m: seq<nat>, k: nat, n: nat)
    requires k <= n <= |f| && forall s :: k <= s < |f| ==> f[s] == 0
    ensures SymbolBits(f, m, n) == SymbolBits(f, m, k)
  {
    if n > k {
      NoMoreBits(f, m, k, n - 1);
    }
  }

  lemma RestrictUsable(f: seq<nat>, m: seq<nat>, k: nat, bits: nat)
    requires k <= |f| && Fits(m, bits) && forall s :: 0 <= s < |f| && f[s] > 0 ==> LenAt(m, s) > 0
    ensures Usable(f[..k], Restrict(m, k), bits)
  {
    hide KraftTo;
    RestrictKraft(m, k, k, bits);
    KraftGrows(m, if k < |m| then k else |m|, |m|, bits);
  }

  /** The lengths of an optimal tree for f take no more bits than any other code. */
  lemma LeastBits(f: seq<nat>, lengths: seq<nat>, m: seq<nat>, bits: nat)
    requires |lengths| <= |f| && Optimal(f[..|lengths|], lengths, bits)
    requires forall s :: |lengths| <= s < |f| ==> f[s] == 0
    requires Fits(m, bits) && forall s :: 0 <= s < |f| && f[s] > 0 ==> LenAt(m, s) > 0
    ensures SymbolBits(f, lengths, |f|) <= SymbolBits(f, m, |f|)
  {
    hide Fits, Usable, TextBits, SymbolBits;
    var k := |lengths|;
    RestrictUsable(f, m, k, bits);
    assert Restrict(lengths, k) == lengths;
    BitsOfPart(f, lengths, k, k);
    BitsOfPart(f, m, k, k);
    NoMoreBits(f, lengths, k, |f|);
    NoMoreBits(f, m, k, |f|);
  }

  // ----- The symbols of a block -----

  /** What a block with these tokens counts: its end code occurs once. */
  lemma SymbolsLength(ll: seq<nat>, d: seq<nat>, ts: seq<Token>)
    requires AllCodable(ll, d, ts) && AllInRange(ts) && 256 < |ll| && ll[256] > 0
    ensures |SymbolsBits(ll, d, ts)| ==
            SymbolBits(LitFreq(ts)[256 := 1], ll, 286) + SymbolBits(DistFreq(ts), d, 30) + AllExtraBits(ts)
  {
    hide SymbolBits, TokensBits, Canon, AllCodable, Codable, LitFreq, DistFreq, AllExtraBits;
    TokensLength(ll, d, ts);
    FreqCoded(ll, d, ts);
    assert LitFreq(ts)[256 := 1] == Bump(LitFreq(ts), 256);
    BumpBits(LitFreq(ts), 256, ll, 286);
  }

  /** No two codes with lengths up to 15 take fewer bits for these tokens and the end code. */
  ghost predicate FewestBits(ll: seq<nat>, d: seq<nat>, ts: seq<Token>) {
    && AllCodable(ll, d, ts) && 256 < |ll| && ll[256] > 0
    && forall ll': seq<nat>, d': seq<nat> ::
         Fits(ll', 15) && Fits(d', 15) && AllCodable(ll', d', ts) && 256 < |ll'| && ll'[256] > 0 ==>
           |SymbolsBits(ll, d, ts)| <= |SymbolsBits(ll', d', ts)|
  }

  lemma BlockLeast(ll: seq<nat>, d: seq<nat>, ts: seq<Token>)
    requires AllInRange(ts) && AllCodable(ll, d, ts) && 256 < |ll| <= 286 && ll[256] > 0 && |d| <= 30
    requires Optimal(LitFreq(ts)[256 := 1][..|ll|], ll, 15) && Optimal(DistFreq(ts)[..|d|], d, 15)
    ensures FewestBits(ll, d, ts)
  {
    hide Optimal, SymbolsBits, AllCodable, LitFreq, DistFreq, Fits;
    forall ll': seq<nat>, d': seq<nat> |
      Fits(ll', 15) && Fits(d', 15) && AllCodable(ll', d', ts) && 256 < |ll'| && ll'[256] > 0
      ensures |SymbolsBits(ll, d, ts)| <= |SymbolsBits(ll', d', ts)|
    {
      LeastFor(ll, d, ts, ll', d');
    }
  }

  lemma LeastFor(ll: seq<nat>, d: seq<nat>, ts: seq<Token>, ll': seq<nat>, d': seq<nat>)
    requires AllInRange(ts) && AllCodable(ll, d, ts) && 256 < |ll| <= 286 && ll[256] > 0 && |d| <= 30
    requires Optimal(LitFreq(ts)[256 := 1][..|ll|], ll, 15) && Optimal(DistFreq(ts)[..|d|], d, 15)
    requires Fits(ll', 15) && Fits(d', 15) && AllCodable(ll', d', ts) && 256 < |ll'| && ll'[256] > 0
    ensures |SymbolsBits(ll, d, ts)| <= |SymbolsBits(ll', d', ts)|
  {
    hide Optimal, SymbolsBits, AllCodable, LitFreq, DistFreq, Fits, SymbolBits, AllExtraBits;
    SymbolsLength(ll, d, ts);
    SymbolsLength(ll', d', ts);
    FreqCoded(ll, d, ts);
    FreqCoded(ll', d', ts);
    LeastBits(LitFreq(ts)[256 := 1], ll, ll', 15);
    LeastBits(DistFreq(ts), d, d', 15);
  }
}
