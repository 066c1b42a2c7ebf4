/** Key schedules: computed in advance, and on the fly in both directions. */
module AesKeys {
  import opened Powers
  import opened AesField
  import opened AesRounds
  import opened AesCipher

  /** 128, 192 or 256 bits. */
  predicate KeySize(n: nat) { n == 16 || n == 24 || n == 32 }

  /** Byte j of the expanded key, which may be continued as far as needed: section 5.2 of FIPS 197. */
  function KeyByte(key: seq<Byte>, j: nat): Byte
    requires KeySize(|key|)
    decreases j, 1
  {
    var n := |key|;
    if j < n then key[j] else Xor(KeyByte(key, j - n), Temp(key, j - j % 4, j % 4))
  }

  /** What is added to byte b of the word one key length before the word at cc. */
  function Temp(key: seq<Byte>, cc: nat, b: nat): Byte
    requires KeySize(|key|) && cc >= |key| && b < 4
    decreases cc + b, 0
  {
    var n := |key|;
    if cc % n == 0 then
      if b == 0 then Xor(Sbox(KeyByte(key, cc - 3)), Double(1, cc / n - 1))
        else Sbox(KeyByte(key, if b == 3 then cc - 4 else cc - 3 + b))
    else if n > 24 && cc % n == 16 then Sbox(KeyByte(key, cc - 4 + b))
    else KeyByte(key, cc - 4 + b)
  }

  // ----- The key expansion in words: section 5.2 of FIPS 197 -----

  datatype Word = Word(b0: Byte, b1: Byte, b2: Byte, b3: Byte)

  /** Word i of a sequence of bytes. */
  function WordAt(w: seq<Byte>, i: nat): Word
    requires 4 * i + 4 <= |w|
  {
    Word(w[4 * i], w[4 * i + 1], w[4 * i + 2], w[4 * i + 3])
  }

  function XorWords(x: Word, y: Word): Word {
    Word(Xor(x.b0, y.b0), Xor(x.b1, y.b1), Xor(x.b2, y.b2), Xor(x.b3, y.b3))
  }

  function RotWord(x: Word): Word { Word(x.b1, x.b2, x.b3, x.b0) }

  function SubWord(x: Word): Word { Word(Sbox(x.b0), Sbox(x.b1), Sbox(x.b2), Sbox(x.b3)) }

  /** The round constants. */
  function Rcon(i: nat): Byte
    requires 1 <= i <= 10
  {
    [0x01, 0x02, 0x04, 0x08, 0x10, 0x20, 0x40, 0x80, 0x1b, 0x36][i - 1]
  }

  /** What word i adds to the word nk before it, made from the word before it. */
  function Added(nk: nat, i: nat, before: Word): Word
    requires nk > 0 && 1 <= i / nk <= 10
  {
    if i % nk == 0 then XorWords(SubWord(RotWord(before)), Word(Rcon(i / nk), 0, 0, 0))
    else if nk > 6 && i % nk == 4 then SubWord(before)
    else before
  }

  /** The expanded key, word by word. */
  ghost predicate Standard(key: seq<Byte>, w: seq<Byte>) {
    && KeySize(|key|) && |key| <= |w| <= 16 * (|key| / 4 + 7) && w[..|key|] == key
    && forall i: nat :: |key| / 4 <= i && 4 * i + 4 <= |w| ==> StandardWord(|key| / 4, w, i)
  }

  ghost predicate StandardWord(nk: nat, w: seq<Byte>, i: nat)
    requires 4 * i + 4 <= |w|
  {
    && 4 <= nk <= i && i / nk <= 10
    && WordAt(w, i) == XorWords(WordAt(w, i - nk), Added(nk, i, WordAt(w, i - 1)))
  }

  lemma ExpandedStandard(key: seq<Byte>, w: seq<Byte>)
    requires Expanded(key, w) && |key| <= |w| <= 16 * (|key| / 4 + 7)
    ensures Standard(key, w)
  {
    hide KeyByte, StandardWord;
    KeyStart(key);
    forall i: nat | |key| / 4 <= i && 4 * i + 4 <= |w|
      ensures StandardWord(|key| / 4, w, i)
    {
      ExpandedAt(key, w, i);
    }
  }

  lemma ExpandedAt(key: seq<Byte>, w: seq<Byte>, i: nat)
    requires Expanded(key, w) && |w| <= 16 * (|key| / 4 + 7) && |key| / 4 <= i && 4 * i + 4 <= |w|
    ensures StandardWord(|key| / 4, w, i)
  {
    hide KeyByte, Temp, Xor, Sbox, Double, Rcon;
    var n, nk := |key|, |key| / 4;
    Quarters(i, nk);
    ExpandedWord(key, 4 * i);
    TempIs(key, w, i);
    XorCancels(Sbox(w[4 * i - 2]));
    XorCancels(Sbox(w[4 * i - 1]));
    XorCancels(Sbox(w[4 * i - 4]));
  }

  /** Words are counted in fours. */
  lemma Quarters(i: nat, nk: nat)
    requires nk == 4 || nk == 6 || nk == 8
    requires nk <= i < 4 * (nk + 7)
    ensures (4 * i) % (4 * nk) == 4 * (i % nk) && (4 * i) / (4 * nk) == i / nk && 1 <= i / nk <= 10
  {
    if nk == 4 {
      Quarters4(i);
    } else if nk == 6 {
      Quarters6(i);
    } else {
      Quarters8(i);
    }
  }

  lemma Quarters4(i: nat)
    requires 4 <= i < 44
    ensures (4 * i) % 16 == 4 * (i % 4) && (4 * i) / 16 == i / 4 && 1 <= i / 4 <= 10
  {
  }

  lemma Quarters6(i: nat)
    requires 6 <= i < 52
    ensures (4 * i) % 24 == 4 * (i % 6) && (4 * i) / 24 == i / 6 && 1 <= i / 6 <= 10
  {
  }

  lemma Quarters8(i: nat)
    requires 8 <= i < 60
    ensures (4 * i) % 32 == 4 * (i % 8) && (4 * i) / 32 == i / 8 && 1 <= i / 8 <= 10
  {
  }

  lemma TempIs(key: seq<Byte>, w: seq<Byte>, i: nat)
    requires Expanded(key, w) && |w| <= 16 * (|key| / 4 + 7) && |key| / 4 <= i && 4 * i + 4 <= |w|
    requires 1 <= i / (|key| / 4) <= 10
    ensures var t := Added(|key| / 4, i, WordAt(w, i - 1));
            && Temp(key, 4 * i, 0) == t.b0 && Temp(key, 4 * i, 1) == t.b1
            && Temp(key, 4 * i, 2) == t.b2 && Temp(key, 4 * i, 3) == t.b3
  {
    hide KeyByte, Xor, Sbox, Double, Rcon;
    var nk := |key| / 4;
    Quarters(i, nk);
    RconIs(i / nk);
    TempBytes(key, w, 4 * i, i % nk, i / nk);
    XorCancels(Sbox(w[4 * i - 2]));
    XorCancels(Sbox(w[4 * i - 1]));
    XorCancels(Sbox(w[4 * i - 4]));
  }

  /** The bytes added to the word at cc, which is word r of the q-th group. */
  lemma TempBytes(key: seq<Byte>, w: seq<Byte>, cc: nat, r: nat, q: nat)
    requires Expanded(key, w) && |key| <= cc && cc <= |w| && 4 <= cc
    requires cc % |key| == 4 * r && cc / |key| == q && q >= 1
    ensures r == 0 ==>
              && Temp(key, cc, 0) == Xor(Sbox(w[cc - 3]), Double(1, q - 1)) && Temp(key, cc, 1) == Sbox(w[cc - 2])
              && Temp(key, cc, 2) == Sbox(w[cc - 1]) && Temp(key, cc, 3) == Sbox(w[cc - 4])
    ensures r == 4 && |key| > 24 ==>
              && Temp(key, cc, 0) == Sbox(w[cc - 4]) && Temp(key, cc, 1) == Sbox(w[cc - 3])
              && Temp(key, cc, 2) == Sbox(w[cc - 2]) && Temp(key, cc, 3) == Sbox(w[cc - 1])
    ensures r > 0 && !(r == 4 && |key| > 24) ==>
              && Temp(key, cc, 0) == w[cc - 4] && Temp(key, cc, 1) == w[cc - 3]
              && Temp(key, cc, 2) == w[cc - 2] && Temp(key, cc, 3) == w[cc - 1]
  {
    hide KeyByte, Xor, Sbox, Double;
  }

  lemma RconIs(i: nat)
    requires 1 <= i <= 10
    ensures Rcon(i) == Double(1, i - 1)
  {
    assert Double(1, 2) == 4;
    assert Double(1, 4) == 16;
    assert Double(1, 6) == 64;
    assert Double(1, 8) == 0x1b;
  }

  // ----- aes_set_key -----

  /** The key lengths that are accepted, in bytes or in bits; 256 bits only as 32 bytes. */
  function KeyBytes(keylen: nat): nat {
    if keylen == 16 || keylen == 128 then 16
    else if keylen == 24 || keylen == 192 then 24
    else if keylen == 32 then 32
    else 0
  }

  method SetKey(key: seq<Byte>, keylen: nat) returns (ok: bool, ksch: seq<Byte>, rnd: nat)
    requires |key| == KeyBytes(keylen)
    ensures ok <==> keylen in {16, 128, 24, 192, 32}
    ensures !ok ==> rnd == 0
    ensures ok ==> rnd == |key| / 4 + 6 && |ksch| == 16 * (rnd + 1) && Expanded(key, ksch)
    ensures ok ==> Standard(key, ksch)
  {
    hide KeyByte, Double, Standard;
    var n := KeyBytes(keylen);
    if n == 0 {
      return false, [], 0;
    }
    ksch := key;
    var hi := (n + 28) * 4;
    rnd := hi / 16 - 1;
    KeyStart(key);
    var cc, rc: Byte := n, 1;
    RcStart(n);
    while cc < hi
      invariant n <= cc <= hi && cc % 4 == 0 && |ksch| == cc
      invariant Expanded(key, ksch) && rc == Double(1, (cc - 1) / n)
    {
      ksch, rc := AddWord(key, ksch, cc, rc);
      cc := cc + 4;
    }
    ok := true;
    ExpandedStandard(key, ksch);
  }

  ghost predicate Expanded(key: seq<Byte>, ksch: seq<Byte>) {
    KeySize(|key|) && forall j :: 0 <= j < |ksch| ==> ksch[j] == KeyByte(key, j)
  }

  /** One turn of the loop: the word at cc. */
  method AddWord(key: seq<Byte>, ksch: seq<Byte>, cc: nat, rc: Byte) returns (ksch': seq<Byte>, rc': Byte)
    requires KeySize(|key|) && cc >= |key| && cc % 4 == 0 && |ksch| == cc && Expanded(key, ksch)
    requires rc == Double(1, (cc - 1) / |key|)
    ensures |ksch'| == cc + 4 && Expanded(key, ksch') && rc' == Double(1, (cc + 3) / |key|)
  {
    hide Sbox, Xor, KeyByte, Temp, F2, Double, Times2;
    var n := |key|;
    var t0, t1, t2, t3 := KeyTemp(key, ksch, cc, rc);
    Constants(cc, n);
    NextConstant((cc - 1) / n);
    rc' := rc;
    if cc % n == 0 {
      rc' := F2(rc);
    }
    var tt := cc - n;
    ExpandedWord(key, cc);
    ksch' := ksch + [Xor(ksch[tt], t0), Xor(ksch[tt + 1], t1), Xor(ksch[tt + 2], t2), Xor(ksch[tt + 3], t3)];
  }

  /** The four bytes that go into the word at cc. */
  method KeyTemp(key: seq<Byte>, ksch: seq<Byte>, cc: nat, rc: Byte) returns (t0: Byte, t1: Byte, t2: Byte, t3: Byte)
    requires KeySize(|key|) && cc >= |key| && cc % 4 == 0 && |ksch| == cc && forall j :: 0 <= j < cc ==>
               ksch[j] == KeyByte(key, j)
    requires rc == Double(1, (cc - 1) / |key|)
    ensures t0 == Temp(key, cc, 0) && t1 == Temp(key, cc, 1) && t2 == Temp(key, cc, 2) && t3 == Temp(key, cc, 3)
  {
    hide Sbox, Xor, KeyByte, Double;
    var n := |key|;
    Constants(cc, n);
    t0, t1, t2, t3 := ksch[cc - 4], ksch[cc - 3], ksch[cc - 2], ksch[cc - 1];
    if cc % n == 0 {
      t0, t1, t2, t3 := Xor(Sbox(t1), rc), Sbox(t2), Sbox(t3), Sbox(t0);
    } else if n > 24 && cc % n == 16 {
      t0, t1, t2, t3 := Sbox(t0), Sbox(t1), Sbox(t2), Sbox(t3);
    }
  }

  lemma NextConstant(i: nat)
    ensures Double(1, i + 1) == F2(Double(1, i))
  {
    hide Times2, F2;
  }

  lemma KeyStart(key: seq<Byte>)
    requires KeySize(|key|)
    ensures forall j :: 0 <= j < |key| ==> KeyByte(key, j) == key[j]
  {
  }

  lemma RcStart(n: nat)
    requires n > 0
    ensures (n - 1) / n == 0 && Double(1, 0) == 1
  {
  }

  lemma ExpandedWord(key: seq<Byte>, cc: nat)
    requires KeySize(|key|) && cc >= |key| && cc % 4 == 0
    ensures forall b :: 0 <= b < 4 ==> KeyByte(key, cc + b) == Xor(KeyByte(key, cc - |key| + b), Temp(key, cc, b))
  {
    hide Xor, Temp;
    forall b | 0 <= b < 4
      ensures KeyByte(key, cc + b) == Xor(KeyByte(key, cc - |key| + b), Temp(key, cc, b))
    {
      assert (cc + b) % 4 == b;
    }
  }

  lemma Constants(cc: nat, n: nat)
    requires KeySize(n) && cc >= n && cc % 4 == 0
    ensures if cc % n == 0 then (cc - 1) / n == cc / n - 1 && (cc + 3) / n == cc / n
              else (cc - 1) / n == (cc + 3) / n == cc / n
  {
    var q, r := cc / n, cc % n;
    DivMod(cc, n);
    DivAtLeast(cc, n, 1);
    InFours(n / 4, q);
    FourStep(cc, n / 4 * q, r);
    if r == 0 {
      assert n * (q - 1) == n * q - n;
      DivUnique(cc - 1, n, q - 1, n - 1);
      DivUnique(cc + 3, n, q, 3);
    } else {
      DivUnique(cc - 1, n, q, r - 1);
      DivUnique(cc + 3, n, q, r + 3);
    }
  }

  lemma InFours(m: nat, q: nat)
    ensures 4 * m * q == 4 * (m * q)
  {
  }

  lemma FourStep(cc: nat, fours: nat, r: nat)
    requires cc == 4 * fours + r && cc % 4 == 0
    ensures r % 4 == 0
  {
  }

  // ----- On-the-fly keys -----

  /** Byte j of the next key of n bytes, from the current one. */
  function NextByte(k: seq<Byte>, rc: Byte, j: nat): Byte
    requires (|k| == 16 || |k| == 32) && j < |k|
  {
    var n := |k|;
    if j == 0 then Xor(k[0], Xor(Sbox(k[n - 3]), rc))
    else if j < 4 then Xor(k[j], Sbox(k[if j == 3 then n - 4 else n - 3 + j]))
    else if 16 <= j < 20 then Xor(k[j], Sbox(NextByte(k, rc, j - 4)))
    else Xor(k[j], NextByte(k, rc, j - 4))
  }

  function NextKey(k: seq<Byte>, rc: Byte): (r: seq<Byte>)
    requires |k| == 16 || |k| == 32
    ensures |r| == |k|
  {
    seq(|k|, j requires 0 <= j < |k| => NextByte(k, rc, j))
  }

  /** update_encrypt_key_128 and update_encrypt_key_256 */
  method UpdateEncryptKey(k: array<Byte>, rc: Byte) returns (rc': Byte)
    requires k.Length == 16 || k.Length == 32
    modifies k
    ensures k[..] == NextKey(old(k[..]), rc) && rc' == F2(rc)
  {
    hide Sbox, Xor, F2;
    var n := k.Length;
    ghost var was := k[..];
    FirstWord(k, rc);
    rc' := F2(rc);
    for j := 4 to n
      invariant forall i :: 0 <= i < j ==> k[i] == NextByte(was, rc, i)
      invariant forall i :: j <= i < n ==> k[i] == was[i]
    {
      if 16 <= j < 20 {
        k[j] := Xor(k[j], Sbox(k[j - 4]));
      } else {
        k[j] := Xor(k[j], k[j - 4]);
      }
    }
  }

  method FirstWord(k: array<Byte>, rc: Byte)
    requires k.Length == 16 || k.Length == 32
    modifies k
    ensures forall i :: 0 <= i < 4 ==> k[i] == NextByte(old(k[..]), rc, i)
    ensures forall i :: 4 <= i < k.Length ==> k[i] == old(k[i])
  {
    hide Sbox, Xor;
    var n := k.Length;
    k[0] := Xor(k[0], Xor(Sbox(k[n - 3]), rc));
    k[1] := Xor(k[1], Sbox(k[n - 2]));
    k[2] := Xor(k[2], Sbox(k[n - 1]));
    k[3] := Xor(k[3], Sbox(k[n - 4]));
  }

  lemma XorTwice(x: Byte, y: Byte)
    ensures Xor(Xor(x, y), y) == x
  {
    hide Xor;
    XorAssociates(x, y, y);
    XorCancels(y);
    XorCancels(x);
  }

  /**
   * update_decrypt_key_128 and update_decrypt_key_256: from the next key and constant back to the key and constant
   * they came from
   */
  method UpdateDecryptKey(k: array<Byte>, rc: Byte, ghost key: seq<Byte>, ghost rc0: Byte) returns (rc': Byte)
    requires (|key| == 16 || |key| == 32) && k.Length == |key| && k[..] == NextKey(key, rc0) && rc == F2(rc0)
    modifies k
    ensures k[..] == key && rc' == rc0
  {
    hide Sbox, Xor, F2, D2;
    var n := k.Length;
    var j := n;
    while j > 4
      invariant 4 <= j <= n
      invariant forall i :: 0 <= i < j ==> k[i] == NextByte(key, rc0, i)
      invariant forall i :: j <= i < n ==> k[i] == key[i]
    {
      j := j - 1;
      if 16 <= j < 20 {
        XorTwice(key[j], Sbox(k[j - 4]));
        k[j] := Xor(k[j], Sbox(k[j - 4]));
      } else {
        XorTwice(key[j], k[j - 4]);
        k[j] := Xor(k[j], k[j - 4]);
      }
    }
    HalfOfDouble(rc0);
    rc' := D2(rc);
    FirstWordBack(k, rc', key);
  }

  /** The first four bytes, once the others are back. */
  method FirstWordBack(k: array<Byte>, rc: Byte, ghost key: seq<Byte>)
    requires (|key| == 16 || |key| == 32) && k.Length == |key|
    requires forall i :: 0 <= i < 4 ==> k[i] == NextByte(key, rc, i)
    requires forall i :: 4 <= i < |key| ==> k[i] == key[i]
    modifies k
    ensures k[..] == key
  {
    hide Sbox, Xor;
    var n := k.Length;
    XorTwice(key[0], Xor(Sbox(key[n - 3]), rc));
    XorTwice(key[1], Sbox(key[n - 2]));
    XorTwice(key[2], Sbox(key[n - 1]));
    XorTwice(key[3], Sbox(key[n - 4]));
    k[0] := Xor(k[0], Xor(Sbox(k[n - 3]), rc));
    k[1] := Xor(k[1], Sbox(k[n - 2]));
    k[2] := Xor(k[2], Sbox(k[n - 1]));
    k[3] := Xor(k[3], Sbox(k[n - 4]));
  }

  // ----- They are slices of the expanded key -----

  /** The r-th key of |key| bytes in the expanded key. */
  function Window(key: seq<Byte>, r: nat): (w: seq<Byte>)
    requires KeySize(|key|)
    ensures |w| == |key|
  {
    seq(|key|, i requires 0 <= i < |key| => KeyByte(key, KeyStartAt(|key|, r) + i))
  }

  function KeyStartAt(n: nat, r: nat): nat { n * r }

  lemma KeyStarts(n: nat, r: nat)
    requires n == 16 || n == 32
    ensures KeyStartAt(n, r + 1) == KeyStartAt(n, r) + n && KeyStartAt(n, 0) == 0
    ensures KeyStartAt(n, r) % n == 0 && KeyStartAt(n, r) / n == r
  {
    if n == 16 {
      assert n * r == 16 * r;
    } else {
      assert n * r == 32 * r;
    }
  }

  /** Where a byte stands in its word and in its key. */
  lemma Place(n: nat, at: nat, j: nat)
    requires (n == 16 || n == 32) && j < n && at % n == 0
    ensures var p, cc := at + j, at + (j - j % 4);
            p % 4 == j % 4 && p - p % 4 == cc && cc % n == j - j % 4 && cc / n == at / n
  {
    if n == 16 {
      PlaceIn16(at / 16, j - j % 4);
      InWord(4 * (at / 16), j);
    } else {
      PlaceIn32(at / 32, j - j % 4);
      InWord(8 * (at / 32), j);
    }
  }

  lemma InWord(w: nat, j: nat)
    ensures (4 * w + j) % 4 == j % 4
  {
  }

  lemma PlaceIn16(q: nat, i: nat)
    requires i < 16
    ensures (16 * q + i) % 16 == i && (16 * q + i) / 16 == q
  {
  }

  lemma PlaceIn32(q: nat, i: nat)
    requires i < 32
    ensures (32 * q + i) % 32 == i && (32 * q + i) / 32 == q
  {
  }

  lemma {:induction false} WindowByte(key: seq<Byte>, r: nat, j: nat)
    requires (|key| == 16 || |key| == 32) && j < |key|
    ensures NextByte(Window(key, r), Double(1, r), j) == KeyByte(key, KeyStartAt(|key|, r + 1) + j)
  {
    hide Sbox, Xor, Double, KeyStartAt, KeyByte, Temp;
    var n, at := |key|, KeyStartAt(|key|, r + 1);
    KeyStarts(n, r);
    KeyStarts(n, r + 1);
    Place(n, at, j);
    Step(key, at + j);
    TempAt(key, at, j);
    if j >= 4 {
      WindowByte(key, r, j - 4);
    }
  }

  lemma TempAt(key: seq<Byte>, at: nat, j: nat)
    requires (|key| == 16 || |key| == 32) && j < |key| && at >= |key| && at % |key| == 0
    ensures var n, b := |key|, j % 4;
            Temp(key, at + (j - b), b) ==
            if j == 0 then Xor(Sbox(KeyByte(key, at - 3)), Double(1, at / n - 1))
            else if j < 4 then Sbox(KeyByte(key, if j == 3 then at - 4 else at - 3 + j))
            else if 16 <= j < 20 then Sbox(KeyByte(key, at + j - 4))
            else KeyByte(key, at + j - 4)
  {
    hide Sbox, Xor, Double, KeyByte;
    Place(|key|, at, j);
  }

  lemma Step(key: seq<Byte>, j: nat)
    requires KeySize(|key|) && j >= |key|
    ensures KeyByte(key, j) == Xor(KeyByte(key, j - |key|), Temp(key, j - j % 4, j % 4))
  {
  }

  /** Each update of the key is the next slice of the expanded key. */
  lemma NextWindow(key: seq<Byte>, r: nat)
    requires |key| == 16 || |key| == 32
    ensures NextKey(Window(key, r), Double(1, r)) == Window(key, r + 1)
  {
    hide KeyByte, NextByte, Double, KeyStartAt;
    forall j | 0 <= j < |key|
      ensures NextByte(Window(key, r), Double(1, r), j) == KeyByte(key, KeyStartAt(|key|, r + 1) + j)
    {
      WindowByte(key, r, j);
    }
  }

  lemma FirstWindow(key: seq<Byte>)
    requires KeySize(|key|)
    ensures Window(key, 0) == key
  {
    assert KeyStartAt(|key|, 0) == 0;
    KeyStart(key);
  }

  // ----- Encryption and decryption with on-the-fly keys -----

  /** Round key r of the expanded key. */
  function RoundKey(key: seq<Byte>, r: nat): State
    requires KeySize(|key|)
  {
    seq(16, i requires 0 <= i < 16 => KeyByte(key, 16 * r + i))
  }

  function RoundKeys(key: seq<Byte>, rounds: nat): (keys: seq<State>)
    requires KeySize(|key|)
    ensures |keys| == rounds + 1
  {
    seq(rounds + 1, r requires 0 <= r <= rounds => RoundKey(key, r))
  }

  /** The schedule aes_set_key computes holds these round keys. */
  lemma ScheduleKeys(key: seq<Byte>, ksch: seq<Byte>, rounds: nat)
    requires Expanded(key, ksch) && |ksch| == 16 * (rounds + 1)
    ensures KeysOf(ksch, rounds) == RoundKeys(key, rounds)
  {
    hide KeyByte;
    forall r | 0 <= r <= rounds
      ensures KeysOf(ksch, rounds)[r] == RoundKey(key, r)
    {
      var slice := ksch[16 * r..16 * r + 16];
      assert forall i :: 0 <= i < 16 ==> slice[i] == KeyByte(key, 16 * r + i);
    }
  }

  lemma Window128(key: State, r: nat)
    ensures Window(key, r) == RoundKey(key, r)
  {
    hide KeyByte;
    assert KeyStartAt(16, r) == 16 * r;
  }

  lemma Window256(key: seq<Byte>, r: nat)
    requires |key| == 32
    ensures Window(key, r)[..16] == RoundKey(key, 2 * r) && Window(key, r)[16..] == RoundKey(key, 2 * r + 1)
  {
    hide KeyByte;
    assert KeyStartAt(32, r) == 32 * r;
  }

  /** aes_encrypt_128: the same as with the schedule computed in advance; the key becomes the last round key */
  method Encrypt128(input: State, key: State) returns (out: State, oKey: State)
    ensures out == Cipher(input, RoundKeys(key, 10)) && oKey == Window(key, 10)
  {
    hide AddKey, SubBytes, ShiftRows, MixColumns, Window, RoundKey, Double, NextKey, F2;
    ghost var keys := RoundKeys(key, 10);
    var k := NewState(key);
    FirstWindow(key);
    Window128(key, 0);
    var s1 := NewState(AddKey(input, key));
    var rc: Byte := 1;
    RcStart(1);
    for r := 1 to 10
      invariant s1[..] == EncRounds(input, keys, r - 1) && k[..] == Window(key, r - 1) && rc == Double(1, r - 1)
    {
      MixSubColumns(s1);
      rc := NextRoundKey(k, key, r - 1, rc);
      Window128(key, r);
      AddRoundKey(s1, k[..]);
    }
    ShiftSubRows(s1);
    rc := NextRoundKey(k, key, 9, rc);
    Window128(key, 10);
    out, oKey := AddKey(s1[..], k[..]), k[..];
  }

  /** One update, seen from the original key. */
  method NextRoundKey(k: array<Byte>, ghost key: seq<Byte>, ghost r: nat, rc: Byte) returns (rc': Byte)
    requires (|key| == 16 || |key| == 32) && k.Length == |key| && k[..] == Window(key, r) && rc == Double(1, r)
    modifies k
    ensures k[..] == Window(key, r + 1) && rc' == Double(1, r + 1)
  {
    hide Window, NextKey, Double, F2;
    NextWindow(key, r);
    NextConstant(r);
    rc' := UpdateEncryptKey(k, rc);
  }

  method LastRoundKey(k: array<Byte>, ghost key: seq<Byte>, ghost r: nat, rc: Byte) returns (rc': Byte)
    requires (|key| == 16 || |key| == 32) && k.Length == |key| && k[..] == Window(key, r + 1) && rc == Double(1, r + 1)
    modifies k
    ensures k[..] == Window(key, r) && rc' == Double(1, r)
  {
    hide Window, NextKey, Double, F2;
    NextWindow(key, r);
    NextConstant(r);
    rc' := UpdateDecryptKey(k, rc, Window(key, r), Double(1, r));
  }

  lemma ConstantsAre()
    ensures Double(1, 10) == 0x6c && Double(1, 7) == 0x80
  {
    hide Double;
    RcStart(1);
    NextConstant(0);
    NextConstant(1);
    NextConstant(2);
    NextConstant(3);
    NextConstant(4);
    NextConstant(5);
    NextConstant(6);
    NextConstant(7);
    NextConstant(8);
    NextConstant(9);
    Doubling();
  }

  lemma Doubling()
    ensures F2(1) == 2 && F2(2) == 4 && F2(4) == 8 && F2(8) == 16 && F2(16) == 32 && F2(32) == 64 && F2(64) == 0x80
    ensures F2(0x80) == 0x1b && F2(0x1b) == 0x36 && F2(0x36) == 0x6c
  {
  }

  /** aes_decrypt_128, given the key that encryption left: it recovers the block and the original key */
  method Decrypt128(input: State, oKey: State, ghost key: State) returns (out: State, back: State)
    requires oKey == Window(key, 10)
    ensures out == InvCipher(input, RoundKeys(key, 10)) && back == key
  {
    hide AddKey, InvSubBytes, InvShiftRows, InvMixColumns, Window, RoundKey, Double, F2;
    ghost var keys := RoundKeys(key, 10);
    var k := NewState(oKey);
    ConstantsAre();
    Window128(key, 10);
    var s1 := NewState(AddKey(input, oKey));
    InvShiftSubRows(s1);
    var rc: Byte := 0x6c;
    var r := 9;
    while r > 0
      invariant 0 <= r <= 9 && s1[..] == DecRounds(input, keys, r) && k[..] == Window(key, r + 1)
      invariant rc == Double(1, r + 1)
    {
      rc := LastRoundKey(k, key, r, rc);
      Window128(key, r);
      AddRoundKey(s1, k[..]);
      InvMixSubColumns(s1);
      r := r - 1;
    }
    rc := LastRoundKey(k, key, 0, rc);
    FirstWindow(key);
    Window128(key, 0);
    out, back := AddKey(s1[..], k[..]), k[..];
  }

  method NewKey(key: seq<Byte>) returns (k: array<Byte>)
    ensures fresh(k) && k[..] == key
  {
    k := new Byte[|key|](i requires 0 <= i < |key| => key[i]);
  }

  /** aes_encrypt_256: each update gives two round keys */
  method Encrypt256(input: State, key: seq<Byte>) returns (out: State, oKey: seq<Byte>)
    requires |key| == 32
    ensures out == Cipher(input, RoundKeys(key, 14)) && oKey == Window(key, 7)
  {
    hide AddKey, SubBytes, ShiftRows, MixColumns, Window, RoundKey, Double, NextKey, F2;
    ghost var keys := RoundKeys(key, 14);
    var k := NewKey(key);
    FirstWindow(key);
    Window256(key, 0);
    var s1 := NewState(AddKey(input, k[..16]));
    var rc: Byte := 1;
    RcStart(1);
    for r := 1 to 14
      invariant s1[..] == EncRounds(input, keys, r - 1) && k[..] == Window(key, (r - 1) / 2)
      invariant rc == Double(1, (r - 1) / 2)
      invariant k.Length == 32
    {
      MixSubColumns(s1);
      if r % 2 == 1 {
        Window256(key, (r - 1) / 2);
        AddRoundKey(s1, k[16..]);
      } else {
        rc := NextRoundKey(k, key, r / 2 - 1, rc);
        Window256(key, r / 2);
        AddRoundKey(s1, k[..16]);
      }
    }
    ShiftSubRows(s1);
    rc := NextRoundKey(k, key, 6, rc);
    Window256(key, 7);
    out, oKey := AddKey(s1[..], k[..16]), k[..];
  }

  /** aes_decrypt_256 */
  method Decrypt256(input: State, oKey: seq<Byte>, ghost key: seq<Byte>) returns (out: State, back: seq<Byte>)
    requires |key| == 32 && oKey == Window(key, 7)
    ensures out == InvCipher(input, RoundKeys(key, 14)) && back == key
  {
    hide AddKey, InvSubBytes, InvShiftRows, InvMixColumns, Window, RoundKey, Double, F2;
    ghost var keys := RoundKeys(key, 14);
    var k := NewKey(oKey);
    ConstantsAre();
    Window256(key, 7);
    var s1 := NewState(AddKey(input, k[..16]));
    InvShiftSubRows(s1);
    var rc: Byte := 0x80;
    var r := 13;
    while r > 0
      invariant 0 <= r <= 13 && s1[..] == DecRounds(input, keys, r)
      invariant k.Length == 32 && k[..] == Window(key, (r + 1) / 2) && rc == Double(1, (r + 1) / 2)
    {
      if r % 2 == 1 {
        rc := LastRoundKey(k, key, (r - 1) / 2, rc);
        Window256(key, (r - 1) / 2);
        AddRoundKey(s1, k[16..]);
      } else {
        Window256(key, r / 2);
        AddRoundKey(s1, k[..16]);
      }
      InvMixSubColumns(s1);
      r := r - 1;
    }
    FirstWindow(key);
    Window256(key, 0);
    out, back := AddKey(s1[..], k[..16]), k[..];
  }

  /** All three ways of keying give the same ciphertext, and decryption recovers the block and the key. */
  method KeyingStylesAgree(input: State, key: seq<Byte>)
    returns (scheduled: State, onTheFly: State, plain: State, back: seq<Byte>)
    requires |key| == 16 || |key| == 32
    ensures scheduled == onTheFly && plain == input && back == key
  {
    hide Cipher, InvCipher, Window, RoundKeys, KeysOf;
    var ok, ksch, rnd := SetKey(key, |key|);
    ScheduleKeys(key, ksch, rnd);
    ok, scheduled := Encrypt(input, ksch, rnd);
    CipherInverse(input, RoundKeys(key, rnd));
    var oKey: seq<Byte>;
    if |key| == 16 {
      onTheFly, oKey := Encrypt128(input, key);
      plain, back := Decrypt128(onTheFly, oKey, key);
    } else {
      onTheFly, oKey := Encrypt256(input, key);
      plain, back := Decrypt256(onTheFly, oKey, key);
    }
  }
}
