/** The block cipher and its CBC mode, with round keys computed in advance. */
module AesCipher {
  import opened AesField
  import opened AesRounds

  // ----- The cipher: sections 5.1 and 5.3 of FIPS 197 -----

  /** The state after r rounds. */
  function EncRounds(s: State, keys: seq<State>, r: nat): State
    requires r < |keys|
  {
    if r == 0 then AddKey(s, keys[0]) else AddKey(MixColumns(ShiftRows(SubBytes(EncRounds(s, keys, r - 1)))), keys[r])
  }

  function Cipher(s: State, keys: seq<State>): State
    requires |keys| >= 2
  {
    var last := |keys| - 1;
    AddKey(ShiftRows(SubBytes(EncRounds(s, keys, last - 1))), keys[last])
  }

  /** The state after undoing the rounds down to round r + 1. */
  function DecRounds(s: State, keys: seq<State>, r: nat): State
    requires r + 1 < |keys|
    decreases |keys| - r
  {
    if r + 2 == |keys| then InvSubBytes(InvShiftRows(AddKey(s, keys[r + 1])))
    else InvSubBytes(InvShiftRows(InvMixColumns(AddKey(DecRounds(s, keys, r + 1), keys[r + 1]))))
  }

  function InvCipher(s: State, keys: seq<State>): State
    requires |keys| >= 2
  {
    AddKey(DecRounds(s, keys, 0), keys[0])
  }

  lemma RoundInverse(s: State)
    ensures InvSubBytes(InvShiftRows(ShiftRows(SubBytes(s)))) == s
    ensures InvSubBytes(InvShiftRows(InvMixColumns(MixColumns(ShiftRows(SubBytes(s)))))) == s
  {
    hide SubBytes, InvSubBytes, ShiftRows, InvShiftRows, MixColumns, InvMixColumns;
    SubInverse(s);
    ShiftInverse(SubBytes(s));
    MixColumnsInverse(ShiftRows(SubBytes(s)));
  }

  /** Undoing the rounds goes through the states of the encryption in reverse. */
  lemma {:induction false} RoundsInverse(s: State, keys: seq<State>, r: nat)
    requires |keys| >= 2 && r + 1 < |keys|
    ensures DecRounds(Cipher(s, keys), keys, r) == EncRounds(s, keys, r)
    decreases |keys| - r
  {
    hide AddKey, SubBytes, InvSubBytes, ShiftRows, InvShiftRows, MixColumns, InvMixColumns;
    var e := EncRounds(s, keys, r);
    RoundInverse(e);
    if r + 2 == |keys| {
      KeyInverse(ShiftRows(SubBytes(e)), keys[r + 1]);
    } else {
      RoundsInverse(s, keys, r + 1);
      KeyInverse(MixColumns(ShiftRows(SubBytes(e))), keys[r + 1]);
    }
  }

  /** Decryption undoes encryption, whatever the round keys are. */
  lemma CipherInverse(s: State, keys: seq<State>)
    requires |keys| >= 2
    ensures InvCipher(Cipher(s, keys), keys) == s
  {
    hide AddKey, Cipher, DecRounds;
    RoundsInverse(s, keys, 0);
    KeyInverse(s, keys[0]);
  }

  // ----- aes_encrypt and aes_decrypt -----

  /** The round keys in a schedule. */
  function KeysOf(ksch: seq<Byte>, rounds: nat): (keys: seq<State>)
    requires 16 * (rounds + 1) <= |ksch|
    ensures |keys| == rounds + 1
  {
    seq(rounds + 1, r requires 0 <= r <= rounds => ksch[16 * r..16 * r + 16])
  }

  /** add_round_key and xor_block */
  method AddRoundKey(d: array<Byte>, k: State)
    requires d.Length == 16
    modifies d
    ensures d[..] == AddKey(old(d[..]), k)
  {
    hide Xor;
    for i := 0 to 16
      invariant forall j :: 0 <= j < i ==> d[j] == Xor(old(d[j]), k[j])
      invariant forall j :: i <= j < 16 ==> d[j] == old(d[j])
    {
      d[i] := Xor(d[i], k[i]);
    }
  }

  method NewState(s: State) returns (st: array<Byte>)
    ensures fresh(st) && st.Length == 16 && st[..] == s
  {
    st := new Byte[16](i requires 0 <= i < 16 => s[i]);
  }

  /** aes_encrypt: a context without rounds is refused */
  method Encrypt(input: State, ksch: seq<Byte>, rnd: nat) returns (ok: bool, out: State)
    requires 16 * (rnd + 1) <= |ksch|
    ensures ok <==> rnd > 0
    ensures ok ==> out == Cipher(input, KeysOf(ksch, rnd))
  {
    hide AddKey, SubBytes, ShiftRows, MixColumns;
    if rnd == 0 {
      return false, input;
    }
    ghost var keys := KeysOf(ksch, rnd);
    var s1 := NewState(AddKey(input, ksch[0..16]));
    assert keys[0] == ksch[0..16];
    var r := 1;
    while r < rnd
      invariant 1 <= r <= rnd && s1[..] == EncRounds(input, keys, r - 1)
    {
      MixSubColumns(s1);
      AddRoundKey(s1, ksch[16 * r..16 * r + 16]);
      r := r + 1;
    }
    ShiftSubRows(s1);
    out := AddKey(s1[..], ksch[16 * r..16 * r + 16]);
    ok := true;
  }

  /** aes_decrypt */
  method Decrypt(input: State, ksch: seq<Byte>, rnd: nat) returns (ok: bool, out: State)
    requires 16 * (rnd + 1) <= |ksch|
    ensures ok <==> rnd > 0
    ensures ok ==> out == InvCipher(input, KeysOf(ksch, rnd))
  {
    hide AddKey, InvSubBytes, InvShiftRows, InvMixColumns;
    if rnd == 0 {
      return false, input;
    }
    ghost var keys := KeysOf(ksch, rnd);
    var s1 := NewState(AddKey(input, ksch[16 * rnd..16 * rnd + 16]));
    InvShiftSubRows(s1);
    var r := rnd - 1;
    while r > 0
      invariant 0 <= r < rnd && s1[..] == DecRounds(input, keys, r)
    {
      AddRoundKey(s1, ksch[16 * r..16 * r + 16]);
      InvMixSubColumns(s1);
      r := r - 1;
    }
    out := AddKey(s1[..], ksch[0..16]);
    assert keys[0] == ksch[0..16];
    ok := true;
  }

  // ----- Cipher block chaining -----

  function Block(data: seq<Byte>, i: nat): State
    requires 16 * i + 16 <= |data|
  {
    data[16 * i..16 * i + 16]
  }

  /** Ciphertext block i - 1, or the initial vector. */
  function ChainValue(data: seq<Byte>, iv: State, keys: seq<State>, i: nat): State
    requires 16 * i <= |data| && |keys| >= 2
    decreases i, 0
  {
    if i == 0 then iv else CipherBlock(data, iv, keys, i - 1)
  }

  function CipherBlock(data: seq<Byte>, iv: State, keys: seq<State>, i: nat): State
    requires 16 * i + 16 <= |data| && |keys| >= 2
    decreases i, 1
  {
    Cipher(AddKey(ChainValue(data, iv, keys, i), Block(data, i)), keys)
  }

  /** `out` holds the first n ciphertext blocks. */
  ghost predicate Encrypted(out: seq<Byte>, data: seq<Byte>, iv: State, keys: seq<State>, n: nat)
    requires |keys| >= 2
  {
    16 * n <= |data| && 16 * n <= |out| && forall i :: 0 <= i < n ==> Block(out, i) == CipherBlock(data, iv, keys, i)
  }

  /** The block of ciphertext before block i. */
  function Previous(data: seq<Byte>, iv: State, i: nat): State
    requires 16 * i <= |data|
  {
    if i == 0 then iv else Block(data, i - 1)
  }

  function PlainBlock(data: seq<Byte>, iv: State, keys: seq<State>, i: nat): State
    requires 16 * i + 16 <= |data| && |keys| >= 2
  {
    AddKey(InvCipher(Block(data, i), keys), Previous(data, iv, i))
  }

  ghost predicate Decrypted(out: seq<Byte>, data: seq<Byte>, iv: State, keys: seq<State>, n: nat)
    requires |keys| >= 2
  {
    16 * n <= |data| && 16 * n <= |out| && forall i :: 0 <= i < n ==> Block(out, i) == PlainBlock(data, iv, keys, i)
  }

  /** A block written after the others leaves them and the blocks still to be read. */
  lemma BlocksKept(was: seq<Byte>, now: seq<Byte>, i: nat, j: nat)
    requires |was| == |now| && 16 * j + 16 <= |was| && 16 * i + 16 <= |was| && i != j
    requires forall k :: 0 <= k < |was| && (k < 16 * j || k >= 16 * j + 16) ==> now[k] == was[k]
    ensures Block(now, i) == Block(was, i)
  {
  }

  /** memcpy of one block */
  method WriteBlock(out: array<Byte>, i: nat, b: State)
    requires 16 * i + 16 <= out.Length
    modifies out
    ensures Block(out[..], i) == b
    ensures forall k :: 0 <= k < out.Length && (k < 16 * i || k >= 16 * i + 16) ==> out[k] == old(out[k])
  {
    forall k | 0 <= k < 16 {
      out[16 * i + k] := b[k];
    }
    assert out[16 * i..16 * i + 16] == b;
  }

  /** aes_cbc_encrypt: input and output may be the same buffer */
  method CbcEncrypt(input: array<Byte>, out: array<Byte>, n: nat, iv: array<Byte>, ksch: seq<Byte>, rnd: nat)
    returns (ok: bool)
    requires 16 * (rnd + 1) <= |ksch| && 16 * n <= input.Length && 16 * n <= out.Length && iv.Length == 16
    requires iv != input && iv != out
    modifies out, iv
    ensures ok <==> rnd > 0 || n == 0
    ensures rnd > 0 ==> Encrypted(out[..], old(input[..]), old(iv[..]), KeysOf(ksch, rnd), n)
                        && iv[..] == ChainValue(old(input[..]), old(iv[..]), KeysOf(ksch, rnd), n)
  {
    hide Cipher, AddKey, Block;
    ghost var data, iv0, keys := input[..], iv[..], KeysOf(ksch, rnd);
    ok := true;
    for i := 0 to n
      invariant rnd == 0 ==> i == 0
      invariant rnd > 0 ==> Encrypted(out[..], data, iv0, keys, i) && iv[..] == ChainValue(data, iv0, keys, i)
      invariant forall k :: 16 * i <= k < input.Length ==> input[k] == data[k]
    {
      SameBlock(input[..], data, i);
      AddRoundKey(iv, Block(input[..], i));
      var good, c := Encrypt(iv[..], ksch, rnd);
      if !good {
        return false;
      }
      ghost var was := out[..];
      WriteBlock(iv, 0, c);
      WholeBlock(iv[..]);
      WriteBlock(out, i, c);
      MoreEncrypted(was, out[..], data, iv0, keys, i);
    }
  }

  lemma SameBlock(a: seq<Byte>, b: seq<Byte>, i: nat)
    requires |a| == |b| && 16 * i + 16 <= |a| && forall k :: 16 * i <= k < |a| ==> a[k] == b[k]
    ensures Block(a, i) == Block(b, i)
  {
  }

  lemma WholeBlock(a: seq<Byte>)
    requires |a| == 16
    ensures Block(a, 0) == a
  {
  }

  lemma MoreEncrypted(was: seq<Byte>, now: seq<Byte>, data: seq<Byte>, iv: State, keys: seq<State>, i: nat)
    requires |keys| >= 2 && Encrypted(was, data, iv, keys, i) && |was| == |now| && 16 * i + 16 <= |was|
    requires 16 * i + 16 <= |data|
    requires forall k :: 0 <= k < |was| && (k < 16 * i || k >= 16 * i + 16) ==> now[k] == was[k]
    requires Block(now, i) == CipherBlock(data, iv, keys, i)
    ensures Encrypted(now, data, iv, keys, i + 1)
  {
    hide CipherBlock, Block;
    forall j | 0 <= j < i
      ensures Block(now, j) == CipherBlock(data, iv, keys, j)
    {
      BlocksKept(was, now, j, i);
    }
  }

  /** aes_cbc_decrypt: input and output may be the same buffer */
  method CbcDecrypt(input: array<Byte>, out: array<Byte>, n: nat, iv: array<Byte>, ksch: seq<Byte>, rnd: nat)
    returns (ok: bool)
    requires 16 * (rnd + 1) <= |ksch| && 16 * n <= input.Length && 16 * n <= out.Length && iv.Length == 16
    requires iv != input && iv != out
    modifies out, iv
    ensures ok <==> rnd > 0 || n == 0
    ensures rnd > 0 ==> Decrypted(out[..], old(input[..]), old(iv[..]), KeysOf(ksch, rnd), n)
                        && iv[..] == Previous(old(input[..]), old(iv[..]), n)
  {
    hide InvCipher, AddKey, Block;
    ghost var data, iv0, keys := input[..], iv[..], KeysOf(ksch, rnd);
    ok := true;
    for i := 0 to n
      invariant rnd == 0 ==> i == 0
      invariant rnd > 0 ==> Decrypted(out[..], data, iv0, keys, i) && iv[..] == Previous(data, iv0, i)
      invariant forall k :: 16 * i <= k < input.Length ==> input[k] == data[k]
    {
      SameBlock(input[..], data, i);
      var tmp := Block(input[..], i);
      var good, p := Decrypt(tmp, ksch, rnd);
      if !good {
        return false;
      }
      ghost var was := out[..];
      WriteBlock(out, i, AddKey(p, iv[..]));
      MoreDecrypted(was, out[..], data, iv0, keys, i);
      WriteBlock(iv, 0, tmp);
      WholeBlock(iv[..]);
    }
  }

  lemma MoreDecrypted(was: seq<Byte>, now: seq<Byte>, data: seq<Byte>, iv: State, keys: seq<State>, i: nat)
    requires |keys| >= 2 && Decrypted(was, data, iv, keys, i) && |was| == |now| && 16 * i + 16 <= |was|
    requires 16 * i + 16 <= |data|
    requires forall k :: 0 <= k < |was| && (k < 16 * i || k >= 16 * i + 16) ==> now[k] == was[k]
    requires Block(now, i) == PlainBlock(data, iv, keys, i)
    ensures Decrypted(now, data, iv, keys, i + 1)
  {
    hide PlainBlock, Block;
    forall j | 0 <= j < i
      ensures Block(now, j) == PlainBlock(data, iv, keys, j)
    {
      BlocksKept(was, now, j, i);
    }
  }

  /** Decrypting the ciphertext blocks gives back the plaintext blocks, and both chains end in the same value. */
  lemma CbcInverse(data: seq<Byte>, cipher: seq<Byte>, plain: seq<Byte>, iv: State, keys: seq<State>, n: nat)
    requires |keys| >= 2 && Encrypted(cipher, data, iv, keys, n) && Decrypted(plain, cipher, iv, keys, n)
    ensures forall i :: 0 <= i < n ==> Block(plain, i) == Block(data, i)
    ensures Previous(cipher, iv, n) == ChainValue(data, iv, keys, n)
  {
    hide Cipher, InvCipher, AddKey, Block;
    forall i | 0 <= i < n
      ensures Block(plain, i) == Block(data, i)
    {
      var chain, p := ChainValue(data, iv, keys, i), Block(data, i);
      assert Block(cipher, i) == CipherBlock(data, iv, keys, i);
      assert i > 0 ==> Block(cipher, i - 1) == CipherBlock(data, iv, keys, i - 1);
      CipherInverse(AddKey(chain, p), keys);
      KeyCancels(chain, p);
    }
  }

  lemma KeyCancels(s: State, k: State)
    ensures AddKey(AddKey(s, k), s) == k
  {
    hide Xor;
    forall i | 0 <= i < 16
      ensures AddKey(AddKey(s, k), s)[i] == k[i]
    {
      XorCommutes(s[i], k[i]);
      XorAssociates(k[i], s[i], s[i]);
      XorCancels(s[i]);
      XorCancels(k[i]);
    }
  }

  /** In place and back: the buffer holds the plaintext again, and the two initial vectors end equal. */
  method CbcRoundTrip(buf: array<Byte>, n: nat, iv1: array<Byte>, iv2: array<Byte>, ksch: seq<Byte>, rnd: nat)
    requires rnd > 0 && 16 * (rnd + 1) <= |ksch| && 16 * n == buf.Length && iv1.Length == 16 && iv2.Length == 16
    requires iv1 != buf && iv2 != buf && iv1 != iv2 && iv1[..] == iv2[..]
    modifies buf, iv1, iv2
    ensures buf[..] == old(buf[..]) && iv1[..] == iv2[..]
  {
    hide Encrypted, Decrypted, ChainValue, Previous;
    ghost var data, iv := buf[..], iv1[..];
    var ok := CbcEncrypt(buf, buf, n, iv1, ksch, rnd);
    ghost var cipher := buf[..];
    ok := CbcDecrypt(buf, buf, n, iv2, ksch, rnd);
    CbcInverse(data, cipher, buf[..], iv, KeysOf(ksch, rnd), n);
    SameBlocks(buf[..], data, n);
  }

  lemma SameBlocks(a: seq<Byte>, b: seq<Byte>, n: nat)
    requires |a| == |b| == 16 * n && forall i :: 0 <= i < n ==> Block(a, i) == Block(b, i)
    ensures a == b
  {
    forall k | 0 <= k < |a|
      ensures a[k] == b[k]
    {
      var i := k / 16;
      assert Block(a, i)[k - 16 * i] == Block(b, i)[k - 16 * i];
    }
  }
}
