/** Adler-32 in closed form: section 8.2 of RFC 1950. */
module AdlerForm {
  import opened BitStream
  import opened Zlib

  /** The sum of the first i bytes. */
  function ByteSum(data: seq<byte>, i: nat): nat
    requires i <= |data|
  {
    if i == 0 then 0 else ByteSum(data, i - 1) + data[i - 1] as nat
  }

  /** The sum of the first i bytes, each as often as there are bytes from it to position n. */
  function WeightedSum(data: seq<byte>, n: nat, i: nat): nat
    requires i <= n && i <= |data|
  {
    if i == 0 then 0 else WeightedSum(data, n, i - 1) + (n - (i - 1)) * data[i - 1] as nat
  }

  /** One more position counts every byte once more. */
  lemma {:induction false} WeightsGrow(data: seq<byte>, n: nat, i: nat)
    requires i <= n && i <= |data|
    ensures WeightedSum(data, n + 1, i) == WeightedSum(data, n, i) + ByteSum(data, i)
  {
    if i > 0 {
      WeightsGrow(data, n, i - 1);
      OneMore(n - (i - 1), data[i - 1] as nat);
    }
  }

  lemma OneMore(k: nat, b: nat)
    ensures (k + 1) * b == k * b + b
  {
  }

  lemma {:induction false} PrefixSums(data: seq<byte>, m: nat, n: nat, i: nat)
    requires i <= m <= |data| && i <= n
    ensures ByteSum(data[..m], i) == ByteSum(data, i) && WeightedSum(data[..m], n, i) == WeightedSum(data, n, i)
  {
    if i > 0 {
      PrefixSums(data, m, n, i - 1);
    }
  }

  /** One byte more, last. */
  lemma LastByte(data: seq<byte>)
    requires data != []
    ensures var n, init := |data| - 1, data[..|data| - 1];
            && ByteSum(data, n + 1) == ByteSum(init, n) + data[n] as nat
            && WeightedSum(data, n + 1, n + 1) == WeightedSum(init, n, n) + ByteSum(init, n) + data[n] as nat
  {
    var n := |data| - 1;
    PrefixSums(data, n, n, n);
    WeightsGrow(data, n, n);
  }

  /** The reduced sums a and b are congruent to the unreduced ones modulo 65521. */
  ghost predicate Form(s1: nat, s2: nat, n: nat, sum: nat, weighted: nat, a: nat, b: nat) {
    a % 65521 == (s1 + sum) % 65521 && b % 65521 == (s2 + n * s1 + weighted) % 65521
  }

  lemma {:induction false} SumsForm(s1: nat, s2: nat, data: seq<byte>)
    ensures var n, sums := |data|, Sums(s1, s2, data);
            Form(s1, s2, n, ByteSum(data, n), WeightedSum(data, n, n), sums.0, sums.1)
  {
    hide Sums, Form, ByteSum, WeightedSum;
    if data == [] {
      SumsOfNothing(s1, s2);
      NoBytes(s1, s2, data);
    } else {
      var n := |data| - 1;
      var init := data[..n];
      SumsForm(s1, s2, init);
      SumsOneMore(s1, s2, data);
      LastByte(data);
      Step(s1, s2, Sums(s1, s2, init), n, ByteSum(init, n), WeightedSum(init, n, n), data[n]);
    }
  }

  lemma NoBytes(s1: nat, s2: nat, data: seq<byte>)
    requires data == []
    ensures Form(s1, s2, 0, ByteSum(data, 0), WeightedSum(data, 0, 0), s1, s2)
  {
  }

  /** One byte added to sums that are congruent stays congruent. */
  lemma Step(s1: nat, s2: nat, sums: (nat, nat), n: nat, sum: nat, weighted: nat, v: byte)
    requires Form(s1, s2, n, sum, weighted, sums.0, sums.1)
    ensures Form(s1, s2, n + 1, sum + v as nat, weighted + sum + v as nat, Summed(sums, v).0, Summed(sums, v).1)
  {
    var a, b, ns: nat := sums.0, sums.1, n * s1;
    assert (n + 1) * s1 == ns + s1;
    ReduceAdd(a, s1 + sum, v as nat);
    ReducedTwice(a + v as nat);
    ReduceTwo(b, s2 + ns + weighted, (a + v as nat) % BASE, s1 + sum + v as nat);
    ReducedTwice(b + (a + v as nat) % BASE);
  }

  /**
   * The checksum of a message: the low half is one plus the sum of its bytes,
   * the high half the sum of all values the low half had, modulo 65521.
   */
  lemma AdlerIs(data: seq<byte>)
    ensures var n := |data|;
            Adler(1, data) == 65536 * ((n + WeightedSum(data, n, n)) % 65521) + (1 + ByteSum(data, n)) % 65521
  {
    hide Sums, ByteSum, WeightedSum;
    SumsForm(1, 0, data);
    if data == [] {
      SumsOfNothing(1, 0);
    } else {
      SumsReduced(1, 0, data);
    }
  }
}
