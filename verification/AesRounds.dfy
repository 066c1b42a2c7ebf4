/** The rounds of the AES, fused and in place, against section 5.1 and 5.3 of FIPS 197. */
module AesRounds {
  import opened AesField

  /** Sixteen bytes, column after column. */
  type State = s: seq<Byte> | |s| == 16 witness seq(16, _ => 0)

  // ----- FIPS 197 -----

  function SubBytes(s: State): State { seq(16, i requires 0 <= i < 16 => Sbox(s[i])) }

  function InvSubBytes(s: State): State { seq(16, i requires 0 <= i < 16 => InvSbox(s[i])) }

  /** Row r moves r columns to the left. */
  function ShiftRows(s: State): State { seq(16, i requires 0 <= i < 16 => s[4 * ((i / 4 + i % 4) % 4) + i % 4]) }

  function InvShiftRows(s: State): State { seq(16, i requires 0 <= i < 16 => s[4 * ((i / 4 + 4 - i % 4) % 4) + i % 4]) }

  /** The byte n rows below byte i in its column. */
  function Below(s: State, i: nat, n: nat): Byte
    requires i < 16
  {
    s[4 * (i / 4) + (i % 4 + n) % 4]
  }

  function MixColumns(s: State): State {
    seq(16, i requires 0 <= i < 16 => MixRow(Below(s, i, 0), Below(s, i, 1), Below(s, i, 2), Below(s, i, 3)))
  }

  function InvMixColumns(s: State): State {
    seq(16, i requires 0 <= i < 16 => InvMixRow(Below(s, i, 0), Below(s, i, 1), Below(s, i, 2), Below(s, i, 3)))
  }

  function AddKey(s: State, k: State): State { seq(16, i requires 0 <= i < 16 => Xor(s[i], k[i])) }

  // ----- Each transformation has its inverse -----

  lemma SubInverse(s: State)
    ensures InvSubBytes(SubBytes(s)) == s
  {
    hide Sbox, InvSbox;
    forall i | 0 <= i < 16
      ensures InvSubBytes(SubBytes(s))[i] == s[i]
    {
      SboxInverse(s[i]);
    }
  }

  lemma ShiftInverse(s: State)
    ensures InvShiftRows(ShiftRows(s)) == s
  {
    var t := InvShiftRows(ShiftRows(s));
    forall i | 0 <= i < 16
      ensures t[i] == s[i]
    {
      Shifted(s, i / 4, i % 4);
    }
  }

  lemma Shifted(s: State, c: nat, r: nat)
    requires c < 4 && r < 4
    ensures ShiftRows(s)[4 * ((c + 4 - r) % 4) + r] == s[4 * c + r]
  {
    var d := (c + 4 - r) % 4;
    assert (4 * d + r) / 4 == d && (4 * d + r) % 4 == r;
    assert (d + r) % 4 == c;
  }

  lemma KeyInverse(s: State, k: State)
    ensures AddKey(AddKey(s, k), k) == s
  {
    hide Xor;
    forall i | 0 <= i < 16
      ensures AddKey(AddKey(s, k), k)[i] == s[i]
    {
      XorAssociates(s[i], k[i], k[i]);
      XorCancels(k[i]);
      XorCancels(s[i]);
    }
  }

  lemma MixColumnsInverse(s: State)
    ensures InvMixColumns(MixColumns(s)) == s
  {
    hide MixColumns, InvMixColumns;
    ColumnInverse(s, 0);
    ColumnInverse(s, 1);
    ColumnInverse(s, 2);
    ColumnInverse(s, 3);
  }

  lemma ColumnInverse(s: State, c: nat)
    requires c < 4
    ensures var t := InvMixColumns(MixColumns(s));
            t[4 * c] == s[4 * c] && t[4 * c + 1] == s[4 * c + 1] && t[4 * c + 2] == s[4 * c + 2]
              && t[4 * c + 3] == s[4 * c + 3]
  {
    hide MixRow, InvMixRow, MixColumns, InvMixColumns;
    MixedColumn(s, c);
    UnmixedColumn(MixColumns(s), c);
    var a0, a1, a2, a3 := s[4 * c], s[4 * c + 1], s[4 * c + 2], s[4 * c + 3];
    MixInverse(a0, a1, a2, a3);
    MixInverse(a1, a2, a3, a0);
    MixInverse(a2, a3, a0, a1);
    MixInverse(a3, a0, a1, a2);
  }

  // ----- The code -----

  /** gfm2_sb and gfm3_sb */
  function Gfm2(x: Byte): Byte { F2(Sbox(x)) }

  function Gfm3(x: Byte): Byte { F3(Sbox(x)) }

  function Sub(x: Byte, inverse: bool): Byte { if inverse then InvSbox(x) else Sbox(x) }

  /** A byte that stays in its place. */
  method SubOne(st: array<Byte>, a: nat, inverse: bool)
    requires st.Length == 16 && a < 16
    modifies st
    ensures forall k :: 0 <= k < 16 ==> st[k] == if k == a then Sub(old(st[a]), inverse) else old(st[k])
  {
    hide Sub;
    st[a] := Sub(st[a], inverse);
  }

  /** Two bytes that change places. */
  method SubSwap(st: array<Byte>, a: nat, b: nat, inverse: bool)
    requires st.Length == 16 && a < 16 && b < 16 && a != b
    modifies st
    ensures forall k :: 0 <= k < 16 ==>
              st[k] == if k == a then Sub(old(st[b]), inverse) else if k == b then Sub(old(st[a]), inverse)
                else old(st[k])
  {
    hide Sub;
    var tt := st[a];
    st[a] := Sub(st[b], inverse);
    st[b] := Sub(tt, inverse);
  }

  /** Four bytes that move on by one place. */
  method SubTurn(st: array<Byte>, a: nat, b: nat, c: nat, d: nat, inverse: bool)
    requires st.Length == 16 && a < 16 && b < 16 && c < 16 && d < 16
    requires a != b && a != c && a != d && b != c && b != d && c != d
    modifies st
    ensures forall k :: 0 <= k < 16 ==>
              st[k] == if k == a then Sub(old(st[b]), inverse) else if k == b then Sub(old(st[c]), inverse)
                       else if k == c then Sub(old(st[d]), inverse) else if k == d then Sub(old(st[a]), inverse)
                         else old(st[k])
  {
    hide Sub;
    var tt := st[a];
    st[a] := Sub(st[b], inverse);
    st[b] := Sub(st[c], inverse);
    st[c] := Sub(st[d], inverse);
    st[d] := Sub(tt, inverse);
  }

  /** Rows 0 and 2 are the same in both directions. */
  method SubEvenRows(st: array<Byte>, inverse: bool)
    requires st.Length == 16
    modifies st
    ensures forall k :: 0 <= k < 16 ==>
              st[k] == if k % 4 == 0 then Sub(old(st[k]), inverse)
                else if k % 4 == 2 then Sub(old(st[(k + 8) % 16]), inverse) else old(st[k])
  {
    hide Sub;
    SubOne(st, 0, inverse);
    SubOne(st, 4, inverse);
    SubOne(st, 8, inverse);
    SubOne(st, 12, inverse);
    SubSwap(st, 2, 10, inverse);
    SubSwap(st, 6, 14, inverse);
  }

  lemma SameState(a: State, b: State)
    requires a[0] == b[0] && a[1] == b[1] && a[2] == b[2] && a[3] == b[3] && a[4] == b[4] && a[5] == b[5]
    requires a[6] == b[6] && a[7] == b[7]
    requires a[8] == b[8] && a[9] == b[9] && a[10] == b[10] && a[11] == b[11] && a[12] == b[12] && a[13] == b[13]
    requires a[14] == b[14] && a[15] == b[15]
    ensures a == b
  {
  }

  /** shift_sub_rows */
  method ShiftSubRows(st: array<Byte>)
    requires st.Length == 16
    modifies st
    ensures st[..] == ShiftRows(SubBytes(old(st[..])))
  {
    hide Sbox, InvSbox, ShiftRows, SubBytes;
    ghost var was := st[..];
    SubEvenRows(st, false);
    SubTurn(st, 1, 5, 9, 13, false);
    SubTurn(st, 15, 11, 7, 3, false);
    ShiftedColumn(was, 0);
    ShiftedColumn(was, 1);
    ShiftedColumn(was, 2);
    ShiftedColumn(was, 3);
    SameState(st[..], ShiftRows(SubBytes(was)));
  }

  /** inv_shift_sub_rows */
  method InvShiftSubRows(st: array<Byte>)
    requires st.Length == 16
    modifies st
    ensures st[..] == InvSubBytes(InvShiftRows(old(st[..])))
  {
    hide Sbox, InvSbox, InvShiftRows, InvSubBytes;
    ghost var was := st[..];
    SubEvenRows(st, true);
    SubTurn(st, 13, 9, 5, 1, true);
    SubTurn(st, 3, 7, 11, 15, true);
    UnshiftedColumn(was, 0);
    UnshiftedColumn(was, 1);
    UnshiftedColumn(was, 2);
    UnshiftedColumn(was, 3);
    SameState(st[..], InvSubBytes(InvShiftRows(was)));
  }

  /** One column of mix_sub_columns, from the bytes that ShiftRows brings there. */
  method MixSubColumn(dt: array<Byte>, st: State, at: nat, i0: nat, i1: nat, i2: nat, i3: nat)
    requires dt.Length == 16 && at + 4 <= 16 && i0 < 16 && i1 < 16 && i2 < 16 && i3 < 16
    modifies dt
    ensures dt[at] == Xor4(Gfm2(st[i0]), Gfm3(st[i1]), Sbox(st[i2]), Sbox(st[i3]))
    ensures dt[at + 1] == Xor4(Sbox(st[i0]), Gfm2(st[i1]), Gfm3(st[i2]), Sbox(st[i3]))
    ensures dt[at + 2] == Xor4(Sbox(st[i0]), Sbox(st[i1]), Gfm2(st[i2]), Gfm3(st[i3]))
    ensures dt[at + 3] == Xor4(Gfm3(st[i0]), Sbox(st[i1]), Sbox(st[i2]), Gfm2(st[i3]))
    ensures forall k :: 0 <= k < 16 && !(at <= k < at + 4) ==> dt[k] == old(dt[k])
  {
    hide Gfm2, Gfm3, Sbox, Xor4;
    dt[at] := Xor4(Gfm2(st[i0]), Gfm3(st[i1]), Sbox(st[i2]), Sbox(st[i3]));
    dt[at + 1] := Xor4(Sbox(st[i0]), Gfm2(st[i1]), Gfm3(st[i2]), Sbox(st[i3]));
    dt[at + 2] := Xor4(Sbox(st[i0]), Sbox(st[i1]), Gfm2(st[i2]), Gfm3(st[i3]));
    dt[at + 3] := Xor4(Gfm3(st[i0]), Sbox(st[i1]), Sbox(st[i2]), Gfm2(st[i3]));
  }

  /** mix_sub_columns: three transformations in one */
  method MixSubColumns(dt: array<Byte>)
    requires dt.Length == 16
    modifies dt
    ensures dt[..] == MixColumns(ShiftRows(SubBytes(old(dt[..]))))
  {
    hide Gfm2, Gfm3, Sbox, Xor4, MixColumns, ShiftRows, SubBytes;
    var st := dt[..];
    MixSubColumn(dt, st, 0, 0, 5, 10, 15);
    MixSubColumn(dt, st, 4, 4, 9, 14, 3);
    MixSubColumn(dt, st, 8, 8, 13, 2, 7);
    MixSubColumn(dt, st, 12, 12, 1, 6, 11);
    MixColumnIs(st, 0);
    MixColumnIs(st, 1);
    MixColumnIs(st, 2);
    MixColumnIs(st, 3);
    SameState(dt[..], MixColumns(ShiftRows(SubBytes(st))));
  }

  /** The state before MixColumns, column by column. */
  lemma ShiftedColumn(st: State, c: nat)
    requires c < 4
    ensures var u := ShiftRows(SubBytes(st));
            && u[4 * c] == Sbox(st[4 * c]) && u[4 * c + 1] == Sbox(st[4 * ((c + 1) % 4) + 1])
            && u[4 * c + 2] == Sbox(st[4 * ((c + 2) % 4) + 2]) && u[4 * c + 3] == Sbox(st[4 * ((c + 3) % 4) + 3])
  {
    hide Sbox;
    assert (4 * c) / 4 == c && (4 * c + 1) / 4 == c && (4 * c + 2) / 4 == c && (4 * c + 3) / 4 == c;
    assert (4 * c) % 4 == 0 && (4 * c + 1) % 4 == 1 && (4 * c + 2) % 4 == 2 && (4 * c + 3) % 4 == 3;
  }

  lemma MixedColumn(u: State, c: nat)
    requires c < 4
    ensures var t := MixColumns(u); var a0, a1, a2, a3 := u[4 * c], u[4 * c + 1], u[4 * c + 2], u[4 * c + 3];
            && t[4 * c] == MixRow(a0, a1, a2, a3) && t[4 * c + 1] == MixRow(a1, a2, a3, a0)
            && t[4 * c + 2] == MixRow(a2, a3, a0, a1) && t[4 * c + 3] == MixRow(a3, a0, a1, a2)
  {
    hide MixRow;
    assert (4 * c) / 4 == c && (4 * c + 1) / 4 == c && (4 * c + 2) / 4 == c && (4 * c + 3) / 4 == c;
    assert (4 * c) % 4 == 0 && (4 * c + 1) % 4 == 1 && (4 * c + 2) % 4 == 2 && (4 * c + 3) % 4 == 3;
  }

  /** The sums of mix_sub_columns are the rows of MixColumns with their terms in another order. */
  lemma MixColumnIs(st: State, c: nat)
    requires c < 4
    ensures var t := MixColumns(ShiftRows(SubBytes(st)));
            var x0, x1, x2, x3 := st[4 * c], st[4 * ((c + 1) % 4) + 1], st[4 * ((c + 2) % 4) + 2],
              st[4 * ((c + 3) % 4) + 3];
            && t[4 * c] == Xor4(Gfm2(x0), Gfm3(x1), Sbox(x2), Sbox(x3))
               && t[4 * c + 1] == Xor4(Sbox(x0), Gfm2(x1), Gfm3(x2), Sbox(x3))
            && t[4 * c + 2] == Xor4(Sbox(x0), Sbox(x1), Gfm2(x2), Gfm3(x3))
               && t[4 * c + 3] == Xor4(Gfm3(x0), Sbox(x1), Sbox(x2), Gfm2(x3))
  {
    hide Sbox, F2, F3, Xor4, ShiftRows, SubBytes, MixColumns;
    ShiftedColumn(st, c);
    var u := ShiftRows(SubBytes(st));
    MixedColumn(u, c);
    var a0, a1, a2, a3 := u[4 * c], u[4 * c + 1], u[4 * c + 2], u[4 * c + 3];
    Turn(a0, F2(a1), F3(a2), a3);
    Turn(a1, F2(a2), F3(a3), a0);
    Turn(a0, a1, F2(a2), F3(a3));
    Turn(F2(a3), F3(a0), a1, a2);
  }

  /** One column of inv_mix_sub_columns, to where InvShiftRows takes its bytes. */
  method InvMixSubColumn(dt: array<Byte>, st: State, at: nat, i0: nat, i1: nat, i2: nat, i3: nat)
    requires dt.Length == 16 && at + 4 <= 16 && i0 < 16 && i1 < 16 && i2 < 16 && i3 < 16
    requires i0 != i1 && i0 != i2 && i0 != i3 && i1 != i2 && i1 != i3 && i2 != i3
    modifies dt
    ensures dt[i0] == InvSbox(Xor4(Fe(st[at]), Fb(st[at + 1]), Fd(st[at + 2]), F9(st[at + 3])))
    ensures dt[i1] == InvSbox(Xor4(F9(st[at]), Fe(st[at + 1]), Fb(st[at + 2]), Fd(st[at + 3])))
    ensures dt[i2] == InvSbox(Xor4(Fd(st[at]), F9(st[at + 1]), Fe(st[at + 2]), Fb(st[at + 3])))
    ensures dt[i3] == InvSbox(Xor4(Fb(st[at]), Fd(st[at + 1]), F9(st[at + 2]), Fe(st[at + 3])))
    ensures forall k :: 0 <= k < 16 && k != i0 && k != i1 && k != i2 && k != i3 ==> dt[k] == old(dt[k])
  {
    hide InvSbox, Fe, Fb, Fd, F9, Xor4;
    dt[i0] := InvSbox(Xor4(Fe(st[at]), Fb(st[at + 1]), Fd(st[at + 2]), F9(st[at + 3])));
    dt[i1] := InvSbox(Xor4(F9(st[at]), Fe(st[at + 1]), Fb(st[at + 2]), Fd(st[at + 3])));
    dt[i2] := InvSbox(Xor4(Fd(st[at]), F9(st[at + 1]), Fe(st[at + 2]), Fb(st[at + 3])));
    dt[i3] := InvSbox(Xor4(Fb(st[at]), Fd(st[at + 1]), F9(st[at + 2]), Fe(st[at + 3])));
  }

  /** inv_mix_sub_columns */
  method InvMixSubColumns(dt: array<Byte>)
    requires dt.Length == 16
    modifies dt
    ensures dt[..] == InvSubBytes(InvShiftRows(InvMixColumns(old(dt[..]))))
  {
    hide InvSbox, Fe, Fb, Fd, F9, Xor4, InvMixColumns, InvShiftRows, InvSubBytes;
    var st := dt[..];
    InvMixSubColumn(dt, st, 0, 0, 5, 10, 15);
    InvMixSubColumn(dt, st, 4, 4, 9, 14, 3);
    InvMixSubColumn(dt, st, 8, 8, 13, 2, 7);
    InvMixSubColumn(dt, st, 12, 12, 1, 6, 11);
    InverseState(st, dt[..]);
  }

  /** What column c of the new state is made of. */
  predicate UnmixedAt(t: State, st: State, c: nat)
    requires c < 4
  {
    var b0, b1, b2, b3 := st[4 * c], st[4 * c + 1], st[4 * c + 2], st[4 * c + 3];
    && t[4 * c] == InvSbox(Xor4(Fe(b0), Fb(b1), Fd(b2), F9(b3)))
    && t[4 * ((c + 1) % 4) + 1] == InvSbox(Xor4(F9(b0), Fe(b1), Fb(b2), Fd(b3)))
    && t[4 * ((c + 2) % 4) + 2] == InvSbox(Xor4(Fd(b0), F9(b1), Fe(b2), Fb(b3)))
    && t[4 * ((c + 3) % 4) + 3] == InvSbox(Xor4(Fb(b0), Fd(b1), F9(b2), Fe(b3)))
  }

  lemma InverseState(st: State, d: State)
    requires UnmixedAt(d, st, 0) && UnmixedAt(d, st, 1) && UnmixedAt(d, st, 2) && UnmixedAt(d, st, 3)
    ensures d == InvSubBytes(InvShiftRows(InvMixColumns(st)))
  {
    hide InvSbox, Fe, Fb, Fd, F9, Xor4, InvMixColumns, InvShiftRows, InvSubBytes;
    InverseColumn(st, 0);
    InverseColumn(st, 1);
    InverseColumn(st, 2);
    InverseColumn(st, 3);
    SameState(d, InvSubBytes(InvShiftRows(InvMixColumns(st))));
  }

  lemma InverseColumn(st: State, c: nat)
    requires c < 4
    ensures UnmixedAt(InvSubBytes(InvShiftRows(InvMixColumns(st))), st, c)
  {
    hide InvSbox, Fe, Fb, Fd, F9, Xor4, InvMixColumns, InvShiftRows, InvSubBytes;
    InvMixColumnIs(st, c);
    UnshiftedColumn(InvMixColumns(st), c);
  }

  lemma UnshiftedColumn(u: State, c: nat)
    requires c < 4
    ensures var t := InvSubBytes(InvShiftRows(u));
            && t[4 * c] == InvSbox(u[4 * c]) && t[4 * ((c + 1) % 4) + 1] == InvSbox(u[4 * c + 1])
            && t[4 * ((c + 2) % 4) + 2] == InvSbox(u[4 * c + 2]) && t[4 * ((c + 3) % 4) + 3] == InvSbox(u[4 * c + 3])
  {
    hide InvSbox, InvShiftRows;
    Unshifted(u, c, 0);
    Unshifted(u, c, 1);
    Unshifted(u, c, 2);
    Unshifted(u, c, 3);
  }

  lemma Unshifted(u: State, c: nat, r: nat)
    requires c < 4 && r < 4
    ensures InvShiftRows(u)[4 * ((c + r) % 4) + r] == u[4 * c + r]
  {
    var d := (c + r) % 4;
    assert (4 * d + r) / 4 == d && (4 * d + r) % 4 == r;
    assert (d + 4 - r) % 4 == c;
  }

  lemma UnmixedColumn(st: State, c: nat)
    requires c < 4
    ensures var t := InvMixColumns(st); var b0, b1, b2, b3 := st[4 * c], st[4 * c + 1], st[4 * c + 2], st[4 * c + 3];
            && t[4 * c] == InvMixRow(b0, b1, b2, b3) && t[4 * c + 1] == InvMixRow(b1, b2, b3, b0)
            && t[4 * c + 2] == InvMixRow(b2, b3, b0, b1) && t[4 * c + 3] == InvMixRow(b3, b0, b1, b2)
  {
    hide InvMixRow;
    assert (4 * c) / 4 == c && (4 * c + 1) / 4 == c && (4 * c + 2) / 4 == c && (4 * c + 3) / 4 == c;
    assert (4 * c) % 4 == 0 && (4 * c + 1) % 4 == 1 && (4 * c + 2) % 4 == 2 && (4 * c + 3) % 4 == 3;
  }

  lemma InvMixColumnIs(st: State, c: nat)
    requires c < 4
    ensures var t := InvMixColumns(st); var b0, b1, b2, b3 := st[4 * c], st[4 * c + 1], st[4 * c + 2], st[4 * c + 3];
            && t[4 * c] == Xor4(Fe(b0), Fb(b1), Fd(b2), F9(b3)) && t[4 * c + 1] == Xor4(F9(b0), Fe(b1), Fb(b2), Fd(b3))
            && t[4 * c + 2] == Xor4(Fd(b0), F9(b1), Fe(b2), Fb(b3))
               && t[4 * c + 3] == Xor4(Fb(b0), Fd(b1), F9(b2), Fe(b3))
  {
    hide Fe, Fb, Fd, F9, Xor4, InvMixColumns;
    UnmixedColumn(st, c);
    var b0, b1, b2, b3 := st[4 * c], st[4 * c + 1], st[4 * c + 2], st[4 * c + 3];
    Turn(F9(b0), Fe(b1), Fb(b2), Fd(b3));
    Turn(Fd(b0), F9(b1), Fe(b2), Fb(b3));
    Turn(F9(b1), Fe(b2), Fb(b3), Fd(b0));
    Turn(Fe(b3), Fb(b0), Fd(b1), F9(b2));
  }
}
