/**
 * Four in a row on four redundant bitboards: one word per row, per column, per
 * diagonal and per antidiagonal for each player.
 */
module Four {
  import opened Powers
  import opened ReversedBits

  const ROWS: nat := 6
  const COLS: nat := 7

  /** The pieces in each column, from the bottom up. */
  type Columns = seq<seq<nat>>

  predicate IsId(id: nat) { id == 1 || id == 2 }

  function Other(id: nat): nat
    requires IsId(id)
  {
    3 - id
  }

  predicate Legal(cols: Columns) {
    |cols| == COLS && forall c :: 0 <= c < COLS ==> |cols[c]| <= ROWS && forall r :: 0 <= r < |cols[c]| ==>
      IsId(cols[c][r])
  }

  /** Player id has a piece at row r of column c. */
  predicate Has(cols: Columns, id: nat, r: int, c: int)
    requires Legal(cols)
  {
    0 <= c < COLS && 0 <= r < |cols[c]| && cols[c][r] == id
  }

  // ----- Lines -----

  datatype Kind = Horizontal | Vertical | Rising | Falling

  function StepR(k: Kind): int { match k case Horizontal => 0 case Vertical => 1 case Rising => 1 case Falling => -1 }

  function StepC(k: Kind): int { match k case Vertical => 0 case _ => 1 }

  /** fieldSxMap, fieldBsxMap and the plain coordinates: the bit of a cell in its line. */
  function BitOf(k: Kind, r: nat, c: nat): int {
    match k
    case Horizontal => c
    case Vertical => r
    case Rising => if c < r then c else r
    case Falling => if 5 - r < c then 5 - r else c
  }

  /** fieldSyMap, fieldBsyMap: the line of a cell. */
  function LineOf(k: Kind, r: nat, c: nat): int {
    match k
    case Horizontal => r
    case Vertical => c
    case Rising => if c > r then 7 - c - 1 + r else 6 + (r - c)
    case Falling => c + r
  }

  function Lines(k: Kind): nat { match k case Horizontal => ROWS case Vertical => COLS case _ => ROWS + COLS }

  /** The first cell of a line, inside the board or not. */
  function RowAt(k: Kind, line: int, bit: int): int {
    match k
    case Horizontal => line
    case Vertical => bit
    case Rising => if line >= 6 then bit + (line - 6) else bit
    case Falling => if line <= 5 then line - bit else 5 - bit
  }

  function ColAt(k: Kind, line: int, bit: int): int {
    match k
    case Horizontal => bit
    case Vertical => line
    case Rising => if line >= 6 then bit else bit + (6 - line)
    case Falling => if line <= 5 then bit else line - 5 + bit
  }

  /** Line and bit are coordinates of the cell. */
  lemma CellOfLine(k: Kind, r: nat, c: nat)
    requires r < ROWS && c < COLS
    ensures 0 <= LineOf(k, r, c) < Lines(k) && 0 <= BitOf(k, r, c) < 7
    ensures RowAt(k, LineOf(k, r, c), BitOf(k, r, c)) == r && ColAt(k, LineOf(k, r, c), BitOf(k, r, c)) == c
  {
  }

  lemma LineOfCell(k: Kind, line: nat, bit: nat)
    requires line < Lines(k)
    ensures var r, c := RowAt(k, line, bit), ColAt(k, line, bit);
            0 <= r < ROWS && 0 <= c < COLS ==> LineOf(k, r, c) == line && BitOf(k, r, c) == bit
  {
  }

  /** The next bit of a line is the next cell. */
  lemma LineSteps(k: Kind, line: int, bit: int, n: int)
    ensures RowAt(k, line, bit + n) == RowAt(k, line, bit) + n * StepR(k)
    ensures ColAt(k, line, bit + n) == ColAt(k, line, bit) + n * StepC(k)
  {
  }

  // ----- Boards -----

  /** field_h, field_v, field_s and field_bs, indexed by player and line. */
  datatype Board = Board(h: seq<seq<nat>>, v: seq<seq<nat>>, s: seq<seq<nat>>, bs: seq<seq<nat>>)

  function Field(b: Board, k: Kind): seq<seq<nat>> {
    match k case Horizontal => b.h case Vertical => b.v case Rising => b.s case Falling => b.bs
  }

  ghost predicate Shaped(b: Board) {
    forall k: Kind :: |Field(b, k)| == 3 && forall id :: 0 <= id < 3 ==> |Field(b, k)[id]| == Lines(k)
  }

  function Word(b: Board, k: Kind, id: nat, line: nat): nat
    requires Shaped(b) && id < 3 && line < Lines(k)
  {
    Field(b, k)[id][line]
  }

  /** One word holds exactly the pieces of its line. */
  ghost predicate WordOk(cols: Columns, id: nat, k: Kind, line: nat, word: nat)
    requires Legal(cols)
  {
    forall bit: nat :: TestBit(word, bit) <==> Has(cols, id, RowAt(k, line, bit), ColAt(k, line, bit))
  }

  /** All four bitboards of both players show the same position. */
  ghost predicate Represents(b: Board, cols: Columns) {
    && Shaped(b) && Legal(cols)
    && forall k: Kind, id: nat, line: nat :: id < 3 && line < Lines(k) ==>
       WordOk(cols, id, k, line, Word(b, k, id, line))
  }

  // ----- Four in a row -----

  predicate FourAt(cols: Columns, id: nat, k: Kind, r: int, c: int)
    requires Legal(cols)
  {
    && Has(cols, id, r, c) && Has(cols, id, r + StepR(k), c + StepC(k))
    && Has(cols, id, r + 2 * StepR(k), c + 2 * StepC(k)) && Has(cols, id, r + 3 * StepR(k), c + 3 * StepC(k))
  }

  /** Player id has four in a row somewhere on the board. */
  ghost predicate HasFour(cols: Columns, id: nat)
    requires Legal(cols)
  {
    exists k: Kind, r: int, c: int :: FourAt(cols, id, k, r, c)
  }

  /** Four neighbouring bits are set. */
  predicate FourBits(word: nat, bit: nat) {
    TestBit(word, bit) && TestBit(word, bit + 1) && TestBit(word, bit + 2) && TestBit(word, bit + 3)
  }

  ghost predicate WordHasFour(word: nat) {
    exists bit: nat :: FourBits(word, bit)
  }

  // ----- Moves -----

  function Dropped(cols: Columns, id: nat, col: nat): Columns
    requires |cols| == COLS && col < COLS
  {
    cols[col := cols[col] + [id]]
  }

  function Lifted(cols: Columns, col: nat): Columns
    requires |cols| == COLS && col < COLS && |cols[col]| > 0
  {
    cols[col := cols[col][..|cols[col]| - 1]]
  }

  lemma DropHas(cols: Columns, id: nat, col: nat)
    requires Legal(cols) && IsId(id) && col < COLS && |cols[col]| < ROWS
    ensures var cols' := Dropped(cols, id, col);
            && Legal(cols') && Lifted(cols', col) == cols
            && forall i: nat, r: int, c: int :: Has(cols', i, r, c) <==>
               Has(cols, i, r, c) || (i == id && r == |cols[col]| && c == col)
  {
  }

  lemma LiftHas(cols: Columns, col: nat)
    requires Legal(cols) && col < COLS && |cols[col]| > 0
    ensures var cols', top := Lifted(cols, col), |cols[col]| - 1;
            && Legal(cols')
            && forall i: nat, r: int, c: int :: Has(cols', i, r, c) <==> Has(cols, i, r, c) && !(r == top && c == col)
  {
  }

  /** The word of a line after a piece was added to its player's cell. */
  function Marked(word: nat, k: Kind, id: nat, line: nat, pid: nat, r: nat, c: nat): nat
    requires r < ROWS && c < COLS
  {
    CellOfLine(k, r, c);
    if id == pid && line == LineOf(k, r, c) then OrBit(word, BitOf(k, r, c)) else word
  }

  function Cleared(word: nat, k: Kind, id: nat, line: nat, pid: nat, r: nat, c: nat): nat
    requires r < ROWS && c < COLS
  {
    CellOfLine(k, r, c);
    if id == pid && line == LineOf(k, r, c) then ClearBit(word, BitOf(k, r, c)) else word
  }

  /** A bit of a line stands for a given cell exactly when both coordinates agree. */
  lemma SameCell(k: Kind, line: nat, bit: nat, r: nat, c: nat)
    requires line < Lines(k) && r < ROWS && c < COLS
    ensures (RowAt(k, line, bit) == r && ColAt(k, line, bit) == c) <==>
              (line == LineOf(k, r, c) && bit == BitOf(k, r, c))
  {
    hide RowAt, ColAt, LineOf, BitOf;
    CellOfLine(k, r, c);
    LineOfCell(k, line, bit);
  }

  lemma MarkWord(cols: Columns, k: Kind, id: nat, line: nat, word: nat, pid: nat, col: nat)
    requires Legal(cols) && IsId(pid) && col < COLS && |cols[col]| < ROWS && line < Lines(k)
    requires WordOk(cols, id, k, line, word)
    ensures Legal(Dropped(cols, pid, col))
    ensures WordOk(Dropped(cols, pid, col), id, k, line, Marked(word, k, id, line, pid, |cols[col]|, col))
  {
    hide RowAt, ColAt, LineOf, BitOf, Has, Legal, TestBit, OrBit;
    DropHas(cols, pid, col);
    var r := |cols[col]|;
    CellOfLine(k, r, col);
    forall bit: nat
      ensures TestBit(Marked(word, k, id, line, pid, r, col), bit) <==>
              Has(Dropped(cols, pid, col), id, RowAt(k, line, bit), ColAt(k, line, bit))
    {
      SameCell(k, line, bit, r, col);
      OrBitTest(word, BitOf(k, r, col), bit);
    }
  }

  lemma ClearWord(cols: Columns, k: Kind, id: nat, line: nat, word: nat, pid: nat, col: nat)
    requires Legal(cols) && col < COLS && |cols[col]| > 0 && cols[col][|cols[col]| - 1] == pid
    requires line < Lines(k) && WordOk(cols, id, k, line, word)
    ensures Legal(Lifted(cols, col))
    ensures WordOk(Lifted(cols, col), id, k, line, Cleared(word, k, id, line, pid, |cols[col]| - 1, col))
  {
    hide RowAt, ColAt, LineOf, BitOf, TestBit, ClearBit;
    LiftHas(cols, col);
    var r := |cols[col]| - 1;
    CellOfLine(k, r, col);
    forall bit: nat
      ensures TestBit(Cleared(word, k, id, line, pid, r, col), bit) <==>
              Has(Lifted(cols, col), id, RowAt(k, line, bit), ColAt(k, line, bit))
    {
      SameCell(k, line, bit, r, col);
      ClearBitTest(word, BitOf(k, r, col), bit);
    }
  }

  lemma {:induction false} SameWord(u: nat, v: nat)
    requires forall bit: nat :: TestBit(u, bit) == TestBit(v, bit)
    ensures u == v
    decreases u + v
  {
    assert TestBit(u, 0) == TestBit(v, 0);
    if u > 0 || v > 0 {
      forall bit: nat
        ensures TestBit(u / 2, bit) == TestBit(v / 2, bit)
      {
        assert TestBit(u, bit + 1) == TestBit(v, bit + 1);
      }
      SameWord(u / 2, v / 2);
    }
  }

  /** A position has one representation. */
  lemma OneBoard(a: Board, b: Board, cols: Columns)
    requires Represents(a, cols) && Represents(b, cols)
    ensures a == b
  {
    hide RowAt, ColAt, TestBit, Has;
    forall k: Kind
      ensures Field(a, k) == Field(b, k)
    {
      forall id: nat | id < 3
        ensures Field(a, k)[id] == Field(b, k)[id]
      {
        forall line: nat | line < Lines(k)
          ensures Field(a, k)[id][line] == Field(b, k)[id][line]
        {
          assert WordOk(cols, id, k, line, Word(a, k, id, line)) && WordOk(cols, id, k, line, Word(b, k, id, line));
          SameWord(Word(a, k, id, line), Word(b, k, id, line));
        }
      }
    }
    assert Field(a, Horizontal) == Field(b, Horizontal) && Field(a, Vertical) == Field(b, Vertical);
    assert Field(a, Rising) == Field(b, Rising) && Field(a, Falling) == Field(b, Falling);
  }

  // ----- A four on a line and four bits of its word -----

  lemma FourBitsAt(cols: Columns, id: nat, k: Kind, line: nat, word: nat, bit: nat)
    requires Legal(cols) && line < Lines(k) && WordOk(cols, id, k, line, word)
    ensures FourBits(word, bit) <==> FourAt(cols, id, k, RowAt(k, line, bit), ColAt(k, line, bit))
  {
    hide RowAt, ColAt, TestBit, Has, Legal;
    LineSteps(k, line, bit, 1);
    LineSteps(k, line, bit, 2);
    LineSteps(k, line, bit, 3);
  }

  /** A line through (r, c) stays the same along its direction. */
  lemma SameLine(k: Kind, r: nat, c: nat, r': nat, c': nat, n: int)
    requires r < ROWS && c < COLS && r' < ROWS && c' < COLS && r' == r + n * StepR(k) && c' == c + n * StepC(k)
    ensures LineOf(k, r, c) == LineOf(k, r', c')
  {
  }

  /** The player who just dropped a piece into column `col` has four on one of the four lines through it. */
  ghost predicate FourThrough(b: Board, id: nat, row: nat, col: nat)
    requires Shaped(b) && id < 3 && row < ROWS && col < COLS
  {
    exists k: Kind :: OnLine(b, id, row, col, k)
  }

  ghost predicate OnLine(b: Board, id: nat, row: nat, col: nat, k: Kind)
    requires Shaped(b) && id < 3 && row < ROWS && col < COLS
  {
    CellOfLine(k, row, col);
    WordHasFour(Word(b, k, id, LineOf(k, row, col)))
  }

  /** A new four contains the piece that made it. */
  lemma NewFour(cols: Columns, id: nat, col: nat, k: Kind, r: int, c: int) returns (n: int)
    requires Legal(cols) && IsId(id) && col < COLS && |cols[col]| < ROWS && !HasFour(cols, id)
    requires Legal(Dropped(cols, id, col)) && FourAt(Dropped(cols, id, col), id, k, r, c)
    ensures 0 <= r < ROWS && 0 <= c < COLS && |cols[col]| == r + n * StepR(k) && col == c + n * StepC(k)
  {
    hide Legal, HasFour;
    DropHas(cols, id, col);
    NoFourAt(cols, id, k, r, c);
    CellBounds(Dropped(cols, id, col), id, r, c);
    var cols' := Dropped(cols, id, col);
    n := if !Has(cols, id, r, c) then 0 else if !Has(cols, id, r + StepR(k), c + StepC(k)) then 1
         else if !Has(cols, id, r + 2 * StepR(k), c + 2 * StepC(k)) then 2 else 3;
  }

  lemma NoFourAt(cols: Columns, id: nat, k: Kind, r: int, c: int)
    requires Legal(cols) && !HasFour(cols, id)
    ensures !FourAt(cols, id, k, r, c)
  {
  }

  lemma CellBounds(cols: Columns, id: nat, r: int, c: int)
    requires Legal(cols) && Has(cols, id, r, c)
    ensures 0 <= r < ROWS && 0 <= c < COLS
  {
  }

  /** Looking at the lines through the last piece decides whether its player has four anywhere. */
  lemma FinishDecides(b: Board, cols: Columns, id: nat, col: nat)
    requires Legal(cols) && IsId(id) && col < COLS && |cols[col]| < ROWS && !HasFour(cols, id)
    requires Represents(b, Dropped(cols, id, col))
    ensures FourThrough(b, id, |cols[col]|, col) <==> HasFour(Dropped(cols, id, col), id)
  {
    hide FourAt, FourBits, LineOf, RowAt, ColAt, WordOk, Shaped, Has;
    var cols', row := Dropped(cols, id, col), |cols[col]|;
    if FourThrough(b, id, row, col) {
      var k: Kind :| OnLine(b, id, row, col, k);
      CellOfLine(k, row, col);
      var line := LineOf(k, row, col);
      var bit: nat :| FourBits(Word(b, k, id, line), bit);
      FourBitsAt(cols', id, k, line, Word(b, k, id, line), bit);
    }
    if HasFour(cols', id) {
      var k: Kind, r: int, c: int :| FourAt(cols', id, k, r, c);
      var n := NewFour(cols, id, col, k, r, c);
      SameLine(k, r, c, row, col, n);
      CellOfLine(k, r, c);
      FourBitsAt(cols', id, k, LineOf(k, r, c), Word(b, k, id, LineOf(k, r, c)), BitOf(k, r, c));
      assert OnLine(b, id, row, col, k);
    }
  }

  /** A piece of one player gives the other no four. */
  lemma OtherKeeps(cols: Columns, id: nat, col: nat)
    requires Legal(cols) && IsId(id) && col < COLS && |cols[col]| < ROWS && !HasFour(cols, Other(id))
    ensures Legal(Dropped(cols, id, col)) && !HasFour(Dropped(cols, id, col), Other(id))
  {
    hide Legal, Has;
    DropHas(cols, id, col);
    forall k: Kind, r: int, c: int
      ensures !FourAt(Dropped(cols, id, col), Other(id), k, r, c)
    {
      NoFourAt(cols, Other(id), k, r, c);
    }
  }

  // ----- The lookup tables -----

  /** Bitwise or. */
  function Or(a: nat, b: nat): nat
    decreases a + b
  {
    if a == 0 && b == 0 then 0 else 2 * Or(a / 2, b / 2) + if a % 2 == 1 || b % 2 == 1 then 1 else 0
  }

  lemma OrStep(a: nat, b: nat)
    ensures a == 0 && b == 0 ==> Or(a, b) == 0
    ensures a > 0 || b > 0 ==> Or(a, b) / 2 == Or(a / 2, b / 2) && (Or(a, b) % 2 == 1 <==> a % 2 == 1 || b % 2 == 1)
  {
  }

  lemma {:induction false} OrTest(a: nat, b: nat, j: nat)
    ensures TestBit(Or(a, b), j) <==> TestBit(a, j) || TestBit(b, j)
    decreases j
  {
    hide TestBit, Or;
    OrStep(a, b);
    LowBit(a);
    LowBit(b);
    LowBit(Or(a, b));
    if a == 0 && b == 0 {
      ZeroBits(j);
    } else if j > 0 {
      ShiftedBit(a, j - 1);
      ShiftedBit(b, j - 1);
      ShiftedBit(Or(a, b), j - 1);
      OrTest(a / 2, b / 2, j - 1);
    }
  }

  lemma FourShift(word: nat)
    ensures WordHasFour(word) <==> FourBits(word, 0) || WordHasFour(word / 2)
  {
    if WordHasFour(word) {
      var bit: nat :| FourBits(word, bit);
      if bit > 0 {
        assert FourBits(word / 2, bit - 1);
      }
    }
    if WordHasFour(word / 2) {
      var bit: nat :| FourBits(word / 2, bit);
      assert FourBits(word, bit + 1);
    }
  }

  lemma LowNibble(word: nat)
    ensures FourBits(word, 0) <==> word % 16 == 15
  {
    hide TestBit;
    var a := word / 2;
    var b := a / 2;
    var c := b / 2;
    ShiftedBit(word, 0);
    ShiftedBit(word, 1);
    ShiftedBit(word, 2);
    ShiftedBit(a, 0);
    ShiftedBit(a, 1);
    ShiftedBit(b, 0);
    LowBit(word);
    LowBit(a);
    LowBit(b);
    LowBit(c);
    FourOdd(word, a, b, c);
  }

  lemma ShiftedBit(word: nat, j: nat)
    ensures TestBit(word, j + 1) == TestBit(word / 2, j)
  {
  }

  lemma LowBit(word: nat)
    ensures TestBit(word, 0) <==> word % 2 == 1
  {
  }

  lemma FourOdd(word: nat, a: nat, b: nat, c: nat)
    requires a == word / 2 && b == a / 2 && c == b / 2
    ensures word % 2 == 1 && a % 2 == 1 && b % 2 == 1 && c % 2 == 1 <==> word % 16 == 15
  {
    var d := c / 2;
    assert word == 16 * d + 8 * (c % 2) + 4 * (b % 2) + 2 * (a % 2) + word % 2;
  }

  lemma {:induction false} SmallNoFour(word: nat)
    requires word < 15
    ensures !WordHasFour(word)
  {
    LowNibble(word);
    if word == 0 {
      forall bit: nat
        ensures !FourBits(0, bit)
      {
        ZeroBits(bit);
      }
    } else {
      SmallNoFour(word / 2);
      FourShift(word);
    }
  }

  /** One entry of finishMap. */
  method FinishEntry(i: nat) returns (finish: bool)
    ensures finish <==> WordHasFour(i)
  {
    hide FourBits, WordHasFour;
    var num := i;
    while num >= 15
      invariant WordHasFour(i) <==> WordHasFour(num)
    {
      LowNibble(num);
      FourShift(num);
      if num % 16 == 15 {
        return true;
      }
      num := num / 2;
    }
    SmallNoFour(num);
    finish := false;
  }

  /** The position after the highest bit of a byte. */
  predicate IsNext(i: nat, next: nat) {
    && next <= 8
    && (forall j :: next <= j < 8 ==> !TestBit(i, j))
    && (next > 0 ==> TestBit(i, next - 1))
  }

  lemma {:induction false} DoubledBit(v: nat, j: nat)
    requires 0 < j < 8
    ensures TestBit(2 * v % 256, j) == TestBit(v % 256, j - 1)
  {
    assert 2 * v % 256 == 2 * (v % 128);
    assert TestBit(2 * (v % 128), j) == TestBit(v % 128, j - 1);
    SevenBits(v, j - 1);
  }

  lemma {:induction false} SevenBits(v: nat, j: nat)
    requires j < 7
    ensures TestBit(v % 128, j) == TestBit(v % 256, j)
  {
    var u := v % 256;
    assert v % 128 == u % 128;
    ModTest(u, 7, j);
    assert Pow2(4) == 16;
    assert Pow2(7) == 128;
  }

  /** After j shifts bit b is the one that was j below it. */
  predicate ShiftedBy(num: nat, i: nat, j: nat) {
    forall b :: j <= b < 8 ==> TestBit(num, b) == TestBit(i, b - j)
  }

  lemma ShiftUp(num: nat, i: nat, j: nat)
    requires num < 256 && j < 8 && ShiftedBy(num, i, j)
    ensures ShiftedBy(2 * num % 256, i, j + 1) && TestBit(num, 7) == TestBit(i, 7 - j)
  {
    hide TestBit;
    forall b | j + 1 <= b < 8
      ensures TestBit(2 * num % 256, b) == TestBit(i, b - (j + 1))
    {
      DoubledBit(num, b);
      assert num % 256 == num;
    }
  }

  /** One entry of nextPosMap: the byte is shifted up until its top bit is set. */
  method NextEntry(i: nat) returns (next: nat)
    requires i < 256
    ensures IsNext(i, next)
  {
    hide TestBit, ShiftedBy;
    var num := i;
    assert ShiftedBy(i, i, 0) by { NotShifted(i); }
    for j := 0 to 8
      invariant num < 256 && ShiftedBy(num, i, j)
      invariant forall b :: 8 - j <= b < 8 ==> !TestBit(i, b)
    {
      ShiftUp(num, i, j);
      if TestBit(num, 7) {
        return 8 - j;
      }
      num := 2 * num % 256;
    }
    next := 0;
  }

  lemma NotShifted(i: nat)
    ensures ShiftedBy(i, i, 0)
  {
  }
}
