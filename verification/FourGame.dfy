/** The game board of four.c: moves, their undoing and the test for the end. */
module FourGame {
  import opened Powers
  import opened ReversedBits
  import opened Four

  function Set(field: seq<seq<nat>>, id: nat, line: nat, word: nat): (r: seq<seq<nat>>)
    requires id < |field| && line < |field[id]|
    ensures |r| == |field| && forall i :: 0 <= i < |field| ==> |r[i]| == |field[i]|
    ensures forall i, l :: 0 <= i < |field| && 0 <= l < |field[i]| ==> r[i][l] == if i == id && l == line then word
              else field[i][l]
  {
    var words: seq<nat> := field[id][line := word];
    field[id := words]
  }

  /** The four updates of four_add and four_remove. */
  function Update(b: Board, id: nat, row: nat, col: nat, add: bool): (r: Board)
    requires Shaped(b) && id < 3 && row < ROWS && col < COLS
    ensures Shaped(r) && forall k: Kind :: Field(r, k) == UpdateField(b, k, id, row, col, add)
  {
    hide UpdateField;
    Board(UpdateField(b, Horizontal, id, row, col, add), UpdateField(b, Vertical, id, row, col, add),
          UpdateField(b, Rising, id, row, col, add), UpdateField(b, Falling, id, row, col, add))
  }

  function UpdateField(b: Board, k: Kind, id: nat, row: nat, col: nat, add: bool): (r: seq<seq<nat>>)
    requires Shaped(b) && id < 3 && row < ROWS && col < COLS
    ensures |r| == 3 && forall i :: 0 <= i < 3 ==> |r[i]| == Lines(k)
    ensures forall i: nat, line: nat :: i < 3 && line < Lines(k) ==>
              r[i][line] == if add then Marked(Word(b, k, i, line), k, i, line, id, row, col)
                            else Cleared(Word(b, k, i, line), k, i, line, id, row, col)
  {
    hide OrBit, ClearBit, LineOf, BitOf;
    CellOfLine(k, row, col);
    var line, bit := LineOf(k, row, col), BitOf(k, row, col);
    var word := Word(b, k, id, line);
    Set(Field(b, k), id, line, if add then OrBit(word, bit) else ClearBit(word, bit))
  }

  lemma AddRepresents(b: Board, cols: Columns, id: nat, col: nat)
    requires Represents(b, cols) && IsId(id) && col < COLS && |cols[col]| < ROWS
    ensures Represents(Update(b, id, |cols[col]|, col, true), Dropped(cols, id, col))
  {
    hide WordOk, Update, UpdateField, Marked;
    DropHas(cols, id, col);
    var b', cols' := Update(b, id, |cols[col]|, col, true), Dropped(cols, id, col);
    forall k: Kind, i: nat, line: nat | i < 3 && line < Lines(k)
      ensures WordOk(cols', i, k, line, Word(b', k, i, line))
    {
      MarkWord(cols, k, i, line, Word(b, k, i, line), id, col);
    }
  }

  lemma RemoveRepresents(b: Board, cols: Columns, id: nat, col: nat)
    requires Represents(b, cols) && IsId(id) && col < COLS && |cols[col]| > 0 && cols[col][|cols[col]| - 1] == id
    ensures Represents(Update(b, id, |cols[col]| - 1, col, false), Lifted(cols, col))
  {
    hide WordOk, Update, UpdateField, Cleared;
    LiftHas(cols, col);
    var b', cols' := Update(b, id, |cols[col]| - 1, col, false), Lifted(cols, col);
    forall k: Kind, i: nat, line: nat | i < 3 && line < Lines(k)
      ensures WordOk(cols', i, k, line, Word(b', k, i, line))
    {
      ClearWord(cols, k, i, line, Word(b, k, i, line), id, col);
    }
  }

  // ----- Indices into the tables -----

  lemma {:induction false} BoundFromBits(v: nat, n: nat)
    requires forall j: nat :: j >= n ==> !TestBit(v, j)
    ensures v < Pow2(n)
  {
    if n == 0 {
      if v > 0 {
        SomeBit(v);
      }
    } else {
      forall j: nat | j >= n - 1
        ensures !TestBit(v / 2, j)
      {
        assert !TestBit(v, j + 1);
      }
      BoundFromBits(v / 2, n - 1);
    }
  }

  lemma {:induction false} SomeBit(v: nat)
    requires v > 0
    ensures exists j: nat :: TestBit(v, j)
  {
    if v % 2 == 1 {
      assert TestBit(v, 0);
    } else {
      SomeBit(v / 2);
      var j: nat :| TestBit(v / 2, j);
      assert TestBit(v, j + 1);
    }
  }

  lemma WordSmall(cols: Columns, id: nat, k: Kind, line: nat, word: nat)
    requires Legal(cols) && line < Lines(k) && WordOk(cols, id, k, line, word)
    ensures word < 128
  {
    hide TestBit, LineOf, RowAt, ColAt, BitOf;
    forall bit: nat | bit >= 7
      ensures !TestBit(word, bit)
    {
      LineOfCell(k, line, bit);
      var r, c := RowAt(k, line, bit), ColAt(k, line, bit);
      if 0 <= r < ROWS && 0 <= c < COLS {
        CellOfLine(k, r, c);
      }
    }
    BoundFromBits(word, 7);
    assert Pow2(4) == 16;
    assert Pow2(7) == 128;
  }

  /** The table finds the height of a column from the two players' words. */
  lemma ColumnHeight(cols: Columns, id: nat, col: nat, mine: nat, theirs: nat, next: nat)
    requires Legal(cols) && IsId(id) && col < COLS
    requires WordOk(cols, id, Vertical, col, mine) && WordOk(cols, Other(id), Vertical, col, theirs)
    ensures Or(mine, theirs) < 128
    ensures IsNext(Or(mine, theirs), next) ==> next == |cols[col]|
  {
    hide TestBit, Or;
    var u := Or(mine, theirs);
    forall j: nat
      ensures TestBit(u, j) <==> j < |cols[col]|
    {
      OrTest(mine, theirs, j);
    }
    BoundFromBits(u, 7);
    assert Pow2(4) == 16;
    assert Pow2(7) == 128;
    if IsNext(u, next) {
      assert next < 8 ==> !TestBit(u, next);
    }
  }

  // ----- The board -----

  class FourBoard {
    var board: Board
    var finishMap: seq<bool>
    var nextPosMap: seq<nat>
    /** The position the bitboards show. */
    ghost var cols: Columns

    ghost predicate TablesOk()
      reads this
    {
      && |finishMap| == 65536 && (forall i :: 0 <= i < 65536 ==> (finishMap[i] <==> WordHasFour(i)))
      && |nextPosMap| == 256 && forall i :: 0 <= i < 256 ==> IsNext(i, nextPosMap[i])
    }

    ghost predicate Valid()
      reads this
    {
      TablesOk() && Represents(board, cols)
    }

    /** four_create */
    constructor ()
      ensures Valid() && cols == Empty()
    {
      hide WordHasFour, IsNext;
      finishMap, nextPosMap := [], [];
      board := EmptyBoard();
      cols := Empty();
      EmptyRepresents();
      new;
      for i := 0 to 65536
        invariant |finishMap| == i && forall j :: 0 <= j < i ==> (finishMap[j] <==> WordHasFour(j))
        invariant board == EmptyBoard() && cols == Empty() && nextPosMap == []
      {
        var finish := FinishEntry(i);
        finishMap := finishMap + [finish];
      }
      for i := 0 to 256
        invariant |nextPosMap| == i && forall j :: 0 <= j < i ==> IsNext(j, nextPosMap[j])
        invariant board == EmptyBoard() && cols == Empty()
        invariant |finishMap| == 65536 && forall j :: 0 <= j < 65536 ==> (finishMap[j] <==> WordHasFour(j))
      {
        var next := NextEntry(i);
        nextPosMap := nextPosMap + [next];
      }
    }

    /** The height of a column, as the moves look it up. */
    method Height(id: nat, col: nat) returns (row: nat)
      requires Valid() && IsId(id) && col < COLS
      ensures row == |cols[col]|
    {
      hide IsNext, WordOk, WordHasFour, Or;
      assert WordOk(cols, id, Vertical, col, Word(board, Vertical, id, col));
      assert WordOk(cols, Other(id), Vertical, col, Word(board, Vertical, Other(id), col));
      WordSmall(cols, id, Vertical, col, board.v[id][col]);
      WordSmall(cols, Other(id), Vertical, col, board.v[Other(id)][col]);
      ghost var u := Or(board.v[id][col], board.v[Other(id)][col]);
      ColumnHeight(cols, id, col, board.v[id][col], board.v[Other(id)][col], nextPosMap[u % 256]);
      row := nextPosMap[Or(board.v[id][col] % 256, board.v[Other(id)][col] % 256)];
    }

    /**
     * four_add: a full column is refused. The word of the column is read before
     * the column is looked at, so for one outside the board nothing is defined.
     */
    method Add(id: nat, col: int) returns (defined: bool, r: int)
      requires Valid() && IsId(id)
      modifies this`board, this`cols
      ensures Valid() && (defined <==> 0 <= col < COLS)
      ensures defined ==> r == if |old(cols)[col]| < ROWS then 0 else -1
      ensures defined && r == 0 ==> cols == Dropped(old(cols), id, col)
      ensures !defined || r != 0 ==> cols == old(cols) && board == old(board)
    {
      hide WordOk, WordHasFour, IsNext, Update, UpdateField, Or;
      WordsPerColumn(board, cols, id);
      if col < 0 || col >= |board.v[id]| {
        return false, 0;
      }
      defined := true;
      var row := Height(id, col);
      if row >= ROWS || col >= COLS || col < 0 {
        return true, -1;
      }
      AddRepresents(board, cols, id, col);
      board := Update(board, id, row, col, true);
      cols := Dropped(cols, id, col);
      r := 0;
    }

    /** four_remove: takes back the topmost piece of a column, which must be the player's */
    method Remove(id: nat, col: nat)
      requires Valid() && IsId(id) && col < COLS && |cols[col]| > 0 && cols[col][|cols[col]| - 1] == id
      modifies this`board, this`cols
      ensures Valid() && cols == Lifted(old(cols), col)
    {
      hide WordOk, WordHasFour, IsNext, Update, UpdateField, Or;
      var height := Height(id, col);
      RemoveRepresents(board, cols, id, col);
      board := Update(board, id, height - 1, col, false);
      cols := Lifted(cols, col);
    }

    /** four_isFinish, right after the player's piece fell into a column */
    method IsFinish(id: nat, col: nat, ghost before: Columns) returns (finish: bool)
      requires Valid() && IsId(id) && col < COLS
      requires Legal(before) && |before[col]| < ROWS && !HasFour(before, id) && cols == Dropped(before, id, col)
      ensures finish <==> HasFour(cols, id)
    {
      hide WordOk, WordHasFour, IsNext, LineOf, BitOf, HasFour, Or;
      var height := Height(id, col);
      var row := height - 1;
      FinishDecides(board, before, id, col);
      CellOfLine(Horizontal, row, col);
      CellOfLine(Vertical, row, col);
      CellOfLine(Rising, row, col);
      CellOfLine(Falling, row, col);
      var h := LineFinish(Horizontal, id, LineOf(Horizontal, row, col));
      if h { assert OnLine(board, id, row, col, Horizontal); return true; }
      var v := LineFinish(Vertical, id, LineOf(Vertical, row, col));
      if v { assert OnLine(board, id, row, col, Vertical); return true; }
      var s := LineFinish(Rising, id, LineOf(Rising, row, col));
      if s { assert OnLine(board, id, row, col, Rising); return true; }
      var bs := LineFinish(Falling, id, LineOf(Falling, row, col));
      if bs { assert OnLine(board, id, row, col, Falling); return true; }
      finish := false;
      assert forall k: Kind :: !OnLine(board, id, row, col, k);
    }

    /** finishMap for one line */
    method LineFinish(k: Kind, id: nat, line: nat) returns (finish: bool)
      requires Valid() && IsId(id) && line < Lines(k)
      ensures finish <==> WordHasFour(Word(board, k, id, line))
    {
      hide WordOk, WordHasFour, IsNext;
      assert WordOk(cols, id, k, line, Word(board, k, id, line));
      WordSmall(cols, id, k, line, Word(board, k, id, line));
      finish := finishMap[Word(board, k, id, line)];
    }
  }

  lemma WordsPerColumn(b: Board, cols: Columns, id: nat)
    requires Represents(b, cols) && IsId(id)
    ensures |b.v| == 3 && |b.v[id]| == COLS
  {
    assert Field(b, Vertical) == b.v;
  }

  function Empty(): Columns { seq(COLS, _ => []) }

  function EmptyBoard(): Board {
    Board(seq(3, _ => seq(ROWS, _ => 0)), seq(3, _ => seq(COLS, _ => 0)),
          seq(3, _ => seq(ROWS + COLS, _ => 0)), seq(3, _ => seq(ROWS + COLS, _ => 0)))
  }

  lemma EmptyRepresents()
    ensures Represents(EmptyBoard(), Empty())
  {
    hide RowAt, ColAt;
    var b, cols := EmptyBoard(), Empty();
    forall k: Kind, id: nat, line: nat | id < 3 && line < Lines(k)
      ensures WordOk(cols, id, k, line, Word(b, k, id, line))
    {
      assert Word(b, k, id, line) == 0;
      forall bit: nat
        ensures !TestBit(0, bit)
      {
        ZeroBits(bit);
      }
    }
  }

  /** four_remove undoes four_add, word for word. */
  method AddRemove(game: FourBoard, id: nat, col: nat)
    requires game.Valid() && IsId(id) && col < COLS
    modifies game
    ensures game.Valid() && game.board == old(game.board) && game.cols == old(game.cols)
  {
    hide Represents, FourBoard.TablesOk;
    ghost var before := game.cols;
    PositionLegal(game);
    var _, r := game.Add(id, col);
    if r == 0 {
      DropHas(before, id, col);
      game.Remove(id, col);
      OneBoard(game.board, old(game.board), before);
    }
  }

  lemma PositionLegal(game: FourBoard)
    requires game.Valid()
    ensures Legal(game.cols)
  {
  }
}
