/** Whole games on the board of four.c, and the exchange of positions as fields of cells. */
module FourRun {
  import opened Powers
  import opened Four
  import opened FourGame

  // ----- Runs of moves -----

  /** The player of move n when player `first` begins. */
  function Mover(first: nat, n: nat): (id: nat)
    requires IsId(first)
    ensures IsId(id)
  {
    if n % 2 == 0 then first else Other(first)
  }

  /** Every move goes into a column that is not yet full. */
  predicate Playable(cols: Columns, first: nat, moves: seq<nat>)
    requires Legal(cols) && IsId(first)
    decreases |moves|, 0
  {
    moves == [] || (var n := |moves| - 1;
                    && Playable(cols, first, moves[..n]) && moves[n] < COLS
                    && |After(cols, first, moves[..n])[moves[n]]| < ROWS)
  }

  /** The position after the moves. */
  function After(cols: Columns, first: nat, moves: seq<nat>): (r: Columns)
    requires Legal(cols) && IsId(first) && Playable(cols, first, moves)
    ensures Legal(r)
    decreases |moves|, 1
  {
    if moves == [] then cols
    else
      var n := |moves| - 1;
      var before := After(cols, first, moves[..n]);
      DropHas(before, Mover(first, n), moves[n]);
      Dropped(before, Mover(first, n), moves[n])
  }

  lemma NextMove(cols: Columns, first: nat, moves: seq<nat>, n: nat)
    requires Legal(cols) && IsId(first) && n < |moves| && Playable(cols, first, moves[..n])
    ensures Playable(cols, first, moves[..n + 1]) <==>
              moves[n] < COLS && |After(cols, first, moves[..n])[moves[n]]| < ROWS
    ensures Playable(cols, first, moves[..n + 1]) ==>
              After(cols, first, moves[..n + 1]) == Dropped(After(cols, first, moves[..n]), Mover(first, n), moves[n])
  {
    hide Legal;
    assert moves[..n + 1][..n] == moves[..n];
  }

  lemma {:induction false} PrefixPlayable(cols: Columns, first: nat, moves: seq<nat>, n: nat)
    requires Legal(cols) && IsId(first) && Playable(cols, first, moves) && n <= |moves|
    ensures Playable(cols, first, moves[..n])
    decreases |moves|
  {
    hide Legal;
    if n == |moves| {
      assert moves[..n] == moves;
    } else {
      PrefixPlayable(cols, first, moves[..|moves| - 1], n);
      assert moves[..|moves| - 1][..n] == moves[..n];
    }
  }

  ghost predicate NoFour(cols: Columns)
    requires Legal(cols)
  {
    !HasFour(cols, 1) && !HasFour(cols, 2)
  }

  /** The first `played` moves are possible, and before the last of them nobody has four. */
  ghost predicate OpenRun(cols: Columns, first: nat, moves: seq<nat>, played: nat)
    requires Legal(cols) && IsId(first)
  {
    played <= |moves| && forall n: nat :: n <= played ==>
      Playable(cols, first, moves[..n]) && (n < played ==> NoFour(After(cols, first, moves[..n])))
  }

  /** One player cannot get four by a move of the other. */
  lemma MoveKeepsOther(cols: Columns, id: nat, col: nat)
    requires Legal(cols) && NoFour(cols) && IsId(id) && col < COLS && |cols[col]| < ROWS
    ensures Legal(Dropped(cols, id, col)) && (NoFour(Dropped(cols, id, col)) <==> !HasFour(Dropped(cols, id, col), id))
  {
    hide HasFour, Legal;
    OtherKeeps(cols, id, col);
  }

  lemma OneMore(cols: Columns, first: nat, moves: seq<nat>, n: nat)
    requires Legal(cols) && IsId(first) && OpenRun(cols, first, moves, n) && n < |moves|
    requires NoFour(After(cols, first, moves[..n])) && Playable(cols, first, moves[..n + 1])
    ensures OpenRun(cols, first, moves, n + 1)
  {
    hide Legal, NoFour, Playable, After;
  }

  lemma OpenAt(cols: Columns, first: nat, moves: seq<nat>, n: nat)
    requires Legal(cols) && IsId(first) && OpenRun(cols, first, moves, n)
    ensures n <= |moves| && Playable(cols, first, moves[..n])
  {
  }

  lemma StartOpen(cols: Columns, first: nat, moves: seq<nat>)
    requires Legal(cols) && IsId(first)
    ensures OpenRun(cols, first, moves, 0) && Playable(cols, first, moves[..0])
    ensures After(cols, first, moves[..0]) == cols
  {
    hide Legal;
    assert moves[..0] == [];
  }

  /** One move and the test for its end. */
  method Move(game: FourBoard, id: nat, col: nat) returns (refused: bool, won: bool)
    requires game.Valid() && Legal(game.cols) && NoFour(game.cols) && IsId(id) && col < COLS
    modifies game`board, game`cols
    ensures game.Valid() && Legal(game.cols)
    ensures refused <==> |old(game.cols)[col]| >= ROWS
    ensures refused ==> game.cols == old(game.cols) && !won
    ensures !refused ==> game.cols == Dropped(old(game.cols), id, col)
    ensures won <==> HasFour(game.cols, id)
    ensures won <==> !NoFour(game.cols)
  {
    hide HasFour, Represents, FourBoard.TablesOk;
    PositionLegal(game);
    ghost var before := game.cols;
    assert !HasFour(before, id);
    var _, r := game.Add(id, col);
    PositionLegal(game);
    refused, won := r < 0, false;
    if r == 0 {
      MoveKeepsOther(before, id, col);
      won := game.IsFinish(id, col, before);
    }
  }

  /**
   * A game: the players drop pieces in turn until one has four, a column is full
   * or the moves are used up. The board shows exactly the moves made, and a game
   * that is reported won is won by its last move and by no earlier one.
   */
  method Play(game: FourBoard, first: nat, moves: seq<nat>) returns (played: nat, won: bool)
    requires game.Valid() && Legal(game.cols) && NoFour(game.cols) && IsId(first)
    requires forall n :: 0 <= n < |moves| ==> moves[n] < COLS
    modifies game`board, game`cols
    ensures game.Valid() && OpenRun(old(game.cols), first, moves, played)
    ensures Playable(old(game.cols), first, moves[..played])
    ensures game.cols == After(old(game.cols), first, moves[..played])
    ensures won <==> !NoFour(game.cols)
    ensures won ==> played > 0 && HasFour(game.cols, Mover(first, played - 1))
    ensures !won ==> played == |moves| || |game.cols[moves[played]]| >= ROWS
  {
    hide HasFour, NoFour, Represents, FourBoard.TablesOk, OpenRun, Playable, After, Mover;
    ghost var start := game.cols;
    StartOpen(start, first, moves);
    played, won := 0, false;
    while played < |moves|
      invariant played <= |moves| && game.Valid() && Legal(game.cols) && NoFour(game.cols) && !won
      invariant OpenRun(start, first, moves, played) && Playable(start, first, moves[..played])
      invariant game.cols == After(start, first, moves[..played])
    {
      NextMove(start, first, moves, played);
      var refused;
      refused, won := Move(game, Mover(first, played), moves[played]);
      if refused {
        return;
      }
      OneMore(start, first, moves, played);
      played := played + 1;
      if won {
        return;
      }
    }
  }

  /** Taking the moves back, the last one first. */
  method TakeBack(game: FourBoard, first: nat, moves: seq<nat>, ghost start: Columns)
    requires game.Valid() && Legal(start) && IsId(first) && Playable(start, first, moves)
    requires game.cols == After(start, first, moves)
    modifies game`board, game`cols
    ensures game.Valid() && game.cols == start
  {
    hide Represents, FourBoard.TablesOk, Playable, After, Legal;
    var n := |moves|;
    assert moves[..n] == moves;
    while n > 0
      invariant 0 <= n <= |moves| && game.Valid() && Playable(start, first, moves[..n])
      invariant game.cols == After(start, first, moves[..n])
    {
      n := n - 1;
      LastMove(start, first, moves, n);
      game.Remove(Mover(first, n), moves[n]);
    }
    StartOpen(start, first, moves);
  }

  lemma LastMove(cols: Columns, first: nat, moves: seq<nat>, n: nat)
    requires Legal(cols) && IsId(first) && n < |moves| && Playable(cols, first, moves[..n + 1])
    ensures Playable(cols, first, moves[..n]) && moves[n] < COLS
    ensures var now := After(cols, first, moves[..n + 1]);
            && |now| == COLS && |now[moves[n]]| > 0 && now[moves[n]][|now[moves[n]]| - 1] == Mover(first, n)
            && Lifted(now, moves[n]) == After(cols, first, moves[..n])
  {
    hide Has;
    assert moves[..n + 1][..n] == moves[..n];
    DropHas(After(cols, first, moves[..n]), Mover(first, n), moves[n]);
  }

  /** A game that is played and taken back leaves the board as it was, word for word. */
  method PlayAndTakeBack(game: FourBoard, first: nat, moves: seq<nat>) returns (played: nat, won: bool)
    requires game.Valid() && Legal(game.cols) && NoFour(game.cols) && IsId(first)
    requires forall n :: 0 <= n < |moves| ==> moves[n] < COLS
    modifies game`board, game`cols
    ensures game.Valid() && game.board == old(game.board) && game.cols == old(game.cols)
  {
    hide HasFour, NoFour, Represents, FourBoard.TablesOk, OpenRun, Playable, After, Legal;
    ghost var start := game.cols;
    played, won := Play(game, first, moves);
    OpenAt(start, first, moves, played);
    TakeBack(game, first, moves[..played], start);
    OneBoard(game.board, old(game.board), start);
  }

  // ----- Fields of cells -----

  /** A field as the arena describes it, row 0 at the bottom: 0 is an empty cell. */
  type Cells = seq<seq<nat>>

  predicate IsField(f: Cells) {
    && |f| == ROWS && (forall r :: 0 <= r < ROWS ==> |f[r]| == COLS)
    && forall r, c :: 0 <= r < ROWS && 0 <= c < COLS ==> f[r][c] <= 2
  }

  /** The cells of a position. */
  function CellAt(cols: Columns, r: nat, c: nat): nat
    requires |cols| == COLS && c < COLS
  {
    if r < |cols[c]| then cols[c][r] else 0
  }

  function ShowCells(cols: Columns): Cells
    requires |cols| == COLS
  {
    seq(ROWS, r requires 0 <= r < ROWS => seq(COLS, c requires 0 <= c < COLS => CellAt(cols, r, c)))
  }

  /** The pieces of the lowest n cells of a column, let fall. */
  function Fallen(f: Cells, c: nat, n: nat): (s: seq<nat>)
    requires IsField(f) && c < COLS && n <= ROWS
    ensures |s| <= n && forall r :: 0 <= r < |s| ==> IsId(s[r])
  {
    if n == 0 then [] else Fallen(f, c, n - 1) + if f[n - 1][c] != 0 then [f[n - 1][c]] else []
  }

  /** No piece floats. */
  predicate Settled(f: Cells)
    requires IsField(f)
  {
    forall r, below, c :: 0 <= below < r < ROWS && 0 <= c < COLS && f[r][c] != 0 ==> f[below][c] != 0
  }

  /** The position after row j up to column i. */
  function FallenUpTo(f: Cells, j: nat, i: nat): Columns
    requires IsField(f) && j < ROWS && i <= COLS
  {
    seq(COLS, c requires 0 <= c < COLS => Fallen(f, c, if c < i then j + 1 else j))
  }

  function FallenAll(f: Cells): Columns
    requires IsField(f)
  {
    seq(COLS, c requires 0 <= c < COLS => Fallen(f, c, ROWS))
  }

  lemma NextCell(f: Cells, j: nat, i: nat)
    requires IsField(f) && j < ROWS && i < COLS
    ensures var cols := FallenUpTo(f, j, i);
            && |cols[i]| < ROWS
            && FallenUpTo(f, j, i + 1) == if f[j][i] != 0 then Dropped(cols, f[j][i], i) else cols
  {
    var cols, after := FallenUpTo(f, j, i), FallenUpTo(f, j, i + 1);
    var expected := if f[j][i] != 0 then Dropped(cols, f[j][i], i) else cols;
    forall c: nat | c < COLS
      ensures after[c] == expected[c]
    {
      if c == i {
        assert after[c] == Fallen(f, i, j + 1) && cols[c] == Fallen(f, i, j);
      }
    }
    assert after == expected && cols[i] == Fallen(f, i, j);
  }

  lemma NextRow(f: Cells, j: nat)
    requires IsField(f) && j < ROWS
    ensures FallenUpTo(f, j, COLS) == if j + 1 < ROWS then FallenUpTo(f, j + 1, 0) else FallenAll(f)
    ensures FallenUpTo(f, 0, 0) == Empty()
  {
    hide IsField, Fallen;
    NothingFallen(f);
  }

  lemma NothingFallen(f: Cells)
    requires IsField(f)
    ensures forall c: nat :: c < COLS ==> Fallen(f, c, 0) == []
  {
  }

  /** four_set_field: the pieces are dropped row by row */
  method SetField(game: FourBoard, f: Cells)
    requires game.Valid() && IsField(f)
    modifies game`board, game`cols
    ensures game.Valid() && game.cols == FallenAll(f)
  {
    hide Represents, FourBoard.TablesOk, Fallen, FallenUpTo, FallenAll;
    Reset(game);
    NextRow(f, 0);
    for j := 0 to ROWS
      invariant game.Valid() && game.cols == if j < ROWS then FallenUpTo(f, j, 0) else FallenAll(f)
    {
      for i := 0 to COLS
        invariant game.Valid() && game.cols == FallenUpTo(f, j, i)
      {
        NextCell(f, j, i);
        var id := f[j][i];
        if id != 0 {
          var _, _ := game.Add(id, i);
        }
      }
      NextRow(f, j);
    }
  }

  /** four_reset */
  method Reset(game: FourBoard)
    requires game.Valid()
    modifies game`board, game`cols
    ensures game.Valid() && game.cols == Empty()
  {
    hide Represents;
    EmptyRepresents();
    game.board := EmptyBoard();
    game.cols := Empty();
  }

  /** four_get_field */
  method GetField(game: FourBoard) returns (f: Cells)
    requires game.Valid() && |game.cols| == COLS
    ensures f == ShowCells(game.cols)
  {
    hide Represents, FourBoard.TablesOk, CellAt;
    f := [];
    for j := 0 to ROWS
      invariant |f| == j
      invariant forall r :: 0 <= r < j ==> |f[r]| == COLS
      invariant forall r, c :: 0 <= r < j && 0 <= c < COLS ==> f[r][c] == CellAt(game.cols, r, c)
    {
      var row: seq<nat> := [];
      for i := 0 to COLS
        invariant |row| == i && forall c :: 0 <= c < i ==> row[c] == CellAt(game.cols, j, c)
      {
        var cell := GetCell(game, j, i);
        row := row + [cell];
      }
      f := f + [row];
    }
    forall r: nat | r < ROWS
      ensures f[r] == ShowCells(game.cols)[r]
    {
    }
  }

  method GetCell(game: FourBoard, j: nat, i: nat) returns (cell: nat)
    requires game.Valid() && j < ROWS && i < COLS
    ensures |game.cols| == COLS && cell == CellAt(game.cols, j, i)
  {
    hide TestBit, WordHasFour, IsNext, FourBoard.TablesOk;
    cell := 0;
    for k: nat := 1 to 3
      invariant cell == if k > 1 && Has(game.cols, 1, j, i) then 1 else if k > 2 && Has(game.cols, 2, j, i) then 2
                  else 0
    {
      assert WordOk(game.cols, k, Horizontal, j, Word(game.board, Horizontal, k, j));
      if TestBit(game.board.h[k][j], i) {
        cell := k;
      }
    }
  }

  // ----- Fields and positions are two views of the same game -----

  lemma {:induction false} FallenOfShown(cols: Columns, c: nat, n: nat)
    requires Legal(cols) && c < COLS && n <= ROWS && IsField(ShowCells(cols))
    ensures Fallen(ShowCells(cols), c, n) == if n <= |cols[c]| then cols[c][..n] else cols[c]
  {
    if n > 0 {
      FallenOfShown(cols, c, n - 1);
      assert ShowCells(cols)[n - 1][c] == CellAt(cols, n - 1, c);
    }
  }

  lemma ShownIsField(cols: Columns)
    requires Legal(cols)
    ensures IsField(ShowCells(cols)) && Settled(ShowCells(cols))
  {
    var f := ShowCells(cols);
    assert forall r, c :: 0 <= r < ROWS && 0 <= c < COLS ==> f[r][c] == CellAt(cols, r, c);
  }

  /** Reading a position out and dropping it in again gives the same position. */
  lemma ShowThenFall(cols: Columns)
    requires Legal(cols)
    ensures IsField(ShowCells(cols)) && FallenAll(ShowCells(cols)) == cols
  {
    hide Fallen, ShowCells, IsField;
    ShownIsField(cols);
    forall c: nat | c < COLS
      ensures Fallen(ShowCells(cols), c, ROWS) == cols[c]
    {
      FallenOfShown(cols, c, ROWS);
      assert |cols[c]| == ROWS ==> cols[c][..ROWS] == cols[c];
    }
  }

  /** Without floating pieces nothing moves when the pieces fall. */
  lemma {:induction false} SettledColumn(f: Cells, c: nat, n: nat)
    requires IsField(f) && Settled(f) && c < COLS && n <= ROWS
    ensures forall r :: 0 <= r < n ==> f[r][c] == if r < |Fallen(f, c, n)| then Fallen(f, c, n)[r] else 0
  {
    if n > 0 {
      SettledColumn(f, c, n - 1);
      SettledCell(f, c, n - 1);
    }
  }

  lemma SettledCell(f: Cells, c: nat, n: nat)
    requires IsField(f) && Settled(f) && c < COLS && n < ROWS
    requires forall r :: 0 <= r < n ==> f[r][c] == if r < |Fallen(f, c, n)| then Fallen(f, c, n)[r] else 0
    ensures forall r :: 0 <= r < n + 1 ==> f[r][c] == if r < |Fallen(f, c, n + 1)| then Fallen(f, c, n + 1)[r] else 0
  {
    hide Fallen;
    FallenStep(f, c, n);
    var r := |Fallen(f, c, n)|;
    assert r < n ==> f[r][c] == 0;
  }

  lemma FallenStep(f: Cells, c: nat, n: nat)
    requires IsField(f) && c < COLS && n < ROWS
    ensures Fallen(f, c, n + 1) == Fallen(f, c, n) + if f[n][c] != 0 then [f[n][c]] else []
  {
  }

  lemma FallenLegal(f: Cells)
    requires IsField(f)
    ensures Legal(FallenAll(f))
  {
    hide Fallen, IsField;
  }

  /** A field that was dropped in reads out unchanged exactly when none of its pieces floats. */
  lemma FallThenShow(f: Cells)
    requires IsField(f)
    ensures ShowCells(FallenAll(f)) == f <==> Settled(f)
  {
    hide Fallen;
    FallenLegal(f);
    ShownIsField(FallenAll(f));
    if Settled(f) {
      forall r: nat | r < ROWS
        ensures ShowCells(FallenAll(f))[r] == f[r]
      {
        forall c: nat | c < COLS
          ensures ShowCells(FallenAll(f))[r][c] == f[r][c]
        {
          SettledColumn(f, c, ROWS);
        }
      }
    }
  }

  /** four_get_field into four_set_field restores the board, word for word. */
  method SaveAndRestore(game: FourBoard)
    requires game.Valid() && Legal(game.cols)
    modifies game`board, game`cols
    ensures game.Valid() && game.board == old(game.board) && game.cols == old(game.cols)
  {
    hide Represents, FourBoard.TablesOk, ShowCells, FallenAll, IsField;
    var f := GetField(game);
    ShowThenFall(game.cols);
    SetField(game, f);
    OneBoard(game.board, old(game.board), game.cols);
  }
}
