/** The game search: depth-limited, doing and undoing moves on one shared board. */
module AiCore {
  import opened Four
  import opened FourGame

  const WIN: int := 127
  const TIED: int := 1
  const FULL: int := 0
  /** The values of positions that are not decided within the depth of the search. */
  const NORMAL_MIN: int := 16
  const NORMAL_MAX: int := 79

  datatype Position = Position(colume: int, value: int, nextCol: int)

  // ----- What the search decides -----

  predicate CanDrop(cols: Columns, c: nat)
    requires Legal(cols)
  {
    c < COLS && |cols[c]| < ROWS
  }

  function Drop(cols: Columns, id: nat, c: nat): (r: Columns)
    requires Legal(cols) && IsId(id) && CanDrop(cols, c)
    ensures Legal(r)
  {
    DropHas(cols, id, c);
    Dropped(cols, id, c)
  }

  /** The player to move can force a four within n plies. */
  ghost predicate Wins(cols: Columns, id: nat, n: nat)
    requires Legal(cols) && IsId(id)
    decreases n, 2
  {
    exists c: nat :: CanDrop(cols, c) && WinsBy(cols, id, n, c)
  }

  ghost predicate WinsBy(cols: Columns, id: nat, n: nat, c: nat)
    requires Legal(cols) && IsId(id) && CanDrop(cols, c)
    decreases n, 0
  {
    n > 0 && (HasFour(Drop(cols, id, c), id) || (n > 1 && Lost(Drop(cols, id, c), Other(id), n - 1)))
  }

  /** The player to move has a move, and whatever it is, the opponent then forces a four. */
  ghost predicate Lost(cols: Columns, id: nat, n: nat)
    requires Legal(cols) && IsId(id)
    decreases n, 2
  {
    && (exists c: nat :: CanDrop(cols, c))
    && forall c: nat :: CanDrop(cols, c) ==> LosesBy(cols, id, n, c)
  }

  ghost predicate LosesBy(cols: Columns, id: nat, n: nat, c: nat)
    requires Legal(cols) && IsId(id) && CanDrop(cols, c)
    decreases n, 0
  {
    n > 1 && !HasFour(Drop(cols, id, c), id) && Wins(Drop(cols, id, c), Other(id), n - 1)
  }

  /** What can be forced within n plies can be forced within more. */
  lemma {:induction false} WinsLonger(cols: Columns, id: nat, n: nat)
    requires Legal(cols) && IsId(id)
    ensures Wins(cols, id, n) ==> Wins(cols, id, n + 1)
    ensures Lost(cols, id, n) ==> Lost(cols, id, n + 1)
    decreases n
  {
    hide Legal, HasFour, Drop;
    forall c: nat | CanDrop(cols, c)
      ensures WinsBy(cols, id, n, c) ==> WinsBy(cols, id, n + 1, c)
      ensures LosesBy(cols, id, n, c) ==> LosesBy(cols, id, n + 1, c)
    {
      if n > 0 {
        WinsLonger(Drop(cols, id, c), Other(id), n - 1);
      }
    }
  }

  // ----- What the search may answer -----

  /**
   * The move c may be worth v, and `reply` the answer to it: a four is worth
   * WIN; at the last ply anything else is worth some undecided value; before it,
   * what the opponent's best move may be judged to leave.
   */
  ghost predicate Worth(cols: Columns, id: nat, n: nat, c: nat, v: int, reply: int)
    requires Legal(cols) && IsId(id) && CanDrop(cols, c)
    decreases n, 0
  {
    if HasFour(Drop(cols, id, c), id) then v == 127 && reply == -1
    else if n <= 1 then 16 <= v <= 79 && reply == -1
    else exists next: int :: Judged(Drop(cols, id, c), Other(id), n - 1, Position(reply, v, next))
  }

  /** No more than v is possible in one evaluation of the move c. */
  ghost predicate WorthAtMost(cols: Columns, id: nat, n: nat, c: nat, v: int)
    requires Legal(cols) && IsId(id) && CanDrop(cols, c)
    decreases n, 1
  {
    exists v': int, reply: int :: v' <= v && Worth(cols, id, n, c, v', reply)
  }

  /**
   * The judgement `best` is minus the value of its column, for some outcome of
   * all evaluations in which no column is worth more; a full board is tied.
   */
  ghost predicate Judged(cols: Columns, id: nat, n: nat, best: Position)
    requires Legal(cols) && IsId(id)
    decreases n, 2
  {
    if exists c: nat :: CanDrop(cols, c) then
      && 0 <= best.colume < COLS && CanDrop(cols, best.colume)
      && Worth(cols, id, n, best.colume, -best.value, best.nextCol)
      && forall c: nat :: CanDrop(cols, c) ==> best.value == -WIN || WorthAtMost(cols, id, n, c, -best.value)
    else best.value == -1
  }

  /** Only the values of decided moves are extreme, and none is FULL. */
  lemma {:induction false} WorthMeans(cols: Columns, id: nat, n: nat, c: nat, v: int, reply: int)
    requires Legal(cols) && IsId(id) && n >= 1 && CanDrop(cols, c) && Worth(cols, id, n, c, v, reply)
    ensures v != FULL && -WIN <= v <= WIN
    ensures v == WIN <==> WinsBy(cols, id, n, c)
    ensures v == -WIN <==> LosesBy(cols, id, n, c)
    decreases n, 0
  {
    hide Legal, HasFour, Drop, Wins, Lost, Judged;
    if n > 1 && !HasFour(Drop(cols, id, c), id) {
      var next: int :| Judged(Drop(cols, id, c), Other(id), n - 1, Position(reply, v, next));
      JudgedMeans(Drop(cols, id, c), Other(id), n - 1, Position(reply, v, next));
    }
  }

  lemma SomeWorth(cols: Columns, id: nat, n: nat, c: nat, v: int) returns (v': int, reply: int)
    requires Legal(cols) && IsId(id) && CanDrop(cols, c) && WorthAtMost(cols, id, n, c, v)
    ensures v' <= v && Worth(cols, id, n, c, v', reply)
  {
    hide Legal, Worth, CanDrop;
    v', reply :| v' <= v && Worth(cols, id, n, c, v', reply);
  }

  /** Whatever the undecided values are, a judgement is extreme exactly when a four can be forced. */
  lemma {:induction false} JudgedMeans(cols: Columns, id: nat, n: nat, best: Position)
    requires Legal(cols) && IsId(id) && n >= 1 && Judged(cols, id, n, best)
    ensures best.value != FULL && -WIN <= best.value <= WIN
    ensures best.value == -WIN <==> Wins(cols, id, n)
    ensures best.value == WIN <==> Lost(cols, id, n)
    ensures (forall c: nat :: !CanDrop(cols, c)) ==> best.value == -1
    ensures best.value == -WIN ==>
              0 <= best.colume < COLS && CanDrop(cols, best.colume) && WinsBy(cols, id, n, best.colume)
    decreases n, 1
  {
    hide Legal, Worth, CanDrop, WinsBy, LosesBy;
    if exists c: nat :: CanDrop(cols, c) {
      WorthMeans(cols, id, n, best.colume, -best.value, best.nextCol);
      forall c: nat | CanDrop(cols, c)
        ensures WinsBy(cols, id, n, c) ==> best.value == -WIN
        ensures best.value == WIN ==> LosesBy(cols, id, n, c)
      {
        if best.value != -WIN {
          var v, reply := SomeWorth(cols, id, n, c, -best.value);
          WorthMeans(cols, id, n, c, v, reply);
        }
      }
    }
  }

  // ----- Choosing the best column -----

  /** rand() & 1 */
  method Coin() returns (b: bool)
  {
    b := *;
  }

  /** judgement: any value between NORMAL_MIN and NORMAL_MAX */
  method Judgement() returns (v: int)
    ensures NORMAL_MIN <= v <= NORMAL_MAX
  {
    v :| NORMAL_MIN <= v <= NORMAL_MAX;
  }

  predicate Above(pos: seq<Position>, a: nat, b: nat)
    requires a < |pos| && b < |pos|
  {
    pos[a].value >= pos[b].value
  }

  /** The bubble sort of max_score; equal values may change places. */
  method SortPositions(pos: array<Position>)
    modifies pos
    ensures multiset(pos[..]) == multiset(old(pos[..]))
    ensures forall a, b :: 0 <= a < b < pos.Length ==> Above(pos[..], a, b)
  {
    var n := pos.Length;
    var i := 0;
    while i < n - 1
      invariant 0 <= i && (i <= n - 1 || n == 0)
      invariant multiset(pos[..]) == multiset(old(pos[..]))
      invariant forall a, b :: 0 <= a < i && a < b < n ==> Above(pos[..], a, b)
    {
      BubbleUp(pos, i);
      i := i + 1;
    }
  }

  /** One turn of the outer loop brings the largest of the rest to position i. */
  method BubbleUp(pos: array<Position>, i: nat)
    requires i < pos.Length
    requires forall a, b :: 0 <= a < i && a < b < pos.Length ==> Above(pos[..], a, b)
    modifies pos
    ensures multiset(pos[..]) == multiset(old(pos[..]))
    ensures forall a, b :: 0 <= a < i + 1 && a < b < pos.Length ==> Above(pos[..], a, b)
  {
    hide Above;
    var n := pos.Length;
    var j := n - 1;
    while j > i
      invariant i <= j < n
      invariant multiset(pos[..]) == multiset(old(pos[..]))
      invariant forall a, b :: 0 <= a < i && a < b < n ==> Above(pos[..], a, b)
      invariant forall b :: j < b < n ==> Above(pos[..], j, b)
    {
      var coin := Coin();
      ghost var was := pos[..];
      if pos[j].value > pos[j - 1].value || (pos[j].value == pos[j - 1].value && coin) {
        pos[j], pos[j - 1] := pos[j - 1], pos[j];
        assert pos[..] == was[j := was[j - 1]][j - 1 := was[j]];
      }
      BubbleStep(was, pos[..], i, j);
      j := j - 1;
    }
  }

  lemma BubbleStep(was: seq<Position>, now: seq<Position>, i: nat, j: nat)
    requires i < j < |was|
    requires now == (if was[j].value > was[j - 1].value then was[j := was[j - 1]][j - 1 := was[j]] else was)
             || (was[j].value == was[j - 1].value && now == was[j := was[j - 1]][j - 1 := was[j]])
    requires forall a, b :: 0 <= a < i && a < b < |was| ==> Above(was, a, b)
    requires forall b :: j < b < |was| ==> Above(was, j, b)
    ensures |now| == |was|
    ensures forall a, b :: 0 <= a < i && a < b < |was| ==> Above(now, a, b)
    ensures var top := j - 1; forall b :: top < b < |was| ==> Above(now, top, b)
  {
    forall a, b | 0 <= a < i && a < b < |was|
      ensures Above(now, a, b)
    {
      assert Above(was, a, b) && Above(was, a, j) && Above(was, a, j - 1);
    }
    var top := j - 1;
    forall b | top < b < |was|
      ensures Above(now, top, b)
    {
      assert b > j ==> Above(was, j, b);
    }
  }

  /** The first position that is not FULL. */
  method SelectBest(pos: array<Position>) returns (best: Position)
    modifies pos
    ensures (forall p :: p in old(pos[..]) ==> p.value == FULL) ==> best.value == -TIED
    ensures (exists p :: p in old(pos[..]) && p.value != FULL) ==>
              exists p :: p in old(pos[..]) && p.value != FULL && best == p.(value := -p.value)
                          && forall q :: q in old(pos[..]) && q.value != FULL ==> q.value <= p.value
  {
    ghost var before := pos[..];
    SortPositions(pos);
    SameMembers(before, pos[..]);
    best := Position(-1, -TIED, -1);
    for i := 0 to pos.Length
      invariant best == Position(-1, -TIED, -1)
      invariant forall k :: 0 <= k < i ==> pos[k].value == FULL
    {
      if pos[i].value != FULL {
        best := pos[i].(value := -pos[i].value);
        LargestOf(before, pos[..], i);
        return;
      }
    }
    assert forall p :: p in before ==> p in pos[..];
  }

  lemma SameMembers(a: seq<Position>, b: seq<Position>)
    requires multiset(a) == multiset(b)
    ensures forall p :: p in a <==> p in b
  {
    forall p
      ensures p in a <==> p in b
    {
      assert p in a <==> p in multiset(a);
      assert p in b <==> p in multiset(b);
    }
  }

  lemma LargestOf(before: seq<Position>, pos: seq<Position>, i: nat)
    requires i < |pos| && (forall p :: p in before <==> p in pos)
    requires forall a, b :: 0 <= a < b < |pos| ==> Above(pos, a, b)
    requires forall k :: 0 <= k < i ==> pos[k].value == FULL
    ensures pos[i] in before && forall q :: q in before && q.value != FULL ==> q.value <= pos[i].value
  {
    forall q | q in before && q.value != FULL
      ensures q.value <= pos[i].value
    {
      var k :| 0 <= k < |pos| && pos[k] == q;
      assert k > i ==> Above(pos, i, k);
    }
  }

  // ----- The search -----

  /** The value found for column c is one it may be worth. */
  ghost predicate Scored(cols: Columns, id: nat, n: nat, c: nat, p: Position)
    requires Legal(cols) && IsId(id)
  {
    && p.colume == c && p.value <= WIN
    && (p.value == FULL <==> !CanDrop(cols, c))
    && (CanDrop(cols, c) ==> Worth(cols, id, n, c, p.value, p.nextCol))
  }

  ghost predicate ScoredTo(cols: Columns, id: nat, n: nat, pos: seq<Position>, m: nat)
    requires Legal(cols) && IsId(id)
  {
    && |pos| == COLS && m <= COLS
    && (forall c: nat :: c < m ==> Scored(cols, id, n, c, pos[c]))
    && (forall c: nat :: m <= c < COLS ==> pos[c].value == FULL && pos[c].colume == c)
  }

  /** No player has four yet. */
  ghost predicate Open(cols: Columns)
    requires Legal(cols)
  {
    !HasFour(cols, 1) && !HasFour(cols, 2)
  }

  /** The value of one move, after which the board is as before. */
  method TryColumn(game: FourBoard, id: nat, steps: nat, i: nat) returns (p: Position)
    requires game.Valid() && IsId(id) && steps >= 1 && i < COLS && Legal(game.cols) && Open(game.cols)
    modifies game`board, game`cols
    decreases steps, 0
    ensures game.Valid() && game.cols == old(game.cols)
    ensures Legal(game.cols) && Scored(game.cols, id, steps, i, p)
  {
    hide FourBoard.Valid, HasFour, Wins, Lost, Legal, Has;
    ghost var cols := game.cols;
    p := Position(i, FULL, -1);
    LegalColumns(cols);
    var _, r := game.Add(id, i);
    if r < 0 {
      return;
    }
    ghost var d := Drop(cols, id, i);
    LegalColumns(d);
    OtherKeeps(cols, id, i);
    var finish := game.IsFinish(id, i, cols);
    if finish {
      p := p.(value := WIN);
    } else if steps == 1 {
      var v := Judgement();
      p := p.(value := v);
    } else {
      var tmp := MaxScore(game, Other(id), steps - 1);
      p := Position(i, tmp.value, tmp.colume);
    }
    WorthMeans(cols, id, steps, i, p.value, p.nextCol);
    LiftDropped(cols, id, i);
    game.Remove(id, i);
  }

  lemma LegalColumns(cols: Columns)
    requires Legal(cols)
    ensures |cols| == COLS
  {
  }

  lemma LiftDropped(cols: Columns, id: nat, i: nat)
    requires Legal(cols) && IsId(id) && CanDrop(cols, i)
    ensures var d := Drop(cols, id, i); |d| == COLS && |d[i]| > 0 && d[i][|d[i]| - 1] == id && Lifted(d, i) == cols
  {
  }

  /** max_score without its table of earlier results */
  method MaxScore(game: FourBoard, id: nat, steps: nat) returns (best: Position)
    requires game.Valid() && IsId(id) && steps >= 1 && Legal(game.cols) && Open(game.cols)
    modifies game`board, game`cols
    decreases steps, 1
    ensures game.Valid() && game.cols == old(game.cols) && game.board == old(game.board) && Legal(game.cols)
    ensures best.value != FULL && -WIN <= best.value <= WIN
    ensures best.value == -WIN <==> Wins(game.cols, id, steps)
    ensures best.value == WIN <==> Lost(game.cols, id, steps)
    ensures Judged(game.cols, id, steps, best)
    ensures -127 <= best.value <= 127 && ((forall c: nat :: !CanDrop(game.cols, c)) ==> best.value == -1)
    ensures best.value == -WIN ==> 0 <= best.colume < COLS && CanDrop(game.cols, best.colume)
                                   && WinsBy(game.cols, id, steps, best.colume)
  {
    hide FourBoard.Valid, Wins, Lost, Legal, Open, Scored, CanDrop, WinsBy, LosesBy, Represents, Judged;
    var pos := new Position[COLS](i => Position(i, FULL, -1));
    ghost var cols, board := game.cols, game.board;
    Shown(game);
    var i := 0;
    while i < COLS
      invariant i <= COLS && game.Valid() && game.cols == cols
      invariant ScoredTo(cols, id, steps, pos[..], i)
    {
      var p := TryColumn(game, id, steps, i);
      pos[i] := p;
      i := i + 1;
      if p.value == WIN {
        break;
      }
    }
    ghost var scores := pos[..];
    best := SelectBest(pos);
    Judge(cols, id, steps, scores, i, best);
    JudgedMeans(cols, id, steps, best);
    Shown(game);
    OneBoard(game.board, board, cols);
  }

  lemma Shown(game: FourBoard)
    requires game.Valid()
    ensures Represents(game.board, game.cols)
  {
  }

  /** What the largest value says about the position. */
  lemma Judge(cols: Columns, id: nat, n: nat, pos: seq<Position>, m: nat, best: Position)
    requires Legal(cols) && IsId(id) && n >= 1 && ScoredTo(cols, id, n, pos, m)
    requires m == COLS || (m > 0 && pos[m - 1].value == WIN)
    requires (forall p :: p in pos ==> p.value == FULL) ==> best.value == -TIED
    requires (exists p :: p in pos && p.value != FULL) ==>
               exists p :: p in pos && p.value != FULL && best == p.(value := -p.value)
                           && forall q :: q in pos && q.value != FULL ==> q.value <= p.value
    ensures Judged(cols, id, n, best)
  {
    hide Legal, Scored, ScoredTo, CanDrop, Judged;
    if exists p :: p in pos && p.value != FULL {
      var p :| p in pos && p.value != FULL && best == p.(value := -p.value)
               && forall q :: q in pos && q.value != FULL ==> q.value <= p.value;
      JudgeBest(cols, id, n, pos, m, p);
      JudgedByBest(cols, id, n, p);
    } else {
      JudgeFull(cols, id, n, pos, m);
      JudgedFull(cols, id, n, best);
    }
  }

  lemma JudgedByBest(cols: Columns, id: nat, n: nat, p: Position)
    requires Legal(cols) && IsId(id) && 0 <= p.colume < COLS && CanDrop(cols, p.colume)
    requires Worth(cols, id, n, p.colume, p.value, p.nextCol)
    requires forall c: nat :: CanDrop(cols, c) ==> p.value == WIN || WorthAtMost(cols, id, n, c, p.value)
    ensures Judged(cols, id, n, p.(value := -p.value))
  {
    hide Legal, Worth, WorthAtMost, CanDrop;
  }

  lemma JudgedFull(cols: Columns, id: nat, n: nat, best: Position)
    requires Legal(cols) && IsId(id) && best.value == -TIED && forall c: nat :: !CanDrop(cols, c)
    ensures Judged(cols, id, n, best)
  {
    hide Legal, Worth, WorthAtMost, CanDrop;
  }

  /** Some column is open, and p is the best of the open ones. */
  lemma JudgeBest(cols: Columns, id: nat, n: nat, pos: seq<Position>, m: nat, p: Position)
    requires Legal(cols) && IsId(id) && n >= 1 && ScoredTo(cols, id, n, pos, m)
    requires m == COLS || (m > 0 && pos[m - 1].value == WIN)
    requires p in pos && p.value != FULL && forall q :: q in pos && q.value != FULL ==> q.value <= p.value
    ensures 0 <= p.colume < COLS && CanDrop(cols, p.colume)
    ensures Worth(cols, id, n, p.colume, p.value, p.nextCol)
    ensures forall c: nat :: CanDrop(cols, c) ==> p.value == WIN || WorthAtMost(cols, id, n, c, p.value)
  {
    hide Worth, Legal;
    var c: nat :| c < |pos| && pos[c] == p;
    assert c < m && Scored(cols, id, n, c, p);
    forall d: nat | CanDrop(cols, d)
      ensures p.value == WIN || WorthAtMost(cols, id, n, d, p.value)
    {
      if d < m {
        assert Scored(cols, id, n, d, pos[d]) && pos[d] in pos;
      } else {
        assert pos[m - 1] in pos;
      }
    }
  }

  /** Every column is full. */
  lemma JudgeFull(cols: Columns, id: nat, n: nat, pos: seq<Position>, m: nat)
    requires Legal(cols) && IsId(id) && n >= 1 && ScoredTo(cols, id, n, pos, m)
    requires m == COLS || (m > 0 && pos[m - 1].value == WIN)
    requires forall p :: p in pos ==> p.value == FULL
    ensures forall c: nat :: !CanDrop(cols, c)
  {
    hide Worth, Legal;
    forall d: nat
      ensures !CanDrop(cols, d)
    {
      if d < COLS {
        assert pos[d] in pos && Scored(cols, id, n, d, pos[d]);
      }
    }
  }
}
