/**
 * Tic-tac-toe: the rules of the game on a 3x3 board and an alpha-beta
 * pruned minimax search for the best move.
 *
 * The board is an immutable value; playing a move builds a new board.
 * Whose turn it is follows from the parity of the number of empty cells,
 * so X always moves on an odd count and O on an even count.
 */
module TicTacToe {
  import opened Wrappers

  /** A cell holds a mark of one of the players, or is empty. */
  datatype Cell = X | O | Empty

  type Board = seq<seq<Cell>>

  /** A move: the row and the column of the cell to mark. */
  type Action = (int, int)

  /** What playing a move yields: the new board, or the refusal of an illegal move. */
  datatype MoveResult = Moved(board: Board) | InvalidMove

  /** Stand-ins for the infinite starting values of the search; all utilities lie in [-1, 1]. */
  const NegInf: int := -2
  const PosInf: int := 2

  predicate ValidBoard(b: Board) {
    |b| == 3 && forall i :: 0 <= i < 3 ==> |b[i]| == 3
  }

  predicate InRange(a: Action) {
    0 <= a.0 < 3 && 0 <= a.1 < 3
  }

  /** The empty cells of the board: the moves available. */
  function Moves(b: Board): set<Action>
    requires ValidBoard(b)
  {
    set i, j | 0 <= i < 3 && 0 <= j < 3 && b[i][j] == Empty :: (i, j)
  }

  /** The empty cells that come before row i, column j in row-major order. */
  ghost function EmptyBefore(b: Board, i: int, j: int): set<Action>
    requires ValidBoard(b)
  {
    set r, c | 0 <= r < 3 && 0 <= c < 3 && (r < i || (r == i && c < j)) && b[r][c] == Empty :: (r, c)
  }

  /** The player to move: X when the number of empty cells is odd, O when it is even. */
  function ToMove(b: Board): Cell
    requires ValidBoard(b)
  {
    if |Moves(b)| % 2 == 0 then O else X
  }

  function Opponent(p: Cell): Cell {
    match p
    case X => O
    case O => X
    case Empty => Empty
  }

  // ---------------------------------------------------------------------
  // The board and the moves
  // ---------------------------------------------------------------------

  function InitialState(): (b: Board)
    ensures ValidBoard(b)
    ensures forall i, j :: 0 <= i < 3 && 0 <= j < 3 ==> b[i][j] == Empty
  {
    [[Empty, Empty, Empty], [Empty, Empty, Empty], [Empty, Empty, Empty]]
  }

  /** On the empty board all nine cells are moves, X moves first and the game is not over. */
  lemma InitialStateFacts()
    ensures |Moves(InitialState())| == 9
    ensures forall a :: InRange(a) ==> a in Moves(InitialState())
    ensures ToMove(InitialState()) == X
    ensures !Terminal(InitialState())
  {
    var b := InitialState();
    assert Moves(b) == {(0, 0), (0, 1), (0, 2), (1, 0), (1, 1), (1, 2), (2, 0), (2, 1), (2, 2)};
  }

  /** Counts the empty cells and gives the turn to X on an odd count, to O on an even one. */
  method Player(board: Board) returns (p: Cell)
    requires ValidBoard(board)
    ensures p == (if |Moves(board)| % 2 == 1 then X else O)
    ensures p == ToMove(board)
  {
    var emptyCells := 0;
    ghost var seen: set<Action> := {};
    for i := 0 to 3
      invariant seen == EmptyBefore(board, i, 0)
      invariant emptyCells == |seen|
    {
      for j := 0 to 3
        invariant seen == EmptyBefore(board, i, j)
        invariant emptyCells == |seen|
      {
        if board[i][j] == Empty {
          assert (i, j) !in seen;
          seen := seen + {(i, j)};
          emptyCells := emptyCells + 1;
        }
        assert EmptyBefore(board, i, j + 1) == seen;
      }
      assert EmptyBefore(board, i + 1, 0) == EmptyBefore(board, i, 3);
    }
    assert seen == Moves(board);
    p := if emptyCells % 2 == 0 then O else X;
  }

  /** Collects every cell that is empty: exactly the in-range pairs whose cell is Empty. */
  method Actions(board: Board) returns (res: set<Action>)
    requires ValidBoard(board)
    ensures forall a :: a in res <==> InRange(a) && board[a.0][a.1] == Empty
    ensures res == Moves(board)
  {
    res := {};
    for i := 0 to 3
      invariant res == EmptyBefore(board, i, 0)
    {
      for j := 0 to 3
        invariant res == EmptyBefore(board, i, j)
      {
        if board[i][j] == Empty {
          res := res + {(i, j)};
        }
        assert EmptyBefore(board, i, j + 1) == res;
      }
      assert EmptyBefore(board, i + 1, 0) == EmptyBefore(board, i, 3);
    }
    assert res == Moves(board);
  }

  /**
   * The board after the player to move marks the empty cell a:
   * only that cell changes, and it is no longer a move.
   */
  function Play(b: Board, a: Action): (r: Board)
    requires ValidBoard(b) && a in Moves(b)
    ensures ValidBoard(r)
    ensures r[a.0][a.1] == ToMove(b)
    ensures forall i, j :: 0 <= i < 3 && 0 <= j < 3 && (i, j) != a ==> r[i][j] == b[i][j]
    ensures Moves(r) == Moves(b) - {a}
    ensures |Moves(r)| == |Moves(b)| - 1
  {
    b[a.0 := b[a.0][a.1 := ToMove(b)]]
  }

  /** After a move it is the other player's turn. */
  lemma PlayAlternates(b: Board, a: Action)
    requires ValidBoard(b) && a in Moves(b)
    ensures ToMove(Play(b, a)) == Opponent(ToMove(b))
  {
  }

  /**
   * Plays a move on a copy of the board; a move that is not one of the
   * board's actions is refused. The input board is a value and cannot change.
   */
  method Result(board: Board, action: Action) returns (r: MoveResult)
    requires ValidBoard(board)
    ensures r == InvalidMove <==> action !in Moves(board)
    ensures r.Moved? ==> r.board == Play(board, action)
    ensures r.Moved? ==> Moves(r.board) == Moves(board) - {action}
  {
    var legal := Actions(board);
    if action !in legal {
      return InvalidMove;
    }
    var mark := Player(board);
    var (i, j) := action;
    r := Moved(board[i := board[i][j := mark]]);
  }

  // ---------------------------------------------------------------------
  // Lines, the winner and the end of the game
  // ---------------------------------------------------------------------

  predicate Row(b: Board, p: Cell, k: int)
    requires ValidBoard(b) && 0 <= k < 3
  {
    b[k][0] == p && b[k][1] == p && b[k][2] == p
  }

  predicate Column(b: Board, p: Cell, k: int)
    requires ValidBoard(b) && 0 <= k < 3
  {
    b[0][k] == p && b[1][k] == p && b[2][k] == p
  }

  predicate Diagonal(b: Board, p: Cell)
    requires ValidBoard(b)
  {
    b[0][0] == p && b[1][1] == p && b[2][2] == p
  }

  predicate AntiDiagonal(b: Board, p: Cell)
    requires ValidBoard(b)
  {
    b[0][2] == p && b[1][1] == p && b[2][0] == p
  }

  /** The mark p (not Empty) fills a row or column numbered i or above, or a diagonal. */
  predicate HasLineFrom(b: Board, p: Cell, i: int)
    requires ValidBoard(b)
  {
    p != Empty &&
    ((exists k :: i <= k < 3 && 0 <= k && (Row(b, p, k) || Column(b, p, k))) || Diagonal(b, p) || AntiDiagonal(b, p))
  }

  /** The mark p (not Empty) fills some row, column or diagonal. */
  predicate HasLine(b: Board, p: Cell)
    requires ValidBoard(b)
  {
    HasLineFrom(b, p, 0)
  }

  /**
   * Scans row i, column i, then the rows and columns after them, then the
   * two diagonals, and gives the mark of the first full line it meets.
   */
  function WinnerFrom(b: Board, i: nat): (w: Cell)
    requires ValidBoard(b) && i <= 3
    ensures w != Empty ==> HasLineFrom(b, w, i)
    ensures w == Empty ==> !HasLineFrom(b, X, i) && !HasLineFrom(b, O, i)
    decreases 3 - i
  {
    if i == 3 then
      if b[0][0] == b[1][1] && b[1][1] == b[2][2] && b[2][2] != Empty then b[1][1]
      else if b[0][2] == b[1][1] && b[1][1] == b[2][0] && b[2][0] != Empty then b[1][1]
      else Empty
    else if b[i][0] == b[i][1] && b[i][1] == b[i][2] && b[i][2] != Empty then
      assert Row(b, b[i][0], i);
      b[i][0]
    else if b[0][i] == b[1][i] && b[1][i] == b[2][i] && b[2][i] != Empty then
      assert Column(b, b[0][i], i);
      b[0][i]
    else WinnerFrom(b, i + 1)
  }

  /** The mark that fills a line, or Empty when no mark fills one. */
  function Winner(b: Board): (w: Cell)
    requires ValidBoard(b)
    ensures w != Empty ==> HasLine(b, w)
    ensures w == Empty <==> !HasLine(b, X) && !HasLine(b, O)
  {
    WinnerFrom(b, 0)
  }

  /** The game is over when a mark fills a line or no empty cell is left. */
  function Terminal(b: Board): (t: bool)
    requires ValidBoard(b)
    ensures t <==> HasLine(b, X) || HasLine(b, O) || Moves(b) == {}
  {
    Winner(b) != Empty || Moves(b) == {}
  }

  /** 1 when X has won, -1 when O has won, 0 otherwise. */
  function Utility(b: Board): (u: int)
    requires ValidBoard(b)
    ensures -1 <= u <= 1
    ensures u == 1 ==> HasLine(b, X)
    ensures u == -1 ==> HasLine(b, O)
    ensures u == 0 <==> !HasLine(b, X) && !HasLine(b, O)
  {
    var w := Winner(b);
    if w == X then 1
    else if w == O then -1
    else 0
  }

  // ---------------------------------------------------------------------
  // Game values: what each side can force with best play
  // ---------------------------------------------------------------------

  /** The cell at row-major position k. */
  function CellAt(k: int): (a: Action)
    requires 0 <= k < 9
    ensures InRange(a) && 3 * a.0 + a.1 == k
  {
    if k < 3 then (0, k) else if k < 6 then (1, k - 3) else (2, k - 6)
  }

  /** Every in-range cell sits at its row-major position. */
  lemma CellAtPosition(a: Action)
    requires InRange(a)
    ensures CellAt(3 * a.0 + a.1) == a
  {
  }

  /** A board with a move left has an empty cell at some row-major position. */
  lemma SomeCellEmpty(b: Board)
    requires ValidBoard(b) && Moves(b) != {}
    ensures exists k :: 0 <= k < 9 && CellAt(k) in Moves(b)
  {
    var a :| a in Moves(b);
    CellAtPosition(a);
  }

  /** The value of the game at b when the maximising side (X) chooses the next move. */
  ghost function MaxScore(b: Board): (v: int)
    requires ValidBoard(b)
    ensures -1 <= v <= 1
    decreases |Moves(b)|, 1
  {
    if Terminal(b) then Utility(b)
    else
      SomeCellEmpty(b);
      MaxFrom(b, 0)
  }

  /** The value of the game at b when the minimising side (O) chooses the next move. */
  ghost function MinScore(b: Board): (v: int)
    requires ValidBoard(b)
    ensures -1 <= v <= 1
    decreases |Moves(b)|, 1
  {
    if Terminal(b) then Utility(b)
    else
      SomeCellEmpty(b);
      MinFrom(b, 0)
  }

  /**
   * The largest MinScore over the boards reached by playing an empty cell
   * at row-major position k or later; NegInf when there is none.
   */
  ghost function MaxFrom(b: Board, k: nat): (m: int)
    requires ValidBoard(b) && k <= 9
    ensures m == NegInf || -1 <= m <= 1
    ensures (exists i :: k <= i < 9 && CellAt(i) in Moves(b)) ==> -1 <= m
    decreases |Moves(b)|, 0, 9 - k
  {
    if k == 9 then NegInf
    else
      var rest := MaxFrom(b, k + 1);
      if CellAt(k) in Moves(b) then
        var here := MinScore(Play(b, CellAt(k)));
        if here < rest then rest else here
      else rest
  }

  /**
   * The smallest MaxScore over the boards reached by playing an empty cell
   * at row-major position k or later; PosInf when there is none.
   */
  ghost function MinFrom(b: Board, k: nat): (m: int)
    requires ValidBoard(b) && k <= 9
    ensures m == PosInf || -1 <= m <= 1
    ensures (exists i :: k <= i < 9 && CellAt(i) in Moves(b)) ==> m <= 1
    decreases |Moves(b)|, 0, 9 - k
  {
    if k == 9 then PosInf
    else
      var rest := MinFrom(b, k + 1);
      if CellAt(k) in Moves(b) then
        var here := MaxScore(Play(b, CellAt(k)));
        if rest < here then rest else here
      else rest
  }

  /** MaxFrom bounds every move it ranges over and, unless it is NegInf, equals one of them. */
  lemma {:induction false} MaxFromBounds(b: Board, k: nat)
    requires ValidBoard(b) && k <= 9
    ensures forall i {:trigger CellAt(i)} :: k <= i < 9 && CellAt(i) in Moves(b) ==>
      MinScore(Play(b, CellAt(i))) <= MaxFrom(b, k)
    ensures MaxFrom(b, k) != NegInf ==>
      exists i {:trigger CellAt(i)} :: k <= i < 9 && CellAt(i) in Moves(b) && MinScore(Play(b, CellAt(i))) == MaxFrom(b, k)
    decreases 9 - k
  {
    if k < 9 {
      MaxFromBounds(b, k + 1);
    }
  }

  /** MinFrom bounds every move it ranges over and, unless it is PosInf, equals one of them. */
  lemma {:induction false} MinFromBounds(b: Board, k: nat)
    requires ValidBoard(b) && k <= 9
    ensures forall i {:trigger CellAt(i)} :: k <= i < 9 && CellAt(i) in Moves(b) ==>
      MinFrom(b, k) <= MaxScore(Play(b, CellAt(i)))
    ensures MinFrom(b, k) != PosInf ==>
      exists i {:trigger CellAt(i)} :: k <= i < 9 && CellAt(i) in Moves(b) && MaxScore(Play(b, CellAt(i))) == MinFrom(b, k)
    decreases 9 - k
  {
    if k < 9 {
      MinFromBounds(b, k + 1);
    }
  }

  /** On a board still in play, MaxScore is the MinScore of some move and of no move less. */
  lemma MaxScoreOfMoves(b: Board) returns (best: Action)
    requires ValidBoard(b) && !Terminal(b)
    ensures best in Moves(b) && MinScore(Play(b, best)) == MaxScore(b)
    ensures forall a {:trigger MinScore(Play(b, a))} :: a in Moves(b) ==> MinScore(Play(b, a)) <= MaxScore(b)
  {
    SomeCellEmpty(b);
    MaxFromBounds(b, 0);
    var k :| 0 <= k < 9 && CellAt(k) in Moves(b) && MinScore(Play(b, CellAt(k))) == MaxFrom(b, 0);
    best := CellAt(k);
    forall a | a in Moves(b)
      ensures MinScore(Play(b, a)) <= MaxScore(b)
    {
      CellAtPosition(a);
      var i := 3 * a.0 + a.1;
      assert 0 <= i < 9 && CellAt(i) == a;
    }
  }

  /** On a board still in play, MinScore is the MaxScore of some move and of no move more. */
  lemma MinScoreOfMoves(b: Board) returns (best: Action)
    requires ValidBoard(b) && !Terminal(b)
    ensures best in Moves(b) && MaxScore(Play(b, best)) == MinScore(b)
    ensures forall a {:trigger MaxScore(Play(b, a))} :: a in Moves(b) ==> MinScore(b) <= MaxScore(Play(b, a))
  {
    SomeCellEmpty(b);
    MinFromBounds(b, 0);
    var k :| 0 <= k < 9 && CellAt(k) in Moves(b) && MaxScore(Play(b, CellAt(k))) == MinFrom(b, 0);
    best := CellAt(k);
    forall a | a in Moves(b)
      ensures MinScore(b) <= MaxScore(Play(b, a))
    {
      CellAtPosition(a);
      var i := 3 * a.0 + a.1;
      assert 0 <= i < 9 && CellAt(i) == a;
    }
  }

  // ---------------------------------------------------------------------
  // Alpha-beta search
  // ---------------------------------------------------------------------

  /**
   * The value of a board for the maximising side, searched with a cut-off:
   * alpha is the best value the calling minimising node already holds, so
   * the search stops as soon as this node reaches alpha. A finished board
   * gives its utility. Below alpha the result is exact; at or above it the
   * result lies between alpha and the exact value.
   */
  method MaxValue(state: Board, alpha: int) returns (v: int)
    requires ValidBoard(state)
    ensures Terminal(state) ==> v == Utility(state)
    ensures MaxScore(state) < alpha ==> v == MaxScore(state)
    ensures alpha <= MaxScore(state) ==> alpha <= v <= MaxScore(state)
    decreases |Moves(state)|
  {
    v := NegInf;
    if Terminal(state) {
      return Utility(state);
    }
    ghost var best := MaxScoreOfMoves(state);
    var todo := Actions(state);
    ghost var moves := todo;
    ghost var arg: Action := best;
    while todo != {}
      invariant todo <= moves
      invariant forall a {:trigger MinScore(Play(state, a))} :: a in moves && a !in todo ==> MinScore(Play(state, a)) <= v
      invariant v == NegInf || (arg in moves && MinScore(Play(state, arg)) == v)
      decreases todo
    {
      if alpha <= v {
        break;
      }
      var action :| action in todo;
      var next := Result(state, action);
      var w := MinValue(next.board, v);
      if v < w {
        v, arg := w, action;
      }
      assert MinScore(Play(state, action)) <= v;
      todo := todo - {action};
    }
  }

  /**
   * The value of a board for the minimising side, searched with a cut-off:
   * beta is the best value the calling maximising node already holds. A
   * finished board gives its utility. Above beta the result is exact; at or
   * below it the result lies between the exact value and beta.
   */
  method MinValue(state: Board, beta: int) returns (v: int)
    requires ValidBoard(state)
    ensures Terminal(state) ==> v == Utility(state)
    ensures beta < MinScore(state) ==> v == MinScore(state)
    ensures MinScore(state) <= beta ==> MinScore(state) <= v <= beta
    decreases |Moves(state)|
  {
    v := PosInf;
    if Terminal(state) {
      return Utility(state);
    }
    ghost var best := MinScoreOfMoves(state);
    var todo := Actions(state);
    ghost var moves := todo;
    ghost var arg: Action := best;
    while todo != {}
      invariant todo <= moves
      invariant forall a {:trigger MaxScore(Play(state, a))} :: a in moves && a !in todo ==> v <= MaxScore(Play(state, a))
      invariant v == PosInf || (arg in moves && MaxScore(Play(state, arg)) == v)
      decreases todo
    {
      if beta >= v {
        break;
      }
      var action :| action in todo;
      var next := Result(state, action);
      var w := MaxValue(next.board, v);
      if w < v {
        v, arg := w, action;
      }
      assert v <= MaxScore(Play(state, action));
      todo := todo - {action};
    }
  }

  /**
   * The X branch of the search: tries every move, keeps the first one whose
   * MinValue beats the best so far, and so ends with a move of largest MinScore.
   */
  method MaxMove(board: Board) returns (res: Option<Action>)
    requires ValidBoard(board) && !Terminal(board)
    ensures res.Some? && res.value in Moves(board)
    ensures MinScore(Play(board, res.value)) == MaxScore(board)
    ensures forall a {:trigger MinScore(Play(board, a))} :: a in Moves(board) ==> MinScore(Play(board, a)) <= MinScore(Play(board, res.value))
  {
    ghost var best := MaxScoreOfMoves(board);
    res := None;
    var todo := Actions(board);
    ghost var moves := todo;
    var mx := NegInf;
    while todo != {}
      invariant todo <= moves
      invariant forall a {:trigger MinScore(Play(board, a))} :: a in moves && a !in todo ==> MinScore(Play(board, a)) <= mx
      invariant mx == NegInf || (res.Some? && res.value in moves && MinScore(Play(board, res.value)) == mx)
      decreases todo
    {
      var action :| action in todo;
      var next := Result(board, action);
      var tmp := MinValue(next.board, mx);
      if tmp > mx {
        mx := tmp;
        res := Some(action);
      }
      assert MinScore(Play(board, action)) <= mx;
      todo := todo - {action};
    }
  }

  /**
   * The O branch of the search: tries every move, keeps the first one whose
   * MaxValue undercuts the best so far, and so ends with a move of smallest MaxScore.
   */
  method MinMove(board: Board) returns (res: Option<Action>)
    requires ValidBoard(board) && !Terminal(board)
    ensures res.Some? && res.value in Moves(board)
    ensures MaxScore(Play(board, res.value)) == MinScore(board)
    ensures forall a {:trigger MaxScore(Play(board, a))} :: a in Moves(board) ==> MaxScore(Play(board, res.value)) <= MaxScore(Play(board, a))
  {
    ghost var best := MinScoreOfMoves(board);
    res := None;
    var todo := Actions(board);
    ghost var moves := todo;
    var mx := PosInf;
    while todo != {}
      invariant todo <= moves
      invariant forall a {:trigger MaxScore(Play(board, a))} :: a in moves && a !in todo ==> mx <= MaxScore(Play(board, a))
      invariant mx == PosInf || (res.Some? && res.value in moves && MaxScore(Play(board, res.value)) == mx)
      decreases todo
    {
      var action :| action in todo;
      var next := Result(board, action);
      var tmp := MaxValue(next.board, mx);
      if tmp < mx {
        mx := tmp;
        res := Some(action);
      }
      assert mx <= MaxScore(Play(board, action));
      todo := todo - {action};
    }
  }

  /**
   * The best move for the player to move, or None when the game is over.
   * For X the move reaches a board whose MinScore is the largest over all
   * moves, and equals MaxScore of the board; for O, symmetrically.
   */
  method Minimax(board: Board) returns (res: Option<Action>)
    requires ValidBoard(board)
    ensures res == None <==> Terminal(board)
    ensures res.Some? ==> res.value in Moves(board)
    ensures res.Some? && ToMove(board) == X ==>
      && MinScore(Play(board, res.value)) == MaxScore(board)
      && forall a {:trigger MinScore(Play(board, a))} :: a in Moves(board) ==> MinScore(Play(board, a)) <= MinScore(Play(board, res.value))
    ensures res.Some? && ToMove(board) == O ==>
      && MaxScore(Play(board, res.value)) == MinScore(board)
      && forall a {:trigger MaxScore(Play(board, a))} :: a in Moves(board) ==> MaxScore(Play(board, res.value)) <= MaxScore(Play(board, a))
  {
    if Terminal(board) {
      return None;
    }
    var p := Player(board);
    if p == X {
      res := MaxMove(board);
    } else {
      res := MinMove(board);
    }
  }
}
