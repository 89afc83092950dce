/** The standalone placement board: a square grid of stone values with a
    move list, capture counters and a ko point. It checks only that a point
    is on the board, empty and not the ko point; it keeps no turn order and
    never captures. */
module GoBoard {
  import opened Common
  import opened Grid

  datatype Stone = Empty | Black | White

  /** The number a stone is stored as on the grid. */
  function Value(s: Stone): (v: int)
    ensures 0 <= v <= 2
    ensures v == 0 <==> s == Empty
  {
    match s
    case Empty => 0
    case Black => 1
    case White => 2
  }

  /** Distinct stones are stored as distinct numbers. */
  lemma ValueInjective(s: Stone, t: Stone)
    ensures Value(s) == Value(t) ==> s == t
  {
  }

  datatype Board = Board(
    size: nat,
    cells: seq<seq<int>>,
    capturedBlack: nat,
    capturedWhite: nat,
    history: seq<(int, int, Stone)>,
    ko: Option<(int, int)>)

  /** The grid has the board's declared size. */
  predicate WellFormed(b: Board) {
    Square(b.cells, b.size)
  }

  predicate OnBoard(b: Board, row: int, col: int) {
    0 <= row < b.size && 0 <= col < b.size
  }

  /** A new board: every point empty, nothing captured, no moves, no ko point. */
  function NewBoard(size: nat): (b: Board)
    ensures WellFormed(b) && b.size == size
    ensures forall i, j :: 0 <= i < size && 0 <= j < size ==> b.cells[i][j] == Value(Empty)
    ensures b.capturedBlack == 0 && b.capturedWhite == 0
    ensures b.history == [] && b.ko == None
  {
    Board(size, Zeros(size), 0, 0, [], None)
  }

  /** `is_valid_move`: on the board, on an empty point, and not on the ko
      point. The stone itself is not looked at. */
  function IsValidMove(b: Board, row: int, col: int, stone: Stone): (ok: bool)
    requires WellFormed(b)
    ensures ok ==> OnBoard(b, row, col)
    ensures !OnBoard(b, row, col) ==> !ok
    ensures OnBoard(b, row, col) ==>
              (ok <==> b.cells[row][col] == Value(Empty) && b.ko != Some((row, col)))
  {
    if !OnBoard(b, row, col) then false
    else if b.cells[row][col] != Value(Empty) then false
    else if b.ko == Some((row, col)) then false
    else true
  }

  /** `place_stone`: on a valid move, the point takes the stone's value and the
      move is recorded; otherwise nothing changes. */
  function PlaceStone(b: Board, row: int, col: int, stone: Stone): (res: (Board, bool))
    requires WellFormed(b)
    ensures WellFormed(res.0) && res.0.size == b.size
    ensures res.1 <==> IsValidMove(b, row, col, stone)
    ensures res.1 ==> res.0.cells[row][col] == Value(stone)
    ensures res.1 ==> forall i, j :: OnBoard(b, i, j) && (i, j) != (row, col) ==> res.0.cells[i][j] == b.cells[i][j]
    ensures res.1 ==> res.0.history == b.history + [(row, col, stone)]
    ensures res.0.ko == b.ko && res.0.capturedBlack == b.capturedBlack && res.0.capturedWhite == b.capturedWhite
    ensures !res.1 ==> res.0 == b
  {
    if !IsValidMove(b, row, col, stone) then (b, false)
    else
      var cells := b.cells[row := b.cells[row][col := Value(stone)]];
      (b.(cells := cells, history := b.history + [(row, col, stone)]), true)
  }

  /** `get_board_state`: a snapshot of the grid. Values are never shared, so
      the snapshot cannot see later moves. */
  function GetBoardState(b: Board): (snapshot: seq<seq<int>>)
    requires WellFormed(b)
    ensures Square(snapshot, b.size)
    ensures forall i, j :: OnBoard(b, i, j) ==> snapshot[i][j] == b.cells[i][j]
  {
    b.cells
  }

  /** A snapshot taken before a move still shows the point as it was, while the
      board after a non-empty stone shows the stone. */
  lemma SnapshotOutlivesPlacement(b: Board, row: int, col: int, stone: Stone)
    requires WellFormed(b)
    requires IsValidMove(b, row, col, stone) && stone != Empty
    ensures GetBoardState(b)[row][col] == Value(Empty)
    ensures GetBoardState(PlaceStone(b, row, col, stone).0)[row][col] == Value(stone) != Value(Empty)
  {
  }

  // ---------------------------------------------------------------------
  // Boards built by placement alone

  /** The board after trying each move of `moves` in turn on a new board,
      ignoring whether each attempt succeeded. */
  function Replay(size: nat, moves: seq<(int, int, Stone)>): (b: Board)
    ensures WellFormed(b) && b.size == size
    ensures b.ko == None
    ensures b.capturedBlack == 0 && b.capturedWhite == 0
    ensures |b.history| <= |moves|
    decreases |moves|
  {
    if |moves| == 0 then NewBoard(size)
    else
      var m := moves[|moves| - 1];
      PlaceStone(Replay(size, moves[..|moves| - 1]), m.0, m.1, m.2).0
  }

  /** Since nothing ever sets the ko point, on any such board a move is valid
      exactly when its point is on the board and empty. */
  lemma ValidMeansOnBoardAndEmpty(size: nat, moves: seq<(int, int, Stone)>, row: int, col: int, stone: Stone)
    ensures var b := Replay(size, moves);
            IsValidMove(b, row, col, stone) <==> OnBoard(b, row, col) && b.cells[row][col] == Value(Empty)
  {
  }

  /** The number of recorded moves that put down a real stone. */
  function RealStones(history: seq<(int, int, Stone)>): nat
    decreases |history|
  {
    if |history| == 0 then 0
    else RealStones(history[..|history| - 1]) + (if history[|history| - 1].2 != Empty then 1 else 0)
  }

  /** Placing a real stone adds one stone to the grid; placing `Empty` leaves the
      grid exactly as it was. */
  lemma {:induction false} PlacementCountsStones(b: Board, row: int, col: int, stone: Stone)
    requires WellFormed(b)
    requires IsValidMove(b, row, col, stone)
    ensures var after := PlaceStone(b, row, col, stone).0;
            Stones(after.cells) == Stones(b.cells) + (if stone != Empty then 1 else 0)
  {
    var after := PlaceStone(b, row, col, stone).0;
    if stone == Empty {
      assert b.cells[row][col := 0] == b.cells[row];
      assert after.cells == b.cells;
    } else {
      RowStonesUpdate(b.cells[row], col, Value(stone));
      StonesUpdate(b.cells, row, b.cells[row][col := Value(stone)]);
    }
  }

  /** On a board built by placement, the stones on the grid are exactly the
      recorded moves that were not `Empty`. */
  lemma {:induction false} StonesMatchHistory(size: nat, moves: seq<(int, int, Stone)>)
    ensures Stones(Replay(size, moves).cells) == RealStones(Replay(size, moves).history)
    decreases |moves|
  {
    if |moves| > 0 {
      var before := Replay(size, moves[..|moves| - 1]);
      var m := moves[|moves| - 1];
      StonesMatchHistory(size, moves[..|moves| - 1]);
      if IsValidMove(before, m.0, m.1, m.2) {
        PlacementCountsStones(before, m.0, m.1, m.2);
        var after := PlaceStone(before, m.0, m.1, m.2).0;
        assert after.history[..|after.history| - 1] == before.history;
      }
    }
  }

  /** `Empty` is accepted as a stone: the move is recorded but the point stays
      empty, so the same point can be played again. */
  lemma EmptyStoneOnlyRecords(b: Board, row: int, col: int)
    requires WellFormed(b)
    requires IsValidMove(b, row, col, Empty)
    ensures var (after, ok) := PlaceStone(b, row, col, Empty);
            && ok
            && after.cells == b.cells
            && |after.history| == |b.history| + 1
            && IsValidMove(after, row, col, Empty)
  {
    assert b.cells[row][col := 0] == b.cells[row];
  }

  /** There is no turn order: black may play twice in a row. */
  lemma NoTurnOrder(b: Board, r1: int, c1: int, r2: int, c2: int)
    requires WellFormed(b)
    requires IsValidMove(b, r1, c1, Black) && IsValidMove(b, r2, c2, Black)
    requires (r1, c1) != (r2, c2)
    ensures var first := PlaceStone(b, r1, c1, Black).0;
            PlaceStone(first, r2, c2, Black).1
  {
  }
}
