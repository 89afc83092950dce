/** Square grids of integer points and the count of occupied points, shared
    by the AI's game state and the standalone board. */
module Grid {

  /** An `n` x `n` grid. */
  predicate Square(board: seq<seq<int>>, n: nat) {
    |board| == n && forall i :: 0 <= i < |board| ==> |board[i]| == n
  }

  /** An `n` x `n` grid of zeros. */
  function Zeros(n: nat): (board: seq<seq<int>>)
    ensures Square(board, n)
    ensures forall i, j :: 0 <= i < n && 0 <= j < n ==> board[i][j] == 0
    ensures Stones(board) == 0
  {
    var board := seq(n, _ => seq(n, _ => 0));
    NoStonesOnEmptyBoard(board);
    board
  }

  function RowStones(row: seq<int>): nat
    decreases |row|
  {
    if |row| == 0 then 0 else (if row[0] != 0 then 1 else 0) + RowStones(row[1..])
  }

  /** The number of non-empty points. */
  function Stones(board: seq<seq<int>>): nat
    decreases |board|
  {
    if |board| == 0 then 0 else RowStones(board[0]) + Stones(board[1..])
  }

  lemma {:induction false} RowStonesUpdate(row: seq<int>, c: nat, v: int)
    requires c < |row| && row[c] == 0 && v != 0
    ensures RowStones(row[c := v]) == RowStones(row) + 1
    decreases |row|
  {
    if c > 0 {
      assert row[c := v][1..] == row[1..][c - 1 := v];
      RowStonesUpdate(row[1..], c - 1, v);
    } else {
      assert row[c := v][1..] == row[1..];
    }
  }

  lemma {:induction false} StonesUpdate(board: seq<seq<int>>, r: nat, row: seq<int>)
    requires r < |board|
    ensures Stones(board[r := row]) == Stones(board) - RowStones(board[r]) + RowStones(row)
    decreases |board|
  {
    if r > 0 {
      assert board[r := row][1..] == board[1..][r - 1 := row];
      StonesUpdate(board[1..], r - 1, row);
    } else {
      assert board[r := row][1..] == board[1..];
    }
  }

  lemma {:induction false} NoStonesInEmptyRow(row: seq<int>)
    requires forall j :: 0 <= j < |row| ==> row[j] == 0
    ensures RowStones(row) == 0
    decreases |row|
  {
    if |row| > 0 {
      NoStonesInEmptyRow(row[1..]);
    }
  }

  lemma {:induction false} NoStonesOnEmptyBoard(board: seq<seq<int>>)
    requires forall i, j :: 0 <= i < |board| && 0 <= j < |board[i]| ==> board[i][j] == 0
    ensures Stones(board) == 0
    decreases |board|
  {
    if |board| > 0 {
      NoStonesInEmptyRow(board[0]);
      NoStonesOnEmptyBoard(board[1..]);
    }
  }
}
