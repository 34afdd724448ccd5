/**
 The game-tree search of the engine as pure functions: `minmax` (a score for the side
 to move, by exhaustive search) and `get_best_move_index` (the computer's move). The
 loops of the source become folds over the tile indices 0 .. n-1, so that each loop of
 the methods in module Engine is proved equal to one of these functions.
 */
module Search {
  import opened Grid

  /** `std::cmp::max` and `std::cmp::min` on scores. */
  function Max(a: int, b: int): int { if a >= b then a else b }
  function Min(a: int, b: int): int { if a <= b then a else b }

  /** The mark placed by the side to move: X for the computer, O for the human. */
  function Mark(isComputer: bool): Tile { if isComputer then X else O }

  /** `best_score` before the loop: the worst score for the side to move. */
  function Worst(isComputer: bool): int { if isComputer then -1 else 1 }

  /** `minmax(is_computer)` on `b`: the terminal score, or the best over all moves. */
  function MinMax(b: Board, isComputer: bool): (r: int)
    ensures -1 <= r <= 1
    decreases EmptyCount(b), 1
  {
    var score := Evaluate(b);
    if score != 0 || IsFull(b) then score
    else Scan(b, isComputer, 9)
  }

  /** The score of the move at tile `i` for the side to move, searched with the turn passed on. */
  function ChildScore(b: Board, i: nat, isComputer: bool): (r: int)
    requires i < 9 && b[i] == Empty
    ensures -1 <= r <= 1
    decreases EmptyCount(b), 0, 0
  {
    EmptyCountPlace(b, i, Mark(isComputer));
    MinMax(b[i := Mark(isComputer)], !isComputer)
  }

  /** `best_score` after the loop of `minmax` has visited tiles 0 .. n-1. */
  function Scan(b: Board, isComputer: bool, n: nat): (r: int)
    requires n <= 9
    ensures -1 <= r <= 1
    decreases EmptyCount(b), 0, n + 1
  {
    if n == 0 then Worst(isComputer)
    else if b[n - 1] == Empty then
      var s := ChildScore(b, n - 1, isComputer);
      if isComputer then Max(Scan(b, isComputer, n - 1), s) else Min(Scan(b, isComputer, n - 1), s)
    else Scan(b, isComputer, n - 1)
  }

  /** `minmax` returns `evaluate()` unchanged on a decided or full board. */
  lemma MinMaxTerminal(b: Board, isComputer: bool)
    requires Evaluate(b) != 0 || IsFull(b)
    ensures MinMax(b, isComputer) == Evaluate(b)
  {
  }

  /** The computer's loop keeps the largest child score, and meets it unless it is still -1. */
  lemma {:induction false} ScanMax(b: Board, n: nat)
    requires n <= 9
    ensures forall j :: 0 <= j < n && b[j] == Empty ==> ChildScore(b, j, true) <= Scan(b, true, n)
    ensures Scan(b, true, n) == -1 ||
      exists j :: 0 <= j < n && b[j] == Empty && ChildScore(b, j, true) == Scan(b, true, n)
  {
    if n > 0 {
      ScanMax(b, n - 1);
    }
  }

  /** The human's loop keeps the smallest child score, and meets it unless it is still 1. */
  lemma {:induction false} ScanMin(b: Board, n: nat)
    requires n <= 9
    ensures forall j :: 0 <= j < n && b[j] == Empty ==> Scan(b, false, n) <= ChildScore(b, j, false)
    ensures Scan(b, false, n) == 1 ||
      exists j :: 0 <= j < n && b[j] == Empty && ChildScore(b, j, false) == Scan(b, false, n)
  {
    if n > 0 {
      ScanMin(b, n - 1);
    }
  }

  /**
   On an undecided board with an empty tile, `minmax(true)` is the maximum, over the empty
   tiles i, of `minmax(false)` on the board with X at i.
   */
  lemma MinMaxMaximizes(b: Board)
    requires Evaluate(b) == 0 && !IsFull(b)
    ensures forall i :: 0 <= i < 9 && b[i] == Empty ==>
      MinMax(b[i := X], false) <= MinMax(b, true)
    ensures exists i :: 0 <= i < 9 && b[i] == Empty && MinMax(b[i := X], false) == MinMax(b, true)
  {
    ScanMax(b, 9);
    var e :| 0 <= e < 9 && b[e] == Empty;
    assert ChildScore(b, e, true) == MinMax(b[e := X], false);
    if Scan(b, true, 9) == -1 {
      assert ChildScore(b, e, true) == MinMax(b, true);
    }
    forall i | 0 <= i < 9 && b[i] == Empty
      ensures MinMax(b[i := X], false) <= MinMax(b, true)
    {
      assert ChildScore(b, i, true) == MinMax(b[i := X], false);
    }
    var w :| 0 <= w < 9 && b[w] == Empty && ChildScore(b, w, true) == MinMax(b, true);
    assert MinMax(b[w := X], false) == MinMax(b, true);
  }

  /**
   On an undecided board with an empty tile, `minmax(false)` is the minimum, over the empty
   tiles i, of `minmax(true)` on the board with O at i.
   */
  lemma MinMaxMinimizes(b: Board)
    requires Evaluate(b) == 0 && !IsFull(b)
    ensures forall i :: 0 <= i < 9 && b[i] == Empty ==>
      MinMax(b, false) <= MinMax(b[i := O], true)
    ensures exists i :: 0 <= i < 9 && b[i] == Empty && MinMax(b[i := O], true) == MinMax(b, false)
  {
    ScanMin(b, 9);
    var e :| 0 <= e < 9 && b[e] == Empty;
    assert ChildScore(b, e, false) == MinMax(b[e := O], true);
    if Scan(b, false, 9) == 1 {
      assert ChildScore(b, e, false) == MinMax(b, false);
    }
    forall i | 0 <= i < 9 && b[i] == Empty
      ensures MinMax(b, false) <= MinMax(b[i := O], true)
    {
      assert ChildScore(b, i, false) == MinMax(b[i := O], true);
    }
    var w :| 0 <= w < 9 && b[w] == Empty && ChildScore(b, w, false) == MinMax(b, false);
    assert MinMax(b[w := O], true) == MinMax(b, false);
  }

  /** A side that can complete a line with its next move is scored as having won. */
  lemma ImmediateWin(b: Board, i: nat, isComputer: bool)
    requires i < 9 && b[i] == Empty && Evaluate(b) == 0
    requires Evaluate(b[i := Mark(isComputer)]) == Worst(!isComputer)
    ensures MinMax(b, isComputer) == Worst(!isComputer)
  {
    assert !IsFull(b);
    MinMaxTerminal(b[i := Mark(isComputer)], !isComputer);
    if isComputer {
      MinMaxMaximizes(b);
    } else {
      MinMaxMinimizes(b);
    }
  }

  // ---------------------------------------------------------------------------
  // get_best_move_index

  /** (`best_score`, `best_move_index`) after the loop has visited tiles 0 .. n-1. */
  function BestMoveScan(b: Board, n: nat): (r: (int, int))
    requires n <= 9
    ensures -1 <= r.0 <= 1
    ensures r.1 == -1 <==> r.0 == -1
    ensures r.1 == -1 || (0 <= r.1 < n && b[r.1] == Empty)
  {
    if n == 0 then (-1, -1)
    else
      var prev := BestMoveScan(b, n - 1);
      if b[n - 1] == Empty && ChildScore(b, n - 1, true) > prev.0 then
        (ChildScore(b, n - 1, true), n - 1)
      else prev
  }

  /** `get_best_move_index`: -1, or an empty tile for X. */
  function BestMoveIndex(b: Board): (r: int)
    ensures r == -1 || (0 <= r < 9 && b[r] == Empty)
  {
    BestMoveScan(b, 9).1
  }

  lemma {:induction false} BestMoveScanChoice(b: Board, n: nat)
    requires n <= 9
    ensures BestMoveScan(b, n).1 == -1 <==>
      forall j :: 0 <= j < n && b[j] == Empty ==> ChildScore(b, j, true) == -1
    ensures var (s, m) := BestMoveScan(b, n);
      m != -1 ==>
        && s == ChildScore(b, m, true)
        && (forall j :: 0 <= j < n && b[j] == Empty ==> ChildScore(b, j, true) <= s)
        && (forall j :: 0 <= j < m && b[j] == Empty ==> ChildScore(b, j, true) < s)
  {
    if n > 0 {
      BestMoveScanChoice(b, n - 1);
    }
  }

  /**
   The move chosen: -1 exactly when every empty tile scores -1 for X (on a full board, but
   also when moves remain and all of them lose); otherwise the smallest empty tile whose
   score `minmax(false)` is the largest.
   */
  lemma BestMoveIndexChoice(b: Board)
    ensures BestMoveIndex(b) == -1 <==>
      forall j :: 0 <= j < 9 && b[j] == Empty ==> MinMax(b[j := X], false) == -1
    ensures var m := BestMoveIndex(b);
      m != -1 ==>
        && 0 <= m < 9 && b[m] == Empty
        && (forall j :: 0 <= j < 9 && b[j] == Empty ==> MinMax(b[j := X], false) <= MinMax(b[m := X], false))
        && (forall j :: 0 <= j < m && b[j] == Empty ==> MinMax(b[j := X], false) < MinMax(b[m := X], false))
  {
    BestMoveScanChoice(b, 9);
    assert forall j :: 0 <= j < 9 && b[j] == Empty ==> ChildScore(b, j, true) == MinMax(b[j := X], false);
  }

  /** On a full board there is no move: -1. */
  lemma BestMoveIndexFull(b: Board)
    requires IsFull(b)
    ensures BestMoveIndex(b) == -1
  {
  }

  /**
   On an undecided board with a move left, the chosen move reaches the minimax score of the
   board, and -1 is returned exactly when that score is -1.
   */
  lemma BestMoveIsOptimal(b: Board)
    requires Evaluate(b) == 0 && !IsFull(b)
    ensures BestMoveIndex(b) == -1 <==> MinMax(b, true) == -1
    ensures BestMoveIndex(b) != -1 ==> MinMax(b[BestMoveIndex(b) := X], false) == MinMax(b, true)
  {
    BestMoveIndexChoice(b);
    MinMaxMaximizes(b);
    var m := BestMoveIndex(b);
    if m != -1 {
      var w :| 0 <= w < 9 && b[w] == Empty && MinMax(b[w := X], false) == MinMax(b, true);
      assert MinMax(b[w := X], false) <= MinMax(b[m := X], false);
    }
  }

  // ---------------------------------------------------------------------------
  // Concrete positions

  /** X to move with two in the top row: it completes the row at tile 2 and wins. */
  lemma CompletesRow()
    ensures BestMoveIndex([X, X, Empty, O, O, Empty, Empty, Empty, Empty]) == 2
    ensures Evaluate([X, X, X, O, O, Empty, Empty, Empty, Empty]) == 1
  {
    var b: Board := [X, X, Empty, O, O, Empty, Empty, Empty, Empty];
    assert b[2 := X] == [X, X, X, O, O, Empty, Empty, Empty, Empty];
    assert RowAll(b[2 := X], 0, X);
    assert !AnyRow(b[2 := X], O) by {
      assert !RowAll(b[2 := X], 0, O) && !RowAll(b[2 := X], 1, O) && !RowAll(b[2 := X], 2, O);
    }
    MinMaxTerminal(b[2 := X], false);
    BestMoveIndexChoice(b);
    var m := BestMoveIndex(b);
    assert m != -1;
    assert MinMax(b[m := X], false) == 1;
  }
}
