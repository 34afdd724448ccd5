/**
 The game logic inside `main`, apart from the terminal: the validation of the human's
 move (src/main.rs:208-220) and the checks that end a turn (src/main.rs:223-250), each a
 pure step from a board to a status and the next board.
 */
module Turn {
  import opened Wrappers
  import opened Grid
  import opened Search

  /** What the human's input did; every status but Placed sends the driver back to the prompt. */
  datatype MoveStatus =
    | NotANumber     // "Input was not a number!"
    | NotAValidTile  // "Input was not a valid tile!"
    | TileTaken      // "Tile is already taken!"
    | Placed

  /**
   The human's move. `input` is what `parse::<i32>()` made of the line typed, None when it
   failed; the typed number is 1-based.
   */
  function HumanStep(b: Board, input: Option<I32>): (r: (MoveStatus, Board))
    ensures r.0 == NotANumber <==> input.None?
    ensures r.0 == NotAValidTile <==> input.Some? && !(1 <= input.value <= 9)
    ensures r.0 == TileTaken <==>
      input.Some? && 1 <= input.value <= 9 && b[input.value - 1] != Empty
    ensures r.0 != Placed ==> r.1 == b
    ensures r.0 == Placed ==>
      var i := input.value - 1;
      && b[i] == Empty && r.1[i] == O
      && forall j :: 0 <= j < 9 && j != i ==> r.1[j] == b[j]
  {
    match input
    case None => (NotANumber, b)
    case Some(n) =>
      var number := n - 1;
      if number < 0 || number > 8 then (NotAValidTile, b)
      else if GetMut(b, number).value == Empty then (Placed, b[number := O])
      else (TileTaken, b)
  }

  /** How a turn ends; Continue goes back to the prompt. */
  datatype Outcome =
    | YouWon   // "You won!"
    | Tie      // "Tie!"
    | YouLost  // "You lost!"
    | Continue

  /** After the human's move: the win check, the computer's reply and the loss and tie checks. */
  function EndOfTurn(b: Board): (r: (Outcome, Board)) {
    if Evaluate(b) == -1 then (YouWon, b)
    else
      var m := BestMoveIndex(b);
      if m == -1 then (Tie, b)
      else
        var next := b[m := X];
        if Evaluate(next) == 1 then (YouLost, next)
        else if Evaluate(next) == 0 && IsFull(next) then (Tie, next)
        else (Continue, next)
  }

  /** Tiles only ever go from Empty to a mark, and `next` gained at most one `t`. */
  predicate FillsAtMostOne(b: Board, next: Board, t: Tile) {
    && (forall j :: 0 <= j < 9 && next[j] != b[j] ==> b[j] == Empty && next[j] == t)
    && (next == b || EmptyCount(next) == EmptyCount(b) - 1)
  }

  /** A rejected move leaves the board alone; an accepted one fills exactly one tile with O. */
  lemma HumanStepFills(b: Board, input: Option<I32>)
    ensures FillsAtMostOne(b, HumanStep(b, input).1, O)
    ensures HumanStep(b, input).0 == Placed ==> EmptyCount(HumanStep(b, input).1) == EmptyCount(b) - 1
  {
    if HumanStep(b, input).0 == Placed {
      EmptyCountPlace(b, input.value - 1, O);
      assert HumanStep(b, input).1 == b[input.value - 1 := O];
    }
  }

  /** Out-of-range numbers (0 and 10, i.e. 0-based -1 and 9) are refused. */
  lemma HumanStepOutOfRange(b: Board)
    ensures HumanStep(b, Some(0)) == (NotAValidTile, b)
    ensures HumanStep(b, Some(10)) == (NotAValidTile, b)
  {
  }

  /**
   What ends a turn: "You won" exactly when O has a line; "You lost" only when X has a
   line; "Tie" on a full board; a board that goes on is undecided with a move left; and
   the computer adds at most one X.
   */
  lemma EndOfTurnMeaning(b: Board)
    ensures EndOfTurn(b).0 == YouWon <==> Evaluate(b) == -1
    ensures EndOfTurn(b).0 == YouWon ==> EndOfTurn(b).1 == b && Wins(b, O)
    ensures EndOfTurn(b).0 == YouLost ==> Wins(EndOfTurn(b).1, X)
    ensures Evaluate(b) != -1 && IsFull(b) ==> EndOfTurn(b) == (Tie, b)
    ensures EndOfTurn(b).0 == Continue ==>
      Evaluate(EndOfTurn(b).1) == 0 && !IsFull(EndOfTurn(b).1)
    ensures FillsAtMostOne(b, EndOfTurn(b).1, X)
  {
    EvaluateMeaning(b);
    if IsFull(b) {
      BestMoveIndexFull(b);
    }
    var m := BestMoveIndex(b);
    if Evaluate(b) != -1 && m != -1 {
      EvaluateMeaning(b[m := X]);
      EmptyCountPlace(b, m, X);
    }
  }

  /**
   On an undecided board with a move left, the computer answers with an optimal move, and
   the turn is declared a tie without a move exactly when the board's minimax score is -1.
   */
  lemma EndOfTurnOptimal(b: Board)
    requires Evaluate(b) == 0 && !IsFull(b)
    ensures EndOfTurn(b) == (Tie, b) <==> MinMax(b, true) == -1
    ensures EndOfTurn(b).1 != b ==>
      exists m :: 0 <= m < 9 && b[m] == Empty && EndOfTurn(b).1 == b[m := X]
        && MinMax(b[m := X], false) == MinMax(b, true)
  {
    BestMoveIsOptimal(b);
    var m := BestMoveIndex(b);
    if m != -1 {
      assert b[m := X] != b by {
        assert b[m := X][m] != b[m];
      }
      assert EndOfTurn(b).1 == b[m := X];
    }
  }

  /**
   `get_best_move_index` also gives -1 when moves remain but all of them lose; here O has
   two open lines, X can block only one, and `main` declares a tie with four tiles empty.
   */
  lemma TieDeclaredWithMovesLeft()
    ensures var b: Board := [O, O, Empty, O, Empty, X, Empty, X, Empty];
      && Evaluate(b) == 0 && !IsFull(b)
      && MinMax(b, true) == -1
      && BestMoveIndex(b) == -1
      && EndOfTurn(b) == (Tie, b)
  {
    var b: Board := [O, O, Empty, O, Empty, X, Empty, X, Empty];
    assert !IsFull(b) by { assert b[2] == Empty; }
    assert Evaluate(b) == 0 by {
      assert !RowAll(b, 0, O) && !RowAll(b, 1, O) && !RowAll(b, 2, O);
      assert !RowAll(b, 0, X) && !RowAll(b, 1, X) && !RowAll(b, 2, X);
      assert !ColumnAll(b, 0, O) && !ColumnAll(b, 1, O) && !ColumnAll(b, 2, O);
      assert !ColumnAll(b, 0, X) && !ColumnAll(b, 1, X) && !ColumnAll(b, 2, X);
    }
    // Whichever tile X takes, O completes the top row or the left column next.
    LosingReply(b, 2, 6, 3);
    LosingReply(b, 4, 2, 0);
    LosingReply(b, 6, 2, 0);
    LosingReply(b, 8, 2, 0);
    assert forall j :: 0 <= j < 9 && b[j] == Empty ==> j == 2 || j == 4 || j == 6 || j == 8;
    BestMoveIndexChoice(b);
    BestMoveIsOptimal(b);
  }

  /** After X takes `x`, O completes line `k` of the table at `o`, so the move `x` scores -1. */
  lemma LosingReply(b: Board, x: nat, o: nat, k: nat)
    requires x < 9 && o < 9 && x != o && b[x] == Empty && b[o] == Empty
    requires Evaluate(b[x := X]) == 0
    requires k < 8 && Owns(b[x := X][o := O], AllLines[k], O)
    ensures MinMax(b[x := X], false) == -1
  {
    EvaluateMeaning(b[x := X][o := O]);
    ImmediateWin(b[x := X], o, false);
  }
}
