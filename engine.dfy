/**
 The `Game` struct and its methods as the source runs them: the tiles live in a 9-cell
 array that moves write in place, and the search clones the game for every move it
 tries. Each method is proved equal to the pure function of modules Grid, Search and
 Turn that describes it. The search methods have no `modifies` clause: they change no
 tile of the game they are called on, only tiles of the clones they allocate.
 */
module Engine {
  import opened Wrappers
  import opened Grid
  import Search
  import Turn

  class Game {
    var tiles: array<Tile>

    ghost predicate Valid()
      reads this
    {
      tiles.Length == 9
    }

    /** The board the tiles hold. */
    function Contents(): Board
      reads this, tiles
      requires Valid()
    {
      tiles[..]
    }

    /** `Game::new`: a fresh game with nine empty tiles. */
    constructor ()
      ensures Valid() && fresh(tiles)
      ensures Contents() == NewBoard()
    {
      tiles := new Tile[9](_ => Empty);
    }

    /** `self.clone()`: a new game with its own copy of the tiles. */
    constructor Clone(other: Game)
      requires other.Valid()
      ensures Valid() && fresh(tiles)
      ensures Contents() == other.Contents()
    {
      tiles := new Tile[9](i requires 0 <= i < other.tiles.Length reads other, other.tiles => other.tiles[i]);
    }

    /** `*self.get_mut(index).unwrap() = t`: the unwrap needs `get_mut` to find a tile. */
    method SetTile(index: I32, t: Tile)
      requires Valid() && GetMut(Contents(), index).Some?
      modifies tiles
      ensures Valid()
      ensures Contents() == old(Contents())[index := t]
    {
      tiles[index] := t;
    }

    /** `minmax(is_computer)`: exhaustive search on a clone per move tried. */
    method MinMax(isComputer: bool) returns (score: int)
      requires Valid()
      ensures score == Search.MinMax(Contents(), isComputer)
      decreases EmptyCount(Contents())
    {
      score := Evaluate(tiles[..]);
      if score != 0 || IsFull(tiles[..]) {
        return score;
      }

      if isComputer {
        var bestScore := -1;
        var index := 0;
        while index < 9
          invariant 0 <= index <= 9
          invariant bestScore == Search.Scan(Contents(), true, index)
        {
          if tiles[index] == Empty {
            var game := new Game.Clone(this);
            game.SetTile(index, X);
            EmptyCountPlace(Contents(), index, X);
            var s := game.MinMax(false);
            bestScore := Search.Max(bestScore, s);
          }
          index := index + 1;
        }
        return bestScore;
      } else {
        var bestScore := 1;
        var index := 0;
        while index < 9
          invariant 0 <= index <= 9
          invariant bestScore == Search.Scan(Contents(), false, index)
        {
          if tiles[index] == Empty {
            var game := new Game.Clone(this);
            game.SetTile(index, O);
            EmptyCountPlace(Contents(), index, O);
            var s := game.MinMax(true);
            bestScore := Search.Min(bestScore, s);
          }
          index := index + 1;
        }
        return bestScore;
      }
    }

    /** `get_best_move_index`: a strict-`>` scan seeded with score -1 and index -1. */
    method GetBestMoveIndex() returns (bestMoveIndex: I32)
      requires Valid()
      ensures bestMoveIndex == Search.BestMoveIndex(Contents())
    {
      var bestScore := -1;
      bestMoveIndex := -1;
      var index := 0;
      while index < 9
        invariant 0 <= index <= 9
        invariant (bestScore, bestMoveIndex as int) == Search.BestMoveScan(Contents(), index)
      {
        if tiles[index] == Empty {
          var game := new Game.Clone(this);
          game.SetTile(index, X);
          var score := game.MinMax(false);
          if score > bestScore {
            bestScore := score;
            bestMoveIndex := index;
          }
        }
        index := index + 1;
      }
    }

    /** The human's move in `main`, writing O into the tiles in place when it is accepted. */
    method HumanMove(input: Option<I32>) returns (status: Turn.MoveStatus)
      requires Valid()
      modifies tiles
      ensures Valid()
      ensures (status, Contents()) == Turn.HumanStep(old(Contents()), input)
    {
      if input.None? {
        return Turn.NotANumber;
      }
      var number := input.value - 1;
      if number < 0 || number > 8 {
        return Turn.NotAValidTile;
      }
      var tile := GetMut(tiles[..], number).value;
      if tile == Empty {
        SetTile(number, O);
        status := Turn.Placed;
      } else {
        status := Turn.TileTaken;
      }
    }

    /**
     One pass of the move loop in `main`: a rejected input goes back to the prompt with
     the board as it was; an accepted one ends the turn.
     */
    method PlayRound(input: Option<I32>) returns (status: Turn.MoveStatus, outcome: Option<Turn.Outcome>)
      requires Valid()
      modifies tiles
      ensures Valid()
      ensures status == Turn.HumanStep(old(Contents()), input).0
      ensures status != Turn.Placed ==> outcome.None? && Contents() == old(Contents())
      ensures status == Turn.Placed ==>
        outcome.Some? && (outcome.value, Contents()) == Turn.EndOfTurn(Turn.HumanStep(old(Contents()), input).1)
    {
      status := HumanMove(input);
      if status != Turn.Placed {
        return status, None;
      }
      var o := EndTurn();
      outcome := Some(o);
    }

    /** The end of a turn in `main`: win check, the computer's reply, loss and tie checks. */
    method EndTurn() returns (outcome: Turn.Outcome)
      requires Valid()
      modifies tiles
      ensures Valid()
      ensures (outcome, Contents()) == Turn.EndOfTurn(old(Contents()))
    {
      if Evaluate(tiles[..]) == -1 {
        return Turn.YouWon;
      }
      var bestMoveIndex := GetBestMoveIndex();
      if bestMoveIndex == -1 {
        return Turn.Tie;
      }
      SetTile(bestMoveIndex, X);
      if Evaluate(tiles[..]) == 1 {
        return Turn.YouLost;
      }
      if Evaluate(tiles[..]) == 0 && IsFull(tiles[..]) {
        return Turn.Tie;
      }
      return Turn.Continue;
    }
  }
}
