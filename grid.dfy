/**
 The board of the tic-tac-toe engine: its tiles, a fresh board, indexed access and the
 terminal-state scorer `evaluate`. The human plays O (scored -1), the computer plays X
 (scored 1).
 */
module Grid {
  import opened Wrappers

  /** One tile of the 3x3 grid. */
  datatype Tile = O | X | Empty

  /** The nine tiles of `Game.tiles`, row-major: the tile in row r, column c is at 3 * r + c. */
  type Board = b: seq<Tile> | |b| == 9
    witness [Empty, Empty, Empty, Empty, Empty, Empty, Empty, Empty, Empty]

  /** Rust's `i32`, the type of tile indices in the engine. */
  type I32 = x: int | -0x8000_0000 <= x < 0x8000_0000

  /** The board of `Game::new`: nine empty tiles. */
  function NewBoard(): (b: Board)
    ensures forall i :: 0 <= i < 9 ==> b[i] == Empty
  {
    seq(9, _ => Empty)
  }

  /** `index as usize` on a 64-bit target: a negative `i32` wraps to a large unsigned value. */
  function AsUsize(index: I32): (u: nat)
    ensures index >= 0 ==> u == index
    ensures index < 0 ==> u >= 0x8000_0000_0000_0000
  {
    if index < 0 then index + 0x1_0000_0000_0000_0000 else index
  }

  /** The tile that `get_mut(index)` refers to, or None when `index as usize` is past the end. */
  function GetMut(b: Board, index: I32): (r: Option<Tile>)
    ensures r.None? <==> index < 0 || index > 8
    ensures r.Some? ==> r.value == b[index]
  {
    var u := AsUsize(index);
    if u < |b| then Some(b[u]) else None
  }

  /** `tiles.iter().all(|tile| *tile != Tile::Empty)`. */
  predicate IsFull(b: Board) {
    forall i :: 0 <= i < 9 ==> b[i] != Empty
  }

  /** The number of empty tiles; each move lowers it by one. */
  function EmptyCount(s: seq<Tile>): nat {
    if s == [] then 0 else (if s[0] == Empty then 1 else 0) + EmptyCount(s[1..])
  }

  lemma {:induction false} EmptyCountZero(s: seq<Tile>)
    ensures EmptyCount(s) == 0 <==> forall i :: 0 <= i < |s| ==> s[i] != Empty
  {
    if s != [] {
      EmptyCountZero(s[1..]);
      assert forall i :: 1 <= i < |s| ==> s[i] == s[1..][i - 1];
    }
  }

  /** Marking an empty tile removes exactly one empty tile. */
  lemma {:induction false} EmptyCountPlace(s: seq<Tile>, i: nat, t: Tile)
    requires i < |s| && s[i] == Empty && t != Empty
    ensures EmptyCount(s[i := t]) == EmptyCount(s) - 1
  {
    if i > 0 {
      EmptyCountPlace(s[1..], i - 1, t);
      assert s[i := t][1..] == s[1..][i - 1 := t];
    } else {
      assert s[i := t][1..] == s[1..];
    }
  }

  lemma FullHasNoEmpty(b: Board)
    ensures IsFull(b) <==> EmptyCount(b) == 0
  {
    EmptyCountZero(b);
  }

  // ---------------------------------------------------------------------------
  // evaluate, written as the source checks it: rows, then columns, then diagonals;
  // within rows and within columns O before X; the diagonals O, O, X, X.

  /** Row `r` (a chunk of three) is all `t`. */
  predicate RowAll(b: Board, r: nat, t: Tile)
    requires r < 3
  {
    b[3 * r] == t && b[3 * r + 1] == t && b[3 * r + 2] == t
  }

  /** Column `c` is all `t`. */
  predicate ColumnAll(b: Board, c: nat, t: Tile)
    requires c < 3
  {
    b[c] == t && b[c + 3] == t && b[c + 6] == t
  }

  predicate AnyRow(b: Board, t: Tile) {
    exists r :: 0 <= r < 3 && RowAll(b, r, t)
  }

  predicate AnyColumn(b: Board, t: Tile) {
    exists c :: 0 <= c < 3 && ColumnAll(b, c, t)
  }

  /** `Game::evaluate`: -1 when the human has a line, 1 when the computer has one, else 0. */
  function Evaluate(b: Board): (r: int)
    ensures -1 <= r <= 1
  {
    if AnyRow(b, O) then -1
    else if AnyRow(b, X) then 1
    else if AnyColumn(b, O) then -1
    else if AnyColumn(b, X) then 1
    else if b[0] == O && b[4] == O && b[8] == O then -1
    else if b[2] == O && b[4] == O && b[6] == O then -1
    else if b[0] == X && b[4] == X && b[8] == X then 1
    else if b[2] == X && b[4] == X && b[6] == X then 1
    else 0
  }

  // ---------------------------------------------------------------------------
  // An independent description of winning: the table of the eight lines.

  /** Three tile positions that win when they carry the same mark. */
  datatype Line = Line(p: nat, q: nat, s: nat)

  const Rows: seq<Line> := [Line(0, 1, 2), Line(3, 4, 5), Line(6, 7, 8)]
  const Columns: seq<Line> := [Line(0, 3, 6), Line(1, 4, 7), Line(2, 5, 8)]
  const Diagonals: seq<Line> := [Line(0, 4, 8), Line(2, 4, 6)]
  const AllLines: seq<Line> := Rows + Columns + Diagonals

  predicate Owns(b: Board, l: Line, t: Tile) {
    l.p < 9 && l.q < 9 && l.s < 9 && b[l.p] == t && b[l.q] == t && b[l.s] == t
  }

  /** Some line of `lines` is all `t`. */
  predicate HasLine(b: Board, lines: seq<Line>, t: Tile) {
    exists k :: 0 <= k < |lines| && Owns(b, lines[k], t)
  }

  /** Player `t` has three in a row, column or diagonal. */
  predicate Wins(b: Board, t: Tile) {
    HasLine(b, AllLines, t)
  }

  /** The winner reported by one group of lines: O before X. */
  function GroupWinner(b: Board, group: seq<Line>): (r: int) {
    if HasLine(b, group, O) then -1 else if HasLine(b, group, X) then 1 else 0
  }

  /** The winner of the first group, in order, that holds a complete line. */
  function FirstWinner(b: Board, groups: seq<seq<Line>>): (r: int)
    decreases |groups|
  {
    if groups == [] then 0
    else if GroupWinner(b, groups[0]) != 0 then GroupWinner(b, groups[0])
    else FirstWinner(b, groups[1..])
  }

  lemma RowsMeaning(b: Board, t: Tile)
    ensures HasLine(b, Rows, t) <==> AnyRow(b, t)
    ensures AnyRow(b, t) <==> RowAll(b, 0, t) || RowAll(b, 1, t) || RowAll(b, 2, t)
  {
    if AnyRow(b, t) {
      var r :| 0 <= r < 3 && RowAll(b, r, t);
      assert Owns(b, Rows[r], t);
    }
    if HasLine(b, Rows, t) {
      var k :| 0 <= k < 3 && Owns(b, Rows[k], t);
      assert RowAll(b, k, t);
    }
  }

  lemma ColumnsMeaning(b: Board, t: Tile)
    ensures HasLine(b, Columns, t) <==> AnyColumn(b, t)
    ensures AnyColumn(b, t) <==> ColumnAll(b, 0, t) || ColumnAll(b, 1, t) || ColumnAll(b, 2, t)
  {
    if AnyColumn(b, t) {
      var c :| 0 <= c < 3 && ColumnAll(b, c, t);
      assert Owns(b, Columns[c], t);
    }
    if HasLine(b, Columns, t) {
      var k :| 0 <= k < 3 && Owns(b, Columns[k], t);
      assert ColumnAll(b, k, t);
    }
  }

  lemma DiagonalsMeaning(b: Board, t: Tile)
    ensures HasLine(b, Diagonals, t) <==>
      (b[0] == t && b[4] == t && b[8] == t) || (b[2] == t && b[4] == t && b[6] == t)
  {
    if b[0] == t && b[4] == t && b[8] == t {
      assert Owns(b, Diagonals[0], t);
    }
    if b[2] == t && b[4] == t && b[6] == t {
      assert Owns(b, Diagonals[1], t);
    }
  }

  /** A line of the whole table is a row, a column or a diagonal. */
  lemma WinsByGroup(b: Board, t: Tile)
    ensures Wins(b, t) <==>
      HasLine(b, Rows, t) || HasLine(b, Columns, t) || HasLine(b, Diagonals, t)
  {
    if Wins(b, t) {
      var k :| 0 <= k < 8 && Owns(b, AllLines[k], t);
      if k < 3 {
        assert AllLines[k] == Rows[k];
      } else if k < 6 {
        assert AllLines[k] == Columns[k - 3];
      } else {
        assert AllLines[k] == Diagonals[k - 6];
      }
    }
    if HasLine(b, Rows, t) {
      var k :| 0 <= k < 3 && Owns(b, Rows[k], t);
      assert AllLines[k] == Rows[k];
    }
    if HasLine(b, Columns, t) {
      var k :| 0 <= k < 3 && Owns(b, Columns[k], t);
      assert AllLines[k + 3] == Columns[k];
    }
    if HasLine(b, Diagonals, t) {
      var k :| 0 <= k < 2 && Owns(b, Diagonals[k], t);
      assert AllLines[k + 6] == Diagonals[k];
    }
  }

  /**
   Precedence: when both players hold complete lines, `evaluate` reports the winner of
   the first group (rows, then columns, then diagonals) holding one, with O ahead of X
   inside a group.
   */
  lemma EvaluateByPrecedence(b: Board)
    ensures Evaluate(b) == FirstWinner(b, [Rows, Columns, Diagonals])
  {
    RowsMeaning(b, O);
    RowsMeaning(b, X);
    ColumnsMeaning(b, O);
    ColumnsMeaning(b, X);
    DiagonalsMeaning(b, O);
    DiagonalsMeaning(b, X);
    var groups := [Rows, Columns, Diagonals];
    assert groups[1..] == [Columns, Diagonals];
    assert groups[1..][1..] == [Diagonals];
    assert FirstWinner(b, [Diagonals]) == GroupWinner(b, Diagonals) by {
      assert [Diagonals][1..] == [];
    }
  }

  /**
   What the score means: 0 exactly when neither player has a line, -1 exactly when O has
   one and 1 exactly when X has one and O none. Lines of the two players share no tile,
   so both can be complete only on two rows or two columns, and in each of these groups
   O is checked first.
   */
  lemma EvaluateMeaning(b: Board)
    ensures Evaluate(b) == -1 || Evaluate(b) == 0 || Evaluate(b) == 1
    ensures Evaluate(b) == 0 <==> !Wins(b, O) && !Wins(b, X)
    ensures Evaluate(b) == -1 <==> Wins(b, O)
    ensures Evaluate(b) == 1 <==> Wins(b, X) && !Wins(b, O)
  {
    RowsMeaning(b, O);
    RowsMeaning(b, X);
    ColumnsMeaning(b, O);
    ColumnsMeaning(b, X);
    DiagonalsMeaning(b, O);
    DiagonalsMeaning(b, X);
    WinsByGroup(b, O);
    WinsByGroup(b, X);
  }

  /** A fresh game is undecided, has nine empty tiles and is not full. */
  lemma NewBoardUndecided()
    ensures Evaluate(NewBoard()) == 0
    ensures !IsFull(NewBoard())
    ensures EmptyCount(NewBoard()) == 9
  {
  }

  /** X holds the top row and O the middle one: O is checked first and reported. */
  lemma OverlappingRowsFavourO()
    ensures Evaluate([X, X, X, O, O, O, Empty, Empty, Empty]) == -1
  {
    var b: Board := [X, X, X, O, O, O, Empty, Empty, Empty];
    assert RowAll(b, 1, O);
  }
}
