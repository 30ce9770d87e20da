/** The misère rule engine: line detection, full-board detection, legal-move
    enumeration and game-over detection on a 3×3 board of strings. The engine
    only reports who COMPLETED a line; turning that into a loser is the
    caller's job. */
module GameLogic {
  import opened GameData

  predicate IsGrid(b: seq<seq<string>>)
  {
    |b| == 3 && |b[0]| == 3 && |b[1]| == 3 && |b[2]| == 3
  }

  /** A 3×3 grid of cells; "" is an empty cell, any other string a mark. */
  type Board = b: seq<seq<string>> | IsGrid(b)
    witness [["", "", ""], ["", "", ""], ["", "", ""]]

  const EmptyBoard: Board := [[EmptyCell, EmptyCell, EmptyCell],
                              [EmptyCell, EmptyCell, EmptyCell],
                              [EmptyCell, EmptyCell, EmptyCell]]

  predicate InRange(p: Pos)
  {
    0 <= p.row < 3 && 0 <= p.col < 3
  }

  function Cell(b: Board, p: Pos): string
    requires InRange(p)
  {
    b[p.row][p.col]
  }

  /** Row-major position of a cell, 0 .. 8. */
  function Index(p: Pos): int
  {
    3 * p.row + p.col
  }

  function PosOf(k: int): (p: Pos)
    requires 0 <= k < 9
    ensures InRange(p) && Index(p) == k
  {
    Pos(k / 3, k % 3)
  }

  lemma IndexInjective(p: Pos, q: Pos)
    requires InRange(p) && InRange(q) && Index(p) == Index(q)
    ensures p == q
  {
  }

  // ---------------------------------------------------------------------
  // Lines, in the order every scan of the program visits them
  // ---------------------------------------------------------------------

  /** The cells of line k: rows 0..2 (k = 0..2), columns 0..2 (k = 3..5),
      the main diagonal (k = 6) and the anti-diagonal (k = 7). */
  function LineCells(b: Board, k: int): (cells: seq<string>)
    requires 0 <= k < 8
    ensures |cells| == 3
  {
    if k < 3 then [b[k][0], b[k][1], b[k][2]]
    else if k < 6 then [b[0][k - 3], b[1][k - 3], b[2][k - 3]]
    else if k == 6 then [b[0][0], b[1][1], b[2][2]]
    else [b[0][2], b[1][1], b[2][0]]
  }

  predicate Uniform(cells: seq<string>, s: string)
    requires |cells| == 3
  {
    cells[0] == s && cells[1] == s && cells[2] == s
  }

  /** Which symbol, if any, fills line k with three literal "X" or "O". */
  function Owner(b: Board, k: int): Player
    requires 0 <= k < 8
  {
    if Uniform(LineCells(b, k), MarkX) then X
    else if Uniform(LineCells(b, k), MarkO) then O
    else NONE
  }

  predicate HasLine(b: Board)
  {
    exists k :: 0 <= k < 8 && Owner(b, k) != NONE
  }

  /** The first owned line at or after k in scan order, or 8 if none. */
  function FirstLine(b: Board, k: int): (j: int)
    requires 0 <= k <= 8
    ensures k <= j <= 8
    ensures j < 8 ==> Owner(b, j) != NONE
    ensures forall i :: k <= i < j ==> Owner(b, i) == NONE
    decreases 8 - k
  {
    if k == 8 then 8
    else if Owner(b, k) != NONE then k
    else FirstLine(b, k + 1)
  }

  // ---------------------------------------------------------------------
  // checkWinner, as the program scans
  // ---------------------------------------------------------------------

  /** One row of the row loop: every cell is the symbol and none is "". */
  function RowOwner(row: seq<string>): Player
  {
    if (forall c :: c in row ==> c == MarkX) && (forall c :: c in row ==> c != EmptyCell) then X
    else if (forall c :: c in row ==> c == MarkO) && (forall c :: c in row ==> c != EmptyCell) then O
    else NONE
  }

  function ScanRows(b: Board, i: int): Player
    requires 0 <= i <= 3
    decreases 3 - i
  {
    if i == 3 then NONE
    else if RowOwner(b[i]) != NONE then RowOwner(b[i])
    else ScanRows(b, i + 1)
  }

  function ScanColumns(b: Board, c: int): Player
    requires 0 <= c <= 3
    decreases 3 - c
  {
    if c == 3 then NONE
    else if b[0][c] == MarkX && b[1][c] == MarkX && b[2][c] == MarkX then X
    else if b[0][c] == MarkO && b[1][c] == MarkO && b[2][c] == MarkO then O
    else ScanColumns(b, c + 1)
  }

  /** `checkWinner`: rows, then columns, then the two diagonals. */
  function CheckWinner(b: Board): Player
  {
    var fromRows := ScanRows(b, 0);
    if fromRows != NONE then fromRows
    else
      var fromColumns := ScanColumns(b, 0);
      if fromColumns != NONE then fromColumns
      else if b[0][0] == MarkX && b[1][1] == MarkX && b[2][2] == MarkX then X
      else if b[0][0] == MarkO && b[1][1] == MarkO && b[2][2] == MarkO then O
      else if b[0][2] == MarkX && b[1][1] == MarkX && b[2][0] == MarkX then X
      else if b[0][2] == MarkO && b[1][1] == MarkO && b[2][0] == MarkO then O
      else NONE
  }

  /** The scan reports the owner of the first completed line in scan
      order, NONE exactly when no line is complete, and X (or O) only when
      three literal "X" (or "O") fill some line. */
  lemma CheckWinnerIsFirstLine(b: Board)
    ensures var j := FirstLine(b, 0); CheckWinner(b) == if j < 8 then Owner(b, j) else NONE
    ensures CheckWinner(b) == NONE <==> !HasLine(b)
    ensures CheckWinner(b) == X ==> exists k :: 0 <= k < 8 && Uniform(LineCells(b, k), MarkX)
    ensures CheckWinner(b) == O ==> exists k :: 0 <= k < 8 && Uniform(LineCells(b, k), MarkO)
  {
    ScanMatchesLines(b);
  }

  lemma RowOwnerIsLineOwner(b: Board, i: int)
    requires 0 <= i < 3
    ensures RowOwner(b[i]) == Owner(b, i)
  {
    assert b[i] == LineCells(b, i);
    var row := b[i];
    if Uniform(row, MarkX) {
      assert forall c :: c in row ==> c == MarkX;
    } else if Uniform(row, MarkO) {
      assert forall c :: c in row ==> c == MarkO;
      assert !(forall c :: c in row ==> c == MarkX) by {
        assert row[0] in row;
      }
    } else {
      assert !(forall c :: c in row ==> c == MarkX) by {
        assert row[0] in row && row[1] in row && row[2] in row;
      }
      assert !(forall c :: c in row ==> c == MarkO) by {
        assert row[0] in row && row[1] in row && row[2] in row;
      }
    }
  }

  lemma ScanRowsIsFirstLine(b: Board, i: int)
    requires 0 <= i <= 3
    ensures ScanRows(b, i) == (if FirstLine(b, i) < 3 then Owner(b, FirstLine(b, i)) else NONE)
    decreases 3 - i
  {
    if i < 3 {
      RowOwnerIsLineOwner(b, i);
      ScanRowsIsFirstLine(b, i + 1);
    } else {
      assert FirstLine(b, 3) >= 3;
    }
  }

  lemma ScanColumnsIsFirstLine(b: Board, c: int)
    requires 0 <= c <= 3
    ensures ScanColumns(b, c) == (if FirstLine(b, c + 3) < 6 then Owner(b, FirstLine(b, c + 3)) else NONE)
    decreases 3 - c
  {
    if c < 3 {
      assert LineCells(b, c + 3) == [b[0][c], b[1][c], b[2][c]];
      ScanColumnsIsFirstLine(b, c + 1);
    } else {
      assert FirstLine(b, 6) >= 6;
    }
  }

  lemma ScanMatchesLines(b: Board)
    ensures var j := FirstLine(b, 0);
      (if j < 3 then Owner(b, j) else NONE) == ScanRows(b, 0)
    ensures var j := FirstLine(b, 0);
      j >= 3 ==> (if j < 6 then Owner(b, j) else NONE) == ScanColumns(b, 0)
  {
    ScanRowsIsFirstLine(b, 0);
    ScanColumnsIsFirstLine(b, 0);
    var j := FirstLine(b, 0);
    if j >= 3 {
      assert FirstLine(b, 0) == FirstLine(b, 3) by { FirstLineSkips(b, 0, 3); }
    }
  }

  /** Skipping unowned lines does not change the first owned one. */
  lemma FirstLineSkips(b: Board, k: int, m: int)
    requires 0 <= k <= m <= 8
    requires FirstLine(b, k) >= m
    ensures FirstLine(b, k) == FirstLine(b, m)
    decreases m - k
  {
    if k < m {
      FirstLineSkips(b, k + 1, m);
    }
  }

  // ---------------------------------------------------------------------
  // Full board, available moves, game over
  // ---------------------------------------------------------------------

  function CellAt(b: Board, k: int): string
    requires 0 <= k < 9
  {
    b[k / 3][k % 3]
  }

  /** Number of non-empty cells among row-major positions k .. 8. */
  function OccupiedFrom(b: Board, k: int): nat
    requires 0 <= k <= 9
    decreases 9 - k
  {
    if k == 9 then 0
    else (if CellAt(b, k) != EmptyCell then 1 else 0) + OccupiedFrom(b, k + 1)
  }

  lemma {:induction false} OccupiedFromAtMost(b: Board, k: int)
    requires 0 <= k <= 9
    ensures OccupiedFrom(b, k) <= 9 - k
    decreases 9 - k
  {
    if k < 9 {
      OccupiedFromAtMost(b, k + 1);
    }
  }

  /** Number of non-empty cells. */
  function Occupied(b: Board): (n: nat)
    ensures n <= 9
  {
    OccupiedFromAtMost(b, 0);
    OccupiedFrom(b, 0)
  }

  /** `isBoardFull`: every cell of every row differs from "". */
  predicate IsBoardFull(b: Board)
  {
    forall i, j :: 0 <= i < 3 && 0 <= j < 3 ==> b[i][j] != EmptyCell
  }

  /** The empty cells among row-major positions k .. 8, in that order. */
  function MovesFrom(b: Board, k: int): (r: seq<Pos>)
    requires 0 <= k <= 9
    ensures forall p :: p in r <==> InRange(p) && k <= Index(p) && Cell(b, p) == EmptyCell
    ensures forall i, j :: 0 <= i < j < |r| ==> Index(r[i]) < Index(r[j])
    ensures |r| + OccupiedFrom(b, k) == 9 - k
    decreases 9 - k
  {
    if k == 9 then []
    else
      var rest := MovesFrom(b, k + 1);
      var q := PosOf(k);
      assert forall p :: InRange(p) && Index(p) == k ==> p == q;
      assert Cell(b, q) == CellAt(b, k);
      if CellAt(b, k) == EmptyCell then [q] + rest else rest
  }

  /** `getAvailableMoves`: exactly the empty cells. */
  function AvailableMoves(b: Board): (r: seq<Pos>)
    ensures forall p :: p in r <==> InRange(p) && Cell(b, p) == EmptyCell
  {
    MovesFrom(b, 0)
  }

  /** The moves come in row-major order, each once, one per empty cell,
      and there are none exactly when the board is full. */
  lemma AvailableMovesShape(b: Board)
    ensures var r := AvailableMoves(b);
      && (forall i, j :: 0 <= i < j < |r| ==> Index(r[i]) < Index(r[j]))
      && |r| + Occupied(b) == 9
      && (|r| == 0 <==> IsBoardFull(b))
  {
    NotFullHasEmptyCell(b);
    FullHasNoEmptyCell(b);
  }

  lemma NotFullHasEmptyCell(b: Board)
    ensures !IsBoardFull(b) ==> |MovesFrom(b, 0)| > 0
  {
    if !IsBoardFull(b) {
      var i, j :| 0 <= i < 3 && 0 <= j < 3 && b[i][j] == EmptyCell;
      MovesFromHas(b, Pos(i, j));
    }
  }

  lemma MovesFromHas(b: Board, p: Pos)
    requires InRange(p) && Cell(b, p) == EmptyCell
    ensures |MovesFrom(b, 0)| > 0
  {
    var r := MovesFrom(b, 0);
    assert p in r;
  }

  lemma FullHasNoEmptyCell(b: Board)
    ensures IsBoardFull(b) ==> |MovesFrom(b, 0)| == 0
  {
    var r := MovesFrom(b, 0);
    if |r| > 0 {
      assert r[0] in r;
      assert Cell(b, r[0]) == EmptyCell;
    }
  }

  /** `isGameOver`: some line is complete or no cell is free. */
  predicate IsGameOver(b: Board)
  {
    CheckWinner(b) != NONE || IsBoardFull(b)
  }

  lemma GameOverCharacterisation(b: Board)
    ensures IsGameOver(b) <==> HasLine(b) || |AvailableMoves(b)| == 0
  {
    CheckWinnerIsFirstLine(b);
    AvailableMovesShape(b);
  }

  // ---------------------------------------------------------------------
  // Writing one cell
  // ---------------------------------------------------------------------

  /** The board with cell p replaced by s (the AI's `makeMove` and the view
      model's copy-and-set). */
  function Place(b: Board, p: Pos, s: string): Board
    requires InRange(p)
  {
    b[p.row := b[p.row][p.col := s]]
  }

  /** Placing writes cell p and no other cell. */
  lemma PlaceCells(b: Board, p: Pos, s: string)
    requires InRange(p)
    ensures Cell(Place(b, p, s), p) == s
    ensures forall q :: InRange(q) && q != p ==> Cell(Place(b, p, s), q) == Cell(b, q)
  {
  }

  /** Cell k of the placed board in row-major numbering. */
  lemma CellAtPlace(b: Board, p: Pos, s: string, k: int)
    requires InRange(p) && 0 <= k < 9
    ensures CellAt(Place(b, p, s), k) == if k == Index(p) then s else CellAt(b, k)
    ensures k == Index(p) ==> CellAt(b, k) == Cell(b, p)
  {
    var q := PosOf(k);
    assert CellAt(Place(b, p, s), k) == Cell(Place(b, p, s), q);
    assert CellAt(b, k) == Cell(b, q);
    if k == Index(p) {
      IndexInjective(q, p);
    }
    PlaceCells(b, p, s);
  }

  lemma {:induction false} PlaceOccupiedFrom(b: Board, p: Pos, s: string, k: int)
    requires InRange(p) && Cell(b, p) == EmptyCell && s != EmptyCell
    requires 0 <= k <= 9
    ensures OccupiedFrom(Place(b, p, s), k) == OccupiedFrom(b, k) + (if k <= Index(p) then 1 else 0)
    decreases 9 - k
  {
    if k < 9 {
      PlaceOccupiedFrom(b, p, s, k + 1);
      CellAtPlace(b, p, s, k);
    }
  }

  /** Marking an empty cell occupies exactly one more cell. */
  lemma PlaceOccupied(b: Board, p: Pos, s: string)
    requires InRange(p) && Cell(b, p) == EmptyCell && s != EmptyCell
    ensures Occupied(Place(b, p, s)) == Occupied(b) + 1
  {
    PlaceOccupiedFrom(b, p, s, 0);
  }

  /** Writing an empty cell keeps every completed line; a line owned by a
      mark other than the one written was already owned before. */
  lemma PlaceLineOwner(b: Board, p: Pos, s: string, j: int)
    requires InRange(p) && 0 <= j < 8
    ensures Cell(b, p) == EmptyCell && Owner(b, j) != NONE ==> Owner(Place(b, p, s), j) == Owner(b, j)
    ensures Owner(Place(b, p, s), j) == X && s != MarkX ==> Owner(b, j) == X
    ensures Owner(Place(b, p, s), j) == O && s != MarkO ==> Owner(b, j) == O
  {
    PlaceCells(b, p, s);
  }

  /** A completed line stays completed when an empty cell is written. */
  lemma PlaceKeepsLine(b: Board, p: Pos, s: string)
    requires InRange(p) && Cell(b, p) == EmptyCell && HasLine(b)
    ensures HasLine(Place(b, p, s))
  {
    var j :| 0 <= j < 8 && Owner(b, j) != NONE;
    PlaceLineOwner(b, p, s, j);
  }

  /** The mark of a player, "X" or "O". */
  function MarkOf(pl: Player): string
  {
    match pl
    case X => MarkX
    case O => MarkO
    case NONE => EmptyCell
  }

  /** On a board with no completed line, writing mark s (X or O) can only
      complete a line of s, so the scan then reports s. */
  lemma CompletingLineOwner(b: Board, p: Pos, s: string)
    requires InRange(p) && !HasLine(b) && (s == MarkX || s == MarkO)
    ensures CheckWinner(Place(b, p, s)) != NONE ==> MarkOf(CheckWinner(Place(b, p, s))) == s
  {
    var c := Place(b, p, s);
    CheckWinnerIsFirstLine(c);
    var j := FirstLine(c, 0);
    if j < 8 {
      PlaceLineOwner(b, p, s, j);
    }
  }

  /** Every cell is empty, "X" or "O": the boards the program builds. */
  predicate Marks(b: Board)
  {
    forall i, j :: 0 <= i < 3 && 0 <= j < 3 ==> b[i][j] in {EmptyCell, MarkX, MarkO}
  }

  lemma PlaceKeepsMarks(b: Board, p: Pos, s: string)
    requires InRange(p) && Marks(b) && (s == MarkX || s == MarkO)
    ensures Marks(Place(b, p, s))
  {
  }
}
