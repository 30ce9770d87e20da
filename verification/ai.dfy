/** The computer opponent: move choice by difficulty, and the fail-soft
    alpha-beta minimax that HARD (and half of MEDIUM) uses. The process-wide
    random source is replaced by two oracle parameters: `coin` for
    `Random.nextBoolean()` and `roll` for `Random.nextInt(n)`, which is read
    as `roll % n` so that every outcome in [0, n) is reachable. */
module AI {
  import opened GameData
  import opened GameLogic

  /** `Pair(-1, -1)`: the "no move" answer on a full board. */
  const NoMove: Pos := Pos(-1, -1)

  function Max(a: int, b: int): int
  {
    if a >= b then a else b
  }

  function Min(a: int, b: int): int
  {
    if a <= b then a else b
  }

  /** The mark the AI simulates for itself: "O" when the human is X. */
  function AiMark(isPlayerX: bool): string
  {
    if isPlayerX then MarkO else MarkX
  }

  /** The mark the AI simulates for its opponent. */
  function OpponentMark(isPlayerX: bool): string
  {
    if isPlayerX then MarkX else MarkO
  }

  /** The number of free cells, which every recursive step lowers by one. */
  function Free(b: Board): nat
  {
    9 - Occupied(b)
  }

  /** The child position reached by playing `moves[i]` with `mark`; it has
      one free cell fewer. */
  function Child(b: Board, moves: seq<Pos>, i: int, mark: string): (c: Board)
    requires moves == AvailableMoves(b) && 0 <= i < |moves|
    requires mark != EmptyCell
    ensures Occupied(c) == Occupied(b) + 1
  {
    assert moves[i] in AvailableMoves(b);
    PlaceOccupied(b, moves[i], mark);
    Place(b, moves[i], mark)
  }

  /** `minimax`: terminal positions are scored by who is to move (a line
      at a maximizing node is -1000 + depth, at a minimizing node
      1000 - depth, a full board 0), inner nodes by fail-soft alpha-beta. */
  function Minimax(b: Board, depth: int, isMaximizing: bool, isPlayerX: bool, alpha: int, beta: int): int
    decreases Free(b), 1, 0
  {
    if CheckWinner(b) != NONE then
      (if isMaximizing then -1000 + depth else 1000 - depth)
    else if IsBoardFull(b) then 0
    else
      var moves := AvailableMoves(b);
      if |moves| == 0 then 0
      else if isMaximizing then MaxLoop(b, moves, 0, depth, isPlayerX, IntMin, alpha, beta)
      else MinLoop(b, moves, 0, depth, isPlayerX, IntMax, alpha, beta)
  }

  /** The maximizing loop from move i on, with running `maxEval` and
      `newAlpha`; it stops as soon as `beta <= newAlpha`. */
  function MaxLoop(b: Board, moves: seq<Pos>, i: int, depth: int, isPlayerX: bool,
                   maxEval: int, newAlpha: int, beta: int): int
    requires moves == AvailableMoves(b) && 0 <= i <= |moves|
    decreases Free(b), 0, |moves| - i
  {
    if i == |moves| then maxEval
    else
      var eval := MaxChildEval(b, moves, i, depth, isPlayerX, newAlpha, beta);
      var maxEval' := Max(maxEval, eval);
      var newAlpha' := Max(newAlpha, eval);
      if beta <= newAlpha' then maxEval'
      else MaxLoop(b, moves, i + 1, depth, isPlayerX, maxEval', newAlpha', beta)
  }

  /** The minimizing loop from move i on, with running `minEval` and
      `newBeta`; it stops as soon as `newBeta <= alpha`. */
  function MinLoop(b: Board, moves: seq<Pos>, i: int, depth: int, isPlayerX: bool,
                   minEval: int, alpha: int, newBeta: int): int
    requires moves == AvailableMoves(b) && 0 <= i <= |moves|
    decreases Free(b), 0, |moves| - i
  {
    if i == |moves| then minEval
    else
      var eval := MinChildEval(b, moves, i, depth, isPlayerX, alpha, newBeta);
      var minEval' := Min(minEval, eval);
      var newBeta' := Min(newBeta, eval);
      if newBeta' <= alpha then minEval'
      else MinLoop(b, moves, i + 1, depth, isPlayerX, minEval', alpha, newBeta')
  }

  /** The recursive call of the maximizing loop: the AI marks `moves[i]`
      and the opponent is to move one level deeper. */
  function MaxChildEval(b: Board, moves: seq<Pos>, i: int, depth: int, isPlayerX: bool, alpha: int, beta: int): int
    requires moves == AvailableMoves(b) && 0 <= i < |moves|
    decreases Free(b), 0, 0
  {
    Minimax(Child(b, moves, i, AiMark(isPlayerX)), depth + 1, false, isPlayerX, alpha, beta)
  }

  /** The recursive call of the minimizing loop: the opponent marks
      `moves[i]` and the AI is to move one level deeper. */
  function MinChildEval(b: Board, moves: seq<Pos>, i: int, depth: int, isPlayerX: bool, alpha: int, beta: int): int
    requires moves == AvailableMoves(b) && 0 <= i < |moves|
    decreases Free(b), 0, 0
  {
    Minimax(Child(b, moves, i, OpponentMark(isPlayerX)), depth + 1, true, isPlayerX, alpha, beta)
  }

  /** The score `getOptimalMove` gives the root move `moves[i]`: the AI
      plays it and the opponent is to move at depth 0 with the full window,
      which is the maximizing step taken from depth -1. */
  function Score(b: Board, moves: seq<Pos>, i: int, isPlayerX: bool): int
    requires moves == AvailableMoves(b) && 0 <= i < |moves|
  {
    MaxChildEval(b, moves, i, -1, isPlayerX, IntMin, IntMax)
  }

  /** The scores of all root moves, in the order the root loop visits them. */
  function RootScores(b: Board, isPlayerX: bool): (r: seq<int>)
    ensures |r| == |AvailableMoves(b)|
    ensures forall j :: 0 <= j < |r| ==> r[j] == Score(b, AvailableMoves(b), j, isPlayerX)
  {
    var moves := AvailableMoves(b);
    seq(|moves|, j requires 0 <= j < |moves| => Score(b, moves, j, isPlayerX))
  }

  /** What the root loop from move i on may return, given the best move
      and score so far: that best move when no later score beats it, and
      otherwise the first later move of greatest score. */
  predicate FirstBestFrom(moves: seq<Pos>, scores: seq<int>, i: int, bestMove: Pos, bestScore: int, r: Pos)
    requires |scores| == |moves| && 0 <= i <= |moves|
  {
    || (r == bestMove && forall m :: i <= m < |moves| ==> scores[m] <= bestScore)
    || (exists j :: i <= j < |moves| && r == moves[j] && bestScore < scores[j] &&
         (forall m :: i <= m < |moves| ==> scores[m] <= scores[j]) &&
         (forall m :: i <= m < j ==> scores[m] < scores[j]))
  }

  /** The root loop of `getOptimalMove` from move i on, over the moves'
      scores: the best move is replaced only on a strictly greater score,
      so the first move of greatest score wins. */
  function BestFrom(moves: seq<Pos>, scores: seq<int>, i: int, bestMove: Pos, bestScore: int): (r: Pos)
    requires |scores| == |moves| && 0 <= i <= |moves|
    requires bestMove in moves
    ensures r in moves
    ensures FirstBestFrom(moves, scores, i, bestMove, bestScore, r)
    decreases |moves| - i
  {
    if i == |moves| then bestMove
    else if scores[i] > bestScore then
      var r := BestFrom(moves, scores, i + 1, moves[i], scores[i]);
      TakeStep(moves, scores, i, bestScore, r);
      r
    else
      var r := BestFrom(moves, scores, i + 1, bestMove, bestScore);
      KeepStep(moves, scores, i, bestMove, bestScore, r);
      r
  }

  /** Move i beats the best score so far and becomes the best move. */
  lemma TakeStep(moves: seq<Pos>, scores: seq<int>, i: int, bestScore: int, r: Pos)
    requires |scores| == |moves| && 0 <= i < |moves| && bestScore < scores[i]
    requires FirstBestFrom(moves, scores, i + 1, moves[i], scores[i], r)
    ensures FirstBestFrom(moves, scores, i, moves[i], bestScore, r)
  {
    if r == moves[i] && forall m :: i + 1 <= m < |moves| ==> scores[m] <= scores[i] {
      assert i <= i < |moves| && r == moves[i] && bestScore < scores[i];
    } else {
      var j :| i + 1 <= j < |moves| && r == moves[j] && scores[i] < scores[j] &&
        (forall m :: i + 1 <= m < |moves| ==> scores[m] <= scores[j]) &&
        (forall m :: i + 1 <= m < j ==> scores[m] < scores[j]);
      assert i <= j < |moves| && bestScore < scores[j];
    }
  }

  /** Move i does not beat the best score so far, which stays. */
  lemma KeepStep(moves: seq<Pos>, scores: seq<int>, i: int, bestMove: Pos, bestScore: int, r: Pos)
    requires |scores| == |moves| && 0 <= i < |moves| && scores[i] <= bestScore
    requires FirstBestFrom(moves, scores, i + 1, bestMove, bestScore, r)
    ensures FirstBestFrom(moves, scores, i, bestMove, bestScore, r)
  {
    if !(r == bestMove && forall m :: i + 1 <= m < |moves| ==> scores[m] <= bestScore) {
      var j :| i + 1 <= j < |moves| && r == moves[j] && bestScore < scores[j] &&
        (forall m :: i + 1 <= m < |moves| ==> scores[m] <= scores[j]) &&
        (forall m :: i + 1 <= m < j ==> scores[m] < scores[j]);
      assert i <= j < |moves|;
    }
  }

  /** `getOptimalMove`: start from the first move with score `Int.MIN_VALUE`. */
  function OptimalMove(b: Board, isPlayerX: bool): (r: Pos)
    requires |AvailableMoves(b)| > 0
    ensures r in AvailableMoves(b)
  {
    var moves := AvailableMoves(b);
    BestFrom(moves, RootScores(b, isPlayerX), 0, moves[0], IntMin)
  }

  /** `getRandomMove`: the move at index `nextInt(size)`. */
  function RandomMove(moves: seq<Pos>, roll: nat): (r: Pos)
    requires |moves| > 0
    ensures r in moves
  {
    moves[roll % |moves|]
  }

  /** `getMove`: (-1, -1) on a full board, otherwise a free cell chosen by
      difficulty. EASY and the fallback branch pick at random, MEDIUM flips
      a coin between the optimal and a random move, HARD is optimal. */
  function GetMove(b: Board, difficulty: Difficulty, isPlayerX: bool, coin: bool, roll: nat): (r: Pos)
    ensures r == NoMove <==> |AvailableMoves(b)| == 0
    ensures r != NoMove ==> r in AvailableMoves(b) && InRange(r) && Cell(b, r) == EmptyCell
    ensures |AvailableMoves(b)| > 0 && difficulty == Hard ==> r == OptimalMove(b, isPlayerX)
    ensures |AvailableMoves(b)| > 0 && difficulty == Medium ==>
              r == OptimalMove(b, isPlayerX) || r == RandomMove(AvailableMoves(b), roll)
    ensures |AvailableMoves(b)| > 0 && difficulty in {Easy, VsHuman} ==>
              r == RandomMove(AvailableMoves(b), roll)
  {
    var moves := AvailableMoves(b);
    if |moves| == 0 then NoMove
    else
      match difficulty
      case Easy => RandomMove(moves, roll)
      case Medium => if coin then OptimalMove(b, isPlayerX) else RandomMove(moves, roll)
      case Hard => OptimalMove(b, isPlayerX)
      case VsHuman => RandomMove(moves, roll)
  }
}
