/** What the AI's search computes. `Value` is plain minimax over the whole
    game tree with the same terminal scoring and no pruning; the lemmas show
    that the pruned search is a fail-soft bound of it for every window, hence
    equal to it for the full window the root uses, that all scores lie in
    [-1000, 1000], and what HARD therefore plays. */
module AISearch {
  import opened GameData
  import opened GameLogic
  import opened AI

  /** Unpruned minimax with the terminal scoring of `Minimax`. As long as
      the depth cannot reach 1000, every value lies in
      [-1000 + depth, 1000 - depth], and one step further in when the
      position itself has no completed line. */
  function Value(b: Board, depth: int, isMaximizing: bool, isPlayerX: bool): (v: int)
    ensures 0 <= depth && depth + Free(b) < 1000 ==>
              && -1000 + depth <= v <= 1000 - depth
              && (CheckWinner(b) == NONE ==> -999 + depth <= v <= 999 - depth)
    decreases Free(b), 1, 0
  {
    if CheckWinner(b) != NONE then
      (if isMaximizing then -1000 + depth else 1000 - depth)
    else if IsBoardFull(b) then 0
    else
      var moves := AvailableMoves(b);
      if |moves| == 0 then 0
      else if isMaximizing then MaxValue(b, moves, 0, depth, isPlayerX, IntMin)
      else MinValue(b, moves, 0, depth, isPlayerX, IntMax)
  }

  /** The largest of `acc` and the values of moves i .. end; it stays in
      the inner band when `acc` is the sentinel or already in it. */
  function MaxValue(b: Board, moves: seq<Pos>, i: int, depth: int, isPlayerX: bool, acc: int): (v: int)
    requires moves == AvailableMoves(b) && 0 <= i <= |moves|
    ensures v >= acc
    ensures 0 <= depth && depth + Free(b) < 1000 &&
            ((acc == IntMin && i < |moves|) || -999 + depth <= acc <= 999 - depth) ==>
              -999 + depth <= v <= 999 - depth
    decreases Free(b), 0, |moves| - i
  {
    if i == |moves| then acc
    else
      MaxValue(b, moves, i + 1, depth, isPlayerX, Max(acc, MaxChildValue(b, moves, i, depth, isPlayerX)))
  }

  /** The smallest of `acc` and the values of moves i .. end; it stays in
      the inner band when `acc` is the sentinel or already in it. */
  function MinValue(b: Board, moves: seq<Pos>, i: int, depth: int, isPlayerX: bool, acc: int): (v: int)
    requires moves == AvailableMoves(b) && 0 <= i <= |moves|
    ensures v <= acc
    ensures 0 <= depth && depth + Free(b) < 1000 &&
            ((acc == IntMax && i < |moves|) || -999 + depth <= acc <= 999 - depth) ==>
              -999 + depth <= v <= 999 - depth
    decreases Free(b), 0, |moves| - i
  {
    if i == |moves| then acc
    else
      MinValue(b, moves, i + 1, depth, isPlayerX, Min(acc, MinChildValue(b, moves, i, depth, isPlayerX)))
  }

  /** The value of the child where the AI marks `moves[i]`. */
  function MaxChildValue(b: Board, moves: seq<Pos>, i: int, depth: int, isPlayerX: bool): (v: int)
    requires moves == AvailableMoves(b) && 0 <= i < |moves|
    ensures 0 <= depth && depth + Free(b) < 1000 ==> -999 + depth <= v <= 999 - depth
    decreases Free(b), 0, 0
  {
    Value(Child(b, moves, i, AiMark(isPlayerX)), depth + 1, false, isPlayerX)
  }

  /** The value of the child where the opponent marks `moves[i]`. */
  function MinChildValue(b: Board, moves: seq<Pos>, i: int, depth: int, isPlayerX: bool): (v: int)
    requires moves == AvailableMoves(b) && 0 <= i < |moves|
    ensures 0 <= depth && depth + Free(b) < 1000 ==> -999 + depth <= v <= 999 - depth
    decreases Free(b), 0, 0
  {
    Value(Child(b, moves, i, OpponentMark(isPlayerX)), depth + 1, true, isPlayerX)
  }

  /** r is a fail-soft alpha-beta answer for true value v in window
      (alpha, beta): exact inside the window, and on the same side of the
      window as v, between the bound and v, outside it. */
  predicate FailSoft(r: int, v: int, alpha: int, beta: int)
  {
    && (v <= alpha ==> v <= r <= alpha)
    && (alpha < v < beta ==> r == v)
    && (beta <= v ==> beta <= r <= v)
  }

  /** The cutoffs are sound: for every window inside the Int range the
      pruned search is a fail-soft bound of plain minimax. */
  lemma {:induction false} AlphaBetaSound(b: Board, depth: int, isMaximizing: bool, isPlayerX: bool, alpha: int, beta: int)
    requires IntMin <= alpha < beta <= IntMax
    ensures FailSoft(Minimax(b, depth, isMaximizing, isPlayerX, alpha, beta),
                     Value(b, depth, isMaximizing, isPlayerX), alpha, beta)
    decreases Free(b), 1, 0
  {
    if CheckWinner(b) == NONE && !IsBoardFull(b) {
      var moves := AvailableMoves(b);
      if |moves| > 0 {
        if isMaximizing {
          MaxLoopSound(b, moves, 0, depth, isPlayerX, alpha, IntMin, alpha, IntMin, beta);
        } else {
          MinLoopSound(b, moves, 0, depth, isPlayerX, alpha, IntMax, beta, IntMax, beta);
        }
      }
    }
  }

  lemma MaxChildSound(b: Board, moves: seq<Pos>, i: int, depth: int, isPlayerX: bool, alpha: int, beta: int)
    requires moves == AvailableMoves(b) && 0 <= i < |moves|
    requires IntMin <= alpha < beta <= IntMax
    ensures FailSoft(MaxChildEval(b, moves, i, depth, isPlayerX, alpha, beta),
                     MaxChildValue(b, moves, i, depth, isPlayerX), alpha, beta)
    decreases Free(b), 0, 0
  {
    AlphaBetaSound(Child(b, moves, i, AiMark(isPlayerX)), depth + 1, false, isPlayerX, alpha, beta);
  }

  lemma MinChildSound(b: Board, moves: seq<Pos>, i: int, depth: int, isPlayerX: bool, alpha: int, beta: int)
    requires moves == AvailableMoves(b) && 0 <= i < |moves|
    requires IntMin <= alpha < beta <= IntMax
    ensures FailSoft(MinChildEval(b, moves, i, depth, isPlayerX, alpha, beta),
                     MinChildValue(b, moves, i, depth, isPlayerX), alpha, beta)
    decreases Free(b), 0, 0
  {
    AlphaBetaSound(Child(b, moves, i, OpponentMark(isPlayerX)), depth + 1, true, isPlayerX, alpha, beta);
  }

  /** Loop invariant of the maximizing loop: `best` is the true maximum so
      far, `maxEval` the search's, `newAlpha` = max(alpha, maxEval), and no
      cutoff has happened yet (best < beta). */
  lemma {:induction false} MaxLoopSound(b: Board, moves: seq<Pos>, i: int, depth: int, isPlayerX: bool,
                                        alpha: int, maxEval: int, newAlpha: int, best: int, beta: int)
    requires moves == AvailableMoves(b) && 0 <= i <= |moves|
    requires IntMin <= alpha < beta <= IntMax
    requires newAlpha == Max(alpha, maxEval)
    requires best <= alpha ==> best <= maxEval <= alpha
    requires alpha < best ==> maxEval == best
    requires best < beta
    ensures FailSoft(MaxLoop(b, moves, i, depth, isPlayerX, maxEval, newAlpha, beta),
                     MaxValue(b, moves, i, depth, isPlayerX, best), alpha, beta)
    decreases Free(b), 0, |moves| - i
  {
    if i < |moves| {
      var r := MaxChildEval(b, moves, i, depth, isPlayerX, newAlpha, beta);
      var v := MaxChildValue(b, moves, i, depth, isPlayerX);
      MaxChildSound(b, moves, i, depth, isPlayerX, newAlpha, beta);
      var maxEval' := Max(maxEval, r);
      var newAlpha' := Max(newAlpha, r);
      var best' := Max(best, v);
      assert MaxValue(b, moves, i, depth, isPlayerX, best) == MaxValue(b, moves, i + 1, depth, isPlayerX, best');
      if beta <= newAlpha' {
        assert MaxLoop(b, moves, i, depth, isPlayerX, maxEval, newAlpha, beta) == maxEval';
        assert beta <= v && beta <= r <= v;
        assert maxEval' == r;
      } else {
        assert MaxLoop(b, moves, i, depth, isPlayerX, maxEval, newAlpha, beta)
            == MaxLoop(b, moves, i + 1, depth, isPlayerX, maxEval', newAlpha', beta);
        MaxLoopSound(b, moves, i + 1, depth, isPlayerX, alpha, maxEval', newAlpha', best', beta);
      }
    }
  }

  /** Mirror image of `MaxLoopSound` for the minimizing loop. */
  lemma {:induction false} MinLoopSound(b: Board, moves: seq<Pos>, i: int, depth: int, isPlayerX: bool,
                                        alpha: int, minEval: int, newBeta: int, best: int, beta: int)
    requires moves == AvailableMoves(b) && 0 <= i <= |moves|
    requires IntMin <= alpha < beta <= IntMax
    requires newBeta == Min(beta, minEval)
    requires beta <= best ==> beta <= minEval <= best
    requires best < beta ==> minEval == best
    requires alpha < best
    ensures FailSoft(MinLoop(b, moves, i, depth, isPlayerX, minEval, alpha, newBeta),
                     MinValue(b, moves, i, depth, isPlayerX, best), alpha, beta)
    decreases Free(b), 0, |moves| - i
  {
    if i < |moves| {
      var r := MinChildEval(b, moves, i, depth, isPlayerX, alpha, newBeta);
      var v := MinChildValue(b, moves, i, depth, isPlayerX);
      MinChildSound(b, moves, i, depth, isPlayerX, alpha, newBeta);
      var minEval' := Min(minEval, r);
      var newBeta' := Min(newBeta, r);
      var best' := Min(best, v);
      assert MinValue(b, moves, i, depth, isPlayerX, best) == MinValue(b, moves, i + 1, depth, isPlayerX, best');
      if newBeta' <= alpha {
        assert MinLoop(b, moves, i, depth, isPlayerX, minEval, alpha, newBeta) == minEval';
        assert v <= alpha && v <= r <= alpha;
        assert minEval' == r;
      } else {
        assert MinLoop(b, moves, i, depth, isPlayerX, minEval, alpha, newBeta)
            == MinLoop(b, moves, i + 1, depth, isPlayerX, minEval', alpha, newBeta');
        MinLoopSound(b, moves, i + 1, depth, isPlayerX, alpha, minEval', newBeta', best', beta);
      }
    }
  }

  /** With the full window the pruned search returns exactly the minimax
      value, which lies in [-1000, 1000]. */
  lemma FullWindowIsMinimax(b: Board, depth: int, isMaximizing: bool, isPlayerX: bool)
    requires 0 <= depth && depth + Free(b) < 1000
    ensures Minimax(b, depth, isMaximizing, isPlayerX, IntMin, IntMax) == Value(b, depth, isMaximizing, isPlayerX)
    ensures -1000 <= Minimax(b, depth, isMaximizing, isPlayerX, IntMin, IntMax) <= 1000
  {
    AlphaBetaSound(b, depth, isMaximizing, isPlayerX, IntMin, IntMax);
  }

  /** Each root score of `getOptimalMove` is the unpruned minimax value of
      the child, and it is exactly 1000 when the AI's move leaves a
      completed line, at most 999 otherwise. */
  lemma RootScore(b: Board, moves: seq<Pos>, i: int, isPlayerX: bool)
    requires moves == AvailableMoves(b) && 0 <= i < |moves|
    ensures Score(b, moves, i, isPlayerX) == Value(Place(b, moves[i], AiMark(isPlayerX)), 0, false, isPlayerX)
    ensures LeavesLine(b, moves[i], isPlayerX) ==> Score(b, moves, i, isPlayerX) == 1000
    ensures !LeavesLine(b, moves[i], isPlayerX) ==> -999 <= Score(b, moves, i, isPlayerX) <= 999
  {
    var c := Child(b, moves, i, AiMark(isPlayerX));
    assert c == Place(b, moves[i], AiMark(isPlayerX));
    assert Free(c) < 9 by { assert |AvailableMoves(b)| + Occupied(b) == 9; }
    FullWindowIsMinimax(c, 0, false, isPlayerX);
  }

  /** After the AI's mark at p some line is complete. */
  predicate LeavesLine(b: Board, p: Pos, isPlayerX: bool)
    requires InRange(p)
  {
    CheckWinner(Place(b, p, AiMark(isPlayerX))) != NONE
  }

  /** The root loop returns the first move whose score is the maximum:
      the update is on a strictly greater score only. */
  lemma {:induction false} BestFromFirstMaximum(moves: seq<Pos>, scores: seq<int>, i: int,
                                                bestMove: Pos, bestScore: int, k: int)
    returns (kr: int)
    requires |scores| == |moves| && 0 <= i <= |moves|
    requires forall j :: 0 <= j < |scores| ==> IntMin < scores[j]
    requires 0 <= k < |moves| && bestMove == moves[k]
    requires i == 0 ==> k == 0 && bestScore == IntMin
    requires i > 0 ==> k < i && bestScore == scores[k]
    requires forall j :: 0 <= j < i ==> scores[j] <= bestScore
    requires forall j :: 0 <= j < k ==> scores[j] < bestScore
    ensures 0 <= kr < |moves| && BestFrom(moves, scores, i, bestMove, bestScore) == moves[kr]
    ensures forall j :: 0 <= j < |scores| ==> scores[j] <= scores[kr]
    ensures forall j :: 0 <= j < kr ==> scores[j] < scores[kr]
    decreases |moves| - i
  {
    if i == |moves| {
      kr := k;
    } else if scores[i] > bestScore {
      kr := BestFromFirstMaximum(moves, scores, i + 1, moves[i], scores[i], i);
    } else {
      kr := BestFromFirstMaximum(moves, scores, i + 1, bestMove, bestScore, k);
    }
  }

  /** No root score is the sentinel `Int.MIN_VALUE`, so the first move is
      always replaced by a move of greatest score. */
  lemma RootScoresAboveSentinel(b: Board, isPlayerX: bool)
    ensures forall j :: 0 <= j < |RootScores(b, isPlayerX)| ==> IntMin < RootScores(b, isPlayerX)[j]
  {
    var moves := AvailableMoves(b);
    var scores := RootScores(b, isPlayerX);
    forall j | 0 <= j < |scores|
      ensures IntMin < scores[j]
    {
      RootScore(b, moves, j, isPlayerX);
    }
  }

  /** `getOptimalMove` returns the earliest row-major move of greatest score. */
  lemma OptimalMoveIsFirstBest(b: Board, isPlayerX: bool) returns (k: int)
    requires |AvailableMoves(b)| > 0
    ensures var moves := AvailableMoves(b);
      var scores := RootScores(b, isPlayerX);
      && 0 <= k < |moves|
      && OptimalMove(b, isPlayerX) == moves[k]
      && (forall j :: 0 <= j < |scores| ==> scores[j] <= scores[k])
      && (forall j :: 0 <= j < k ==> scores[j] < scores[k])
  {
    var moves := AvailableMoves(b);
    RootScoresAboveSentinel(b, isPlayerX);
    k := BestFromFirstMaximum(moves, RootScores(b, isPlayerX), 0, moves[0], IntMin, 0);
  }

  /** HARD plays the earliest row-major move of greatest score. */
  lemma HardPlaysFirstBest(b: Board, isPlayerX: bool, coin: bool, roll: nat) returns (k: int)
    requires |AvailableMoves(b)| > 0
    ensures var moves := AvailableMoves(b);
      var scores := RootScores(b, isPlayerX);
      && 0 <= k < |moves|
      && GetMove(b, Hard, isPlayerX, coin, roll) == moves[k]
      && (forall j :: 0 <= j < |scores| ==> scores[j] <= scores[k])
      && (forall j :: 0 <= j < k ==> scores[j] < scores[k])
  {
    k := OptimalMoveIsFirstBest(b, isPlayerX);
  }

  /** As written, the terminal scoring rewards the side that completes a
      line, so whenever some free cell lets the AI complete a line, HARD
      plays the first such cell in row-major order, although under the
      misère rule completing a line loses. */
  lemma HardPlaysFirstLineCompletingMove(b: Board, isPlayerX: bool, coin: bool, roll: nat) returns (k: int)
    requires exists p :: p in AvailableMoves(b) && LeavesLine(b, p, isPlayerX)
    ensures var moves := AvailableMoves(b);
      && 0 <= k < |moves|
      && GetMove(b, Hard, isPlayerX, coin, roll) == moves[k]
      && LeavesLine(b, moves[k], isPlayerX)
      && (forall j :: 0 <= j < k ==> !LeavesLine(b, moves[j], isPlayerX))
  {
    var moves := AvailableMoves(b);
    var scores := RootScores(b, isPlayerX);
    var p :| p in moves && LeavesLine(b, p, isPlayerX);
    k := HardPlaysFirstBest(b, isPlayerX, coin, roll);
    var m :| 0 <= m < |moves| && moves[m] == p;
    RootScore(b, moves, m, isPlayerX);
    assert scores[m] == 1000;
    RootScore(b, moves, k, isPlayerX);
    forall j | 0 <= j < k
      ensures !LeavesLine(b, moves[j], isPlayerX)
    {
      RootScore(b, moves, j, isPlayerX);
      assert scores[j] < scores[k];
    }
  }
}
