/** The game screen's state machine, taken out of its LiveData and
    coroutine shell: a human move, the computer's reply, the end-of-game
    check with its misère mapping and the record it saves, a move received
    from the peer, and resetting. The game mode and difficulty are
    parameters; the computer's random choices are the `coin` and `roll`
    oracles of `AI.GetMove`; `now` is the clock reading a saved record is
    stamped with. */
module GameSession {
  import opened GameData
  import opened GameLogic
  import opened AI
  import opened AISearch
  import opened WireCodec
  import opened Preferences
  import SimpleSettings

  /** The screen's game state. `winner` is the symbol of the player who
      WON (the other side completed a line), "" while undecided. */
  datatype GameState = GameState(
    board: Board,
    turn: int,
    winner: string,
    draw: bool,
    connectionEstablished: bool,
    reset: bool)

  /** `GameState()`: empty board, turn 0, no winner, no draw. */
  const InitialState: GameState := GameState(EmptyBoard, 0, "", false, false, false)

  predicate IsOver(s: GameState)
  {
    s.winner != "" || s.draw
  }

  /** The misère mapping: the player who completed a line loses, so the
      other symbol is recorded as the winner. */
  function WinnerAgainst(loser: Player): string
  {
    match loser
    case X => MarkO
    case O => MarkX
    case NONE => EmptyCell
  }

  /** The outcome fields agree with the board: the winner is the symbol
      opposite the scan's first completed line, and a draw is a full board
      without one. */
  predicate Settled(s: GameState)
  {
    && s.winner == WinnerAgainst(CheckWinner(s.board))
    && s.draw == (IsBoardFull(s.board) && CheckWinner(s.board) == NONE)
  }

  /** What every reachable state satisfies: only "X"/"O" marks, one turn
      per mark, and settled outcome fields. */
  predicate Consistent(s: GameState)
  {
    Marks(s.board) && s.turn == Occupied(s.board) && Settled(s)
  }

  lemma InitialStateConsistent()
    ensures Consistent(InitialState) && !IsOver(InitialState)
  {
    forall k | 0 <= k < 8
      ensures Owner(EmptyBoard, k) == NONE
    {
      assert LineCells(EmptyBoard, k)[0] == EmptyCell;
    }
    CheckWinnerIsFirstLine(EmptyBoard);
    assert !IsBoardFull(EmptyBoard) by {
      assert EmptyBoard[0][0] == EmptyCell;
    }
    assert Occupied(EmptyBoard) == 0 by {
      assert forall k :: 0 <= k < 9 ==> CellAt(EmptyBoard, k) == EmptyCell;
      EmptyFromIsZero(EmptyBoard, 0);
    }
  }

  lemma {:induction false} EmptyFromIsZero(b: Board, k: int)
    requires 0 <= k <= 9
    requires forall i :: 0 <= i < 9 ==> CellAt(b, i) == EmptyCell
    ensures OccupiedFrom(b, k) == 0
    decreases 9 - k
  {
    if k < 9 {
      EmptyFromIsZero(b, k + 1);
    }
  }

  // ---------------------------------------------------------------------
  // checkGameEnd and the saved record
  // ---------------------------------------------------------------------

  datatype EndCheck = EndCheck(ended: bool, state: GameState)

  /** `checkGameEnd`: a completed line or a full board ends the game; the
      outcome fields are then set from the board, otherwise nothing
      changes. */
  function CheckGameEnd(s: GameState): (r: EndCheck)
    ensures r.ended <==> IsGameOver(s.board)
    ensures !r.ended ==> r.state == s
  {
    var loser := CheckWinner(s.board);
    var isDraw := IsBoardFull(s.board) && loser == NONE;
    if loser != NONE || isDraw then
      EndCheck(true, s.(winner := WinnerAgainst(loser), draw := isDraw))
    else
      EndCheck(false, s)
  }

  /** When the game ends, only the outcome fields change; "O" is the winner
      only if three "X" fill a line and "X" only if three "O" do; a draw is
      a full board with no line, so winner and draw are never both set. */
  lemma CheckGameEndOutcome(s: GameState)
    ensures var r := CheckGameEnd(s);
      && r.state.board == s.board && r.state.turn == s.turn
      && r.state.connectionEstablished == s.connectionEstablished && r.state.reset == s.reset
    ensures var r := CheckGameEnd(s);
      r.ended ==> Settled(r.state) && (r.state.winner != "" <==> HasLine(s.board)) && r.state.winner != "Draw"
    ensures var r := CheckGameEnd(s);
      r.state.winner == MarkO && r.ended ==> exists k :: 0 <= k < 8 && Uniform(LineCells(s.board, k), MarkX)
    ensures var r := CheckGameEnd(s);
      r.state.winner == MarkX && r.ended ==> exists k :: 0 <= k < 8 && Uniform(LineCells(s.board, k), MarkO)
    ensures var r := CheckGameEnd(s);
      r.ended ==> (r.state.draw <==> !HasLine(s.board) && |AvailableMoves(s.board)| == 0)
    ensures var r := CheckGameEnd(s);
      r.ended ==> !(r.state.winner != "" && r.state.draw)
  {
    CheckWinnerIsFirstLine(s.board);
    AvailableMovesShape(s.board);
  }

  /** The record `saveGameResult` builds: key 0 for the store to assign,
      the clock reading, "Draw" or the winner's symbol, and the names of
      the difficulty and mode. */
  function ResultRecord(s: GameState, difficulty: Difficulty, mode: GameMode, now: int): (g: GameResult)
    ensures DifficultyFromName(g.difficulty) == Some(difficulty)
    ensures ModeFromName(g.gameMode) == Some(mode)
    ensures g.id == 0 && g.dateTime == now && g.isDraw == s.draw
    ensures !s.draw ==> g.winner == s.winner
    ensures Settled(s) && IsOver(s) ==>
      (g.winner == "Draw" <==> g.isDraw) && (g.winner == MarkX || g.winner == MarkO || g.winner == "Draw")
  {
    GameResult(0, now, if s.draw then "Draw" else s.winner, DifficultyName(difficulty), ModeName(mode), s.draw)
  }

  // ---------------------------------------------------------------------
  // Moves on the device
  // ---------------------------------------------------------------------

  /** The symbol a tap writes: "X" against the computer, otherwise "X" on
      an even turn and "O" on an odd one. */
  function MoverSymbol(mode: GameMode, turn: int): (m: string)
    ensures m == MarkX || m == MarkO
    ensures mode == PlayerVsBot ==> m == MarkX
  {
    if mode == PlayerVsBot then MarkX
    else if turn % 2 == 0 then MarkX else MarkO
  }

  /** Writing `mark` at p, counting the turn, then `checkGameEnd`. */
  function Play(s: GameState, p: Pos, mark: string): EndCheck
    requires InRange(p)
  {
    CheckGameEnd(s.(board := Place(s.board, p, mark), turn := s.turn + 1))
  }

  /** A move on an empty cell of a consistent state, decided or not,
      writes that cell and no other, counts one turn, and leaves a
      consistent state: a completed line stays completed, so a decided game
      stays decided. */
  lemma PlayKeepsConsistent(s: GameState, p: Pos, mark: string)
    requires Consistent(s)
    requires InRange(p) && Cell(s.board, p) == EmptyCell && (mark == MarkX || mark == MarkO)
    ensures var r := Play(s, p, mark).state;
      && Consistent(r)
      && r.board == Place(s.board, p, mark) && r.turn == s.turn + 1
      && r.connectionEstablished == s.connectionEstablished && r.reset == s.reset
  {
    var next := s.(board := Place(s.board, p, mark), turn := s.turn + 1);
    PlaceKeepsMarks(s.board, p, mark);
    PlaceOccupied(s.board, p, mark);
    CheckGameEndOutcome(next);
    if !CheckGameEnd(next).ended {
      CheckWinnerIsFirstLine(s.board);
      CheckWinnerIsFirstLine(next.board);
      if HasLine(s.board) {
        PlaceKeepsLine(s.board, p, mark);
      }
      assert !IsBoardFull(s.board) by {
        assert s.board[p.row][p.col] == EmptyCell;
      }
    }
  }

  datatype MoveOutcome = MoveOutcome(state: GameState, sent: Option<string>, saved: Option<GameResult>)

  /** The board logic of `makeAIMove`: the computer, as the O side, asks
      `getMove` for a cell, writes "O" there and checks for the end; a
      (-1, -1) answer changes nothing. */
  function AiReply(s: GameState, difficulty: Difficulty, mode: GameMode,
                   coin: bool, roll: nat, now: int): MoveOutcome
  {
    var m := GetMove(s.board, difficulty, true, coin, roll);
    if m.row != -1 && m.col != -1 then
      var check := Play(s, m, MarkO);
      MoveOutcome(check.state, None,
                  if check.ended then Some(ResultRecord(check.state, difficulty, mode, now)) else None)
    else
      MoveOutcome(s, None, None)
  }

  /** `makeMove`: a tap on an occupied cell or after the game is decided
      changes nothing. Otherwise the mover's symbol is written and the turn
      counted; over the peer link the move's text is handed on; the end
      check runs; and against the computer an undecided game gets its
      reply. */
  function MakeMove(s: GameState, mode: GameMode, difficulty: Difficulty, p: Pos,
                    coin: bool, roll: nat, now: int): (r: MoveOutcome)
    requires InRange(p)
    ensures Cell(s.board, p) != EmptyCell || IsOver(s) ==> r == MoveOutcome(s, None, None)
    ensures r.sent.Some? <==> mode == PlayerVsPlayerP2P && Cell(s.board, p) == EmptyCell && !IsOver(s)
    ensures r.sent.Some? ==> r.sent.value == EncodeMove(p)
  {
    if Cell(s.board, p) != EmptyCell || s.winner != "" || s.draw then
      MoveOutcome(s, None, None)
    else
      var check := Play(s, p, MoverSymbol(mode, s.turn));
      var sent := if mode == PlayerVsPlayerP2P then Some(EncodeMove(p)) else None;
      if check.ended then
        MoveOutcome(check.state, sent, Some(ResultRecord(check.state, difficulty, mode, now)))
      else if mode == PlayerVsBot then
        AiReply(check.state, difficulty, mode, coin, roll, now)
      else
        MoveOutcome(check.state, sent, None)
  }

  /** The computer's reply keeps a consistent undecided state consistent;
      it writes "O" on one empty cell, or nothing on a full board. */
  lemma AiReplyKeepsConsistent(s: GameState, difficulty: Difficulty, mode: GameMode,
                               coin: bool, roll: nat, now: int)
    requires Consistent(s) && !IsOver(s)
    ensures var r := AiReply(s, difficulty, mode, coin, roll, now);
      && Consistent(r.state)
      && r.sent == None
      && (r.saved.Some? <==> IsOver(r.state))
      && (r.state == s || exists q :: InRange(q) && Cell(s.board, q) == EmptyCell
                                       && r.state.board == Place(s.board, q, MarkO)
                                       && r.state.turn == s.turn + 1)
  {
    var m := GetMove(s.board, difficulty, true, coin, roll);
    if m.row != -1 && m.col != -1 {
      PlayKeepsConsistent(s, m, MarkO);
      CheckGameEndOutcome(Play(s, m, MarkO).state);
    }
  }

  /** An accepted move writes the mover's symbol into the target cell, and
      every state it produces is consistent; a record is saved exactly when
      the result is decided. */
  lemma MakeMoveKeepsConsistent(s: GameState, mode: GameMode, difficulty: Difficulty, p: Pos,
                                coin: bool, roll: nat, now: int)
    requires Consistent(s) && InRange(p)
    ensures var r := MakeMove(s, mode, difficulty, p, coin, roll, now);
      && Consistent(r.state)
      && (r.saved.Some? <==> IsOver(r.state) && !IsOver(s))
    ensures var r := MakeMove(s, mode, difficulty, p, coin, roll, now);
      Cell(s.board, p) == EmptyCell && !IsOver(s) ==>
        Cell(r.state.board, p) == MoverSymbol(mode, s.turn) && r.state.turn > s.turn
  {
    if Cell(s.board, p) == EmptyCell && !IsOver(s) {
      var mark := MoverSymbol(mode, s.turn);
      PlayKeepsConsistent(s, p, mark);
      var check := Play(s, p, mark);
      PlaceCells(s.board, p, mark);
      if check.ended {
        CheckGameEndOutcome(check.state);
      } else if mode == PlayerVsBot {
        AiReplyKeepsConsistent(check.state, difficulty, mode, coin, roll, now);
        var r := AiReply(check.state, difficulty, mode, coin, roll, now);
        if r.state != check.state {
          var q :| InRange(q) && Cell(check.state.board, q) == EmptyCell
                   && r.state.board == Place(check.state.board, q, MarkO)
                   && r.state.turn == check.state.turn + 1;
          PlaceCells(check.state.board, q, MarkO);
        }
      }
    }
  }

  /** Between two people on one device or over the link, an accepted move
      changes exactly the target cell and the turn, and the text handed to
      the link is the move's own. */
  lemma HumanMoveWritesOneCell(s: GameState, mode: GameMode, difficulty: Difficulty, p: Pos,
                               coin: bool, roll: nat, now: int)
    requires Consistent(s) && !IsOver(s) && InRange(p) && Cell(s.board, p) == EmptyCell
    requires mode != PlayerVsBot
    ensures var r := MakeMove(s, mode, difficulty, p, coin, roll, now);
      && Cell(r.state.board, p) == (if s.turn % 2 == 0 then MarkX else MarkO)
      && (forall q :: InRange(q) && q != p ==> Cell(r.state.board, q) == Cell(s.board, q))
      && r.state.turn == s.turn + 1
      && (mode == PlayerVsPlayerP2P ==> r.sent == Some(EncodeMove(p)))
  {
    var mark := MoverSymbol(mode, s.turn);
    PlayKeepsConsistent(s, p, mark);
    PlaceCells(s.board, p, mark);
  }

  /** On a board with no completed line where some free cell would
      complete an "O" line, HARD playing "O" picks a free cell that makes
      the scan report O. */
  lemma HardMoveCompletesOLine(b: Board, coin: bool, roll: nat) returns (m: Pos)
    requires !HasLine(b)
    requires exists q :: q in AvailableMoves(b) && LeavesLine(b, q, true)
    ensures m == GetMove(b, Hard, true, coin, roll)
    ensures InRange(m) && m.row != -1 && Cell(b, m) == EmptyCell
    ensures CheckWinner(Place(b, m, MarkO)) == O
  {
    var k := HardPlaysFirstLineCompletingMove(b, true, coin, roll);
    m := AvailableMoves(b)[k];
    CompletingLineOwner(b, m, MarkO);
  }

  /** As written, a HARD computer completes a line of its own "O" whenever
      a free cell allows it, and so hands its opponent the win: on an
      undecided board where some free cell would complete an "O" line, its
      reply ends the game with "X" as winner and saves that record. */
  lemma HardReplyCompletesLine(t: GameState, coin: bool, roll: nat, now: int)
    requires !HasLine(t.board)
    requires exists q :: q in AvailableMoves(t.board) && LeavesLine(t.board, q, true)
    ensures var r := AiReply(t, Hard, PlayerVsBot, coin, roll, now);
      && r.state.winner == MarkX && !r.state.draw
      && r.saved == Some(ResultRecord(r.state, Hard, PlayerVsBot, now))
  {
    var m := HardMoveCompletesOLine(t.board, coin, roll);
    var check := Play(t, m, MarkO);
    assert check.ended && check.state.winner == MarkX && !check.state.draw;
    AiReplyPlays(t, Hard, PlayerVsBot, coin, roll, now);
  }

  /** When the computer's choice is a cell, its reply is that move played
      as "O", saved exactly when it ends the game. */
  lemma AiReplyPlays(t: GameState, difficulty: Difficulty, mode: GameMode,
                     coin: bool, roll: nat, now: int)
    ensures var m := GetMove(t.board, difficulty, true, coin, roll);
      m != NoMove ==>
        var check := Play(t, m, MarkO);
        AiReply(t, difficulty, mode, coin, roll, now) ==
        MoveOutcome(check.state, None, if check.ended then Some(ResultRecord(check.state, difficulty, mode, now)) else None)
  {
  }

  /** Against a HARD computer, a human move that leaves the game undecided
      but lets "O" complete a line is answered by completing it, and the
      human is recorded as the winner. */
  lemma HardBotHandsHumanTheWin(s: GameState, p: Pos, coin: bool, roll: nat, now: int)
    requires Consistent(s) && !IsOver(s) && InRange(p) && Cell(s.board, p) == EmptyCell
    ensures var after := Play(s, p, MarkX);
      !after.ended && (exists q :: q in AvailableMoves(after.state.board) && LeavesLine(after.state.board, q, true)) ==>
      var r := MakeMove(s, PlayerVsBot, Hard, p, coin, roll, now);
      && r.state.winner == MarkX && !r.state.draw
      && r.saved.Some? && r.saved.value.winner == MarkX && !r.saved.value.isDraw
  {
    var after := Play(s, p, MarkX);
    if !after.ended && exists q :: q in AvailableMoves(after.state.board) && LeavesLine(after.state.board, q, true) {
      HardBotLoses(s, p, coin, roll, now);
    }
  }

  /** The step of the lemma above once the human's move has left the game
      open with a line-completing reply available. */
  lemma HardBotLoses(s: GameState, p: Pos, coin: bool, roll: nat, now: int)
    requires Consistent(s) && !IsOver(s) && InRange(p) && Cell(s.board, p) == EmptyCell
    requires var after := Play(s, p, MarkX);
      !after.ended && exists q :: q in AvailableMoves(after.state.board) && LeavesLine(after.state.board, q, true)
    ensures var r := MakeMove(s, PlayerVsBot, Hard, p, coin, roll, now);
      && r.state.winner == MarkX && !r.state.draw
      && r.saved.Some? && r.saved.value.winner == MarkX && !r.saved.value.isDraw
  {
    var after := Play(s, p, MarkX);
    PlayKeepsConsistent(s, p, MarkX);
    assert MakeMove(s, PlayerVsBot, Hard, p, coin, roll, now) == AiReply(after.state, Hard, PlayerVsBot, coin, roll, now);
    CheckWinnerIsFirstLine(after.state.board);
    HardReplyCompletesLine(after.state, coin, roll, now);
  }

  // ---------------------------------------------------------------------
  // Moves from the peer
  // ---------------------------------------------------------------------

  /** `checkGameFinished`'s scan: the first of the eight lines, in the same
      order as the rule engine's, whose first cell is not empty and whose
      three cells are equal; its first cell is the loser. */
  function FirstLoser(b: Board, k: int): Option<string>
    requires 0 <= k <= 8
    decreases 8 - k
  {
    if k == 8 then None
    else
      var line := LineCells(b, k);
      if line[0] != EmptyCell && line[0] == line[1] && line[1] == line[2] then Some(line[0])
      else FirstLoser(b, k + 1)
  }

  /** `checkGameFinished`: a line makes the other symbol the winner (any
      loser other than "X" makes "X" the winner); otherwise a full board is
      a draw; otherwise the state is returned as it is. */
  function CheckGameFinished(s: GameState): GameState
  {
    match FirstLoser(s.board, 0)
    case Some(loser) => s.(winner := if loser == MarkX then MarkO else MarkX, draw := false)
    case None =>
      if IsBoardFull(s.board) then s.(winner := "", draw := true) else s
  }

  /** On boards of "X"/"O" marks the peer screen's scan finds the same line
      as the rule engine's. */
  lemma {:induction false} FirstLoserIsFirstLine(b: Board, k: int)
    requires Marks(b) && 0 <= k <= 8
    ensures FirstLoser(b, k) ==
            if FirstLine(b, k) < 8 then Some(MarkOf(Owner(b, FirstLine(b, k)))) else None
    decreases 8 - k
  {
    if k < 8 {
      var line := LineCells(b, k);
      assert line[0] in {EmptyCell, MarkX, MarkO};
      FirstLoserIsFirstLine(b, k + 1);
    }
  }

  /** On boards of "X"/"O" marks, `checkGameFinished` decides exactly as
      `checkGameEnd` does. */
  lemma FinishedAgreesWithGameEnd(s: GameState)
    requires Marks(s.board)
    ensures CheckGameFinished(s) == CheckGameEnd(s).state
  {
    FirstLoserIsFirstLine(s.board, 0);
    CheckWinnerIsFirstLine(s.board);
  }

  /** Off such boards the two disagree: three equal strings other than
      "X" and "O" are a loss for `checkGameFinished` and nothing for the
      rule engine. */
  lemma FinishedDisagreesOnOtherMarks()
    ensures var b: Board := [["Z", "Z", "Z"], ["", "", ""], ["", "", ""]];
      var s := InitialState.(board := b);
      CheckGameFinished(s).winner == MarkX && !CheckGameEnd(s).ended
  {
    var b: Board := [["Z", "Z", "Z"], ["", "", ""], ["", "", ""]];
    assert LineCells(b, 0) == ["Z", "Z", "Z"];
    forall k | 0 <= k < 8
      ensures Owner(b, k) == NONE
    {
      assert LineCells(b, k)[0] == "Z" || LineCells(b, k)[1] == EmptyCell;
    }
    CheckWinnerIsFirstLine(b);
    assert b[1][1] == EmptyCell;
  }

  datatype RemoteOutcome =
    | IndexFault                                    // the coordinates are off the board: the lookup throws
    | Ignored                                       // the cell is taken: nothing changes
    | Applied(state: GameState, saved: Option<GameResult>)

  /** `onRemoteMoveReceived`: the coordinates are not range-checked, and a
      decided game is not refused. On an empty cell the turn-parity symbol
      is written, the turn counted and `checkGameFinished` applied; a
      decided result is saved. */
  function OnRemoteMoveReceived(s: GameState, row: int, col: int, difficulty: Difficulty,
                                mode: GameMode, now: int): (r: RemoteOutcome)
    ensures r.IndexFault? <==> !InRange(Pos(row, col))
    ensures r.Ignored? <==> InRange(Pos(row, col)) && Cell(s.board, Pos(row, col)) != EmptyCell
    ensures r.Applied? ==> (r.saved.Some? <==> IsOver(r.state))
  {
    var p := Pos(row, col);
    if !InRange(p) then IndexFault
    else if Cell(s.board, p) != EmptyCell then Ignored
    else
      var symbol := if s.turn % 2 == 0 then MarkX else MarkO;
      var finished := CheckGameFinished(s.(board := Place(s.board, p, symbol), turn := s.turn + 1));
      Applied(finished, if IsOver(finished) then Some(ResultRecord(finished, difficulty, mode, now)) else None)
  }

  /** A move from the peer keeps a consistent state consistent, whether or
      not the game was already decided, and writes the turn-parity symbol
      into exactly that cell. */
  lemma RemoteMoveKeepsConsistent(s: GameState, row: int, col: int, difficulty: Difficulty,
                                  mode: GameMode, now: int)
    requires Consistent(s)
    ensures var r := OnRemoteMoveReceived(s, row, col, difficulty, mode, now);
      r.Applied? ==>
        && Consistent(r.state)
        && r.state.board == Place(s.board, Pos(row, col), if s.turn % 2 == 0 then MarkX else MarkO)
        && r.state.turn == s.turn + 1
  {
    var p := Pos(row, col);
    if InRange(p) && Cell(s.board, p) == EmptyCell {
      var symbol := if s.turn % 2 == 0 then MarkX else MarkO;
      var next := s.(board := Place(s.board, p, symbol), turn := s.turn + 1);
      PlaceKeepsMarks(s.board, p, symbol);
      FinishedAgreesWithGameEnd(next);
      assert CheckGameFinished(next) == Play(s, p, symbol).state;
      PlayKeepsConsistent(s, p, symbol);
      var r := OnRemoteMoveReceived(s, row, col, difficulty, mode, now);
      assert r.state == CheckGameFinished(next);
    }
  }

  /** A decided game still accepts the peer's move on an empty cell, and
      saves another record. */
  lemma RemoteMoveAfterGameOver(s: GameState, row: int, col: int, difficulty: Difficulty,
                                mode: GameMode, now: int)
    requires Consistent(s) && IsOver(s)
    requires InRange(Pos(row, col)) && Cell(s.board, Pos(row, col)) == EmptyCell
    ensures var r := OnRemoteMoveReceived(s, row, col, difficulty, mode, now);
      r.Applied? && IsOver(r.state) && r.saved.Some?
  {
    RemoteMoveKeepsConsistent(s, row, col, difficulty, mode, now);
    var r := OnRemoteMoveReceived(s, row, col, difficulty, mode, now);
    var p := Pos(row, col);
    CheckWinnerIsFirstLine(s.board);
    CheckWinnerIsFirstLine(r.state.board);
    if !s.draw {
      PlaceKeepsLine(s.board, p, if s.turn % 2 == 0 then MarkX else MarkO);
    }
  }

  /** A decided game: "O" filled the middle row, so "X" has won. */
  lemma DecidedExampleIsConsistent(b: Board)
    requires b == [["X", "X", ""], ["O", "O", "O"], ["X", "", ""]]
    ensures Consistent(InitialState.(board := b, turn := 6, winner := MarkX))
  {
    assert Owner(b, 0) == NONE && Owner(b, 1) == O;
    assert FirstLine(b, 0) == 1;
    CheckWinnerIsFirstLine(b);
    assert b[0][2] == EmptyCell;
    assert Occupied(b) == 6 by {
      assert OccupiedFrom(b, 9) == 0;
    }
  }

  /** The peer can even overturn a decided result: in the game above, the
      peer's "X" on the top row completes a line the scan visits earlier,
      so "O" is recorded as the winner instead. */
  lemma RemoteMoveCanOverturnResult(b: Board)
    requires b == [["X", "X", ""], ["O", "O", "O"], ["X", "", ""]]
    ensures var s := InitialState.(board := b, turn := 6, winner := MarkX);
      && Consistent(s)
      && OnRemoteMoveReceived(s, 0, 2, Hard, PlayerVsPlayerP2P, 0).Applied?
      && OnRemoteMoveReceived(s, 0, 2, Hard, PlayerVsPlayerP2P, 0).state.winner == MarkO
  {
    DecidedExampleIsConsistent(b);
    var c := Place(b, Pos(0, 2), MarkX);
    assert c[0][0] == MarkX && c[0][1] == MarkX && c[0][2] == MarkX;
    assert FirstLoser(c, 0) == Some(MarkX);
  }

  // ---------------------------------------------------------------------
  // Settings and reset
  // ---------------------------------------------------------------------

  /** The view model's fields apart from the board: mode, difficulty and
      the preference file behind them. */
  datatype Session = Session(game: GameState, mode: GameMode, difficulty: Difficulty, prefs: Prefs)

  /** A new view model: the difficulty is read from the preferences, the
      game mode starts at PLAYER_VS_BOT whatever is stored. */
  function OpenSession(prefs: Prefs): (v: Session)
    ensures Consistent(v.game) && !IsOver(v.game) && v.game.turn == 0
    ensures v.mode == PlayerVsBot && v.prefs == prefs
    ensures v.difficulty == SimpleSettings.GetDifficulty(prefs)
  {
    InitialStateConsistent();
    Session(InitialState, PlayerVsBot, SimpleSettings.GetDifficulty(prefs), prefs)
  }

  /** `resetGame`. */
  function ResetGame(v: Session): (r: Session)
    ensures Consistent(r.game) && !IsOver(r.game) && r.game.turn == 0
    ensures r.mode == v.mode && r.difficulty == v.difficulty && r.prefs == v.prefs
  {
    InitialStateConsistent();
    v.(game := InitialState)
  }

  /** `setDifficulty`: stored and current; the game in progress goes on. */
  function SetDifficulty(v: Session, d: Difficulty): (r: Session)
    ensures r.difficulty == d && SimpleSettings.GetDifficulty(r.prefs) == d
    ensures r.game == v.game && r.mode == v.mode
    ensures SimpleSettings.GetGameMode(r.prefs) == SimpleSettings.GetGameMode(v.prefs)
  {
    v.(difficulty := d, prefs := SimpleSettings.SaveDifficulty(v.prefs, d))
  }

  /** `setGameMode`: stored and current, and the game starts over. */
  function SetGameMode(v: Session, m: GameMode): (r: Session)
    ensures r.mode == m && SimpleSettings.GetGameMode(r.prefs) == m
    ensures Consistent(r.game) && !IsOver(r.game) && r.game.turn == 0
    ensures r.difficulty == v.difficulty
    ensures SimpleSettings.GetDifficulty(r.prefs) == SimpleSettings.GetDifficulty(v.prefs)
  {
    ResetGame(v.(mode := m, prefs := SimpleSettings.SaveGameMode(v.prefs, m)))
  }

  /** A saved mode is not restored: a view model opened on preferences
      that store any mode starts against the computer. */
  lemma StoredModeIsNotRestored(p: Prefs, m: GameMode)
    ensures SimpleSettings.GetGameMode(SimpleSettings.SaveGameMode(p, m)) == m
    ensures OpenSession(SimpleSettings.SaveGameMode(p, m)).mode == PlayerVsBot
  {
  }
}
