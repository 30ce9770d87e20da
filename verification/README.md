# Misère tic-tac-toe: a Dafny model of the game core

This project models the core of an Android game of misère tic-tac-toe.
In misère tic-tac-toe, the player who completes a line of three LOSES.
The model covers:

- the rule engine (`GameLogic`): line detection, full board, free cells,
  game over;
- the computer opponent (`AI`): move choice by difficulty and the
  fail-soft alpha-beta minimax behind HARD and half of MEDIUM;
- the game screen's state machine (`GameViewModel`), taken out of its
  LiveData and coroutine shell:
  - a human move and the computer's reply;
  - the end check with its misère winner mapping and the record it saves;
  - a move received from the peer, and reset;
- the peer-link screen (`P2PViewModel`) and the `PeerEvent` type:
  - status line, connection flag and transport bookkeeping;
  - the `"row,col"` text a move travels as, with Kotlin's `trim`,
    `split`, `toIntOrNull` and `Int.toString` written out over ASCII;
- the history table behind `GameResultDao`: insert with AUTOINCREMENT
  keys, delete by key, delete all, and the newest-first listing;
- the two settings stores sharing the `game_settings` preference file
  (`SimpleSettingsRepository`, `SettingsRepository`).

Everything is a pure function over immutable datatypes. The board is a
3×3 `seq<seq<string>>`, with `""` as an empty cell. The computer's random
choices are the oracle parameters `coin` (`Random.nextBoolean()`) and
`roll` (`Random.nextInt(n)`, read as `roll % n`). The clock reading that
stamps a saved record is the parameter `now`.

Modules, one per source component:

| module | file | models |
|---|---|---|
| `GameData` | game_data.dfy | `GameState.kt` enums and `GameResult`, enum-name codecs, Int bounds |
| `GameLogic` | game_logic.dfy | `GameLogic.kt`, and the board copy-and-write both screens use |
| `AI` | ai.dfy | `AI.kt` as written |
| `AISearch` | ai_search.dfy | unpruned minimax as a reference, and what HARD plays |
| `WireCodec` | wire_codec.dfy | the move text: encoder (`"$row,$col"`) and decoder |
| `History` | game_result_dao.dfy | `GameResultDao.kt` and its entity conversions |
| `Preferences`, `SimpleSettings` | simple_settings.dfy | the preference file and `SimpleSettingsRepository.kt` |
| `SettingsStore` | settings_repository.dfy | `SettingsRepository.kt` |
| `GameSession` | game_session.dfy | `GameViewModel.kt` and the `GameState` record |
| `PeerSession` | peer_session.dfy | `P2PViewModel.kt` and `PeerEvent` |

Facts about the code as written that the model keeps and proves:

- HARD completes a line whenever it can. The search's terminal scoring
  rewards the side that just completed a line, although under the misère
  rule that side loses. `AISearch.HardPlaysFirstLineCompletingMove` proves
  this for the search. `GameSession.HardBotHandsHumanTheWin` shows the
  consequence on the screen: the reply hands the human the win.
- A peer move is not refused after the game is decided.
  `GameSession.RemoteMoveAfterGameOver` shows another record is saved.
  `GameSession.RemoteMoveCanOverturnResult` shows the recorded winner can
  flip.
- The view model's mode starts at `PLAYER_VS_BOT` whatever is stored
  (`GameSession.StoredModeIsNotRestored`).

Where the code and its design description differ, the model follows the
code:

- Off-board coordinates. `onRemoteMoveReceived` does not range-check what
  it receives, and the message decoder accepts any pair of Ints, such as
  `"5,-1"`. A cell lookup outside the board throws in Kotlin. The model
  does not exclude such input with a precondition. Instead it returns an
  explicit `IndexFault` outcome.
- The view model's settings calls (`getInstance`, `getDifficulty`,
  `saveGameMode`, …) are the methods of `SimpleSettingsRepository`. They
  are modelled with that store and its mode naming. The view model itself
  imports `repository.SettingsRepository` and calls
  `SettingsRepository.getInstance` (GameViewModel.kt:20 and :30), a class
  that has none of these methods. The choice of store is therefore this
  model's reading of code that does not compile as shipped.
- The sources refer to two different sets of `GameMode` constants. Both
  stores import the one enum from `data`, read it with `valueOf`, write it
  with `name`, and share the key and the "game_settings" file. The enum
  declared in GameState.kt:48-50 is `VS_AI`, `VS_HUMAN_ON_DEVICE`,
  `VS_HUMAN_P2P`. `SimpleSettingsRepository` and the view model use
  `PLAYER_VS_BOT`, …, so against that enum `SimpleSettingsRepository`
  does not compile, and no single build has both namings. The model gives
  each store the naming its own file uses.
  `SettingsStore.StoresDisagreeOnModes` states what would happen if both
  namings were used on the same file: each store would read the other's
  saved mode as its own fallback.

## Model

| member | source | states |
|---|---|---|
| GameData.DifficultyFromName | app/src/main/java/com/misere/tictactoe/data/GameState.kt:44-46 | `valueOf` accepts exactly the four declared names and inverts `name` |
| GameData.ModeFromName | app/src/main/java/com/misere/tictactoe/repository/SimpleSettingsRepository.kt:30-37 | `valueOf` in the PLAYER_VS_BOT naming accepts exactly the three names and inverts `name` |
| GameData.ModeFromDeclaredName | app/src/main/java/com/misere/tictactoe/data/GameState.kt:48-50 | `valueOf` in the VS_AI naming accepts exactly the three declared names and inverts `name` |
| GameData.ModeNamingsDisjoint | app/src/main/java/com/misere/tictactoe/data/GameState.kt:48-50 | no name of one mode naming is a name of the other, so each `valueOf` rejects the other's names |
| GameLogic.CheckWinnerIsFirstLine | app/src/main/java/com/misere/tictactoe/game/GameLogic.kt:8-44 | `checkWinner` reports the owner of the first complete line in the order rows, columns, diagonals. It reports NONE exactly when no line is complete, and X only when three "X" fill a line (O likewise) |
| GameLogic.AvailableMoves | app/src/main/java/com/misere/tictactoe/game/GameLogic.kt:52-62 | the moves are exactly the empty cells |
| GameLogic.AvailableMovesShape | app/src/main/java/com/misere/tictactoe/game/GameLogic.kt:47-62 | the moves come in row-major order, each once, one per empty cell. There are none exactly when `isBoardFull` holds |
| GameLogic.GameOverCharacterisation | app/src/main/java/com/misere/tictactoe/game/GameLogic.kt:64-66 | the game is over exactly when a line is complete or no move is left |
| GameLogic.PlaceCells | app/src/main/java/com/misere/tictactoe/game/AI.kt:93-97 | copying the board and writing one cell changes that cell and no other |
| GameLogic.PlaceOccupied | app/src/main/java/com/misere/tictactoe/game/AI.kt:93-97 | writing a mark into an empty cell occupies exactly one more cell |
| GameLogic.PlaceKeepsLine | app/src/main/java/com/misere/tictactoe/game/GameLogic.kt:8-44 | a complete line stays complete when an empty cell is written |
| GameLogic.CompletingLineOwner | app/src/main/java/com/misere/tictactoe/game/GameLogic.kt:8-44 | on a board with no complete line, writing "X" or "O" can only complete a line of that mark |
| AI.GetMove | app/src/main/java/com/misere/tictactoe/game/AI.kt:9-19 | (-1, -1) exactly on a full board, otherwise a free cell. HARD is the optimal move, MEDIUM the optimal or the random one, EASY and the fallback branch the random one |
| AI.RandomMove | app/src/main/java/com/misere/tictactoe/game/AI.kt:21-23 | the random choice is one of the available moves |
| AI.OptimalMove | app/src/main/java/com/misere/tictactoe/game/AI.kt:33-47 | the optimal choice is one of the available moves |
| AI.BestFrom | app/src/main/java/com/misere/tictactoe/game/AI.kt:37-44 | the root loop returns one of the moves: the best move so far when no later score beats it, otherwise the first later move of greatest score |
| AISearch.Value | app/src/main/java/com/misere/tictactoe/game/AI.kt:49-62 | under the terminal scoring every minimax value lies in [-1000 + depth, 1000 - depth]. A position with no line lies one step inside that range |
| AISearch.AlphaBetaSound | app/src/main/java/com/misere/tictactoe/game/AI.kt:49-91 | for every window inside the Int range, the pruned search is a fail-soft bound of unpruned minimax |
| AISearch.MaxLoopSound | app/src/main/java/com/misere/tictactoe/game/AI.kt:64-76 | the maximizing loop with its `beta <= newAlpha` cutoff returns a fail-soft bound of the best child value |
| AISearch.MinLoopSound | app/src/main/java/com/misere/tictactoe/game/AI.kt:77-90 | the minimizing loop with its `newBeta <= alpha` cutoff returns a fail-soft bound of the least child value |
| AISearch.FullWindowIsMinimax | app/src/main/java/com/misere/tictactoe/game/AI.kt:39 | with the full Int window the pruned search equals unpruned minimax, within [-1000, 1000] |
| AISearch.RootScore | app/src/main/java/com/misere/tictactoe/game/AI.kt:37-39 | a root move's score is the minimax value after it. It is 1000 exactly when the move completes a line, and within ±999 otherwise |
| AISearch.RootScoresAboveSentinel | app/src/main/java/com/misere/tictactoe/game/AI.kt:35-41 | every root score exceeds `Int.MIN_VALUE`, so the first move's score replaces the sentinel |
| AISearch.BestFromFirstMaximum | app/src/main/java/com/misere/tictactoe/game/AI.kt:34-46 | the strict `>` root loop returns the first move of greatest score |
| AISearch.OptimalMoveIsFirstBest | app/src/main/java/com/misere/tictactoe/game/AI.kt:33-47 | `getOptimalMove` returns the earliest row-major move of greatest score |
| AISearch.HardPlaysFirstBest | app/src/main/java/com/misere/tictactoe/game/AI.kt:9-19 | HARD plays the earliest row-major move of greatest score |
| AISearch.HardPlaysFirstLineCompletingMove | app/src/main/java/com/misere/tictactoe/game/AI.kt:49-55 | when some free cell lets the AI complete a line, HARD plays the first such cell |
| WireCodec.TrimStart | app/src/main/java/com/misere/tictactoe/viewmodel/P2PViewModel.kt:91 | the leading whitespace is dropped: the result is a suffix, it starts with non-whitespace, and every dropped character is whitespace |
| WireCodec.TrimEnd | app/src/main/java/com/misere/tictactoe/viewmodel/P2PViewModel.kt:91 | the trailing whitespace is dropped: the result is a prefix, it ends with non-whitespace, and every dropped character is whitespace |
| WireCodec.TrimRemovesPadding | app/src/main/java/com/misere/tictactoe/viewmodel/P2PViewModel.kt:91 | trimming whitespace padding off a text that neither starts nor ends with whitespace gives that text |
| WireCodec.TrimIdempotent | app/src/main/java/com/misere/tictactoe/viewmodel/P2PViewModel.kt:91 | trimming twice is trimming once |
| WireCodec.SplitPieces | app/src/main/java/com/misere/tictactoe/viewmodel/P2PViewModel.kt:95-96 | `split` gives one more piece than there are delimiters, and no piece contains the delimiter |
| WireCodec.JoinSplit | app/src/main/java/com/misere/tictactoe/viewmodel/P2PViewModel.kt:95 | joining the pieces with the delimiter gives back the text |
| WireCodec.SplitPair | app/src/main/java/com/misere/tictactoe/viewmodel/P2PViewModel.kt:95-96 | two delimiter-free texts around one delimiter split into exactly those two |
| WireCodec.ParseIntOfNumeral | app/src/main/java/com/misere/tictactoe/viewmodel/P2PViewModel.kt:97-98 | `toIntOrNull` of a text is the value of its optional leading '+' or '-' applied to the rest, when the rest is a non-empty run of digits whose value is an Int, and null otherwise; every text splits this way |
| WireCodec.ParseIntExamples | app/src/main/java/com/misere/tictactoe/viewmodel/P2PViewModel.kt:97-98 | texts `Int.toString` never prints are read as `toIntOrNull` reads them: "+5" is 5, "007" is 7, "-0" is 0, and "+", "-" and "1a" are null |
| WireCodec.NatToString | app/src/main/java/com/misere/tictactoe/viewmodel/GameViewModel.kt:135 | a non-negative number prints as decimal digits denoting it, with no leading zero |
| WireCodec.ParseIntToString | app/src/main/java/com/misere/tictactoe/viewmodel/P2PViewModel.kt:97-98 | every Int parses back from its own decimal text |
| WireCodec.IntToStringCharacters | app/src/main/java/com/misere/tictactoe/viewmodel/GameViewModel.kt:135 | a printed number is non-empty and contains neither ',' nor whitespace |
| WireCodec.DecodeMove | app/src/main/java/com/misere/tictactoe/viewmodel/P2PViewModel.kt:95-101 | a message is decoded only when it holds exactly one ',', and both numbers are then Ints |
| WireCodec.EncodeMoveIsTrimmed | app/src/main/java/com/misere/tictactoe/viewmodel/GameViewModel.kt:135 | the sent text has no whitespace at either end, so the receiver's trim leaves it unchanged |
| WireCodec.DecodeEncodeMove | app/src/main/java/com/misere/tictactoe/viewmodel/P2PViewModel.kt:95-100 | round trip: the text of a move with Int coordinates decodes to that move |
| WireCodec.DecodePaddedMove | app/src/main/java/com/misere/tictactoe/viewmodel/P2PViewModel.kt:95-98 | whitespace around either number is accepted: such a padded move text still decodes to the move |
| WireCodec.DecodeRejectsCommaCount | app/src/main/java/com/misere/tictactoe/viewmodel/P2PViewModel.kt:95-96 | every text whose number of commas is not exactly one is not decoded |
| WireCodec.DecodePieces | app/src/main/java/com/misere/tictactoe/viewmodel/P2PViewModel.kt:95-100 | a text with exactly one comma decodes exactly when both trimmed pieces are Ints, and then to those two numbers |
| WireCodec.DecodeRejectsEmptyPiece | app/src/main/java/com/misere/tictactoe/viewmodel/P2PViewModel.kt:97-99 | a text whose piece on either side of its one comma is empty or only whitespace is not decoded |
| WireCodec.DecodeKeepsOffBoardPairs | app/src/main/java/com/misere/tictactoe/viewmodel/P2PViewModel.kt:97-100 | every pair of Ints off the board decodes from its text to itself: no range check is made |
| History.ToGameResult | app/src/main/java/com/misere/tictactoe/data/GameResultDao.kt:32-41 | `toGameResult` is inverted by `toGameResultEntity` |
| History.RecordRoundTrip | app/src/main/java/com/misere/tictactoe/data/GameResultDao.kt:43-52 | a record converted to a row and back is itself |
| History.Insert | app/src/main/java/com/misere/tictactoe/data/GameResultDao.kt:11-12 | an insert aborts exactly when an explicit key is taken. Otherwise the row is appended under the next key (key 0) or its own key |
| History.InsertKeepsTableValid | app/src/main/java/com/misere/tictactoe/data/GameResultDao.kt:21-24 | every insert that goes through keeps the primary keys unique and below the next key |
| History.DeleteRemovesKey | app/src/main/java/com/misere/tictactoe/data/GameResultDao.kt:14-15 | deleting by key removes that key, keeps every other row, and removes one row or none |
| History.DeleteAll | app/src/main/java/com/misere/tictactoe/data/GameResultDao.kt:17-18 | the listing is empty afterwards, and since the key counter is not reset, the next record saved gets a key above every key used before |
| History.InsertByDate | app/src/main/java/com/misere/tictactoe/data/GameResultDao.kt:8 | inserting into a newest-first list keeps it newest first and adds exactly that row |
| History.Listing | app/src/main/java/com/misere/tictactoe/data/GameResultDao.kt:8-9 | the listing is newest first and a permutation of the rows |
| History.InsertIsListed | app/src/main/java/com/misere/tictactoe/data/GameResultDao.kt:8-12 | after an insert the listing holds the old rows and the new one |
| History.SavedRecordReadsBack | app/src/main/java/com/misere/tictactoe/data/GameResultDao.kt:8-12 | a record saved with key 0 is always stored under a fresh key and reads back from the listing |
| Preferences.PutString | app/src/main/java/com/misere/tictactoe/repository/SimpleSettingsRepository.kt:26 | the key reads back the value, and every other key is untouched |
| SimpleSettings.GetDifficulty | app/src/main/java/com/misere/tictactoe/repository/SimpleSettingsRepository.kt:15-22 | a stored difficulty name reads back as that difficulty. A missing or unknown name reads as EASY. The Hilt store's `getStoredDifficulty` (SettingsRepository.kt:26-33) reads the same key with the same fallback, so the model uses this one definition for both |
| SimpleSettings.SaveDifficulty | app/src/main/java/com/misere/tictactoe/repository/SimpleSettingsRepository.kt:25-27 | the saved difficulty reads back, and the stored mode is untouched |
| SimpleSettings.GetGameMode | app/src/main/java/com/misere/tictactoe/repository/SimpleSettingsRepository.kt:30-37 | a stored mode name reads back as that mode. A missing or unknown name reads as PLAYER_VS_BOT |
| SimpleSettings.SaveGameMode | app/src/main/java/com/misere/tictactoe/repository/SimpleSettingsRepository.kt:40-42 | the saved mode reads back, and the stored difficulty is untouched |
| SimpleSettings.SavesAreIndependent | app/src/main/java/com/misere/tictactoe/repository/SimpleSettingsRepository.kt:45-46 | the two settings live under different keys, so saving one never changes what the other reads |
| SettingsStore.StoredGameMode | app/src/main/java/com/misere/tictactoe/repository/SettingsRepository.kt:35-42 | a stored VS_AI-naming mode reads back as that mode. A missing or unknown name reads as VS_AI |
| SettingsStore.SaveDifficulty | app/src/main/java/com/misere/tictactoe/repository/SettingsRepository.kt:44-47 | the difficulty is written and becomes current, and reads back from the file. The mode is untouched |
| SettingsStore.SaveGameMode | app/src/main/java/com/misere/tictactoe/repository/SettingsRepository.kt:49-52 | the mode is written and becomes current, and reads back from the file. The difficulty is untouched |
| SettingsStore.SavedSettingsPersist | app/src/main/java/com/misere/tictactoe/repository/SettingsRepository.kt:20-52 | a store opened later on the same file starts with what was saved last |
| SettingsStore.StoresDisagreeOnModes | app/src/main/java/com/misere/tictactoe/repository/SettingsRepository.kt:35-42 | if the two stores, each with the mode naming its own file uses, shared one preference file, a mode saved by either would read back in the other as that store's fallback, and difficulties would survive either way. The sources never build with both namings |
| GameSession.InitialStateConsistent | app/src/main/java/com/misere/tictactoe/data/GameState.kt:7-18 | the default game state is consistent and undecided |
| GameSession.CheckGameEnd | app/src/main/java/com/misere/tictactoe/viewmodel/GameViewModel.kt:177-198 | it reports the end exactly when `isGameOver` holds, and otherwise changes nothing |
| GameSession.CheckGameEndOutcome | app/src/main/java/com/misere/tictactoe/viewmodel/GameViewModel.kt:177-198 | at the end only the outcome fields change. "O" wins only if three "X" fill a line, "X" only if three "O" do. A draw is a full board with no line, and is never set together with a winner |
| GameSession.ResultRecord | app/src/main/java/com/misere/tictactoe/viewmodel/GameViewModel.kt:201-214 | the saved record has key 0 and the clock reading, its difficulty and mode names decode back to the session's, `isDraw` is the draw flag, and for a decided game its winner is "X", "O" or "Draw", "Draw" exactly for a draw |
| GameSession.MoverSymbol | app/src/main/java/com/misere/tictactoe/viewmodel/GameViewModel.kt:113-119 | a tap writes "X" or "O", and always "X" against the computer |
| GameSession.PlayKeepsConsistent | app/src/main/java/com/misere/tictactoe/viewmodel/GameViewModel.kt:121-139 | writing an empty cell and checking the end keeps a consistent state consistent, and counts one turn |
| GameSession.MakeMove | app/src/main/java/com/misere/tictactoe/viewmodel/GameViewModel.kt:103-145 | a tap on a taken cell or a decided game changes nothing. The move text is sent exactly for an accepted move in P2P mode, and it is the move's encoding |
| GameSession.MakeMoveKeepsConsistent | app/src/main/java/com/misere/tictactoe/viewmodel/GameViewModel.kt:103-145 | every state a tap produces is consistent. A record is saved exactly when the tap decides the game. The mover's symbol lands in the tapped cell |
| GameSession.HumanMoveWritesOneCell | app/src/main/java/com/misere/tictactoe/viewmodel/GameViewModel.kt:113-136 | between two people, an accepted move writes the turn-parity symbol into the target cell only and counts one turn. In P2P mode the move's own text is sent |
| GameSession.AiReplyKeepsConsistent | app/src/main/java/com/misere/tictactoe/viewmodel/GameViewModel.kt:148-173 | the computer's reply keeps the state consistent, writes "O" into one empty cell or nothing, and saves exactly when the game is decided |
| GameSession.HardReplyCompletesLine | app/src/main/java/com/misere/tictactoe/viewmodel/GameViewModel.kt:148-173 | when a free cell would complete an "O" line, a HARD reply ends the game with "X" as winner and saves that record |
| GameSession.HardBotHandsHumanTheWin | app/src/main/java/com/misere/tictactoe/viewmodel/GameViewModel.kt:139-168 | whenever a human move leaves the game open and leaves "O" a line to complete, the bot completes it, and the human is recorded as the winner |
| GameSession.FirstLoserIsFirstLine | app/src/main/java/com/misere/tictactoe/viewmodel/GameViewModel.kt:274-291 | on boards of "X"/"O" marks, the peer screen's line scan finds the same line as `checkWinner` |
| GameSession.FinishedAgreesWithGameEnd | app/src/main/java/com/misere/tictactoe/viewmodel/GameViewModel.kt:269-304 | on such boards `checkGameFinished` decides exactly as `checkGameEnd` does |
| GameSession.FinishedDisagreesOnOtherMarks | app/src/main/java/com/misere/tictactoe/viewmodel/GameViewModel.kt:285-296 | on a board whose top row is three "Z", `checkGameFinished` declares "X" the winner while `checkGameEnd` sees no end |
| GameSession.OnRemoteMoveReceived | app/src/main/java/com/misere/tictactoe/viewmodel/GameViewModel.kt:244-267 | off-board coordinates fault and a taken cell is ignored. Otherwise the move is applied, and a record is saved exactly when the result is decided |
| GameSession.RemoteMoveKeepsConsistent | app/src/main/java/com/misere/tictactoe/viewmodel/GameViewModel.kt:244-267 | an applied peer move writes the turn-parity symbol into that cell, counts one turn, and keeps the state consistent |
| GameSession.RemoteMoveAfterGameOver | app/src/main/java/com/misere/tictactoe/viewmodel/GameViewModel.kt:247-265 | a decided game still accepts a peer move on an empty cell, and saves another record |
| GameSession.RemoteMoveCanOverturnResult | app/src/main/java/com/misere/tictactoe/viewmodel/GameViewModel.kt:244-304 | in a game "X" has won, the peer's move can make "O" the recorded winner |
| GameSession.OpenSession | app/src/main/java/com/misere/tictactoe/viewmodel/GameViewModel.kt:33-41 | a new view model starts a consistent, undecided game at turn 0 in PLAYER_VS_BOT, with the difficulty read from the preferences |
| GameSession.StoredModeIsNotRestored | app/src/main/java/com/misere/tictactoe/viewmodel/GameViewModel.kt:40-69 | a saved mode is stored but not restored: a new view model starts against the computer |
| GameSession.ResetGame | app/src/main/java/com/misere/tictactoe/viewmodel/GameViewModel.kt:238-241 | a reset gives a consistent, undecided game at turn 0 and keeps the settings |
| GameSession.SetDifficulty | app/src/main/java/com/misere/tictactoe/viewmodel/GameViewModel.kt:72-75 | the difficulty becomes current and reads back from the store. The game and the stored mode are untouched |
| GameSession.SetGameMode | app/src/main/java/com/misere/tictactoe/viewmodel/GameViewModel.kt:78-82 | the mode becomes current and reads back from the store, and the game starts over. The difficulty is untouched |
| PeerSession.InitialLinkWellformed | app/src/main/java/com/misere/tictactoe/viewmodel/P2PViewModel.kt:20-28 | a new link is idle, not connected, and holds no transport |
| PeerSession.StartHost | app/src/main/java/com/misere/tictactoe/viewmodel/P2PViewModel.kt:32-46 | a new running host transport is held and the status says hosting. The connection flag is untouched |
| PeerSession.Connect | app/src/main/java/com/misere/tictactoe/viewmodel/P2PViewModel.kt:48-62 | a new running client for the target is held and the status says searching. The connection flag is untouched |
| PeerSession.Stop | app/src/main/java/com/misere/tictactoe/viewmodel/P2PViewModel.kt:71-77 | the held transport no longer runs, the flag is cleared and the status is "Idle" |
| PeerSession.SendTarget | app/src/main/java/com/misere/tictactoe/viewmodel/P2PViewModel.kt:64-69 | on a wellformed link the text goes to the one running transport; after starting a host or a client it goes to that new running transport; after `stop` it goes to the held transport, which no longer runs |
| PeerSession.OnEvent | app/src/main/java/com/misere/tictactoe/viewmodel/P2PViewModel.kt:79-114 | each event sets the status line it names. Only Connected and Disconnected move the flag. A message forwards exactly the decoding of its trimmed text, and no other event forwards anything |
| PeerSession.OperationsKeepWellformed | app/src/main/java/com/misere/tictactoe/viewmodel/P2PViewModel.kt:32-77 | starting, connecting, stopping and every event keep at most one transport running, namely the held one |
| PeerSession.ConnectedFollowsLastVerdict | app/src/main/java/com/misere/tictactoe/viewmodel/P2PViewModel.kt:83-111 | after a run of events, the flag tells whether the latest Connected/Disconnected event was Connected. It is unchanged when there was none |
| PeerSession.RunKeepsPeers | app/src/main/java/com/misere/tictactoe/viewmodel/P2PViewModel.kt:83-111 | events never change the transports or which one is held |
| PeerSession.ReceivedMoveIsForwarded | app/src/main/java/com/misere/tictactoe/viewmodel/P2PViewModel.kt:90-101 | a message carrying a move's text, padded with whitespace, forwards exactly that move and shows the trimmed text |
| PeerSession.Deliver | app/src/main/java/com/misere/tictactoe/viewmodel/P2PViewModel.kt:99-101 | a move reaches the game screen exactly when one was decoded and a game screen is attached |
| PeerSession.ReceiverMirrorsSender | app/src/main/java/com/misere/tictactoe/viewmodel/P2PViewModel.kt:90-103 | the text a P2P tap sends makes the receiving device, showing the same game, reach the same state. Both save exactly when the game is now decided |

## Left out

- Transports: Bluetooth, local sockets and the Wi-Fi Direct stub (discovery, sockets, threads) are left out. Only the `PeerEvent` values they emit are modelled. The transport side of `send` is left out too.
- Coroutines, `delay` and `isThinking`: the computer's reply is applied at once. The race in which a tap lands during the one-second thinking delay is left out. `makeAIMove` works from the state it captured, so such a tap can be overwritten.
- The "Listening for peer events..." status write, which a background coroutine makes at an unspecified time, is left out. That event collectors of stopped transports are never cancelled is left out as well.
- The history table's listing orders rows with equal `dateTime` by insertion sort. SQLite promises no order among ties.
- `Long` overflow of the AUTOINCREMENT key and of `dateTime` is left out. Integer overflow of `turn` is unreachable, since at most nine cells can be written.
- The `?:` fallbacks on LiveData values (`_difficulty.value ?: …`) are left out: those values are never null. The `?: Difficulty.EASY.name` after `getString` is left out for the same reason.
- Whitespace and digits beyond ASCII in `trim` and `toIntOrNull` are left out.
- Unused code: the dead `aiMove`, `recordResultIfOver` and `isGameOver` of the view model.
- Also left out: `loadGameResults` and `deleteAllGameResults` on the view model (they forward to the table), `GameRepository`, `GameModels.kt`, the UI screens and navigation. The injection module `DatabaseModule` is left out too.
- The `GameMetadata`, `PlayerChoice`, `MiniGame` and `GameMessage` records of `GameState.kt` are left out, since nothing in the core reads them.
- GameSession.OnRemoteMoveReceived: off-board coordinates give an `IndexFault` outcome, where the Kotlin coroutine throws an index exception. What that exception then does to the app is left out.
- AI.GetMove: `Random.nextInt(n)` is modelled as `roll % n` for an arbitrary `roll`. This covers every outcome but says nothing about the distribution.
