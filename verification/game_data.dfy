/** The records and enumerations shared by the game: players, difficulty,
    game mode, board coordinates and the match-result record, with the
    enum-name codecs that settings and history use. */
module GameData {

  datatype Option<+T> = None | Some(value: T)

  /** Who completed a line, as the rule engine reports it. */
  datatype Player = X | O | NONE

  /** The four declared difficulties; VsHuman is never chosen by the AI
      screens but is a legal value and takes the AI's fallback branch. */
  datatype Difficulty = Easy | Medium | Hard | VsHuman

  /** The three ways to play. The view model and the simple settings store
      name them PLAYER_VS_BOT, PLAYER_VS_PLAYER_ON_DEVICE and
      PLAYER_VS_PLAYER_P2P; the enum declared beside GameState names them
      VS_AI, VS_HUMAN_ON_DEVICE and VS_HUMAN_P2P (see `DeclaredModeName`). */
  datatype GameMode = PlayerVsBot | PlayerVsPlayerOnDevice | PlayerVsPlayerP2P

  /** A (row, column) pair, the source's `Pair<Int, Int>`. */
  datatype Pos = Pos(row: int, col: int)

  /** One finished match as the history log stores it. */
  datatype GameResult = GameResult(
    id: int,
    dateTime: int,
    winner: string,
    difficulty: string,
    gameMode: string,
    isDraw: bool)

  /** The bounds of Kotlin's 32-bit `Int`: the search uses them as
      sentinels, and `toIntOrNull` rejects numbers outside them. */
  const IntMin: int := -2147483648
  const IntMax: int := 2147483647

  const EmptyCell: string := ""
  const MarkX: string := "X"
  const MarkO: string := "O"

  /** `Difficulty.name` */
  function DifficultyName(d: Difficulty): string
  {
    match d
    case Easy => "EASY"
    case Medium => "MEDIUM"
    case Hard => "HARD"
    case VsHuman => "VS_HUMAN"
  }

  /** `Difficulty.valueOf(name)`: exact, case-sensitive match of a declared
      name; None stands for the IllegalArgumentException it throws. */
  function DifficultyFromName(s: string): (r: Option<Difficulty>)
    ensures r.Some? ==> DifficultyName(r.value) == s
    ensures forall d :: DifficultyName(d) == s ==> r == Some(d)
  {
    if s == "EASY" then Some(Easy)
    else if s == "MEDIUM" then Some(Medium)
    else if s == "HARD" then Some(Hard)
    else if s == "VS_HUMAN" then Some(VsHuman)
    else None
  }

  /** `GameMode.name` in the naming the view model and the simple settings
      store use. */
  function ModeName(m: GameMode): string
  {
    match m
    case PlayerVsBot => "PLAYER_VS_BOT"
    case PlayerVsPlayerOnDevice => "PLAYER_VS_PLAYER_ON_DEVICE"
    case PlayerVsPlayerP2P => "PLAYER_VS_PLAYER_P2P"
  }

  /** `GameMode.valueOf(name)` in the view model's naming. */
  function ModeFromName(s: string): (r: Option<GameMode>)
    ensures r.Some? ==> ModeName(r.value) == s
    ensures forall m :: ModeName(m) == s ==> r == Some(m)
  {
    if s == "PLAYER_VS_BOT" then Some(PlayerVsBot)
    else if s == "PLAYER_VS_PLAYER_ON_DEVICE" then Some(PlayerVsPlayerOnDevice)
    else if s == "PLAYER_VS_PLAYER_P2P" then Some(PlayerVsPlayerP2P)
    else None
  }

  /** `GameMode.name` in the naming of the enum declared beside GameState,
      which the Hilt settings repository uses. */
  function DeclaredModeName(m: GameMode): string
  {
    match m
    case PlayerVsBot => "VS_AI"
    case PlayerVsPlayerOnDevice => "VS_HUMAN_ON_DEVICE"
    case PlayerVsPlayerP2P => "VS_HUMAN_P2P"
  }

  /** `GameMode.valueOf(name)` in the declared naming. */
  function ModeFromDeclaredName(s: string): (r: Option<GameMode>)
    ensures r.Some? ==> DeclaredModeName(r.value) == s
    ensures forall m :: DeclaredModeName(m) == s ==> r == Some(m)
  {
    if s == "VS_AI" then Some(PlayerVsBot)
    else if s == "VS_HUMAN_ON_DEVICE" then Some(PlayerVsPlayerOnDevice)
    else if s == "VS_HUMAN_P2P" then Some(PlayerVsPlayerP2P)
    else None
  }

  /** No name of one naming is a name of the other, so each store reads the
      other's value as unknown. */
  lemma ModeNamingsDisjoint(m: GameMode, n: GameMode)
    ensures ModeName(m) != DeclaredModeName(n)
    ensures ModeFromDeclaredName(ModeName(m)) == None
    ensures ModeFromName(DeclaredModeName(n)) == None
  {
    assert ModeName(m)[0] == 'P';
    assert DeclaredModeName(n)[0] == 'V';
  }
}
