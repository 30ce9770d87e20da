/** The injected settings store: it reads both settings once when it is
    created, keeps the current values in memory, and writes every change
    through to the shared preference file. Game modes are named in the
    naming of the enum declared beside GameState (VS_AI, ...). Its
    `getStoredDifficulty` reads the difficulty exactly as the simple
    store's `getDifficulty` does (same key, same fallback), so
    `SimpleSettings.GetDifficulty` serves both. */
module SettingsStore {
  import opened GameData
  import opened Preferences
  import SimpleSettings

  /** The store: the preference file and the two current values. */
  datatype Store = Store(prefs: Prefs, difficulty: Difficulty, mode: GameMode)

  /** `getStoredGameMode`: the stored name decoded in the declared naming,
      VS_AI when there is none or it names no mode. */
  function StoredGameMode(p: Prefs): (m: GameMode)
    ensures KeyGameMode in p && ModeFromDeclaredName(p[KeyGameMode]).Some? ==>
              DeclaredModeName(m) == p[KeyGameMode]
    ensures KeyGameMode !in p || ModeFromDeclaredName(p[KeyGameMode]).None? ==> m == PlayerVsBot
  {
    match ModeFromDeclaredName(GetString(p, KeyGameMode, DeclaredModeName(PlayerVsBot)))
    case Some(m) => m
    case None => PlayerVsBot
  }

  /** Construction: both current values are read from the file. */
  function Open(p: Prefs): (s: Store)
    ensures s.prefs == p
    ensures s.difficulty == SimpleSettings.GetDifficulty(p) && s.mode == StoredGameMode(p)
  {
    Store(p, SimpleSettings.GetDifficulty(p), StoredGameMode(p))
  }

  function CurrentDifficulty(s: Store): Difficulty
  {
    s.difficulty
  }

  function CurrentGameMode(s: Store): GameMode
  {
    s.mode
  }

  /** `saveDifficulty`: the name is written and becomes the current value;
      the current game mode and its stored string are untouched. */
  function SaveDifficulty(s: Store, d: Difficulty): (r: Store)
    ensures CurrentDifficulty(r) == d && GetString(r.prefs, KeyDifficulty, "") == DifficultyName(d)
    ensures SimpleSettings.GetDifficulty(r.prefs) == d
    ensures CurrentGameMode(r) == CurrentGameMode(s)
    ensures KeyGameMode in r.prefs <==> KeyGameMode in s.prefs
    ensures KeyGameMode in s.prefs ==> r.prefs[KeyGameMode] == s.prefs[KeyGameMode]
  {
    KeysDiffer();
    Store(PutString(s.prefs, KeyDifficulty, DifficultyName(d)), d, s.mode)
  }

  /** `saveGameMode`: the declared name is written and becomes the current
      value; the current difficulty and its stored string are untouched. */
  function SaveGameMode(s: Store, m: GameMode): (r: Store)
    ensures CurrentGameMode(r) == m && GetString(r.prefs, KeyGameMode, "") == DeclaredModeName(m)
    ensures StoredGameMode(r.prefs) == m
    ensures CurrentDifficulty(r) == CurrentDifficulty(s)
    ensures KeyDifficulty in r.prefs <==> KeyDifficulty in s.prefs
    ensures KeyDifficulty in s.prefs ==> r.prefs[KeyDifficulty] == s.prefs[KeyDifficulty]
  {
    KeysDiffer();
    Store(PutString(s.prefs, KeyGameMode, DeclaredModeName(m)), s.difficulty, m)
  }

  /** Whatever was saved last is what a store opened later on the same file
      starts with. */
  lemma SavedSettingsPersist(s: Store, d: Difficulty, m: GameMode)
    ensures Open(SaveGameMode(SaveDifficulty(s, d), m).prefs) ==
            Store(SaveGameMode(SaveDifficulty(s, d), m).prefs, d, m)
  {
  }

  /** The two stores share one file and one key, and each is given the
      mode naming its own source file uses; the sources never build with
      both namings at once. Were both used on one file, a game mode the
      simple store saved would read back here as the VS_AI fallback, and
      one saved here would read back there as the PLAYER_VS_BOT fallback.
      Difficulties are named alike and survive either way. */
  lemma StoresDisagreeOnModes(p: Prefs, d: Difficulty, m: GameMode)
    ensures StoredGameMode(SimpleSettings.SaveGameMode(p, m)) == PlayerVsBot
    ensures SimpleSettings.GetGameMode(SaveGameMode(Open(p), m).prefs) == PlayerVsBot
    ensures SimpleSettings.GetDifficulty(SimpleSettings.SaveDifficulty(p, d)) == d
    ensures SimpleSettings.GetDifficulty(SaveDifficulty(Open(p), d).prefs) == d
  {
    ModeNamingsDisjoint(m, m);
  }
}
