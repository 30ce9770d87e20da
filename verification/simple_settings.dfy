/** The "game_settings" preference file both settings stores share: a map
    from key to stored string, with the two keys the stores use. */
module Preferences {

  type Prefs = map<string, string>

  const KeyDifficulty: string := "difficulty"
  const KeyGameMode: string := "game_mode"

  /** `getString(key, default)`: the stored string, or the default when the
      key was never written. */
  function GetString(p: Prefs, key: string, default: string): (s: string)
    ensures key in p ==> s == p[key]
    ensures key !in p ==> s == default
  {
    if key in p then p[key] else default
  }

  /** `edit().putString(key, value).apply()`. */
  function PutString(p: Prefs, key: string, value: string): (q: Prefs)
    ensures GetString(q, key, "") == value
    ensures forall k :: k != key ==> (k in q <==> k in p)
    ensures forall k :: k != key && k in p ==> q[k] == p[k]
  {
    p[key := value]
  }

  lemma KeysDiffer()
    ensures KeyDifficulty != KeyGameMode
  {
    assert KeyDifficulty[0] != KeyGameMode[0];
  }
}

/** The settings store the view model reads: each setting is kept as its
    enum name and read back with a fallback when it is missing or is not
    a name of the enum. Game modes are named in the view model's naming. */
module SimpleSettings {
  import opened GameData
  import opened Preferences

  /** `getDifficulty`: the stored name decoded, EASY when there is none or
      it names no difficulty. */
  function GetDifficulty(p: Prefs): (d: Difficulty)
    ensures KeyDifficulty in p && DifficultyFromName(p[KeyDifficulty]).Some? ==>
              DifficultyName(d) == p[KeyDifficulty]
    ensures KeyDifficulty !in p || DifficultyFromName(p[KeyDifficulty]).None? ==> d == Easy
  {
    match DifficultyFromName(GetString(p, KeyDifficulty, DifficultyName(Easy)))
    case Some(d) => d
    case None => Easy
  }

  /** `saveDifficulty`: store the difficulty's name; the stored game mode
      is untouched. */
  function SaveDifficulty(p: Prefs, d: Difficulty): (q: Prefs)
    ensures GetDifficulty(q) == d
    ensures KeyGameMode in q <==> KeyGameMode in p
    ensures KeyGameMode in p ==> q[KeyGameMode] == p[KeyGameMode]
  {
    KeysDiffer();
    PutString(p, KeyDifficulty, DifficultyName(d))
  }

  /** `getGameMode`: the stored name decoded, PLAYER_VS_BOT when there is
      none or it names no mode. */
  function GetGameMode(p: Prefs): (m: GameMode)
    ensures KeyGameMode in p && ModeFromName(p[KeyGameMode]).Some? ==>
              ModeName(m) == p[KeyGameMode]
    ensures KeyGameMode !in p || ModeFromName(p[KeyGameMode]).None? ==> m == PlayerVsBot
  {
    match ModeFromName(GetString(p, KeyGameMode, ModeName(PlayerVsBot)))
    case Some(m) => m
    case None => PlayerVsBot
  }

  /** `saveGameMode`: store the mode's name; the stored difficulty is
      untouched. */
  function SaveGameMode(p: Prefs, m: GameMode): (q: Prefs)
    ensures GetGameMode(q) == m
    ensures KeyDifficulty in q <==> KeyDifficulty in p
    ensures KeyDifficulty in p ==> q[KeyDifficulty] == p[KeyDifficulty]
  {
    KeysDiffer();
    PutString(p, KeyGameMode, ModeName(m))
  }

  /** Saving one setting leaves what the other reads back unchanged. */
  lemma SavesAreIndependent(p: Prefs, d: Difficulty, m: GameMode)
    ensures GetGameMode(SaveDifficulty(p, d)) == GetGameMode(p)
    ensures GetDifficulty(SaveGameMode(p, m)) == GetDifficulty(p)
  {
  }
}
