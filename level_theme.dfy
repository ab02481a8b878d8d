/**
 * useUserLevelTheme: the level a profile's XP maps to through the threshold chain, and the
 * colour theme chosen for a level.
 */
module LevelTheme {
  import opened Wrappers
  import opened Backend

  const MinLevel := 1
  const MaxLevel := 7

  /** The if/else-if chain over xp, tried from the highest threshold down. */
  function ThresholdLevel(xp: int): (level: int)
    ensures MinLevel <= level <= MaxLevel
  {
    if xp >= 10000 then 7
    else if xp >= 4000 then 6
    else if xp >= 2500 then 5
    else if xp >= 1500 then 4
    else if xp >= 800 then 3
    else if xp >= 300 then 2
    else 1
  }

  /** The lower XP bound of each level of the chain. */
  function LevelStart(level: int): int
    requires MinLevel <= level <= MaxLevel
  {
    [0, 300, 800, 1500, 2500, 4000, 10000][level - 1]
  }

  /** Level k holds exactly the XP in [LevelStart(k), LevelStart(k+1)), the last level being unbounded. */
  lemma ThresholdBands(xp: int, level: int)
    requires xp >= 0 && MinLevel <= level <= MaxLevel
    ensures ThresholdLevel(xp) == level <==>
      LevelStart(level) <= xp && (level == MaxLevel || xp < LevelStart(level + 1))
  {
  }

  /** More XP never gives a lower level. */
  lemma ThresholdMonotone(a: int, b: int)
    requires a <= b
    ensures ThresholdLevel(a) <= ThresholdLevel(b)
  {
  }

  /** XP below the first threshold, negative XP included, is level 1. */
  lemma ThresholdLow(xp: int)
    ensures ThresholdLevel(xp) == 1 <==> xp < 300
  {
  }

  /** The four HSL colour tokens of a theme. */
  datatype Theme = Theme(primary: string, primaryForeground: string, accent: string, ring: string)

  function Solid(colour: string, foreground: string): Theme {
    Theme(colour, foreground, colour, colour)
  }

  const LevelThemes: map<int, Theme> := map[
    1 := Solid("199 89% 48%", "0 0% 100%"),
    2 := Solid("45 93% 47%", "0 0% 0%"),
    3 := Solid("217 91% 35%", "0 0% 100%"),
    4 := Solid("142 76% 36%", "0 0% 100%"),
    5 := Solid("271 81% 56%", "0 0% 100%"),
    6 := Solid("0 84% 60%", "0 0% 100%"),
    7 := Solid("240 10% 4%", "0 0% 100%")
  ]

  /** `levelThemes[level] || levelThemes[1]`: total, with level 1's theme outside the table. */
  function ThemeFor(level: int): (t: Theme)
    ensures MinLevel <= level <= MaxLevel ==> t == LevelThemes[level]
    ensures !(MinLevel <= level <= MaxLevel) ==> t == LevelThemes[1]
    ensures t in LevelThemes.Values
  {
    if level in LevelThemes then LevelThemes[level] else LevelThemes[1]
  }

  /**
   * The level the hook holds after a fetch: 1 without a session; the chain applied to the
   * profile's xp when the profile exists; otherwise the level it held before.
   */
  function FetchedLevel(current: int, session: Option<UserId>, profiles: map<UserId, Profile>): (level: int)
    ensures session.None? ==> level == 1
    ensures session.Some? && session.value in profiles ==>
      level == ThresholdLevel(profiles[session.value].xp) && MinLevel <= level <= MaxLevel
    ensures session.Some? && session.value !in profiles ==> level == current
  {
    match session
    case None => 1
    case Some(user) => if user in profiles then ThresholdLevel(profiles[user].xp) else current
  }

  /** Starting from the hook's initial level 1, every fetch yields a level in 1..7, so the theme is always a table entry. */
  lemma FetchedLevelInRange(current: int, session: Option<UserId>, profiles: map<UserId, Profile>)
    requires MinLevel <= current <= MaxLevel
    ensures MinLevel <= FetchedLevel(current, session, profiles) <= MaxLevel
    ensures ThemeFor(FetchedLevel(current, session, profiles)) == LevelThemes[FetchedLevel(current, session, profiles)]
  {
  }
}
