/** The reward constants, game types and the level-threshold table (src/config/constants.js). */
module Constants {

  // POINTS
  const POINTS_CORRECT_ANSWER: nat := 50
  const POINTS_LEARNING_BONUS: nat := 10
  const POINTS_STREAK_BONUS: nat := 100
  const POINTS_DAILY_CHALLENGE: nat := 200
  const POINTS_ACHIEVEMENT_UNLOCK: nat := 500
  const POINTS_COMMUNITY_HELP: nat := 75

  // XP
  const XP_CORRECT_ANSWER: nat := 20
  const XP_LEARNING_BONUS: nat := 5
  const XP_STREAK_BONUS: nat := 50
  const XP_DAILY_CHALLENGE: nat := 100
  const XP_ACHIEVEMENT_UNLOCK: nat := 200

  // GAME_TYPES
  const PHISHING_DETECTIVE: string := "phishing_detective"
  const PASSWORD_STRENGTH: string := "password_strength"
  const URL_INSPECTOR: string := "url_inspector"

  datatype LevelInfo = LevelInfo(level: nat, xpRequired: nat, title: string)

  const LEVELS: seq<LevelInfo> := [
    LevelInfo(1, 0, "Security Novice"),
    LevelInfo(2, 100, "Security Novice"),
    LevelInfo(3, 250, "Security Novice"),
    LevelInfo(4, 450, "Security Novice"),
    LevelInfo(5, 700, "Security Novice"),
    LevelInfo(6, 1000, "Aware User"),
    LevelInfo(7, 1400, "Aware User"),
    LevelInfo(8, 1900, "Aware User"),
    LevelInfo(9, 2500, "Aware User"),
    LevelInfo(10, 3200, "Aware User"),
    LevelInfo(11, 4000, "Security Conscious")
  ]

  const MAX_LEVEL: nat := 11

  /** Adjacent thresholds increase: the form in which the table is checked entry by entry. */
  predicate AdjacentIncreasing(t: seq<LevelInfo>) {
    forall i :: 0 < i < |t| ==> t[i - 1].xpRequired < t[i].xpRequired
  }

  predicate StrictlyIncreasing(t: seq<LevelInfo>) {
    forall i, j :: 0 <= i < j < |t| ==> t[i].xpRequired < t[j].xpRequired
  }

  lemma {:induction false} AdjacentIncreasingIsStrict(t: seq<LevelInfo>)
    requires AdjacentIncreasing(t)
    ensures StrictlyIncreasing(t)
  {
    if |t| > 1 {
      var u := t[..|t| - 1];
      assert AdjacentIncreasing(u);
      AdjacentIncreasingIsStrict(u);
      forall i, j | 0 <= i < j < |t|
        ensures t[i].xpRequired < t[j].xpRequired
      {
        if j < |t| - 1 {
          assert u[i] == t[i] && u[j] == t[j];
        } else if i < j - 1 {
          assert u[i] == t[i] && u[j - 1] == t[j - 1];
        }
      }
    }
  }

  /**
   * The level table: level 1 at 0 XP first, levels numbered 1..11 in table order,
   * thresholds strictly increasing.
   */
  lemma LevelTable()
    ensures |LEVELS| == MAX_LEVEL
    ensures LEVELS[0].level == 1 && LEVELS[0].xpRequired == 0
    ensures forall i :: 0 <= i < |LEVELS| ==> LEVELS[i].level == i + 1
    ensures StrictlyIncreasing(LEVELS)
  {
    AdjacentIncreasingIsStrict(LEVELS);
  }
}
