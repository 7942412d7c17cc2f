/** The signed-in user's rows in the backend tables the gamification code
    reads and writes, held in memory. */
module Tables {
  import opened Common

  /** `XPMultiplier['type']`, in the order `getActiveMultipliers` lists them. */
  datatype BonusKind = Weekend | Comeback | LevelMilestone | PerfectWeek

  /** A `check_history` row: which action was checked and when (ms since the epoch). */
  datatype CheckRow = CheckRow(id: nat, actionId: nat, checkedAt: int)

  /** A `user_bonus_xp` row; the multiplier is kept in half units
      (3 stands for 1.5x, 4 for 2.0x). */
  datatype BonusRow = BonusRow(kind: BonusKind, halves: nat, activatedAt: int, expiresAt: int,
                               level: Option<int>)

  /** The `user_gamification` row the check and uncheck mutations keep. */
  datatype GamificationRow = GamificationRow(totalXp: int, currentLevel: int, currentStreak: int,
                                             maxStreak: int, freezeCount: int)

  /** The `user_levels` row `updateUserXP` keeps. */
  datatype LevelRow = LevelRow(level: int, totalXp: int)

  class UserTables {
    var checks: seq<CheckRow>
    var nextCheckId: nat
    var bonuses: seq<BonusRow>
    var gamification: Option<GamificationRow>
    var levels: Option<LevelRow>
    /** `user_achievements`: the ids of the achievements the user has unlocked. */
    var unlocked: seq<nat>

    constructor ()
      ensures checks == [] && nextCheckId == 0 && bonuses == []
      ensures gamification == None && levels == None && unlocked == []
    {
      checks := [];
      nextCheckId := 0;
      bonuses := [];
      gamification := None;
      levels := None;
      unlocked := [];
    }
  }
}
