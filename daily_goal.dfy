/**
 * useDailyGoal: the level-dependent daily XP goal, today's points against it, and the
 * add-or-insert update of today's daily_progress row.
 */
module DailyGoal {
  import opened Wrappers
  import opened Backend

  const DailyGoals: map<int, int> := map[1 := 50, 2 := 60, 3 := 70, 4 := 80, 5 := 90, 6 := 100, 7 := 150]

  const DefaultGoal := 50

  /** `DAILY_GOALS[level] || 50`: every table entry is non-zero, so the fallback applies exactly outside 1..7. */
  function GoalFor(level: int): (goal: int)
    ensures 1 <= level <= 7 ==> goal == DailyGoals[level]
    ensures !(1 <= level <= 7) ==> goal == DefaultGoal
    ensures DefaultGoal <= goal <= 150
  {
    if level in DailyGoals && DailyGoals[level] != 0 then DailyGoals[level] else DefaultGoal
  }

  /** The table runs from 50 at level 1 to 150 at level 7 and never decreases in between. */
  lemma GoalsNonDecreasing(a: int, b: int)
    requires 1 <= a <= b <= 7
    ensures GoalFor(a) <= GoalFor(b)
    ensures GoalFor(1) == 50 && GoalFor(7) == 150
  {
  }

  /** `Math.min((dailyXP / goalXP) * 100, 100)` on exact reals. */
  function Percentage(dailyXp: int, goalXp: int): (p: real)
    requires goalXp > 0
    ensures p <= 100.0
    ensures dailyXp >= 0 ==> p >= 0.0
    ensures p == 100.0 <==> dailyXp >= goalXp
    ensures p < 100.0 ==> p * goalXp as real == dailyXp as real * 100.0
  {
    var share := (dailyXp as real / goalXp as real) * 100.0;
    ShareVersusGoal(dailyXp, goalXp);
    if share <= 100.0 then share else 100.0
  }

  /** The share reaches 100 exactly when the points reach the goal. */
  lemma ShareVersusGoal(dailyXp: int, goalXp: int)
    requires goalXp > 0
    ensures var share := (dailyXp as real / goalXp as real) * 100.0;
      && share * goalXp as real == dailyXp as real * 100.0
      && (share >= 100.0 <==> dailyXp >= goalXp)
      && (dailyXp >= 0 ==> share >= 0.0)
  {
    var g := goalXp as real;
    var q := dailyXp as real / g;
    assert q * g == dailyXp as real;
    if dailyXp >= goalXp {
      assert q >= 1.0;
    } else {
      assert q < 1.0;
    }
  }

  /** Today's points: the stored points of the (user, today) row, or 0 when there is none. */
  function TodayPoints(daily: map<(UserId, Date), int>, user: UserId, today: Date): (points: int)
    ensures (user, today) in daily ==> points == daily[(user, today)]
    ensures (user, today) !in daily ==> points == 0
  {
    if (user, today) in daily then daily[(user, today)] else 0
  }

  /** The hook's state: the XP earned today and the level read from the profile. */
  datatype HookState = HookState(dailyXp: int, level: int)

  const InitialHook := HookState(0, 1)

  /**
   * `fetchDailyProgress`: without a session nothing changes; otherwise the level is the profile's
   * stored level when the profile exists, and the daily XP is today's points.
   */
  function Fetch(prev: HookState, session: Option<UserId>, db: Db, today: Date): (next: HookState)
    ensures session.None? ==> next == prev
    ensures session.Some? ==> next.dailyXp == TodayPoints(db.dailyProgress, session.value, today)
    ensures session.Some? && session.value in db.profiles ==> next.level == db.profiles[session.value].level
    ensures session.Some? && session.value !in db.profiles ==> next.level == prev.level
  {
    match session
    case None => prev
    case Some(user) =>
      var level := if user in db.profiles then db.profiles[user].level else prev.level;
      HookState(TodayPoints(db.dailyProgress, user, today), level)
  }

  /** What the hook returns: the daily XP, the goal for the level, and the clamped percentage. */
  datatype DailyGoalData = DailyGoalData(dailyXp: int, goalXp: int, level: int, percentage: real)

  function View(state: HookState): (d: DailyGoalData)
    ensures d.goalXp == GoalFor(state.level) && d.dailyXp == state.dailyXp && d.level == state.level
    ensures d.percentage == Percentage(state.dailyXp, GoalFor(state.level))
    ensures d.percentage <= 100.0 && (d.percentage == 100.0 <==> d.dailyXp >= d.goalXp)
  {
    var goal := GoalFor(state.level);
    DailyGoalData(state.dailyXp, goal, state.level, Percentage(state.dailyXp, goal))
  }

  /** The daily_progress table after crediting `xp` to (user, today): add to the row, or insert one. */
  function Credit(daily: map<(UserId, Date), int>, user: UserId, today: Date, xp: int): (r: map<(UserId, Date), int>)
    ensures r.Keys == daily.Keys + {(user, today)}
    ensures r[(user, today)] == TodayPoints(daily, user, today) + xp
    ensures forall k :: k in daily && k != (user, today) ==> r[k] == daily[k]
  {
    if (user, today) in daily then daily[(user, today) := daily[(user, today)] + xp]
    else daily[(user, today) := xp]
  }

  /** Two credits on the same day add up, with no sign check on either amount. */
  lemma {:induction false} CreditTwice(daily: map<(UserId, Date), int>, user: UserId, today: Date, a: int, b: int)
    ensures Credit(Credit(daily, user, today, a), user, today, b) == Credit(daily, user, today, a + b)
    ensures TodayPoints(Credit(Credit(daily, user, today, a), user, today, b), user, today)
         == TodayPoints(daily, user, today) + a + b
  {
    var once := Credit(daily, user, today, a);
    var twice := Credit(once, user, today, b);
    var direct := Credit(daily, user, today, a + b);
    assert twice.Keys == direct.Keys;
    forall k | k in twice
      ensures twice[k] == direct[k]
    {
    }
  }

  /**
   * `updateDailyProgress`: without a session nothing changes; otherwise read today's row, then
   * update its points or insert a new row. No other table and no other row changes.
   */
  method UpdateDailyProgress(db: Store, session: Option<UserId>, today: Date, xpEarned: int)
    modifies db`dailyProgress
    ensures session.None? ==> db.dailyProgress == old(db.dailyProgress)
    ensures session.Some? ==> db.dailyProgress == Credit(old(db.dailyProgress), session.value, today, xpEarned)
  {
    if session.None? {
      return;
    }
    var user := session.value;
    var key := (user, today);
    if key in db.dailyProgress {
      var existingPoints := db.dailyProgress[key];
      db.dailyProgress := db.dailyProgress[key := existingPoints + xpEarned];
    } else {
      db.dailyProgress := db.dailyProgress[key := xpEarned];
    }
  }
}
