/**
 * LessonComplete: the summary screen after a lesson. It shows the XP carried in the navigation
 * state, the day's goal progress from the daily-goal hook, and a button back to the track's topics.
 */
module LessonComplete {
  import opened Wrappers
  import opened Routes
  import DailyGoal

  /** The navigation state; either field, or the whole state, may be missing. */
  datatype NavState = NavState(xpEarned: Option<int>, trackId: Option<int>)

  const DefaultTrack := 1

  /** `xpEarned = 0` as a destructuring default of `location.state || {}`. */
  function EarnedXp(state: Option<NavState>): (xp: int)
    ensures state.None? || state.value.xpEarned.None? ==> xp == 0
    ensures state.Some? && state.value.xpEarned.Some? ==> xp == state.value.xpEarned.value
  {
    match state
    case None => 0
    case Some(s) => s.xpEarned.GetOr(0)
  }

  /** `trackId = 1` as a destructuring default. */
  function TrackOf(state: Option<NavState>): (track: int)
    ensures state.None? || state.value.trackId.None? ==> track == DefaultTrack
    ensures state.Some? && state.value.trackId.Some? ==> track == state.value.trackId.value
  {
    match state
    case None => DefaultTrack
    case Some(s) => s.trackId.GetOr(DefaultTrack)
  }

  /** `Math.max(goalXP - dailyXP, 0)`: what is left to reach the goal. */
  function Remaining(goalXp: int, dailyXp: int): (r: int)
    ensures r >= 0
    ensures r == 0 <==> dailyXp >= goalXp
    ensures r > 0 ==> dailyXp + r == goalXp
  {
    if goalXp - dailyXp > 0 then goalXp - dailyXp else 0
  }

  /** What the card shows. */
  datatype Summary = Summary(xpEarned: int, dailyXp: int, goalXp: int, percentage: real,
                             remaining: int, goalReached: bool)

  function Summarise(state: Option<NavState>, hook: DailyGoal.HookState): (s: Summary)
    ensures s.xpEarned == EarnedXp(state)
    ensures s.dailyXp == hook.dailyXp && s.goalXp == DailyGoal.GoalFor(hook.level)
    ensures s.goalReached <==> s.dailyXp >= s.goalXp
    ensures s.goalReached <==> s.remaining == 0
    ensures s.goalReached <==> s.percentage == 100.0
    ensures !s.goalReached ==> s.dailyXp + s.remaining == s.goalXp
  {
    var d := DailyGoal.View(hook);
    Summary(EarnedXp(state), d.dailyXp, d.goalXp, d.percentage,
            Remaining(d.goalXp, d.dailyXp), d.dailyXp >= d.goalXp)
  }

  /** "Continuar" returns to the topics of the track the lesson came from, track 1 by default. */
  function ContinueTarget(state: Option<NavState>): (r: Route)
    ensures r.TopicsOf? && r.trackId == TrackOf(state)
    ensures state.None? ==> r == TopicsOf(DefaultTrack)
  {
    TopicsOf(TrackOf(state))
  }
}
