/**
 * Progression: how the pages see each other's writes. The theory handlers, the admin reset, the
 * topic click, the daily-goal hook and the level theme read and write the same tables; these
 * lemmas connect them.
 */
module Progression {
  import opened Wrappers
  import opened Backend
  import opened Routes
  import LevelTheme
  import DailyGoal
  import Topics
  import TheoryLesson
  import AdminPanel

  /**
   * The level the theory handlers store, `floor(xp / 100) + 1`, agrees with the threshold level the
   * theme and the roadmap compute only below 100 XP; from there on it is strictly higher
   * (300 XP is stored as level 4, while the thresholds put it at level 2).
   */
  lemma {:induction false} StoredVersusThreshold(xp: int)
    requires xp >= 0
    ensures TheoryLesson.StoredLevel(xp) >= LevelTheme.ThresholdLevel(xp)
    ensures TheoryLesson.StoredLevel(xp) == LevelTheme.ThresholdLevel(xp) <==> xp < 100
  {
    var stored := TheoryLesson.StoredLevel(xp);
    var threshold := LevelTheme.ThresholdLevel(xp);
    assert (stored - 1) * 100 <= xp < stored * 100;
    if xp < 100 {
      assert stored == 1;
    } else if xp < 300 {
      assert stored >= 2 && threshold == 1;
    } else if xp < 800 {
      assert stored >= 4 && threshold == 2;
    } else if xp < 1500 {
      assert stored >= 9 && threshold == 3;
    } else if xp < 2500 {
      assert stored >= 16 && threshold == 4;
    } else if xp < 4000 {
      assert stored >= 26 && threshold == 5;
    } else if xp < 10000 {
      assert stored >= 41 && threshold == 6;
    } else {
      assert stored >= 101 && threshold == 7;
    }
  }

  /** Once the theory is skipped or completed, clicking the (unlocked) topic opens its lessons. */
  lemma TheoryOpensLessons(db: Db, user: UserId, view: Topics.TopicView, today: Date)
    requires !view.locked
    ensures var t := view.topic.id;
      && Topics.TopicClick(view, Some(user), TheoryLesson.Skip(db, Some(user), t, today)) == Some(LessonOf(t, None))
      && Topics.TopicClick(view, Some(user), TheoryLesson.Complete(db, Some(user), t, today)) == Some(LessonOf(t, None))
  {
    var t := view.topic.id;
    var skipped := TheoryLesson.Skip(db, Some(user), t, today);
    var completed := TheoryLesson.Complete(db, Some(user), t, today);
    assert TopicProgressOf(skipped, user, t) == Some(skipped.topicProgress[(user, t)]);
    assert TopicProgressOf(completed, user, t) == Some(completed.topicProgress[(user, t)]);
  }

  /**
   * Opening the theory of a topic again locks the topic after it: both handlers write 0 into the
   * topic's `lessons_completed`, so once the topics page reloads, the next topic's predecessor is
   * incomplete again (for any topic with at least one lesson), whatever progress it had before.
   */
  lemma TheoryRelocksNext(db: Db, user: UserId, ts: seq<Topics.TopicRow>, j: int, today: Date)
    requires 0 < j < |ts| && ts[j - 1].totalLessons >= 1
    ensures var t := ts[j - 1].id;
      && Topics.WithProgress(ts, Topics.UserCounts(TheoryLesson.Skip(db, Some(user), t, today).topicProgress, user))[j].locked
      && Topics.WithProgress(ts, Topics.UserCounts(TheoryLesson.Complete(db, Some(user), t, today).topicProgress, user))[j].locked
  {
    var t := ts[j - 1].id;
    TheoryLesson.TheoryClearsLessonCount(db, user, t, today);
  }

  /**
   * A rewarded theory page is seen by the daily-goal hook: 30 more points today, and the level it
   * picks the goal from is the stored one, not the threshold one.
   */
  lemma RewardSeenByDailyGoal(db: Db, user: UserId, topic: TopicId, today: Date, prev: DailyGoal.HookState)
    requires user in db.profiles && !TheoryLesson.TheoryProcessed(TopicProgressOf(db, user, topic))
    ensures var after := TheoryLesson.Skip(db, Some(user), topic, today);
      var hook := DailyGoal.Fetch(prev, Some(user), after, today);
      && hook.dailyXp == DailyGoal.TodayPoints(db.dailyProgress, user, today) + TheoryLesson.TheoryReward
      && hook.level == TheoryLesson.StoredLevel(db.profiles[user].xp + TheoryLesson.TheoryReward)
  {
  }

  /**
   * After a successful admin reset the user starts over everywhere: level 1 in the theme, no
   * points today and level 1 in the daily goal, and every unlocked topic opens on its theory.
   */
  lemma ResetStartsOver(db: Db, user: UserId, today: Date, prev: DailyGoal.HookState, current: int, view: Topics.TopicView)
    requires user in db.profiles && !view.locked
    ensures var r := AdminPanel.ResetEffect(db, user, None);
      && LevelTheme.FetchedLevel(current, Some(user), r.profiles) == 1
      && DailyGoal.Fetch(prev, Some(user), r, today) == DailyGoal.HookState(0, 1)
      && Topics.TopicClick(view, Some(user), r) == Some(TheoryOf(view.topic.id))
  {
    var r := AdminPanel.ResetEffect(db, user, None);
    AdminPanel.ResetWipesUser(db, user);
    LevelTheme.ThresholdLow(0);
    assert (user, today) !in r.dailyProgress;
    assert (user, view.topic.id) !in r.topicProgress;
  }
}
