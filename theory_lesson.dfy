/**
 * TheoryLesson: the skip and complete handlers, each a read of the topic's progress row, a
 * guarded 30 XP reward to the profile and to today's daily progress, and an upsert of the row.
 * The transitions are stated as functions on a table snapshot; the handlers are methods on the
 * store proved to perform them.
 */
module TheoryLesson {
  import opened Wrappers
  import opened Backend
  import opened Routes
  import DailyGoal
  import Percent

  const TheoryReward := 30

  /** The level both handlers store: `Math.floor(newXP / 100) + 1`. */
  function StoredLevel(xp: int): (level: int)
    ensures (level - 1) * 100 <= xp < level * 100
  {
    xp / 100 + 1
  }

  /** The profile after a reward: 30 more XP and the level recomputed from it; the streak is untouched. */
  function Rewarded(p: Profile): (q: Profile)
    ensures q.xp == p.xp + TheoryReward && q.level == StoredLevel(q.xp) && q.streak == p.streak
  {
    var newXP := p.xp + TheoryReward;
    p.(xp := newXP, level := StoredLevel(newXP))
  }

  /** The reward itself: only when the profile exists, to the profile and to today's daily progress. */
  function Award(db: Db, user: UserId, today: Date): (r: Db)
    ensures user !in db.profiles ==> r == db
    ensures user in db.profiles ==>
      && r.profiles == db.profiles[user := Rewarded(db.profiles[user])]
      && DailyGoal.TodayPoints(r.dailyProgress, user, today) == DailyGoal.TodayPoints(db.dailyProgress, user, today) + TheoryReward
      && (forall k :: k in db.dailyProgress && k != (user, today) ==> k in r.dailyProgress && r.dailyProgress[k] == db.dailyProgress[k])
      && r.dailyProgress == DailyGoal.Credit(db.dailyProgress, user, today, TheoryReward)
    ensures r.topicProgress == db.topicProgress && r.moduleProgress == db.moduleProgress
    ensures r.profiles.Keys == db.profiles.Keys
  {
    if user in db.profiles then
      db.(profiles := db.profiles[user := Rewarded(db.profiles[user])],
          dailyProgress := DailyGoal.Credit(db.dailyProgress, user, today, TheoryReward))
    else db
  }

  /** `alreadyProcessed` of the skip handler: either theory flag is set on the row. */
  predicate TheoryProcessed(row: Option<TopicProgressRow>) {
    row.Some? && (row.value.theoryCompleted || row.value.theorySkipped)
  }

  /** `alreadyCompleted` of the complete handler: only the completed flag counts. */
  predicate TheoryCompleted(row: Option<TopicProgressRow>) {
    row.Some? && row.value.theoryCompleted
  }

  /** The upsert `{theory_skipped: true, lessons_completed: 0}` on (user, topic). */
  function MarkSkipped(row: Option<TopicProgressRow>): (r: TopicProgressRow)
    ensures r.theorySkipped && r.lessonsCompleted == 0
    ensures r.theoryCompleted == TheoryCompleted(row)
  {
    match row
    case None => TopicProgressRow(0, false, true)
    case Some(prev) => prev.(theorySkipped := true, lessonsCompleted := 0)
  }

  /** The upsert `{theory_completed: true, lessons_completed: 0}` on (user, topic). */
  function MarkCompleted(row: Option<TopicProgressRow>): (r: TopicProgressRow)
    ensures r.theoryCompleted && r.lessonsCompleted == 0
    ensures r.theorySkipped == (row.Some? && row.value.theorySkipped)
  {
    match row
    case None => TopicProgressRow(0, true, false)
    case Some(prev) => prev.(theoryCompleted := true, lessonsCompleted := 0)
  }

  /** The tables after `handleSkipTheory`. */
  function Skip(db: Db, session: Option<UserId>, topic: TopicId, today: Date): (r: Db)
    ensures session.None? ==> r == db
    ensures session.Some? ==>
      var user := session.value;
      var row := TopicProgressOf(db, user, topic);
      && r.topicProgress == db.topicProgress[(user, topic) := MarkSkipped(row)]
      && r.moduleProgress == db.moduleProgress
      && (TheoryProcessed(row) || user !in db.profiles ==>
            r.profiles == db.profiles && r.dailyProgress == db.dailyProgress)
      && (!TheoryProcessed(row) && user in db.profiles ==>
            r.profiles == db.profiles[user := Rewarded(db.profiles[user])] &&
            r.dailyProgress == DailyGoal.Credit(db.dailyProgress, user, today, TheoryReward))
  {
    match session
    case None => db
    case Some(user) =>
      var row := TopicProgressOf(db, user, topic);
      var rewarded := if TheoryProcessed(row) then db else Award(db, user, today);
      rewarded.(topicProgress := rewarded.topicProgress[(user, topic) := MarkSkipped(row)])
  }

  /** The tables after `handleComplete`. */
  function Complete(db: Db, session: Option<UserId>, topic: TopicId, today: Date): (r: Db)
    ensures session.None? ==> r == db
    ensures session.Some? ==>
      var user := session.value;
      var row := TopicProgressOf(db, user, topic);
      && r.topicProgress == db.topicProgress[(user, topic) := MarkCompleted(row)]
      && r.moduleProgress == db.moduleProgress
      && (TheoryCompleted(row) || user !in db.profiles ==>
            r.profiles == db.profiles && r.dailyProgress == db.dailyProgress)
      && (!TheoryCompleted(row) && user in db.profiles ==>
            r.profiles == db.profiles[user := Rewarded(db.profiles[user])] &&
            r.dailyProgress == DailyGoal.Credit(db.dailyProgress, user, today, TheoryReward))
  {
    match session
    case None => db
    case Some(user) =>
      var row := TopicProgressOf(db, user, topic);
      var rewarded := if TheoryCompleted(row) then db else Award(db, user, today);
      rewarded.(topicProgress := rewarded.topicProgress[(user, topic) := MarkCompleted(row)])
  }

  /** Skipping a second time changes nothing at all: no second reward, the same row. */
  lemma SkipIdempotent(db: Db, session: Option<UserId>, topic: TopicId, today: Date)
    ensures Skip(Skip(db, session, topic, today), session, topic, today) == Skip(db, session, topic, today)
  {
    if session.Some? {
      var once := Skip(db, session, topic, today);
      var user := session.value;
      assert TheoryProcessed(TopicProgressOf(once, user, topic));
      assert once.topicProgress[(user, topic) := MarkSkipped(TopicProgressOf(once, user, topic))] == once.topicProgress;
    }
  }

  /** Completing a second time changes nothing at all. */
  lemma CompleteIdempotent(db: Db, session: Option<UserId>, topic: TopicId, today: Date)
    ensures Complete(Complete(db, session, topic, today), session, topic, today) == Complete(db, session, topic, today)
  {
    if session.Some? {
      var once := Complete(db, session, topic, today);
      var user := session.value;
      assert TheoryCompleted(TopicProgressOf(once, user, topic));
      assert once.topicProgress[(user, topic) := MarkCompleted(TopicProgressOf(once, user, topic))] == once.topicProgress;
    }
  }

  /**
   * The guards are asymmetric: a first skip followed by a complete pays the reward twice,
   * 60 XP on the profile and 60 points on today's row, and leaves both flags set.
   */
  lemma SkipThenCompletePaysTwice(db: Db, user: UserId, topic: TopicId, today: Date)
    requires user in db.profiles && !TheoryProcessed(TopicProgressOf(db, user, topic))
    ensures var r := Complete(Skip(db, Some(user), topic, today), Some(user), topic, today);
      && r.profiles[user].xp == db.profiles[user].xp + 2 * TheoryReward
      && DailyGoal.TodayPoints(r.dailyProgress, user, today)
           == DailyGoal.TodayPoints(db.dailyProgress, user, today) + 2 * TheoryReward
      && r.topicProgress[(user, topic)].theorySkipped && r.topicProgress[(user, topic)].theoryCompleted
  {
    var skipped := Skip(db, Some(user), topic, today);
    assert !TheoryCompleted(TopicProgressOf(skipped, user, topic));
    assert skipped.profiles[user].xp == db.profiles[user].xp + TheoryReward;
  }

  /** In the other order the reward is paid once: a skip after a complete pays nothing. */
  lemma CompleteThenSkipPaysOnce(db: Db, user: UserId, topic: TopicId, today: Date)
    ensures var once := Complete(db, Some(user), topic, today);
      var r := Skip(once, Some(user), topic, today);
      r.profiles == once.profiles && r.dailyProgress == once.dailyProgress
  {
    var once := Complete(db, Some(user), topic, today);
    assert TheoryProcessed(TopicProgressOf(once, user, topic));
  }

  /** Both handlers overwrite the topic's completed-lessons count with 0, whatever it was. */
  lemma TheoryClearsLessonCount(db: Db, user: UserId, topic: TopicId, today: Date)
    ensures Skip(db, Some(user), topic, today).topicProgress[(user, topic)].lessonsCompleted == 0
    ensures Complete(db, Some(user), topic, today).topicProgress[(user, topic)].lessonsCompleted == 0
  {
  }

  /** Where the complete handler goes: with `returnToLesson` the incoming lesson progress is passed on unchanged. */
  function CompleteTarget(topic: TopicId, returnToLesson: bool, lessonProgress: Option<LessonProgress>): (r: Route)
    ensures r.LessonOf? && r.topicId == topic
    ensures r.resumeProgress == if returnToLesson then lessonProgress else None
  {
    if returnToLesson then LessonOf(topic, lessonProgress) else LessonOf(topic, None)
  }

  /** The "back to practice" button shown with `returnToLesson`: the same pass-through. */
  function BackToPractice(topic: TopicId, lessonProgress: Option<LessonProgress>): (r: Route)
    ensures r == CompleteTarget(topic, true, lessonProgress)
  {
    LessonOf(topic, lessonProgress)
  }

  /** `handleSkipTheory` on the store. */
  method HandleSkipTheory(store: Store, session: Option<UserId>, topic: TopicId, today: Date)
    returns (nav: Option<Route>)
    modifies store
    ensures store.Tables() == Skip(old(store.Tables()), session, topic, today)
    ensures nav == if session.None? then None else Some(LessonOf(topic, None))
  {
    if session.None? {
      return None;
    }
    var user := session.value;
    var progressData := TopicProgressOf(store.Tables(), user, topic);
    var alreadyProcessed := TheoryProcessed(progressData);
    if !alreadyProcessed {
      if user in store.profiles {
        var profile := store.profiles[user];
        var newXP := profile.xp + TheoryReward;
        var newLevel := StoredLevel(newXP);
        store.profiles := store.profiles[user := profile.(xp := newXP, level := newLevel)];
        DailyGoal.UpdateDailyProgress(store, session, today, TheoryReward);
      }
    }
    store.topicProgress := store.topicProgress[(user, topic) := MarkSkipped(progressData)];
    nav := Some(LessonOf(topic, None));
  }

  /** `handleComplete` on the store. */
  method HandleComplete(store: Store, session: Option<UserId>, topic: TopicId, today: Date,
                        returnToLesson: bool, lessonProgress: Option<LessonProgress>)
    returns (nav: Option<Route>)
    modifies store
    ensures store.Tables() == Complete(old(store.Tables()), session, topic, today)
    ensures nav == if session.None? then None else Some(CompleteTarget(topic, returnToLesson, lessonProgress))
  {
    if session.None? {
      return None;
    }
    var user := session.value;
    var progressData := TopicProgressOf(store.Tables(), user, topic);
    var alreadyCompleted := TheoryCompleted(progressData);
    if !alreadyCompleted {
      if user in store.profiles {
        var profile := store.profiles[user];
        var newXP := profile.xp + TheoryReward;
        var newLevel := StoredLevel(newXP);
        store.profiles := store.profiles[user := profile.(xp := newXP, level := newLevel)];
        DailyGoal.UpdateDailyProgress(store, session, today, TheoryReward);
      }
    }
    store.topicProgress := store.topicProgress[(user, topic) := MarkCompleted(progressData)];
    if returnToLesson {
      nav := Some(LessonOf(topic, lessonProgress));
    } else {
      nav := Some(LessonOf(topic, None));
    }
  }

  /** The header bar: `((currentSection + 1) / sections.length) * 100`, shown only when there are sections. */
  function SectionProgress(currentSection: int, sectionCount: int): (p: real)
    requires sectionCount > 0
    ensures 0 <= currentSection < sectionCount ==> 0.0 < p <= 100.0
    ensures p == 100.0 <==> currentSection == sectionCount - 1
  {
    Percent.StepPercent(currentSection, sectionCount)
  }
}
