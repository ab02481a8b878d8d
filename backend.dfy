/**
 * The hosted tables the core reads and writes, as maps.
 *  - profiles:        user -> xp, level, streak
 *  - topic_progress:  (user, topic) -> lessons completed and the two theory flags (unique on the pair)
 *  - daily_progress:  (user, date) -> points (dates are opaque keys)
 *  - module_progress: user -> the rows the dashboard reads for that user, in query order
 */
module Backend {
  import opened Wrappers

  type UserId = string
  type Date = string
  type TopicId = int

  datatype Profile = Profile(xp: int, level: int, streak: int)

  datatype TopicProgressRow = TopicProgressRow(lessonsCompleted: int, theoryCompleted: bool, theorySkipped: bool)

  datatype ModuleProgressRow = ModuleProgressRow(moduleId: int, lessonsCompleted: int)

  /** A snapshot of all four tables. */
  datatype Db = Db(
    profiles: map<UserId, Profile>,
    topicProgress: map<(UserId, TopicId), TopicProgressRow>,
    dailyProgress: map<(UserId, Date), int>,
    moduleProgress: map<UserId, seq<ModuleProgressRow>>)

  /** A `.maybeSingle()` read of topic_progress for (user, topic). */
  function TopicProgressOf(db: Db, user: UserId, topic: TopicId): (r: Option<TopicProgressRow>)
    ensures r.Some? <==> (user, topic) in db.topicProgress
    ensures r.Some? ==> r.value == db.topicProgress[(user, topic)]
  {
    if (user, topic) in db.topicProgress then Some(db.topicProgress[(user, topic)]) else None
  }

  /** The backend, whose tables the handlers update in place. */
  class Store {
    var profiles: map<UserId, Profile>
    var topicProgress: map<(UserId, TopicId), TopicProgressRow>
    var dailyProgress: map<(UserId, Date), int>
    var moduleProgress: map<UserId, seq<ModuleProgressRow>>

    /** The current contents of the tables. */
    function Tables(): Db
      reads this
    {
      Db(profiles, topicProgress, dailyProgress, moduleProgress)
    }

    constructor (initial: Db)
      ensures Tables() == initial
    {
      profiles := initial.profiles;
      topicProgress := initial.topicProgress;
      dailyProgress := initial.dailyProgress;
      moduleProgress := initial.moduleProgress;
    }
  }
}
