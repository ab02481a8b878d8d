/**
 * Topics: the topics of one track with the user's progress, the single-predecessor lock,
 * the 1-2-3-2-1 row layout, the crown count and the theory-or-quiz routing of a click.
 */
module Topics {
  import opened Wrappers
  import opened Backend
  import opened Routes
  import ProgressMap

  /** A topics row as loaded, ordered by order_index. */
  datatype TopicRow = TopicRow(id: int, trackId: int, title: string, description: string,
                               orderIndex: int, totalLessons: int)

  /** A topic as shown: the row with the user's completed count and its lock. */
  datatype TopicView = TopicView(topic: TopicRow, lessonsCompleted: int, locked: bool)

  /** A topic whose completed count (default 0) has reached its total_lessons. */
  predicate IsComplete(progress: map<int, int>, t: TopicRow) {
    ProgressMap.CountOf(progress, t.id) >= t.totalLessons
  }

  /** The `map` callback for the topic at `index`. */
  function Annotate(topics: seq<TopicRow>, progress: map<int, int>, index: int): TopicView
    requires 0 <= index < |topics|
  {
    var topic := topics[index];
    var completed := ProgressMap.CountOf(progress, topic.id);
    var locked := if index == 0 then false
                  else ProgressMap.CountOf(progress, topics[index - 1].id) < topics[index - 1].totalLessons;
    TopicView(topic, completed, locked)
  }

  /**
   * `topicsData.map(...)`: same order and same rows; each topic's count is its map value or 0;
   * the first topic is open and topic j > 0 is locked exactly when topic j - 1 alone is incomplete.
   */
  function WithProgress(topics: seq<TopicRow>, progress: map<int, int>): (r: seq<TopicView>)
    ensures |r| == |topics|
    ensures forall i :: 0 <= i < |r| ==>
      r[i].topic == topics[i] && r[i].lessonsCompleted == ProgressMap.CountOf(progress, topics[i].id)
    ensures |r| > 0 ==> !r[0].locked
    ensures forall i :: 0 < i < |r| ==> (r[i].locked <==> !IsComplete(progress, topics[i - 1]))
  {
    seq(|topics|, i requires 0 <= i < |topics| => Annotate(topics, progress, i))
  }

  /** The lock of topic j depends on the progress of topic j - 1 and on nothing else. */
  lemma LockIsSinglePredecessor(topics: seq<TopicRow>, p: map<int, int>, q: map<int, int>, j: int)
    requires 0 < j < |topics|
    requires ProgressMap.CountOf(p, topics[j - 1].id) == ProgressMap.CountOf(q, topics[j - 1].id)
    ensures WithProgress(topics, p)[j].locked == WithProgress(topics, q)[j].locked
  {
  }

  /** The result of loading the page: a redirect, or the topics to show. */
  datatype Loaded = Redirect(to: Route) | Shown(topics: seq<TopicView>)

  /**
   * The progress map built from the user's topic_progress rows: one key per topic the user has a
   * row for, holding that row's lessons_completed (the table is unique on (user, topic), so the
   * order in which the rows arrive does not matter).
   */
  function UserCounts(table: map<(UserId, TopicId), TopicProgressRow>, user: UserId): (m: map<int, int>)
    ensures forall t :: t in m <==> (user, t) in table
    ensures forall t :: t in m ==> m[t] == table[(user, t)].lessonsCompleted
  {
    map t | t in UserTopics(table, user) :: table[(user, t)].lessonsCompleted
  }

  /**
   * The topics loaded with the user's progress, in terms of the table: each topic's count is its
   * row's lessons_completed (0 without a row), the first topic is open, and topic i > 0 is locked
   * exactly when topic i - 1's row count is below its total_lessons.
   */
  lemma LoadedFromTable(ts: seq<TopicRow>, db: Db, user: UserId)
    ensures var r := WithProgress(ts, UserCounts(db.topicProgress, user));
      var count := (t: TopicId) => var row := TopicProgressOf(db, user, t); if row.Some? then row.value.lessonsCompleted else 0;
      && |r| == |ts|
      && (forall i :: 0 <= i < |ts| ==> r[i].topic == ts[i] && r[i].lessonsCompleted == count(ts[i].id))
      && (|ts| > 0 ==> !r[0].locked)
      && (forall i :: 0 < i < |ts| ==> (r[i].locked <==> count(ts[i - 1].id) < ts[i - 1].totalLessons))
  {
  }

  /** The topics the user has a topic_progress row for. */
  function UserTopics(table: map<(UserId, TopicId), TopicProgressRow>, user: UserId): (s: set<TopicId>)
    ensures forall t :: t in s <==> (user, t) in table
  {
    set k | k in table && k.0 == user :: k.1
  }

  /** A set is empty or has a member. */
  lemma SomeMember(s: set<TopicId>)
    ensures s == {} || exists t :: t in s
  {
    if forall t :: t !in s {
      assert s == {};
    }
  }

  /** A map with exactly the user's topics as keys and their rows' counts as values is `UserCounts`. */
  lemma SameAsUserCounts(m: map<int, int>, table: map<(UserId, TopicId), TopicProgressRow>, user: UserId)
    requires forall t :: t in m <==> (user, t) in table
    requires forall t :: t in m ==> m[t] == table[(user, t)].lessonsCompleted
    ensures m == UserCounts(table, user)
  {
    var counts := UserCounts(table, user);
    forall t
      ensures t in m <==> t in counts
    {
      assert t in counts <==> (user, t) in table;
    }
    assert m.Keys == counts.Keys;
    forall t | t in m
      ensures m[t] == counts[t]
    {
    }
  }

  /**
   * `progressData?.forEach(p => { progressMap[p.topic_id] = p.lessons_completed })` over the user's
   * rows, taken in whatever order the query returns them.
   */
  method FillCounts(table: map<(UserId, TopicId), TopicProgressRow>, user: UserId) returns (m: map<int, int>)
    ensures m == UserCounts(table, user)
  {
    var ids := UserTopics(table, user);
    m := map[];
    var pending := ids;
    while pending != {}
      invariant pending <= ids
      invariant forall t :: t in m <==> t in ids && t !in pending
      invariant forall t :: t in m ==> m[t] == table[(user, t)].lessonsCompleted
      decreases |pending|
    {
      SomeMember(pending);
      var t :| t in pending;
      m := m[t := table[(user, t)].lessonsCompleted];
      pending := pending - {t};
    }
    SameAsUserCounts(m, table, user);
  }

  /**
   * `loadTopics`: without a session go to "/auth"; with no topics returned show none; otherwise
   * read the user's topic_progress rows (none when that read fails), fill the progress map with a
   * `forEach` over them in whatever order they arrive, and annotate the topics.
   */
  method LoadTopics(session: Option<UserId>, topicsData: Option<seq<TopicRow>>, db: Db, progressReadFails: bool)
    returns (r: Loaded)
    ensures session.None? <==> r == Redirect(Auth)
    ensures session.Some? && topicsData.None? ==> r == Shown([])
    ensures session.Some? && topicsData.Some? ==>
      r == Shown(WithProgress(topicsData.value, if progressReadFails then map[] else UserCounts(db.topicProgress, session.value)))
  {
    if session.None? {
      return Redirect(Auth);
    }
    if topicsData.None? {
      return Shown([]);
    }
    var user := session.value;
    var progressMap: map<int, int> := map[];
    if !progressReadFails {
      progressMap := FillCounts(db.topicProgress, session.value);
    }
    r := Shown(WithProgress(topicsData.value, progressMap));
  }

  // ----- Row layout -----

  const Pattern: seq<nat> := [1, 2, 3, 2, 1]

  /** The rows concatenated, in order. */
  function Flatten<T>(rows: seq<seq<T>>): seq<T> {
    if rows == [] then [] else Flatten(rows[..|rows| - 1]) + rows[|rows| - 1]
  }

  /**
   * The `while` loop that cuts the topics into rows of 1, 2, 3, 2, 1, 1, 2, ... items:
   * the rows concatenate back to the topics, none is empty, and each row but the last has
   * exactly its pattern length (the last one may be shorter).
   */
  method ChunkRows<T>(topics: seq<T>) returns (rows: seq<seq<T>>)
    ensures Flatten(rows) == topics
    ensures forall i :: 0 <= i < |rows| ==> 0 < |rows[i]| <= Pattern[i % |Pattern|]
    ensures forall i :: 0 <= i < |rows| - 1 ==> |rows[i]| == Pattern[i % |Pattern|]
  {
    rows := [];
    var currentIndex := 0;
    var patternIndex := 0;
    while currentIndex < |topics|
      invariant 0 <= currentIndex
      invariant patternIndex == |rows|
      invariant currentIndex < |topics| ==> Flatten(rows) == topics[..currentIndex]
      invariant currentIndex >= |topics| ==> Flatten(rows) == topics
      invariant forall i :: 0 <= i < |rows| ==> 0 < |rows[i]| <= Pattern[i % |Pattern|]
      invariant currentIndex < |topics| ==> forall i :: 0 <= i < |rows| ==> |rows[i]| == Pattern[i % |Pattern|]
      invariant forall i :: 0 <= i < |rows| - 1 ==> |rows[i]| == Pattern[i % |Pattern|]
      decreases |topics| - currentIndex
    {
      var itemsInRow := Pattern[patternIndex % |Pattern|];
      var end := if currentIndex + itemsInRow <= |topics| then currentIndex + itemsInRow else |topics|;
      var row := topics[currentIndex..end];
      assert (rows + [row])[..|rows|] == rows;
      assert topics[..end] == topics[..currentIndex] + row;
      rows := rows + [row];
      currentIndex := currentIndex + itemsInRow;
      patternIndex := patternIndex + 1;
    }
  }

  // ----- One topic's badge -----

  /** `Math.floor(lessons_completed / total_lessons)`: how many full passes through the topic. */
  function CrownCount(completed: int, total: int): (crowns: int)
    requires total >= 1
    ensures crowns * total <= completed < (crowns + 1) * total
  {
    completed / total
  }

  /** The ring's `(lessons_completed / total_lessons) * 100`, which is not clamped at 100. */
  function RingPercentage(completed: int, total: int): (p: real)
    requires total >= 1
    ensures p * total as real == completed as real * 100.0
    ensures p >= 100.0 <==> IsCompleted(completed, total)
    ensures completed >= 0 ==> p >= 0.0
  {
    var q := completed as real / total as real;
    assert q * total as real == completed as real;
    q * 100.0
  }

  /** `lessons_completed >= total_lessons`. */
  predicate IsCompleted(completed: int, total: int) {
    completed >= total
  }

  /** A topic is completed exactly when it has earned at least one crown. */
  lemma CompletedIffCrowned(completed: int, total: int)
    requires total >= 1
    ensures IsCompleted(completed, total) <==> CrownCount(completed, total) >= 1
  {
    var c := CrownCount(completed, total);
    if c >= 1 {
      assert c * total >= total;
    } else {
      assert (c + 1) * total <= total;
    }
  }

  // ----- Clicking a topic -----

  /**
   * The click handler: a locked topic or a missing session does nothing; otherwise go to the
   * theory when the topic's progress row has neither theory flag set (or is absent), else to the quiz.
   */
  function TopicClick(t: TopicView, session: Option<UserId>, db: Db): (r: Option<Route>)
    ensures t.locked || session.None? ==> r.None?
    ensures !t.locked && session.Some? ==> r.Some?
    ensures !t.locked && session.Some? ==>
      (r.value == TheoryOf(t.topic.id) <==>
         var row := TopicProgressOf(db, session.value, t.topic.id);
         row.None? || (!row.value.theoryCompleted && !row.value.theorySkipped))
    ensures r.Some? && r.value != TheoryOf(t.topic.id) ==> r.value == LessonOf(t.topic.id, None)
  {
    if t.locked then None
    else match session
      case None => None
      case Some(user) =>
        var progressData := TopicProgressOf(db, user, t.topic.id);
        var theoryCompleted := progressData.Some? && progressData.value.theoryCompleted;
        var theorySkipped := progressData.Some? && progressData.value.theorySkipped;
        if !theoryCompleted && !theorySkipped then Some(TheoryOf(t.topic.id))
        else Some(LessonOf(t.topic.id, None))
  }
}
