# lex-lingo-quest progression rules in Dafny

lex-lingo-quest is a gamified law-study web app with tracks, topics, theory pages, quizzes, XP,
levels and a daily XP goal. Every page reads and writes four hosted tables: `profiles`,
`topic_progress`, `daily_progress` and `module_progress`. This project models the progression
rules those pages implement and proves what they promise.

- **Levels.** There are two level rules.
  - The theme hook's threshold chain maps XP to levels 1..7. The roadmap's band table finds the same level.
  - The theory page stores a different level, `floor(xp / 100) + 1`.
  - Each level selects a colour theme, and the level stored on the profile selects a daily goal.
- **Daily goal.** The goal for the level, today's points, the clamped percentage, the remaining XP,
  and the add-or-insert credit of today's `daily_progress` row.
- **Unlocking.** Topics and dashboard modules unlock one after another: each is open once the one
  before it is complete.
  - The topic page lays topics out in rows of 1, 2, 3, 2, 1, … items.
  - It also shows crowns for repeated completion and sends the user to a topic's theory until it has
    been read or skipped.
- **Quiz.** The five-field state machine and its three handlers, the final `10 × correct` XP
  announcement, and the bound it keeps when driven through the page's buttons.
- **Theory reward.** The skip and complete handlers each read the topic's progress row and pay 30 XP
  behind a guard. Then they upsert the row and navigate to the lesson.
- **Admin panel.** Selecting a user, editing and saving their values, and the four-step reset, which
  stops at the first failing step.

How the model is built:

- The tables are maps: `profiles` keyed by user, `topic_progress` by (user, topic), `daily_progress`
  by (user, date), and `module_progress` keyed by user to that user's rows in query order.
- Dates are opaque keys, and percentages are exact `real`s.
- Handlers that change state are methods on `Backend.Store`, a class holding the four maps, or on a
  class holding the page's own state (`Lesson.Quiz`, `AdminPanel.Panel`).
- The handlers that write tables (`TheoryLesson.HandleSkipTheory`, `TheoryLesson.HandleComplete`,
  `DailyGoal.UpdateDailyProgress`, `AdminPanel.Panel.Save` and `AdminPanel.Panel.Reset`) are proved
  equal to a pure transition function on the table snapshot `Backend.Db` or on the single table
  they write, and the lemmas are stated about those functions. The quiz's handlers and the admin form's select and change handlers touch
  only their own fields, and their contracts give those fields directly.
- The two `forEach` loops that build a progress map (over the dashboard's module rows, and over the
  user's topic_progress rows on the topics page) and the row-chunking `while` loop are methods with
  loop invariants.
- The session, "today", and the success or failure of each admin write are parameters.

Modules, one per page or hook plus a few shared ones:

- `Wrappers` (Option), `Routes` (navigation targets), `Backend` (tables and store),
  `ProgressMap`, `Percent`;
- `LevelTheme`, `DailyGoal`, `LevelRoadmap`, `Topics`, `Dashboard`, `Lesson`, `TheoryLesson`,
  `LessonComplete`, `AdminPanel`;
- `Progression`: lemmas that connect pages through the tables they share.

Behaviour of the code that the other pages do not expect, which the model follows as written:

- The theory page stores `floor(xp / 100) + 1` as the level, which is not the roadmap's level.
  `Progression.StoredVersusThreshold` shows the two agree only below 100 XP. At 300 XP the stored
  level is 4 and the threshold level is 2.
- The daily goal is chosen by the stored `profiles.level`, not by the threshold level.
- `handleComplete` guards only on `theory_completed`, so a skip followed by a complete pays the
  reward twice.
- Both theory handlers overwrite `lessons_completed` with 0.
- The XP credit has no sign check.
- The quiz page only announces its XP. It writes nothing to the tables.
- There is no gate that requires all of a previous track.
- Quiz progress is not stored. The only resume behaviour is that the theory page forwards
  `lessonProgress` unchanged.

## Model

| member | source | states |
|---|---|---|
| Backend.TopicProgressOf | src/pages/Topics.tsx:192-197 | a `maybeSingle` read of topic_progress returns a row exactly when one exists for (user, topic), and then that row |
| ProgressMap.Build | src/pages/Dashboard.tsx:59-62 | the map's keys are exactly the ids of the rows, and each id maps to the count of the last row carrying it |
| LevelTheme.ThresholdLevel | src/hooks/useUserLevelTheme.tsx:78-85 | the level the chain assigns is always in 1..7 |
| LevelTheme.ThresholdBands | src/hooks/useUserLevelTheme.tsx:78-85 | for xp >= 0, level k holds exactly the XP from the k-th threshold up to, but not including, the next, and level 7 has no upper bound |
| LevelTheme.ThresholdMonotone | src/hooks/useUserLevelTheme.tsx:78-85 | more XP never gives a lower level |
| LevelTheme.ThresholdLow | src/hooks/useUserLevelTheme.tsx:78-85 | level 1 exactly below 300 XP, negative XP included |
| LevelTheme.ThemeFor | src/hooks/useUserLevelTheme.tsx:107 | levels 1..7 get their table entry and any other level gets level 1's theme, so the lookup is total |
| LevelTheme.FetchedLevel | src/hooks/useUserLevelTheme.tsx:61-91 | with no session the level is 1; with a profile it is the chain applied to the profile's xp; otherwise the previous level is kept |
| LevelTheme.FetchedLevelInRange | src/hooks/useUserLevelTheme.tsx:57-107 | starting from level 1, every fetch leaves a level in 1..7, so the theme is always a table entry |
| LevelRoadmap.FindByXp | src/pages/LevelRoadmap.tsx:43 | a found band contains xp; when nothing is found, no band contains xp |
| LevelRoadmap.FindById | src/pages/LevelRoadmap.tsx:54 | a found band has the id; when nothing is found, no band has it |
| LevelRoadmap.BandsContiguous | src/pages/LevelRoadmap.tsx:10-18 | band i has id i+1, bands start at 0, each `maxXp + 1` is the next band's `minXp`, and only the last band is unbounded |
| LevelRoadmap.BandAgreesWithThreshold | src/pages/LevelRoadmap.tsx:43-44 | for xp >= 0 exactly one band contains xp, `find` returns it, and its id is the theme hook's threshold level |
| LevelRoadmap.NegativeXpNoBand | src/pages/LevelRoadmap.tsx:43-44 | negative XP lies in no band |
| LevelRoadmap.InBand | src/pages/LevelRoadmap.tsx:43 | a band contains xp when `xp >= minXp` and `xp <= maxXp` (always true of the upper bound for the infinite last band) |
| LevelRoadmap.LoadedLevel | src/pages/LevelRoadmap.tsx:41-45 | the page's level after the load: the id of the band that contains xp, or the level it held when none does (its properties are `LoadedLevelIsThreshold`) |
| LevelRoadmap.LoadedLevelIsThreshold | src/pages/LevelRoadmap.tsx:41-45 | after the load the page's level equals the threshold level for xp >= 0; for negative xp the old level stays |
| LevelRoadmap.FindByIdLevels | src/pages/LevelRoadmap.tsx:54 | lookup by id finds band id-1 for ids 1..7 and nothing for any other id |
| LevelRoadmap.NextLevel | src/pages/LevelRoadmap.tsx:53-59 | below level 7 the next level is the band with id currentLevel+1; at level 7 or an unknown level there is none |
| LevelRoadmap.ProgressToNextLevel | src/pages/LevelRoadmap.tsx:61-68 | the progress percentage never exceeds 100 |
| LevelRoadmap.ProgressFormula | src/pages/LevelRoadmap.tsx:61-68 | below level 7 the progress is min(100 · (xp − minXp) / (maxXp − minXp + 1), 100) over the current band |
| LevelRoadmap.ProgressInBand | src/pages/LevelRoadmap.tsx:61-68 | when xp is inside the current band below level 7, the progress lies in [0, 100) |
| LevelRoadmap.ProgressOutsideFiniteBands | src/pages/LevelRoadmap.tsx:61-68 | at level 7, whose width is infinite, and at an unknown level, the progress is 0 |
| LevelRoadmap.XpToNextLevel | src/pages/LevelRoadmap.tsx:70-74 | below level 7 the XP still missing is the next band's lower bound minus xp, which is positive for in-band xp; at level 7 or an unknown level it is 0 |
| LevelRoadmap.IsPast | src/pages/LevelRoadmap.tsx:141 | a band is past when xp is above its finite upper bound (never for the infinite band) |
| LevelRoadmap.IsFuture | src/pages/LevelRoadmap.tsx:142 | a band is future when xp is below its lower bound |
| LevelRoadmap.PastCurrentFuture | src/pages/LevelRoadmap.tsx:139-142 | for xp >= 0, the bands below the current level are past, those above are future, and the current band is neither |
| DailyGoal.GoalFor | src/hooks/useDailyGoal.tsx:90 | the goal is the table entry for levels 1..7 and 50 for any other level, always between 50 and 150 |
| DailyGoal.GoalsNonDecreasing | src/hooks/useDailyGoal.tsx:12-20 | the goal table never decreases with the level, from 50 at level 1 to 150 at level 7 |
| DailyGoal.Percentage | src/hooks/useDailyGoal.tsx:91 | the percentage is at most 100, at least 0 for non-negative points, exactly 100 iff the points reach the goal, and otherwise 100 · daily / goal |
| DailyGoal.ShareVersusGoal | src/hooks/useDailyGoal.tsx:91 | the unclamped share reaches 100 exactly when the points reach the goal |
| DailyGoal.TodayPoints | src/hooks/useDailyGoal.tsx:51-62 | today's points are the stored points of the (user, today) row, or 0 when there is none |
| DailyGoal.Fetch | src/hooks/useDailyGoal.tsx:28-65 | with no session the state is unchanged; otherwise the XP is today's points and the level is the profile's stored level, or the previous level when the profile is missing |
| DailyGoal.View | src/hooks/useDailyGoal.tsx:90-99 | the hook returns the goal for its level and a percentage equal to `Percentage(dailyXp, goal)`, which is at most 100 and is 100 exactly when the daily XP reaches that goal |
| DailyGoal.Credit | src/hooks/useDailyGoal.tsx:117-134 | crediting adds (user, today) to the keys, its points become the old points (0 if absent) plus x, and every other row is unchanged |
| DailyGoal.CreditTwice | src/hooks/useDailyGoal.tsx:117-134 | two credits a and b on the same day are one credit of a + b: the points become previous + a + b, with no sign check |
| DailyGoal.UpdateDailyProgress | src/hooks/useDailyGoal.tsx:102-135 | with no session the table is unchanged; otherwise the table becomes the credit, and no other table changes |
| ProgressMap.CountOf | src/pages/Topics.tsx:75 | a topic's (and, at src/pages/Dashboard.tsx:112, a module's) completed count is its progress-map value, or 0 when absent |
| Topics.WithProgress | src/pages/Topics.tsx:74-87 | same order and same rows; each count is the map value or 0; the first topic is open; topic j > 0 is locked iff topic j−1 is incomplete |
| Topics.LockIsSinglePredecessor | src/pages/Topics.tsx:76-80 | topic j's lock depends on topic j−1's progress and on nothing else |
| Topics.UserCounts | src/pages/Topics.tsx:62-72 | the progress map built from the user's topic_progress rows has one key per topic the user has a row for, holding that row's `lessons_completed` |
| Topics.FillCounts | src/pages/Topics.tsx:69-72 | the `forEach` over the user's rows, in any order, ends with exactly `UserCounts` of the table |
| Topics.LoadTopics | src/pages/Topics.tsx:35-93 | with no session the page redirects to auth; if the topics query returns null, no topics are shown; otherwise the topics shown are `WithProgress` of the topics and the user's counts read from `topic_progress` (an empty map when that read fails) |
| Topics.LoadedFromTable | src/pages/Topics.tsx:62-87 | the loaded topics keep their order; each count is the user's row count for the topic (0 without a row); the first topic is open; topic i > 0 is locked iff topic i−1's row count is below its `total_lessons` |
| Topics.IsCompleted | src/pages/Topics.tsx:177 | a topic is completed when `lessons_completed >= total_lessons` (a definition, used by `RingPercentage` and `CompletedIffCrowned`) |
| Topics.ChunkRows | src/pages/Topics.tsx:157-167 | the rows concatenate back to the topics; no row is empty; every row but the last has exactly length `pattern[i % 5]`; the last has at most that |
| Topics.CrownCount | src/pages/Topics.tsx:176 | the crown count c is floor(completed / total): c · total <= completed < (c+1) · total |
| Topics.RingPercentage | src/pages/Topics.tsx:175 | the ring's percentage times the total equals 100 · completed; it reaches 100 exactly when the topic is completed |
| Topics.CompletedIffCrowned | src/pages/Topics.tsx:176-177 | a topic is completed exactly when its crown count is at least 1 |
| Topics.TopicClick | src/pages/Topics.tsx:185-205 | a locked topic or a missing session does nothing; otherwise the click goes to the theory iff neither theory flag is set (absent row included), else to the lesson |
| Dashboard.Modules | src/pages/Dashboard.tsx:111-124 | module 0 is open; module i > 0 is locked iff module i−1's count is below its lessons; each count is the map value or 0; every other field is kept |
| Dashboard.LoadProgress | src/pages/Dashboard.tsx:31-67 | with no session there is no map, which means redirecting; otherwise the map's keys are the user's module ids, each holding the count of the last row for that id |
| Dashboard.JsRem | src/pages/Dashboard.tsx:181 | JavaScript `%`: the Euclidean remainder for a non-negative dividend, and for a negative one the unique r in (−b, 0] with a − r a multiple of b |
| Dashboard.BarXp | src/pages/Dashboard.tsx:182 | the XP-to-next figure is `xp % 300`, in [0, 300) for xp >= 0 |
| Dashboard.BarValue | src/pages/Dashboard.tsx:181 | the XP bar's value lies in [0, 100) for xp >= 0 |
| Dashboard.TotalLessons | src/pages/Dashboard.tsx:257 | the lessons total is the sum of the map's values read along an enumeration of its keys (a definition; its properties are the two lemmas below) |
| Dashboard.TotalOrderIndependent | src/pages/Dashboard.tsx:257 | the lessons total, the sum of the map's values, is the same whatever order the keys are read in |
| Dashboard.TotalAtLeastEach | src/pages/Dashboard.tsx:257 | with no negative counts, the total is at least each single count |
| Dashboard.SumNonNegative | src/pages/Dashboard.tsx:257 | with no negative counts, the total is non-negative |
| Dashboard.ModuleBarValue | src/pages/Dashboard.tsx:227 | a module bar's value times its lessons equals 100 · completed; the bar is full exactly when the module is complete |
| Dashboard.UnlockedIffPreviousBarFull | src/pages/Dashboard.tsx:111-124 | among the shown modules, module i > 0 is open exactly when module i−1's bar is full |
| Dashboard.ModuleClick | src/pages/Dashboard.tsx:196 | a locked module does not navigate; an open one opens its lesson |
| Percent.StepPercent | src/pages/TheoryLesson.tsx:234 | the step percentage times the count equals 100 · (index+1); it is in (0, 100] for an index in range, and exactly 100 at the last index |
| Lesson.QuizProgress | src/pages/Lesson.tsx:69 | the header bar is in (0, 100] for a question in range, and 100 exactly at the last question |
| Lesson.Quiz.constructor | src/pages/Lesson.tsx:62-66 | the quiz starts at question 0 with no selection, no feedback and zero counts |
| Lesson.Quiz.AnswerSelect | src/pages/Lesson.tsx:71-74 | the select handler does nothing while feedback is shown and otherwise records the selection; it keeps 0 <= correct <= answered and the button-gated bound |
| Lesson.Quiz.CheckAnswer | src/pages/Lesson.tsx:76-92 | with no selection it does nothing; otherwise it shows feedback, counts one more answer, and counts one more correct answer iff the selection is the correct option |
| Lesson.Quiz.NextQuestion | src/pages/Lesson.tsx:94-106 | before the last question it advances and clears the selection and feedback; at the last question it announces 10 × correct XP, at most 30 when button-gated; the counts never change |
| Lesson.AllCorrect | src/pages/Lesson.tsx:191-205 | answering every question correctly through the buttons announces 30 XP |
| TheoryLesson.StoredLevel | src/pages/TheoryLesson.tsx:118 | the level stored is the L with (L−1) · 100 <= xp < L · 100 |
| TheoryLesson.Rewarded | src/pages/TheoryLesson.tsx:116-123 | a reward adds 30 XP and stores the level of the new XP; the streak is kept |
| TheoryLesson.Award | src/pages/TheoryLesson.tsx:110-126 | with a profile, the profile is rewarded and the daily table becomes `DailyGoal.Credit` of 30 points on (user, today), so today's points rise by 30 and no other daily row is added or changed; without one nothing changes |
| TheoryLesson.TheoryProcessed | src/pages/TheoryLesson.tsx:99-106 | the skip handler's guard: a row was read and has `theory_completed` or `theory_skipped` set |
| TheoryLesson.TheoryCompleted | src/pages/TheoryLesson.tsx:150-157 | the complete handler's guard: a row was read and has `theory_completed` set |
| TheoryLesson.MarkSkipped | src/pages/TheoryLesson.tsx:130-139 | after the skip upsert the row has `theory_skipped` set and `lessons_completed` 0, and `theory_completed` is as before (false for a new row) |
| TheoryLesson.MarkCompleted | src/pages/TheoryLesson.tsx:181-190 | after the complete upsert the row has `theory_completed` set and `lessons_completed` 0, and `theory_skipped` is as before (false for a new row) |
| TheoryLesson.Skip | src/pages/TheoryLesson.tsx:94-143 | with no session nothing changes; otherwise the row is marked skipped and 30 XP is paid only if neither flag was set and the profile exists |
| TheoryLesson.Complete | src/pages/TheoryLesson.tsx:145-201 | with no session nothing changes; otherwise the row is marked completed and 30 XP is paid only if `theory_completed` was unset and the profile exists |
| TheoryLesson.SkipIdempotent | src/pages/TheoryLesson.tsx:106-108 | skipping twice leaves all tables as one skip does |
| TheoryLesson.CompleteIdempotent | src/pages/TheoryLesson.tsx:157-159 | completing twice leaves all tables as one complete does |
| TheoryLesson.SkipThenCompletePaysTwice | src/pages/TheoryLesson.tsx:157-167 | a first skip followed by a complete pays 60 XP to the profile and 60 points today, and sets both flags |
| TheoryLesson.CompleteThenSkipPaysOnce | src/pages/TheoryLesson.tsx:106-108 | a skip after a complete pays nothing |
| TheoryLesson.TheoryClearsLessonCount | src/pages/TheoryLesson.tsx:130-139 | either handler leaves the topic's `lessons_completed` at 0, whatever it was |
| TheoryLesson.CompleteTarget | src/pages/TheoryLesson.tsx:192-200 | completing goes to the topic's lesson, forwarding the incoming lesson progress unchanged iff `returnToLesson` |
| TheoryLesson.BackToPractice | src/pages/TheoryLesson.tsx:247-253 | the back-to-practice button goes where completing with `returnToLesson` goes |
| TheoryLesson.HandleSkipTheory | src/pages/TheoryLesson.tsx:94-143 | the skip handler leaves the tables as `Skip` describes and goes to the lesson, or stays put with no session |
| TheoryLesson.HandleComplete | src/pages/TheoryLesson.tsx:145-201 | the complete handler leaves the tables as `Complete` describes and goes to `CompleteTarget`, or stays put with no session |
| TheoryLesson.SectionProgress | src/pages/TheoryLesson.tsx:234 | the section progress is in (0, 100] for a section in range, and 100 exactly at the last section |
| LessonComplete.EarnedXp | src/pages/LessonComplete.tsx:12 | the XP shown is the state's `xpEarned`, or 0 when it or the whole state is missing |
| LessonComplete.TrackOf | src/pages/LessonComplete.tsx:12 | the track is the state's `trackId`, or 1 when it or the whole state is missing |
| LessonComplete.Remaining | src/pages/LessonComplete.tsx:16 | the remaining XP is >= 0, is 0 iff daily >= goal, and when positive, daily + remaining = goal |
| LessonComplete.Summarise | src/pages/LessonComplete.tsx:12-17 | the goal is reached iff daily >= goal, iff nothing remains, iff the percentage is 100 |
| LessonComplete.ContinueTarget | src/pages/LessonComplete.tsx:24-26 | continue goes to the topics of the state's track (track 1 by default) |
| AdminPanel.FromProfile | src/pages/321dd543-fe6e-4204-ae30-85f578708d9c.tsx:60-64 | the form filled from a profile holds exactly that profile's xp, level and streak |
| AdminPanel.ParseCount | src/pages/321dd543-fe6e-4204-ae30-85f578708d9c.tsx:238 | a number is kept, and a non-number becomes 0 |
| AdminPanel.ParseLevel | src/pages/321dd543-fe6e-4204-ae30-85f578708d9c.tsx:249 | a non-number or 0 becomes 1 and any other number is kept, so the level is never 0 |
| AdminPanel.SaveEffect | src/pages/321dd543-fe6e-4204-ae30-85f578708d9c.tsx:75-83 | the selected profile takes the form's xp, level and streak, the level not re-derived from xp; other profiles are unchanged |
| AdminPanel.Loaded | src/pages/321dd543-fe6e-4204-ae30-85f578708d9c.tsx:58-65 | a user is found iff listed, and then the form holds that user's values |
| AdminPanel.SaveThenSelect | src/pages/321dd543-fe6e-4204-ae30-85f578708d9c.tsx:56-83 | selecting a user after saving their form shows the form as saved |
| AdminPanel.ProfileReset | src/pages/321dd543-fe6e-4204-ae30-85f578708d9c.tsx:109-117 | the selected profile becomes xp 0, level 1, streak 0; others are unchanged |
| AdminPanel.DropUser | src/pages/321dd543-fe6e-4204-ae30-85f578708d9c.tsx:122-133 | exactly the user's rows are deleted (used for topic_progress and daily_progress), every other row is kept unchanged |
| AdminPanel.DropModules | src/pages/321dd543-fe6e-4204-ae30-85f578708d9c.tsx:138-141 | exactly the user's module_progress rows are deleted |
| AdminPanel.ResetEffect | src/pages/321dd543-fe6e-4204-ae30-85f578708d9c.tsx:107-143 | each of the four writes takes effect iff no earlier step and not itself fails; the rest stay as they were |
| AdminPanel.StepsRunInOrder | src/pages/321dd543-fe6e-4204-ae30-85f578708d9c.tsx:107-143 | a later step ran only if every earlier step ran; earlier ones are not undone |
| AdminPanel.ResetWipesUser | src/pages/321dd543-fe6e-4204-ae30-85f578708d9c.tsx:108-143 | a full reset leaves the user a fresh profile and no progress rows, and leaves other users' rows as they were |
| AdminPanel.Panel.constructor | src/pages/321dd543-fe6e-4204-ae30-85f578708d9c.tsx:25-34 | no user is selected and the form is {0, 1, 0} |
| AdminPanel.Panel.UserSelect | src/pages/321dd543-fe6e-4204-ae30-85f578708d9c.tsx:56-66 | the user is selected, and the form copies the user's values when listed and is otherwise unchanged |
| AdminPanel.Panel.ChangeXp | src/pages/321dd543-fe6e-4204-ae30-85f578708d9c.tsx:238 | only the form's xp changes, to the parsed input |
| AdminPanel.Panel.ChangeLevel | src/pages/321dd543-fe6e-4204-ae30-85f578708d9c.tsx:249 | only the form's level changes, to the parsed input |
| AdminPanel.Panel.ChangeStreak | src/pages/321dd543-fe6e-4204-ae30-85f578708d9c.tsx:260 | only the form's streak changes, to the parsed input |
| AdminPanel.Panel.Save | src/pages/321dd543-fe6e-4204-ae30-85f578708d9c.tsx:68-93 | with no selection or a failed update nothing changes; otherwise the profiles become `SaveEffect`, and no other table changes |
| AdminPanel.Panel.Reset | src/pages/321dd543-fe6e-4204-ae30-85f578708d9c.tsx:95-160 | with no selection or no confirmation nothing changes; otherwise the tables become `ResetEffect` and the form is cleared only on full success |
| Progression.StoredVersusThreshold | src/pages/TheoryLesson.tsx:118 | for xp >= 0 the stored level is at least the threshold level, and equal exactly when xp < 100 |
| Progression.TheoryOpensLessons | src/pages/Topics.tsx:199-204 | after a skip or a complete, clicking the open topic goes to its lesson |
| Progression.TheoryRelocksNext | src/pages/TheoryLesson.tsx:130-139 | after a skip or a complete of topic j−1 (with at least one lesson), topic j is locked on the topics page, since its predecessor's count is now 0 |
| Progression.RewardSeenByDailyGoal | src/hooks/useDailyGoal.tsx:37-62 | after a paid skip the daily-goal hook sees 30 more points and the stored level, not the threshold level |
| Progression.ResetStartsOver | src/pages/321dd543-fe6e-4204-ae30-85f578708d9c.tsx:107-143 | after a full reset the theme level is 1, the daily-goal hook reads 0 points at level 1, and every open topic opens on its theory |

## Left out

- The backend is modelled as four maps read and written in sequence. Left out are:
  - authentication and sessions (the session is a parameter);
  - `onAuthStateChange` and the realtime subscription that re-runs the daily-goal fetch;
  - `order(...)` on queries (topic rows arrive in the order given);
  - the `tracks` and `theory_sections` reads;
  - `updated_at` and `last_active` timestamps.
- `lessonProgress`: the navigation payload is opaque and only forwarded.
- Concurrency is not modelled. Two tabs can interleave the read-then-write of `updateDailyProgress`,
  or of the theory rewards, and lose an update; the model runs each handler atomically.
- Rendering, toasts, `setTimeout` navigation, the theme provider's CSS variable writes and the
  daily-goal footer are left out. So are the profile fields the dashboard only displays and the
  roadmap's redirect without a session.
- Scroll maths (`Math.round` of the scroll position) and the SVG ring geometry are left out.
  `Math.PI` and `toFixed` are not modelled, and percentages are exact reals.
- The theory page's error path (`navigate(-1)` when the sections query fails) and the button
  shown when there are no sections are left out. `TheoryLesson.SectionProgress` assumes at
  least one section, because the page returns early otherwise.
- Error results of the theory handlers and of `updateDailyProgress` are not checked by the code.
  Their writes always succeed in the model.
- Reads other than the topics page's progress read always succeed in the model. In the code a
  failed `maybeSingle()` flag read in either theory handler yields `null`, the guard reads as false,
  and the 30 XP is paid again. `TheoryLesson.SkipIdempotent` and `TheoryLesson.CompleteIdempotent`
  hold only because the model's lookups never fail.
- The `topics` table is not modelled: the topics query result arrives as a parameter. The user's
  topic_progress rows are read from the model's table.
- The admin panel's profile list is read as the profiles table. Its ordering and reloading after a
  successful save or reset are not modelled. A failure is an input: a flag for save, and the first
  failing step for reset.
- Today's ISO date derivation is left out; "today" is an input key.
- Question texts, options and explanations are left out. A question is its id, option count and
  correct index.
- Topics.CrownCount and Topics.RingPercentage require `total_lessons >= 1`. With 0 the code divides
  by zero (Infinity or NaN), and that case is not modelled.
- Dashboard.ModuleBarValue requires `lessons >= 1`, which all three fixed modules meet.
- Dashboard.TotalLessons is a ghost function over an enumeration of the map's keys. The order in
  which `Object.values` lists them is left open, and `TotalOrderIndependent` shows that it does not
  matter.
- LevelRoadmap.ProgressToNextLevel: its own contract states only the bound. The formula, the
  in-band range and the zero cases are the lemmas beside it.
- The auth page, the streak statistics page, the landing page and the router are not part of this
  model.
