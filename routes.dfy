/** Navigation targets of the pages, as the path patterns the pages pass to `navigate`. */
module Routes {
  import opened Wrappers

  /** The quiz state a lesson page hands to the theory page and gets back unchanged; its shape is opaque here. */
  type LessonProgress = string

  datatype Route =
    | Auth                                                        // "/auth"
    | DashboardPage                                               // "/dashboard"
    | TopicsOf(trackId: int)                                      // "/topics/{trackId}"
    | TheoryOf(topicId: int)                                      // "/theory/{topicId}"
    | LessonOf(topicId: int, resumeProgress: Option<LessonProgress>) // "/lesson/{id}", optional state
}
