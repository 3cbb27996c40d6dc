# VBA-v2 learning platform: a Dafny model of its core

VBA-v2 is a platform for learning VBA. Students follow courses made of
lessons and exercises, take timed tests and hand in projects. Teachers
manage courses and exercises through a small REST back end. This project
models the logic inside the React pages and components, and the two
FastAPI routers (exercises and courses). It then proves what each of
them promises.

Each source file has its own module.

- `TestTaking`: the timed test session. Covers the 30-minute countdown and
  its automatic submission, answers, flags, navigation, progress, the
  urgent timer and the tab-switch counter (class `TestSession`).
- `OpenEnded`, `MultipleChoice`, `CodeCompletion`: the three question
  widgets. These are word and character counts with their status, checkbox
  and radio answers, and the keyword syntax check with its panel
  (class `CodeTestPanel`).
- `TestOverview`: availability window, time until the start, attempts
  left and the attempts bar.
- `TestResults`: pass/fail, precision, the time per question and its bars,
  fastest and slowest times, recommendations, selecting a question.
- `TestsDashboard`: the four filters (class `DashboardFilters`), the time
  until a test, the upcoming count, the average score and the action per
  status.
- `CourseDetail`: the lesson page of a course (class `CourseDetailPage`).
  It is modelled together with the cookie helpers it uses (`Cookies`):
  `getCookie` as a loop proved against a lookup over the `;`-separated
  segments, and `setCookie`'s string read back by `getCookie`.
- `CoursePage`: the course catalogue, totals and percentage, level badge,
  start button, and course and lesson selection (class `CoursePageState`).
- `ProjectsList`, `ProjectDetail`, `ProjectSteps`, `ProjectSubmission`: the
  project pages. These cover filters, deadlines and actions, the hero of one
  project, the step checklist (class `StepsView`) and the file upload form
  (class `SubmissionForm`).
- `Db`, `Exercises`, `Courses`: the routers. A query to the Supabase
  database is a value (table, operation, equality conditions, order,
  inclusive range). The database is a function parameter from queries to
  answers, and each endpoint is a function from the request and that
  database to the HTTP reply.
- `Util`: the arithmetic and string operations the sources rely on.
  - JavaScript's `Math.ceil` and `Math.round` of a quotient, on exact
    integers.
  - Decimal rendering and parsing of naturals, two-digit padding.
  - ASCII lower-casing and `includes`.
  - An order-keeping filter with its subsequence relation.

Times are integer milliseconds (or seconds, where the source counts
seconds). The current time is a parameter wherever the source reads the
clock.

## Model

| member | source | states |
|---|---|---|
| TestTaking.FormatTimeReadsBack | components/tests/test-taking.tsx:134-138 | below 100 minutes the label is two digits, a colon and two digits; the seconds are below 60; minutes·60 + seconds gives back the time |
| TestTaking.UrgentIffUnderFiveMinutes | components/tests/test-taking.tsx:212-213 | the timer is urgent (under 300 s) exactly when the minutes shown are below 5 |
| TestTaking.TickStep | components/tests/test-taking.tsx:109-116 | one tick takes t > 1 to t − 1 and anything else to 0; a non-negative count never goes negative |
| TestTaking.CountdownValue | components/tests/test-taking.tsx:106-120 | after k ticks the countdown is max(t − k, 0) |
| TestTaking.AutoSubmitTime | components/tests/test-taking.tsx:99-116 | from 1800 s, the tick that submits is the 1799th and every later one |
| TestTaking.Toggle | components/tests/test-taking.tsx:147-157 | the flag set changes membership of exactly the toggled id |
| TestTaking.ToggleTwice | components/tests/test-taking.tsx:147-157 | toggling a flag twice restores the set |
| TestTaking.IdList | components/tests/test-taking.tsx:289-290 | the list of question ids, position by position |
| TestTaking.ProgressAtMostHundred | components/tests/test-taking.tsx:193-195 | while the answer keys are question ids, progress lies between 0 and 100 |
| TestTaking.AnswerCountsOnce | components/tests/test-taking.tsx:193-195 | answering an answered question keeps the number of answers; answering a new one adds one |
| TestTaking.SidebarMarksMatchQuestions | components/tests/test-taking.tsx:289-290 | when the questions' ids are 1..n in position order, the sidebar marks position i answered (flagged) iff the question at i is answered (flagged) |
| TestTaking.StaleAutoSubmitLosesWork | components/tests/test-taking.tsx:106-120 | the automatic submission as written reports no answers and no time spent, whatever was answered |
| TestTaking.TestSession.constructor | components/tests/test-taking.tsx:96-102 | a session starts on question 0 with no answers or flags, 1800 s left and no warnings |
| TestTaking.TestSession.AnswerChange | components/tests/test-taking.tsx:140-145 | the answer of that id is replaced and every other answer is kept |
| TestTaking.TestSession.ToggleFlag | components/tests/test-taking.tsx:147-157 | the flags become `Toggle` of the old flags |
| TestTaking.TestSession.Previous | components/tests/test-taking.tsx:389-390 | the index becomes max(0, i − 1) and stays a valid position |
| TestTaking.TestSession.Next | components/tests/test-taking.tsx:401-402 | the index becomes min(n − 1, i + 1) and stays a valid position |
| TestTaking.TestSession.GoTo | components/tests/test-taking.tsx:296 | a sidebar click moves to that position |
| TestTaking.TestSession.Tick | components/tests/test-taking.tsx:106-120 | the countdown takes one `TickStep`; the test is submitted iff it was at 1 or below, with the current answers and 1800 s spent |
| TestTaking.TestSession.VisibilityChange | components/tests/test-taking.tsx:122-132 | the warning count rises by one exactly when the page is hidden |
| TestTaking.TestSession.Submit | components/tests/test-taking.tsx:165-167 | the report holds the answers, and time spent + time left = 1800 |
| OpenEnded.SplitSpaces | components/tests/questions/open-ended-question.tsx:26-28 | splitting on whitespace yields at least one part and no part holds whitespace |
| OpenEnded.NonEmpty | components/tests/questions/open-ended-question.tsx:29 | only non-empty words are kept |
| OpenEnded.SplitCountsWordStarts | components/tests/questions/open-ended-question.tsx:26-30 | the number of non-empty parts is the number of word starts in the text |
| OpenEnded.TrimStartKeepsWordStarts | components/tests/questions/open-ended-question.tsx:27 | trimming the front keeps the word starts |
| OpenEnded.TrimEndKeepsWordStarts | components/tests/questions/open-ended-question.tsx:27 | trimming the end keeps the word starts |
| OpenEnded.WordCountIsWordStarts | components/tests/questions/open-ended-question.tsx:24-35 | the word count of an answer is its number of word starts |
| OpenEnded.BlankHasNoWords | components/tests/questions/open-ended-question.tsx:24-35 | every answer made only of whitespace counts no words |
| OpenEnded.TwoWords | components/tests/questions/open-ended-question.tsx:24-35 | an example: runs of spaces around and between two words count two words |
| OpenEnded.WordsAtMostChars | components/tests/questions/open-ended-question.tsx:24-35 | the word count never exceeds the character count (0 for no answer) |
| OpenEnded.WordCountStatus | components/tests/questions/open-ended-question.tsx:42-53 | valid-or-neutral iff `isWordCountValid`; neutral iff no bound is set (0 is no bound); insufficient iff below a set minimum; excessive iff above a set maximum and not below the minimum, the minimum checked first; a deficit or an overflow shown is at least 1 |
| MultipleChoice.Check | components/tests/questions/multiple-choice-question.tsx:27-31 | checking k appends k after the old answers, which stay as they were |
| MultipleChoice.Uncheck | components/tests/questions/multiple-choice-question.tsx:32 | unchecking removes every k and keeps the rest in order, each as many times as before |
| MultipleChoice.ClickedBoxShowsClick | components/tests/questions/multiple-choice-question.tsx:27-60 | after a click the box shows checked iff it was checked, and other boxes keep their state |
| MultipleChoice.CheckThenUncheck | components/tests/questions/multiple-choice-question.tsx:27-32 | unchecking an option just checked restores answers that lacked it |
| MultipleChoice.RadioRecordsItsIndex | components/tests/questions/multiple-choice-question.tsx:23-25 | the value of radio i parses back to i |
| MultipleChoice.RadioSelectedIff | components/tests/questions/multiple-choice-question.tsx:76-80 | a radio is selected iff the answer is its index |
| MultipleChoice.OptionLetter | components/tests/questions/multiple-choice-question.tsx:65-66 | option k is the character with code 65 + k, an upper-case letter for k < 26 |
| MultipleChoice.OptionLettersDistinct | components/tests/questions/multiple-choice-question.tsx:84-85 | different options have different letters |
| CodeCompletion.KeywordPasses | components/tests/questions/code-completion-question.tsx:35-41 | code that contains any one of `=`, `For`, `If`, `Debug.Print` passes |
| CodeCompletion.NoKeywordFails | components/tests/questions/code-completion-question.tsx:35-45 | code that contains none of `=`, `For`, `If`, `Debug.Print` fails |
| CodeCompletion.NoTokenFails | components/tests/questions/code-completion-question.tsx:35-45 | code containing none of the characters `=`, `F`, `I`, `D` fails |
| CodeCompletion.PassingCodeHasEnabledButton | components/tests/questions/code-completion-question.tsx:35-75 | code that passes always has an enabled test button |
| CodeCompletion.CodeTestPanel.constructor | components/tests/questions/code-completion-question.tsx:22-23 | the panel starts with no result and no output |
| CodeCompletion.CodeTestPanel.HandleCodeChange | components/tests/questions/code-completion-question.tsx:25-29 | an edit forwards the value and clears result and output |
| CodeCompletion.CodeTestPanel.HandleTestCode | components/tests/questions/code-completion-question.tsx:31-45 | the result is success iff the syntax check holds |
| TestOverview.TimeUntilStart | components/tests/test-overview.tsx:90-100 | days iff more than a day ahead, hours iff more than an hour ahead, both rounded up; otherwise "available now" |
| TestOverview.AvailableNowWhileUnavailable | components/tests/test-overview.tsx:83-100 | a test opening within the hour, or whose window has closed, reads "available now" though it cannot be taken |
| TestOverview.CanTakeTest | components/tests/test-overview.tsx:118-119 | the start link is offered iff start ≤ now ≤ end and attempts are left |
| TestOverview.RemainingPositiveIffLeft | components/tests/test-overview.tsx:118-163 | the remaining count is positive iff attempts are left |
| TestOverview.AttemptsBarWidth | components/tests/test-overview.tsx:347 | no width without allowed attempts; otherwise width · allowed = 100 · used |
| TestOverview.BarBelowFullWhileAttemptsLeft | components/tests/test-overview.tsx:347 | while attempts are left the bar is below full |
| TestOverview.FindTest | components/tests/test-overview.tsx:104-115 | the test is found iff its id is in the catalogue; an unknown id gives the not-found view |
| TestResults.PassedXorAlert | components/tests/test-results.tsx:403-411 | exactly one of "Réussi" and the below-threshold alert applies |
| TestResults.Precision | components/tests/test-results.tsx:235 | nearest integer to 100·correct/total; within 0..100 when correct ≤ total |
| TestResults.QuestionTimeLabelOverstates | components/tests/test-results.tsx:301-302 | as written, 90 s reads "2:30" and 150 s reads "3:30" |
| TestResults.QuestionTimeLabelFloorReadsBack | components/tests/test-results.tsx:361 | with whole minutes the label reads back as the time it shows |
| TestResults.AverageTime | components/tests/test-results.tsx:115 | none for no questions; otherwise average · count = total |
| TestResults.TimeBarColour | components/tests/test-results.tsx:366-372 | red iff above 1.5·average, yellow iff below 0.5·average and not red, blue otherwise |
| TestResults.TimeBarWidth | components/tests/test-results.tsx:374 | the width lies in 0..100 and is full iff the time is at least twice the average; below full it is the time as a percentage of twice the average |
| TestResults.MinTime | components/tests/test-results.tsx:388 | the fastest time is a time of the list and at most every other |
| TestResults.MaxTime | components/tests/test-results.tsx:389 | the slowest time is a time of the list and at least every other |
| TestResults.RecommendationsNeverContradict | components/tests/test-results.tsx:417-450 | mastery and "revise the fundamentals" never both show, nor both time remarks |
| TestResults.NeedsPractice | components/tests/test-results.tsx:453 | the practice remark shows iff some code-completion question was wrong |
| TestResults.ClickQuestion | components/tests/test-results.tsx:279 | a click selects the question, or deselects it when it was selected |
| TestResults.ClickTwiceDeselects | components/tests/test-results.tsx:279 | two clicks on an unselected question deselect it |
| TestsDashboard.FilterTests | components/tests/tests-dashboard.tsx:143-154 | an order-keeping subsequence holding exactly the tests that match, each as many times as in the input |
| TestsDashboard.DefaultFiltersKeepAll | components/tests/tests-dashboard.tsx:138-154 | the default filters keep every test |
| TestsDashboard.ChosenDifficultyDropsUnrated | components/tests/tests-dashboard.tsx:149 | once a difficulty is chosen, tests without one are dropped |
| TestsDashboard.FilterTestsIdempotent | components/tests/tests-dashboard.tsx:143-154 | filtering twice equals filtering once |
| TestsDashboard.TimeUntilTest | components/tests/tests-dashboard.tsx:124-135 | days, hours, "soon" and "now" by the same thresholds, rounded up |
| TestsDashboard.DashboardAgreesWithOverview | components/tests/tests-dashboard.tsx:124-135 | the dashboard and the overview give the same days and hours |
| TestsDashboard.UpcomingCount | components/tests/tests-dashboard.tsx:172 | at most the number of tests, and all of them iff none is locked |
| TestsDashboard.AverageScore | components/tests/tests-dashboard.tsx:195 | none for no completed test; otherwise the mean of the scores rounded to the nearest integer, halves up, within 0..100 for scores in 0..100 |
| TestsDashboard.ActionFor | components/tests/tests-dashboard.tsx:337-345 | a link iff "available", "not yet available" iff "upcoming", prerequisites otherwise |
| TestsDashboard.DashboardFilters.constructor | components/tests/tests-dashboard.tsx:138-141 | the filters start at their defaults |
| TestsDashboard.DashboardFilters.SetSearch | components/tests/tests-dashboard.tsx:228 | only the search term changes |
| TestsDashboard.DashboardFilters.SetType | components/tests/tests-dashboard.tsx:233 | only the type filter changes |
| TestsDashboard.DashboardFilters.SetDifficulty | components/tests/tests-dashboard.tsx:246 | only the difficulty filter changes |
| TestsDashboard.DashboardFilters.SetSubject | components/tests/tests-dashboard.tsx:258 | only the subject filter changes |
| TestsDashboard.DashboardFilters.Reset | components/tests/tests-dashboard.tsx:272-277 | all four filters return to their defaults |
| Cookies.Split | components/course-detail-page.tsx:64 | at least one segment, none holding the separator |
| Cookies.JoinOfSplit | components/course-detail-page.tsx:64 | joining the segments gives back the cookie string |
| Cookies.SplitOfJoin | components/course-detail-page.tsx:56-64 | splitting segments free of the separator gives them back |
| Cookies.StripSpaces | components/course-detail-page.tsx:67 | the leading spaces removed, the rest kept |
| Cookies.TrimLeadingSpaces | components/course-detail-page.tsx:67 | the inner loop strips the leading spaces |
| Cookies.GetCookie | components/course-detail-page.tsx:63-72 | the value of the first segment starting with `name=`, or none |
| Cookies.LookupAt | components/course-detail-page.tsx:66-70 | one step of the outer loop: a match ends the search, any other segment passes it on |
| Cookies.SetCookieFoundAgain | components/course-detail-page.tsx:56-72 | a cookie written by `setCookie` with a `;`-free value is read back exactly |
| Cookies.PrefixMatchesName | components/course-detail-page.tsx:68 | `name=` starts `n=v` iff the names agree (names without `=`) |
| Cookies.SegmentsLookup | components/course-detail-page.tsx:63-72 | the browser's segments are looked up like the jar itself |
| Cookies.DocumentCookieLookup | components/course-detail-page.tsx:63-72 | `getCookie` on `document.cookie` gives the jar's value for the name |
| CourseDetail.InsertByKey | components/course-detail-page.tsx:119 | one insertion step of the sort is a permutation |
| CourseDetail.InsertSorted | components/course-detail-page.tsx:119 | inserting into a sorted list keeps it sorted by `order_index` |
| CourseDetail.SortByOrder | components/course-detail-page.tsx:116-119 | the sort is a permutation |
| CourseDetail.SortSorted | components/course-detail-page.tsx:116-119 | the result is ordered by `order_index` (missing counts as 0) |
| CourseDetail.SortStable | components/course-detail-page.tsx:116-119 | items with equal keys keep their order |
| CourseDetail.SortCountType | components/course-detail-page.tsx:116-121 | sorting keeps the count of each kind |
| CourseDetail.Tag | components/course-detail-page.tsx:117-118 | each record is tagged with its kind, in place |
| CourseDetail.CombinedContentOrdered | components/course-detail-page.tsx:116-119 | the content is sorted by `order_index`, a permutation of the tagged lessons and exercises, and among equal keys the lessons come first, each in its given order |
| CourseDetail.CombinedContentCounts | components/course-detail-page.tsx:116-121 | it holds every lesson and every exercise: lessons + exercises = its length |
| CourseDetail.CombinedContentTagged | components/course-detail-page.tsx:116-119 | every item carries a kind |
| CourseDetail.CurrentIndex | components/course-detail-page.tsx:124 | the first position matching id and kind, or −1 iff none matches |
| CourseDetail.UntaggedSelectionNotFound | components/course-detail-page.tsx:124 | a selection without a kind is never found |
| CourseDetail.ProgressShownBounds | components/course-detail-page.tsx:334-335 | the progress shown lies in 0..100, 0 when not found, 100 on the last item |
| CourseDetail.NavLabel | components/course-detail-page.tsx:127 | the label is empty iff there is no neighbouring item |
| CourseDetail.CourseDetailPage.constructor | components/course-detail-page.tsx:43-85 | the page starts on the initial selection with the completed set loaded from the cookie |
| CourseDetail.CourseDetailPage.MarkAsCompleted | components/course-detail-page.tsx:97-102 | the id is added and the set is saved |
| CourseDetail.CourseDetailPage.LessonSelect | components/course-detail-page.tsx:105-113 | the item is selected; only a lesson with an id is marked completed, and the progress cookie is written exactly when that lesson was not completed yet |
| CourseDetail.CourseDetailPage.ChooseAnswer | components/course-detail-page.tsx:184 | the choice is recorded unless the exercise is answered |
| CourseDetail.CourseDetailPage.ValidateAnswer | components/course-detail-page.tsx:135-155 | with no choice, an alert and no change; otherwise correct iff the choice is the right one, completed only when correct, and the progress cookie is written exactly when a correct answer marks the exercise |
| CourseDetail.CourseDetailPage.ResetExercise | components/course-detail-page.tsx:157-162 | the four answer fields are cleared |
| CourseDetail.CourseDetailPage.PreviousItem | components/course-detail-page.tsx:392-399 | shown iff not first; moving never marks completion |
| CourseDetail.CourseDetailPage.NextItem | components/course-detail-page.tsx:354-407 | shown iff an item is selected and it is not the last; moving never marks completion |
| CourseDetail.CourseDetailPage.Progress | components/course-detail-page.tsx:334-335 | the progress shown lies in 0..100 |
| CoursePage.TotalsCountLessons | components/course-page.tsx:253-257 | the totals count all lessons and the completed ones, and completed ≤ total |
| CoursePage.ProgressPercentage | components/course-page.tsx:258 | none for no lessons; else nearest integer to 100·completed/total, in 0..100 |
| CoursePage.FirstLesson | components/course-page.tsx:133-136 | the first chapter's first lesson, or none |
| CoursePage.OnlySelectedHighlighted | components/course-page.tsx:133-136 | with unique ids only the selected lesson is highlighted |
| CoursePage.LevelBadge | components/course-page.tsx:188-194 | default for beginners, secondary for intermediate, destructive otherwise |
| CoursePage.CardFooterFor | components/course-page.tsx:231-243 | progress bar and filled "Continuer" iff progress > 0, else "Commencer" |
| CoursePage.CoursePageState.constructor | components/course-page.tsx:130-131 | the page opens on the catalogue |
| CoursePage.CoursePageState.CourseSelect | components/course-page.tsx:133-136 | the course opens on its first lesson |
| CoursePage.CoursePageState.LessonSelect | components/course-page.tsx:131 | a sidebar click selects that lesson |
| CoursePage.CoursePageState.BackToCourses | components/course-page.tsx:138-141 | both selections are cleared |
| ProjectsList.FilterProjects | components/projects/projects-list.tsx:120-128 | an order-keeping subsequence holding exactly the projects that match, each as many times as in the input |
| ProjectsList.DefaultFiltersKeepAll | components/projects/projects-list.tsx:116-128 | the default filters keep every project |
| ProjectsList.EmptyStateIffNoMatch | components/projects/projects-list.tsx:292 | the empty state shows iff no project matches |
| ProjectsList.DaysUntilDue | components/projects/projects-list.tsx:107-113 | the days left, rounded up |
| ProjectsList.DeadlineFor | components/projects/projects-list.tsx:220-222 | overdue iff due ≤ now, else "Dans N jour(s)"; highlighted iff under 7 days |
| ProjectsList.StatusLabel | components/projects/projects-list.tsx:100-105 | one label per status |
| ProjectsList.ActionFor | components/projects/projects-list.tsx:274-284 | disabled iff locked, outline iff completed, labelled by status |
| ProjectsList.MarkerFor | components/projects/projects-list.tsx:254-264 | a progress bar iff in progress, the finished marker iff completed |
| ProjectDetail.HeroFor | components/projects/project-detail.tsx:90-101 | not found iff unknown; the list's deadline; "Commencer le projet" iff progress 0 |
| ProjectSteps.StepsOf | components/projects/project-steps.tsx:272 | an unknown project has no steps |
| ProjectSteps.ChecklistKeyInjective | components/projects/project-steps.tsx:275 | different (step, item) pairs have different keys |
| ProjectSteps.ToggleKey | components/projects/project-steps.tsx:274-280 | the key's override is negated (absent becomes true), other keys kept |
| ProjectSteps.ToggleKeyTwice | components/projects/project-steps.tsx:274-280 | toggling twice restores every override |
| ProjectSteps.IsChecked | components/projects/project-steps.tsx:390 | completed items stay checked; others are checked iff overridden |
| ProjectSteps.ToggleTouchesOneItem | components/projects/project-steps.tsx:274-280 | toggling one item leaves every other item's mark unchanged |
| ProjectSteps.CompletedCount | components/projects/project-steps.tsx:299 | at most the number of steps |
| ProjectSteps.AllCompletedIffFull | components/projects/project-steps.tsx:299 | all steps are counted iff all are completed |
| ProjectSteps.ProgressWidth | components/projects/project-steps.tsx:306 | none for no steps; otherwise the completed share of the steps in percent (`Share`), full iff all completed, empty iff none |
| ProjectSteps.ShareScales | components/projects/project-steps.tsx:306 | the share of k out of n, times n, is 100 k |
| ProjectSteps.StatusLabel | components/projects/project-steps.tsx:262-266 | one label per status |
| ProjectSteps.ActionFor | components/projects/project-steps.tsx:416-423 | no button iff completed; filled "Marquer comme terminé" iff in progress |
| ProjectSteps.StepsView.constructor | components/projects/project-steps.tsx:269-272 | the project's steps, no override, nothing expanded |
| ProjectSteps.StepsView.ToggleChecklistItem | components/projects/project-steps.tsx:274-280 | the checklist becomes `ToggleKey` of the old one |
| ProjectSteps.StepsView.ToggleExpand | components/projects/project-steps.tsx:324 | the open step collapses, any other opens; at most one is open |
| ProjectSubmission.ValidFiles | components/projects/project-submission.tsx:154-160 | an order-keeping subsequence of exactly the allowed files, each as many times as in the input |
| ProjectSubmission.Upload | components/projects/project-submission.tsx:162-169 | one uploaded entry per valid file, in order |
| ProjectSubmission.WithoutId | components/projects/project-submission.tsx:173-175 | every entry with that id removed, the others kept in order and as many times as before |
| ProjectSubmission.IconFor | components/projects/project-submission.tsx:100-120 | spreadsheet before pdf, exactly one category |
| ProjectSubmission.WorkbookIcon | components/projects/project-submission.tsx:100-106 | the macro workbook type gets the spreadsheet icon |
| ProjectSubmission.PdfTypeIcon | components/projects/project-submission.tsx:107-113 | the pdf type gets the pdf icon |
| ProjectSubmission.SubmissionForm.constructor | components/projects/project-submission.tsx:123-124 | the form starts empty |
| ProjectSubmission.SubmissionForm.HandleFiles | components/projects/project-submission.tsx:153-171 | the allowed files are appended in order; the list never shrinks |
| ProjectSubmission.SubmissionForm.RemoveFile | components/projects/project-submission.tsx:173-175 | the list becomes `WithoutId` of the old one |
| ProjectSubmission.SubmissionForm.SetDescription | components/projects/project-submission.tsx:264 | the description is the typed text |
| ProjectSubmission.SubmissionForm.Submit | components/projects/project-submission.tsx:177-189 | refused without change iff no file; otherwise both fields sent and cleared |
| Db.ApplyUpdate | backend/app/api/exercises.py:70-83 | sent columns take the sent values, the others keep theirs |
| Db.SetHiddenQuery | backend/app/api/exercises.py:88-98 | only `is_hidden` is updated, for the row of that id |
| Db.RestoreUndoesDelete | backend/app/api/exercises.py:85-103 | restore after delete gives the row back marked visible |
| Db.RowReply | backend/app/api/exercises.py:64-67 | 500 iff error, 404 iff no row, else 200 with the first row |
| Db.InsertReply | backend/app/api/exercises.py:26-30 | 500 on error or no row, else 201 with the row |
| Db.ListReply | backend/app/api/exercises.py:56-58 | 500 iff error, else 200 with the rows |
| Exercises.FirstIndexOf | backend/app/api/exercises.py:13 | the first position of the character, or none iff absent |
| Exercises.TokenOf | backend/app/api/exercises.py:13 | the token is everything after "Bearer " |
| Exercises.GetCurrentTeacher | backend/app/api/exercises.py:8-16 | 401 iff no header starting with "Bearer ", 403 iff the rest is not the token, teacher iff exactly "Bearer " + token |
| Exercises.ExtraSpaceForbidden | backend/app/api/exercises.py:13-15 | two spaces after the scheme give 403 |
| Exercises.LowerCaseSchemeUnauthorized | backend/app/api/exercises.py:11-12 | a lower-case scheme gives 401 |
| Exercises.Guarded | backend/app/api/exercises.py:9-16 | 401 and 403 come before the endpoint's own reply |
| Exercises.EqIfTruthy | backend/app/api/exercises.py:51-54 | the condition is there iff the argument is non-empty |
| Exercises.ListExercisesQuery | backend/app/api/exercises.py:48-55 | hidden rows excluded, filters iff non-empty, exactly `limit` positions from `offset` |
| Exercises.ListExercises | backend/app/api/exercises.py:32-58 | 422 iff the bounds fail, otherwise the listing's reply |
| Exercises.ByCourseQuery | backend/app/api/exercises.py:108-111 | that course's visible exercises, no range |
| Exercises.ByIdQuery | backend/app/api/exercises.py:62-63 | the one row of that id |
| Exercises.GetExercise | backend/app/api/exercises.py:60-68 | 404 iff no row, 500 iff error, else 200 with the row |
| Exercises.CreateExercise | backend/app/api/exercises.py:18-30 | 401/403 unless teacher, otherwise the insert's reply |
| Exercises.UpdateExercise | backend/app/api/exercises.py:70-83 | 401/403 unless teacher, otherwise the update of the sent fields |
| Exercises.DeleteExercise | backend/app/api/exercises.py:85-93 | 401/403 unless teacher, otherwise hides the row |
| Exercises.RestoreExercise | backend/app/api/exercises.py:95-103 | 401/403 unless teacher, otherwise shows the row again |
| Exercises.ExercisesByCourse | backend/app/api/exercises.py:105-116 | 500 iff error, else the course's visible exercises; as declared no request reaches it (see `ByCourseUnreachable`) |
| Exercises.FirstAccepting | backend/app/api/exercises.py:18-105 | the first route in declaration order that takes the request, none iff no route does |
| Exercises.Dispatch | backend/app/api/exercises.py:18-105 | no endpoint iff no route takes the request, otherwise the endpoint of a route that takes it |
| Exercises.ByCourseUnreachable | backend/app/api/exercises.py:60-105 | as declared, no GET request is handled by `get_exercises_by_course`: `get_exercise` takes every path it would |
| Exercises.ByCourseReachable | backend/app/api/exercises.py:60-105 | with its own path the by-course listing handles every course id, and `get_exercise` still gets its requests |
| Courses.ListCoursesQuery | backend/app/api/courses.py:20-31 | visible courses by ascending `order_index`, exactly `limit` positions |
| Courses.ListCourses | backend/app/api/courses.py:19-34 | no bounds check; error iff the database fails |
| Courses.GetCourse | backend/app/api/courses.py:36-44 | 404 iff no row, 500 iff error, else 200 with the row |
| Courses.ResolveTeacherId | backend/app/api/courses.py:52-54 | the header's id if non-empty, else the body's, none iff both empty |
| Courses.CourseData | backend/app/api/courses.py:55-56 | the body's fields with `teacher_id` set to the resolved id |
| Courses.CreateCourse | backend/app/api/courses.py:46-62 | 400 iff neither id is given, otherwise the insert's reply; no teacher check |
| Courses.DeleteCourse | backend/app/api/courses.py:64-75 | 401/403 unless teacher, otherwise hides the course |
| Courses.RestoreCourse | backend/app/api/courses.py:77-87 | 401/403 unless teacher, otherwise shows it again |
| Courses.UpdateCourse | backend/app/api/courses.py:89-102 | 401/403 unless teacher, otherwise updates the fields that were set |

The courses router's `get_current_teacher` (backend/app/api/courses.py:9-17)
is the same code as the exercises router's. The model uses
`Exercises.GetCurrentTeacher` for both routers.

## Left out

- The Supabase client and the HTTP transport are outside the model. The database is a function parameter.
- Routing is modelled only for the exercises router's own routes, with a path already split at its slashes. The router tries routes in declaration order and the first full match wins. Redirects for trailing slashes, the 405 for a path that only another verb takes, and the other routers' routes are left out.
- `single()` is a flag on the query. Its row-count errors are not modelled.
- Reply status codes are modelled from `response.error` as the routers read it. A client that raises instead of returning an error is outside the model.
- Pydantic body validation is not modelled. So required schema fields on a PATCH, and the 422 for a malformed body, are left out. Only the query bounds of the exercise listing are modelled.
- JSON parsing and serialising of the cookie value, and `encodeURIComponent`/`decodeURIComponent` in the cookie helpers, are left out.
- Clocks are left out. `Date.now()` and the parsing of date strings become integer milliseconds passed in.
- Floating point is left out.
  - Percentages and widths are exact rationals or rounded integer quotients, so JavaScript's binary rounding is not modelled.
  - `formatFileSize` in the upload form is not modelled.
- `.trim()`, `\s` and `toLowerCase()` are modelled on ASCII characters only. Unicode spaces and case mappings are not modelled. String length counts characters, not UTF-16 code units.
- `setInterval`, the `visibilitychange` listener and the effect hooks become step methods the environment calls. Interval clean-up and scheduling are not modelled.
- The countdown interval keeps firing after it reaches 0. `TestTaking.TestSession.Tick` then submits again on each tick.
- `alert`, `console.log`, navigation (`router.push`, links) and toasts are left out. Only the decision to show them is modelled.
- `markStepComplete` in the project steps only logs, so it has no state change to model.
- Mock data, icons, colours and other purely visual markup are left out.
- The test results page reuses the overview's lookup for its not-found view (components/tests/test-results.tsx:102-113). `TestOverview.FindTest` serves both.
- The project page's `getDaysUntilDue` (components/projects/project-detail.tsx:80-86) is the same computation as the list's. `ProjectDetail.HeroFor` reuses `ProjectsList.DeadlineFor`.
- ProjectSubmission.IconFor: only the spreadsheet and pdf types are proved to get their icons. The docx type's generic icon follows from the two iffs but has no lemma of its own.
- CourseDetail.CourseDetailPage.constructor: the initial selection is taken as given. The route's initial `selectedLesson` has no `displayType`, so `CourseDetail.UntaggedSelectionNotFound` shows it is never found in the content.
- TestTaking.ProgressPercent: progress is an exact rational. A key that is not a question id could push it beyond 100; `TestTaking.ProgressAtMostHundred` assumes it does not.
- TestResults.AverageTime: the average is the exact rational. An empty list, which gives NaN in the source, is `None`.
- CoursePage.ProgressPercentage: a course without lessons, which gives NaN in the source, is `None`.

## Findings

| source | as written | input that shows it | evidently intended | confidence | as-written member | corrected member |
|---|---|---|---|---|---|---|
| components/tests/test-taking.tsx:106-120 | the interval is created once (`[]` dependencies), so its auto-submit calls the first render's `handleSubmitTest`, which sees no answers and 1800 s left | answer any question, then let the countdown reach 0: the report has answers `{}` and time spent 0 | auto-submit reports the current answers and 1800 s spent | not executed | TestTaking.StaleAutoSubmitLosesWork | TestTaking.TestSession.Tick |
| components/tests/test-results.tsx:301-302 | the minutes of a question's time are `Math.round(t / 60)` beside seconds `t % 60` | t = 90 shows "2:30" (and 150 shows "3:30") | whole minutes, `Math.floor(t / 60)`, so the label reads back as t | not executed | TestResults.QuestionTimeLabelOverstates | TestResults.QuestionTimeLabelFloorReadsBack |
| backend/app/api/exercises.py:60-106 | `GET /exercises/{course_id}` is declared after `GET /exercises/{exercise_id}`; both templates take any one segment, and the first full match wins | `GET /exercises/c1` runs `get_exercise` with id `c1` (a 404 unless an exercise has that id), never `get_exercises_by_course` | the by-course listing reachable under a path of its own, such as `/exercises/course/{course_id}` | not executed | Exercises.ByCourseUnreachable | Exercises.ByCourseReachable |
