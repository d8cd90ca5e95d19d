# vivolearn core, modelled in Dafny

vivolearn is an e-learning site: instructors build courses out of runs
(scheduled offerings), sections, lessons and quizzes; students apply to a
run with a payment receipt, are approved or rejected by the course's
instructor or an admin, follow the lessons, record their progress and take
graded quizzes. This project models the rules at the heart of the site:

- the enrollment rule engine: the ordered gates of an application, the
  application window, the seat cap, the keyed upsert of the application
  row, and the approve/reject decision with its approval cap (`Enrollment`);
- the quiz engine: quiz, question and option creation, the correct-option
  toggle, the grading loop with its early errors, the rounded percentage
  score, the pass rule and the one-attempt-per-student upsert
  (`QuizActions`), and the student's quiz form (`QuizForm`, a class whose
  fields are the form's state);
- curriculum ordering: the editor's sorted initial state, the section and
  lesson drags with the reorder requests they send, the local rename and
  delete updates (`Curriculum`), and the two-phase reorder actions on the
  datastore (`Reorder`);
- the course actions: course, run, section and lesson creation with their
  gates, the course rollback, next-position computation, schedule and
  lesson updates (`CourseActions`), and the slug of a course title (`Slug`);
- authorization: `hasRole`, the fail-closed current profile (`Auth`), the
  admin-only role change (`Admin`), and the owner-or-admin scopes of the
  instructor dashboard and applications listing (`InstructorPage`,
  `ApplicationsPage`);
- the pure helpers: the Google Drive URL normaliser (`DriveUrl`), the
  open/upcoming/past split of the catalogue (`Catalog`), the application
  form's window test and initial choices (`ApplicationForm`), lesson
  progress (`LessonProgress`) and the student profile page's progress
  summary and labels (`ProfilePage`).

The datastore is a class, `Store.Db`, holding one `map` per table keyed by
row id (progress and quiz attempts are keyed by their unique column pairs),
and a counter standing for generated keys. Its invariant `Valid` keeps each
key equal to its row's id and the `(student, run)` uniqueness of
enrollments; one quiz per lesson is kept by `CreateQuizForLesson` only when
its count read succeeds. Server actions are methods that take the
`Db`, the caller's profile, the payload, the current time and, where the
datastore may refuse a write, a boolean saying whether it does. Each is
proved against its gate function (which error, if any, it returns) and
against a pure function describing the new table. `Seqs` holds the list
operations the code relies on (`filter`, `findIndex`, `splice`,
`arrayMove`, a stable sort), each proved against its meaning.

## Model

| member | source | states |
|---|---|---|
| Auth.CurrentProfile | src/lib/auth.ts:37-56 | fails closed: no authenticated user, or no profile row for the user, gives no profile; a profile returned is the user's own row |
| Auth.HasRole | src/lib/auth.ts:58-61 | no profile is never accepted; an empty role list accepts no one |
| Auth.HasRoleIsMembership | src/lib/auth.ts:60 | for a present profile, acceptance is exactly membership of its role in the list |
| Auth.HasRoleMonotone | src/lib/auth.ts:60 | widening the accepted roles never turns acceptance into refusal |
| Auth.StaffGate | src/lib/auth.ts:58-61 | the instructor-or-admin gate holds exactly for a present profile whose role is not student |
| Admin.SetRole | src/app/actions/admin.ts:21-25 | the target row, if present, takes the new role and keeps every other field; every other profile is untouched; a missing id changes nothing |
| Admin.SetRoleIdempotent | src/app/actions/admin.ts:21-25 | applying the same role change twice equals applying it once |
| Admin.SetRoleUndo | src/app/actions/admin.ts:21-25 | setting the previous role back restores the table |
| Admin.UpdateUserRole | src/app/actions/admin.ts:15-33 | a missing or non-admin caller is refused first, then a store error; any failure leaves profiles unchanged; success writes exactly the role change, to any of the three roles |
| LessonProgress.ProgressRow | src/app/actions/progress.ts:29-36 | the written row is consistent: completion flag as given, last-viewed time is now, completion time is now exactly when completed |
| LessonProgress.Upsert | src/app/actions/progress.ts:26-38 | the table gains or replaces exactly the row keyed by (student, run, lesson); all other rows are unchanged |
| LessonProgress.UpsertOverwrites | src/app/actions/progress.ts:26-38 | a second call for the same key overwrites the first entirely, so at most one row per key exists |
| LessonProgress.UpsertKeepsConsistent | src/app/actions/progress.ts:33-35 | if every row has a completion time exactly when completed, the upsert keeps that true |
| LessonProgress.UnmarkClearsCompletion | src/app/actions/progress.ts:35 | unmarking a lesson clears its completion time |
| LessonProgress.UpdateLessonProgress | src/app/actions/progress.ts:13-47 | no profile gives the login error and no write (there is no enrollment check); a store error writes nothing; success upserts the row and returns the stored last-viewed time |
| DriveUrl.PrefixEnd | src/lib/utils.ts:36-38 | `https?://drive.google.com/<path>` matched at a position ends strictly after it, inside the string, for both the `http` and `https` schemes |
| DriveUrl.RunEnd | src/lib/utils.ts:36-38 | the greedy run of non-stop characters: every character before the end differs from the stop character, and the end is the string's end or a stop character |
| DriveUrl.FirstMatch | src/lib/utils.ts:36-38 | the leftmost position where the unanchored expression matches, and no match anywhere before it |
| DriveUrl.Capture | src/lib/utils.ts:36-38 | the capture group is the non-empty, maximal run of non-stop characters right after the prefix |
| DriveUrl.NormalizeCases | src/lib/utils.ts:32-45 | an unrecognised URL comes back trimmed and otherwise unchanged; a recognised one yields exactly `https://drive.google.com/file/d/<id>/preview` with a non-empty id |
| DriveUrl.NormalizeDependsOnTrim | src/lib/utils.ts:33 | the result depends on the input only through its trimmed form |
| DriveUrl.ShapePrecedence | src/lib/utils.ts:35-38 | the `file/d/` shape wins whenever it matches anywhere, even after an earlier `open?id=`; then `open?id=`; then `uc?id=` |
| DriveUrl.IdAlphabet | src/lib/utils.ts:36-38 | a `file/d/` id holds no `/`; an `open?id=` or `uc?id=` id holds no `&` |
| DriveUrl.RunEndUnique | src/lib/utils.ts:36-38 | the end of a maximal run is unique, so the captured id is determined |
| DriveUrl.CanonicalMatchesFile | src/lib/utils.ts:36-41 | the canonical form of an id not starting with `/` is itself recognised by the `file/d/` shape, at position 0 |
| DriveUrl.NormalizeOfCanonical | src/lib/utils.ts:36-41 | normalising a canonical URL keeps the id up to its first `/` |
| DriveUrl.NormalizeIdempotent | src/lib/utils.ts:32-45 | normalising twice equals normalising once whenever the extracted id holds no `/` (always so for the `file/d/` shape) |
| DriveUrl.SlashExampleHasNoFileShape | src/lib/utils.ts:36 | the URL `https://drive.google.com/open?id=a/b` has no `file/d/` match |
| DriveUrl.SlashExampleOpenId | src/lib/utils.ts:37 | that URL's `open?id=` capture is `a/b` |
| DriveUrl.SlashExampleId | src/lib/utils.ts:35-38 | that URL's extracted id is `a/b` |
| DriveUrl.SlashExampleSecondPass | src/lib/utils.ts:36-41 | normalising the canonical form of `a/b` gives the canonical form of `a`, which differs |
| DriveUrl.NotIdempotentForSlashInId | src/lib/utils.ts:32-45 | without the no-`/` condition idempotence fails: on that URL the second pass changes the result |
| Catalog.BucketOf | src/lib/courses.ts:40-54 | open iff some run has started and not ended (both ends inclusive, no end means open-ended); upcoming iff not open and some run starts after now; past otherwise |
| Catalog.NoRunsIsPast | src/lib/courses.ts:38-54 | a course without runs is past |
| Catalog.EndedRunsArePast | src/lib/courses.ts:40-54 | a course whose every run has ended is past |
| Catalog.InBucket | src/lib/courses.ts:37-55 | a bucket holds only courses of that bucket, in input order |
| Catalog.BucketsPartition | src/lib/courses.ts:37-55 | the three buckets together are the input: every course lands in exactly one bucket, as often as it occurs |
| Catalog.PartitionCoursesByRunState | src/lib/courses.ts:31-58 | the loop pushing each course onto its bucket's array builds exactly the three order-preserving buckets |
| ApplicationForm.OpenIffNotOutside | src/components/course-application-form.tsx:19-26 | the form's open test is exactly the negation of the apply action's out-of-window test, so form and server agree |
| ApplicationForm.WindowInclusive | src/components/course-application-form.tsx:21-25 | both window ends are inside the window; a window without an end stays open from its start; before the start it is closed |
| ApplicationForm.OpenRuns | src/components/course-application-form.tsx:39 | the open runs are exactly the listed runs open now |
| ApplicationForm.FirstOpenRun | src/components/course-application-form.tsx:39 | the first open run of the listing heads the open runs, so the filter keeps order |
| ApplicationForm.NoOpenRun | src/components/course-application-form.tsx:39 | with no open run the open runs are empty |
| ApplicationForm.InitialSelectionCases | src/components/course-application-form.tsx:41-43 | the preselected run is the existing application's run, else the first open run, else the first run, else none (the empty string) |
| ApplicationForm.StatusText | src/components/course-application-form.tsx:66-72 | no status line without an application; approved, requested and rejected each get their own line, rejected being the fallback |
| Enrollment.ApprovedWithinActive | src/app/actions/courses.ts:568-572 | the approved rows of a run never outnumber its non-rejected rows |
| Enrollment.ActiveKeysUpdate | src/app/actions/courses.ts:652-656 | writing one row moves at most that row in or out of a run's non-rejected set |
| Enrollment.ApprovedKeysUpdate | src/app/actions/courses.ts:568-572 | writing one row moves at most that row in or out of a run's approved set |
| Enrollment.ApplyGate | src/app/actions/courses.ts:606-662 | the checks fire in order (login, non-blank receipt, run exists and belongs to the course, inclusive application window with its fallbacks, seat cap on non-rejected rows unless the student is seen to hold an active application); each error holds exactly when the earlier checks pass and its own fails; a failed read of the student's row reads as no row and a failed count as 0 |
| Enrollment.UpsertApplicationRow | src/app/actions/courses.ts:664-675 | after the upsert exactly one row holds (student, run); it is `requested` with the new receipt and no decision time even if it was approved before; an existing row keeps its id and creation time; every other row is untouched; uniqueness is kept |
| Enrollment.UpsertOverExisting | src/app/actions/courses.ts:664-675 | on a table unique on (student, run), the upsert over an existing row renews that row in place |
| Enrollment.RenewActiveCount | src/app/actions/courses.ts:664-675 | renewing a row raises its run's non-rejected count by one exactly when the row was rejected |
| Enrollment.InsertActiveCount | src/app/actions/courses.ts:664-675 | inserting a new requested row raises only its own run's non-rejected count, by one |
| Enrollment.UpsertActiveCount | src/app/actions/courses.ts:649-675 | the upsert adds one non-rejected row to the run exactly when the student held no active application there; other runs keep their counts |
| Enrollment.UpsertKeepsKeys | src/app/actions/courses.ts:664-675 | the upsert keeps every key equal to its row's id and below the next generated key |
| Enrollment.ApplyKeepsCapacity | src/app/actions/courses.ts:649-675 | if a run's non-rejected rows were within its numeric limit, an application the gate accepts after reading the count keeps them within it, even when the student's own row could not be read |
| Enrollment.ApplyCountFailureOpensCap | src/app/actions/courses.ts:652-660 | when the count read fails, an application to a full run with a positive limit passes the gate and the upsert takes the run one row over its limit |
| Enrollment.ApplyToCourse | src/app/actions/courses.ts:606-686 | a gate error or a store error is returned with no write; success performs exactly the keyed upsert; the gate is taken with the outcomes of the two unchecked reads |
| Enrollment.DecideGate | src/app/actions/courses.ts:540-577 | missing enrollment, then missing run, then the approval cap (approving a not-yet-approved row on a run with a numeric limit whose approved count has reached it, a failed count reading as 0); rejecting never hits the cap |
| Enrollment.DecideKeepsApprovalCapacity | src/app/actions/courses.ts:563-587 | a decision the gate lets through after reading the count never takes any run's approved count above its numeric limit |
| Enrollment.DecideCountFailureOpensCap | src/app/actions/courses.ts:568-576 | when the count read fails, approving a pending row of a run whose approvals fill a positive limit passes the gate and the write takes the run one approval over its limit |
| Enrollment.UpdateEnrollmentStatus | src/app/actions/courses.ts:540-598 | gate errors and store errors write nothing; success changes only `status` and `decided_at` of that one row |
| CourseActions.NextIndexUnique | src/app/actions/courses.ts:230-239 | the next index is determined by the rows in scope: one more than their largest index, or 0 |
| CourseActions.NextOrderIndex | src/app/actions/courses.ts:230-239 | the loop returns an index above every existing one in scope, equal to the largest plus one, or 0 when the scope is empty |
| CourseActions.CreateCourseGate | src/app/actions/courses.ts:33-49 | the role check precedes every field check; then non-blank title, access start, application start, each error holding exactly when the earlier checks pass and its own fails |
| CourseActions.CourseSlugShape | src/app/actions/courses.ts:52-53 | the slug is a well-formed slug of the title, a dash, then the suffix |
| CourseActions.CourseRow | src/app/actions/courses.ts:55-63 | the new course is owned by its author and carries the title and slug |
| CourseActions.AddFirstRunAndSection | src/app/actions/courses.ts:76-97 | the course's first run is written without a label, then a default section "Genel" at index 0 unless that insert fails, which is ignored |
| CourseActions.WriteNewCourse | src/app/actions/courses.ts:65-97 | when the run insert fails no run or section is written and the course row is deleted again, or stays behind when that delete fails too; otherwise course, run and default section are written |
| CourseActions.CreateCourse | src/app/actions/courses.ts:33-102 | gate errors and a failed course insert write nothing; a failed run insert writes no run or section and leaves the course table as it was, except for the orphaned course row when the rollback delete fails; success writes the owned course, its run and its default section |
| CourseActions.CreateCourseRun | src/app/actions/courses.ts:114-141 | only the access start is required (no role check); a failed insert writes nothing; success adds the run |
| CourseActions.ScheduleGate | src/app/actions/courses.ts:153-176 | login, then an existing course, then owner-or-admin, and only then the access-start check |
| CourseActions.Reschedule | src/app/actions/courses.ts:178-192 | only a run matching both the run id and the course id takes the new dates and limit; every other run is untouched |
| CourseActions.UpdateCourseSchedule | src/app/actions/courses.ts:153-202 | gate errors and a store error write nothing; success is exactly the filtered update |
| CourseActions.LessonGate | src/app/actions/courses.ts:215-228 | a blank title or video address is refused first; then a missing section or one whose course differs from the payload |
| CourseActions.CreateLesson | src/app/actions/courses.ts:214-260 | refused or failed inserts write nothing; success adds one lesson with the normalised video address, at the given index, else after the section's last lesson, or at 0 when the unchecked read of the highest index fails |
| CourseActions.SectionGate | src/app/actions/courses.ts:268-291 | role, then non-blank title, then an existing course, then owner-or-admin |
| CourseActions.CreateCourseSection | src/app/actions/courses.ts:268-319 | refused or failed inserts write nothing; success adds one section at the given index, else after the course's last section, or at 0 when the unchecked read of the highest index fails |
| CourseActions.ApplyPatch | src/app/actions/courses.ts:393-399 | each supplied field overwrites the row (a video address normalised); unsupplied fields and the ids keep their values |
| CourseActions.EmptyPatchIsIdentity | src/app/actions/courses.ts:393-399 | a patch with no fields changes nothing |
| CourseActions.UpdateLesson | src/app/actions/courses.ts:382-414 | a store error writes nothing; success patches only the row matching both the lesson id and the course id |
| Text.TrimStart | src/lib/utils.ts:33 | removes exactly the leading white space: what is dropped is white space and the rest does not start with it |
| Text.TrimEnd | src/lib/utils.ts:33 | removes exactly the trailing white space |
| Text.TrimOfTrimmed | src/lib/utils.ts:33 | a string that neither starts nor ends with white space is its own trim |
| Text.TrimIdempotent | src/lib/utils.ts:33 | trimming twice is trimming once |
| Text.BlankIffAllWhitespace | src/app/actions/courses.ts:39 | the `!s.trim()` test holds exactly when every character is white space |
| Slug.Lower | src/app/actions/courses.ts:14 | lower-casing keeps the length and maps each character on its own |
| Slug.SkipRun | src/app/actions/courses.ts:16 | a run of characters outside `a-z0-9` is dropped as a whole, up to the next letter or digit |
| Slug.Alnums | src/app/actions/courses.ts:12-18 | the letters and digits of a string, in order, never longer than the string |
| Slug.AlnumsAppend | src/app/actions/courses.ts:12-18 | the letters and digits of a concatenation are those of its parts |
| Slug.AlnumsOfNone | src/app/actions/courses.ts:16 | a string without letters or digits has none to keep |
| Slug.AlnumsOfSuffix | src/app/actions/courses.ts:15-17 | dropping leading non-alphanumerics keeps the letters and digits |
| Slug.AlnumsOfPrefix | src/app/actions/courses.ts:15-17 | dropping trailing non-alphanumerics keeps the letters and digits |
| Slug.ReplaceRunsShape | src/app/actions/courses.ts:16 | the run replacement yields only `a-z`, `0-9` and single dashes, starting with a dash exactly when the input starts outside `a-z0-9` |
| Slug.ReplaceRunsAlnums | src/app/actions/courses.ts:16 | the run replacement keeps every letter and digit, in order |
| Slug.ReplaceRunsOfDashSeparated | src/app/actions/courses.ts:16 | on an already dash-separated string the run replacement changes nothing |
| Slug.StripDashesIsSlug | src/app/actions/courses.ts:17 | dropping the end dashes of a dash-separated string leaves no dash at either end |
| Slug.StripDashesAlnums | src/app/actions/courses.ts:17 | dropping the end dashes keeps the letters and digits |
| Slug.StripDashesOfSlug | src/app/actions/courses.ts:17 | a slug has no end dash to drop |
| Slug.LowerOfSlug | src/app/actions/courses.ts:14 | lower-casing leaves a dash-separated string alone |
| Slug.SlugifyIsSlug | src/app/actions/courses.ts:12-18 | the output holds only `a-z`, `0-9` and `-`, never `--`, and no dash at either end |
| Slug.SlugifyKeepsAlnums | src/app/actions/courses.ts:12-18 | the output keeps exactly the letters and digits of the lower-cased input, in order |
| Slug.SlugifyOfSlug | src/app/actions/courses.ts:12-18 | a slug is its own slug |
| Slug.SlugifyIdempotent | src/app/actions/courses.ts:12-18 | slugifying twice equals slugifying once |
| Reorder.Pass | src/app/actions/courses.ts:450-473 | one pass of updates, one per listed id in list order: every key stays; a listed row in scope whose update succeeds takes its position plus the offset |
| Reorder.PassAt | src/app/actions/courses.ts:450-473 | over distinct ids, a listed row of the scope whose update succeeded holds its position plus the offset |
| Reorder.PassUntouched | src/app/actions/courses.ts:455-471 | a row outside the course (or section), or listed only where updates failed, is untouched |
| Reorder.PassKeeps | src/app/actions/courses.ts:454-469 | a pass changes only `order_index`: the parent course and section of every row are kept |
| Reorder.TwoPassesAsOne | src/app/actions/courses.ts:450-478 | two clean passes over distinct ids equal the second pass alone: the temporary `+1000` indexes leave no trace |
| Reorder.RunPass | src/app/actions/courses.ts:450-463 | the batch of updates yields exactly the pass, and reports an error exactly when some update of the batch failed |
| Reorder.ReorderCourseSections | src/app/actions/courses.ts:443-483 | an empty list is a no-op success; a failed first pass returns an error and keeps its partial writes; otherwise the second pass runs and an error in it is returned without rollback |
| Reorder.ReorderedSections | src/app/actions/courses.ts:443-483 | after a fully successful reorder over distinct ids, the `k`-th listed section of the course has index `k` and is otherwise unchanged; the supplied `orderIndex` is ignored; unlisted and other courses' sections are untouched |
| Reorder.FirstPassSections | src/app/actions/courses.ts:450-463 | after a successful first pass every listed section of the course sits at its position plus 1000 |
| Reorder.ReorderLessons | src/app/actions/courses.ts:491-533 | the same two-pass contract for the lessons of one section of one course |
| Reorder.ReorderedLessons | src/app/actions/courses.ts:491-533 | after a fully successful reorder over distinct ids, the `k`-th listed lesson of the section has index `k`; lessons of other sections or courses, and unlisted ones, are untouched |
| QuizActions.LessonOwner | src/app/actions/quiz.ts:28-45 | the owner is the instructor of the lesson's course, and none when the course is missing |
| QuizActions.CreateQuizGate | src/app/actions/quiz.ts:22-56 | role, then an existing lesson, then owner-or-admin, then no quiz yet for the lesson, a failed count reading as none; each error holds exactly when the earlier checks pass and its own fails |
| QuizActions.CreateQuizForLesson | src/app/actions/quiz.ts:15-73 | refused or failed inserts write nothing; success adds exactly one quiz for the lesson, keeping one quiz per lesson when the count was read |
| QuizActions.InsertKeepsOneQuizPerLesson | src/app/actions/quiz.ts:49-68 | adding a quiz for a lesson that has none keeps at most one quiz per lesson |
| QuizActions.SecondQuizRefused | src/app/actions/quiz.ts:49-56 | once a lesson has a quiz every further request for it whose count is read is refused |
| QuizActions.CountFailureAllowsSecondQuiz | src/app/actions/quiz.ts:49-56 | when the count read fails, an owner's request for a lesson that already has a quiz passes the gate and the insert leaves the lesson with two quizzes |
| QuizActions.CreateQuizQuestion | src/app/actions/quiz.ts:81-100 | a blank prompt is refused with no insert; the order index defaults to 0; a failed insert writes nothing |
| QuizActions.CreateQuizOption | src/app/actions/quiz.ts:108-127 | a blank text is refused with no insert; a failed insert writes nothing; success adds the option with its flag |
| QuizActions.SetCorrect | src/app/actions/quiz.ts:136-141 | only `is_correct` of that one option changes; every sibling is untouched |
| QuizActions.SeveralCorrect | src/app/actions/quiz.ts:136-141 | marking a second option correct keeps the first correct: several options may be correct at once |
| QuizActions.SetCorrectUndo | src/app/actions/quiz.ts:136-141 | setting the flag back to its old value restores the table |
| QuizActions.ToggleQuizOptionCorrect | src/app/actions/quiz.ts:134-150 | a missing option or a store error fails with no write; success is exactly the one-flag update |
| QuizActions.CorrectCount | src/app/actions/quiz.ts:203-217 | the number of correctly answered questions never exceeds the number of questions |
| QuizActions.FirstProblemPrefix | src/app/actions/quiz.ts:205-213 | once a prefix of the questions has a problem, grading stops on it whatever follows |
| QuizActions.FirstProblemNone | src/app/actions/quiz.ts:205-213 | grading passes exactly when every question is answered with one of its own options |
| QuizActions.FirstProblemIsFirst | src/app/actions/quiz.ts:205-213 | the reported error is that of the first failing question, unanswered before invalid option |
| QuizActions.CorrectCountFull | src/app/actions/quiz.ts:214-216 | the count equals the number of questions exactly when every answer is correct |
| QuizActions.CorrectCountZero | src/app/actions/quiz.ts:214-216 | the count is zero exactly when no answer is correct |
| QuizActions.CorrectCountIsSetSize | src/app/actions/quiz.ts:203-217 | over a repeat-free listing, the count is the number of correctly answered questions |
| QuizActions.SameListingLength | src/app/actions/quiz.ts:198-203 | two repeat-free listings of the same questions have the same length |
| QuizActions.SameListingCount | src/app/actions/quiz.ts:203-217 | two repeat-free listings of the same questions count alike |
| QuizActions.SameListingProblems | src/app/actions/quiz.ts:205-213 | two listings of the same questions pass or fail grading alike |
| QuizActions.GradingIgnoresOrder | src/app/actions/quiz.ts:198-219 | the datastore's question order does not change the total, the correct count, or whether grading passes |
| QuizActions.Grade | src/app/actions/quiz.ts:203-217 | the loop with early returns yields the first question's problem, or the correct count |
| QuizActions.Score | src/app/actions/quiz.ts:219 | the score is the percentage rounded half up, lies in [0, 100] when correct ≤ total |
| QuizActions.ScoreUnique | src/app/actions/quiz.ts:219 | the score is the only integer within half a point of the percentage (halves rounding up) |
| QuizActions.ScoreExtremes | src/app/actions/quiz.ts:219 | all correct scores 100 and none correct scores 0 |
| QuizActions.ScoreMonotone | src/app/actions/quiz.ts:219 | more correct answers never lower the score |
| QuizActions.SubmitGate | src/app/actions/quiz.ts:169-201 | login, then an approved enrollment on the run, then an existing quiz, then at least one question; each error holds exactly when the earlier checks pass and its own fails |
| QuizActions.RecordAttempt | src/app/actions/quiz.ts:222-234 | the upsert leaves one row per (quiz, student), status submitted, with the submitted answers, the score and the submission time; other rows are untouched |
| QuizActions.Resubmission | src/app/actions/quiz.ts:222-234 | a resubmission replaces answers, score and submission time and keeps the one row and its start time |
| QuizActions.NonEmptyListing | src/app/actions/quiz.ts:198-201 | past the gate the question listing is non-empty, so the score's division is defined |
| QuizActions.SubmitQuizAttempt | src/app/actions/quiz.ts:163-244 | gate and grading errors come before any write; the returned score is the rounded percentage and passed iff score ≥ passing score; a store error writes nothing; success stores the same score |
| Curriculum.Localize | src/components/instructor/curriculum-builder.tsx:99-103 | a fetched section keeps its id, title and order; its lessons, an absent list read as empty, are the same multiset sorted by order index |
| Curriculum.LocalizeAll | src/components/instructor/curriculum-builder.tsx:99-103 | every fetched section localized, position by position |
| Curriculum.SortedInitial | src/components/instructor/curriculum-builder.tsx:94-106 | the editor's initial state: sections sorted by order index, each section's lessons sorted, nothing gained or lost |
| Curriculum.SortedInitialKeepsTies | src/components/instructor/curriculum-builder.tsx:94-106 | sections with equal order index keep their fetched order, and so do the lessons of each section |
| Curriculum.Positions | src/components/instructor/curriculum-builder.tsx:149 | the reorder request gives each id its index in the new order |
| Curriculum.HandleDragEnd | src/components/instructor/curriculum-builder.tsx:135-213 | a drag without a drop target or without a drag type changes nothing and sends nothing; a section drag applies the section move, if any, with its reorder request as the one call; a lesson drag does what the lesson branch does with the target's id and section id |
| Curriculum.DragSectionSpec | src/components/instructor/curriculum-builder.tsx:143-150 | dropping a section on itself does nothing; otherwise the dragged section lands at the target's index, the others keep their relative order, no section is gained or lost, and the request numbers the new order 0, 1, 2, … |
| Curriculum.DragUnknownSection | src/components/instructor/curriculum-builder.tsx:143-145 | an unknown dragged or target section id changes nothing and sends nothing |
| Curriculum.AllLessonIdsUpdate | src/components/instructor/curriculum-builder.tsx:174-186 | replacing one section changes the editor's lesson ids by exactly that section's change |
| Curriculum.LessonIdsRemoveInsert | src/components/instructor/curriculum-builder.tsx:179-184 | removing a lesson drops exactly its id; inserting one adds exactly its id |
| Curriculum.SpliceLesson | src/components/instructor/curriculum-builder.tsx:174-184 | the lesson leaves its source section and enters the target at the insert index with the target section's id; other sections and all titles and orders are untouched; the editor's lesson ids are the same multiset |
| Curriculum.MoveLesson | src/components/instructor/curriculum-builder.tsx:159-213 | missing section ids, unknown sections or a lesson not in its source section change nothing and send nothing (the hovered lesson may be unknown: the lesson then goes to the end); otherwise the splice, then the target's reorder, and for a cross-section move the source's reorder and the lesson's section update, in that order |
| Curriculum.RenameSection | src/components/instructor/curriculum-builder.tsx:318-320 | only the title of the section with that id changes |
| Curriculum.RenameKeepsLessons | src/components/instructor/curriculum-builder.tsx:318-320 | a rename moves no lesson |
| Curriculum.DeleteSection | src/components/instructor/curriculum-builder.tsx:330 | every remaining section is another section, and every other section remains |
| Curriculum.ClearAddForm | src/components/instructor/curriculum-builder.tsx:331-333 | the add-content form closes exactly when it was open under the deleted section |
| Curriculum.DeleteLesson | src/components/instructor/curriculum-builder.tsx:597-606 | only the named section's lesson list changes, and the deleted id no longer occurs in it |
| Curriculum.DeleteLessonKeepsOthers | src/components/instructor/curriculum-builder.tsx:597-606 | every other lesson id occurs as often after the delete as before |
| Curriculum.LessonIdsFilter | src/components/instructor/curriculum-builder.tsx:602 | filtering out one id keeps the count of every other id |
| Seqs.Filter | src/components/instructor/curriculum-builder.tsx:602 | `Array.prototype.filter`: no longer than its input, keeps exactly the items the predicate accepts |
| Seqs.FilterAppend | src/app/instructor/page.tsx:53-56 | filtering a concatenation is concatenating the filtered parts |
| Seqs.FilterAll | src/app/instructor/applications/page.tsx:31-33 | a predicate true of every item keeps the whole list |
| Seqs.FilterNone | src/app/instructor/applications/page.tsx:31-33 | a predicate false of every item keeps nothing |
| Seqs.FilterSplit | src/app/instructor/page.tsx:53-56 | a predicate and its negation split a list into two parts making up the whole multiset |
| Seqs.FilterCount | src/app/instructor/applications/page.tsx:22 | an accepted item keeps every occurrence; a refused one keeps none |
| Seqs.KeptPositions | src/app/instructor/applications/page.tsx:31-33 | the filtered list is the input at strictly increasing positions, so filtering keeps the order |
| Seqs.FilterKeepsAll | src/app/profile/page.tsx:103-109 | nothing is dropped exactly when every item satisfies the predicate |
| Seqs.FilterSorted | src/app/instructor/applications/page.tsx:31-33 | filtering a sorted list leaves it sorted |
| Seqs.FindIndex | src/components/instructor/curriculum-builder.tsx:143-144 | `Array.prototype.findIndex`: the first index satisfying the predicate, or -1 when there is none |
| Seqs.RemoveAt | src/components/instructor/curriculum-builder.tsx:179 | `splice(k, 1)`: the items before `k` stay, later ones shift down by one, and exactly one occurrence of `s[k]` is lost |
| Seqs.InsertAt | src/components/instructor/curriculum-builder.tsx:184 | `splice(k, 0, x)`: `x` sits at `k`, earlier items stay, later ones shift up by one |
| Seqs.RemoveInsertedAt | src/components/instructor/curriculum-builder.tsx:179-184 | removing what was just inserted at the same index restores the list |
| Seqs.ArrayMove | src/components/instructor/curriculum-builder.tsx:146 | the moved item lands at the target index and the rest keep their relative order, as a permutation |
| Seqs.InsertByKey | src/components/instructor/curriculum-builder.tsx:98 | inserting into a sorted list keeps it sorted and adds exactly the one item |
| Seqs.SortBy | src/components/instructor/curriculum-builder.tsx:96-98 | the result is sorted by the key and is a permutation of the input |
| Seqs.InsertByKeyTies | src/components/instructor/curriculum-builder.tsx:96-98 | a sorted insertion puts the new item after every item of equal key and keeps their order |
| Seqs.SortByStable | src/components/instructor/curriculum-builder.tsx:96-98 | the sort is stable: for every key, the items with that key appear in their input order |
| Seqs.DistinctCard | src/app/actions/quiz.ts:198-219 | a repeat-free list has as many elements as its set |
| ApplicationsPage.Pending | src/app/instructor/applications/page.tsx:16-23 | the query keeps every requested enrollment, as often as fetched, and nothing else, oldest first |
| ApplicationsPage.ApplicationsFor | src/app/instructor/applications/page.tsx:31-33 | the listing holds exactly the pending rows the viewer may decide on |
| ApplicationsPage.AdminSeesAll | src/app/instructor/applications/page.tsx:31-33 | an admin's listing is the whole pending listing in its order |
| ApplicationsPage.NoProfileSeesNothing | src/app/instructor/applications/page.tsx:31-33 | without a profile the listing is empty |
| ApplicationsPage.OthersSeeOwnCourses | src/app/instructor/applications/page.tsx:31-33 | a non-admin sees a row exactly when it is a requested enrollment on a course they teach |
| ApplicationsPage.ListingKeepsOrder | src/app/instructor/applications/page.tsx:23-33 | the page filter keeps the query's oldest-first order |
| ApplicationsPage.ListingBounded | src/app/instructor/applications/page.tsx:16-33 | the listing is no longer than the pending rows, which are no more than the fetched rows |
| InstructorPage.Dashboard | src/app/instructor/page.tsx:14-26 | the dashboard lists exactly the courses in the viewer's scope, newest first |
| InstructorPage.AdminAndAnonymousScopes | src/app/instructor/page.tsx:21-26 | an admin sees every course; without a profile the empty instructor id matches none |
| InstructorPage.TotalEnrollments | src/app/instructor/page.tsx:49-52 | a course without runs has no enrollments |
| InstructorPage.ApprovedEnrollments | src/app/instructor/page.tsx:53-56 | a course without runs has no approved enrollments |
| InstructorPage.TotalsCountEnrollments | src/app/instructor/page.tsx:49-56 | the two folds count all of the course's enrollments and its approved ones, across runs |
| InstructorPage.ApprovedAtMostTotal | src/app/instructor/page.tsx:49-56 | approved never exceeds total, and equals it exactly when every enrollment is approved |
| InstructorPage.Schedule | src/app/instructor/page.tsx:57 | the first run, and none exactly when the course has no runs |
| ProfilePage.LookupHasKey | src/app/profile/page.tsx:37-40 | a (run, lesson) key is in the lookup exactly when some progress row carries it |
| ProfilePage.LastWins | src/app/profile/page.tsx:37-40 | for a repeated key the lookup holds the last row's progress |
| ProfilePage.BuildProgressMap | src/app/profile/page.tsx:37-40 | the `forEach` loop builds the lookup that setting the rows in turn defines |
| ProfilePage.CompletedCount | src/app/profile/page.tsx:103-106 | the completed count lies between 0 and the number of lessons |
| ProfilePage.AllTheoryMeansEveryLesson | src/app/profile/page.tsx:103-109 | all theory is complete exactly when there is a lesson and every lesson has a completed progress row on this enrollment's run |
| ProfilePage.ContinueNeedsApprovalAndLessons | src/app/profile/page.tsx:148 | the continue link is marked enabled (not `aria-disabled`) exactly for an approved enrollment whose every lesson, of at least one, is complete |
| ProfilePage.RoleLabel | src/app/profile/page.tsx:166-175 | each role has its own label, and each label names one role |
| ProfilePage.StatusLabel | src/app/profile/page.tsx:177-186 | each enrollment status has its own label, and each label names one status |
| ProfilePage.StatusVariant | src/app/profile/page.tsx:188-197 | each enrollment status has its own badge colour |
| ProfilePage.BadgeAgrees | src/app/profile/page.tsx:177-197 | a badge's colour and its text always name the same status |
| QuizForm.InitialAnswers | src/components/quiz/quiz-attempt-form.tsx:25-26 | the stored attempt's answers, or none |
| QuizForm.InitialResult | src/components/quiz/quiz-attempt-form.tsx:30-34 | a result exactly for a stored attempt with a score, passed by the server's own rule |
| QuizForm.LockNeedsStoredAttempt | src/components/quiz/quiz-attempt-form.tsx:37 | a form opened without a stored attempt is never locked |
| QuizForm.ReopenShowsSubmission | src/components/quiz/quiz-attempt-form.tsx:25-37 | reopening after a stored submission shows its answers, score and verdict, locked |
| QuizForm.ChooseAnswer | src/components/quiz/quiz-attempt-form.tsx:85-88 | a locked form ignores the choice; otherwise the question gets the option and every other answer stays |
| QuizForm.ChoicesCommute | src/components/quiz/quiz-attempt-form.tsx:85-88 | the last choice for a question wins; choices for different questions commute |
| QuizForm.PassMessage | src/components/quiz/quiz-attempt-form.tsx:58-62 | the status line is never empty |
| QuizForm.PassMessageTellsOutcome | src/components/quiz/quiz-attempt-form.tsx:58-62 | the status line tells a pass from a fail |
| QuizForm.Form.constructor | src/components/quiz/quiz-attempt-form.tsx:24-34 | the form starts from the stored answers and result, with no message or error |
| QuizForm.Form.Choose | src/components/quiz/quiz-attempt-form.tsx:85-88 | the answers become the chosen answers unless the form is locked |
| QuizForm.Form.ApplySubmission | src/components/quiz/quiz-attempt-form.tsx:44-63 | an error shows only the error and keeps the result; a success shows the returned score and verdict and its message |
| Store.Db.constructor | src/app/actions/courses.ts:33-102 | the datastore starts with every table empty, its invariants holding |
| Store.Db.FreshId | src/app/actions/courses.ts:666-675 | the generated key is held by no table, and later keys exceed it |
| Store.Db.InsertCourse | src/app/actions/courses.ts:65-69 | the course table gains exactly the new row under a fresh key, which is also the row's id |
| Store.Db.InsertRun | src/app/actions/courses.ts:86 | the run table gains exactly the new row under a fresh key |
| Store.Db.DeleteCourse | src/app/actions/courses.ts:89 | the course row with that key is gone and every other course stays |
| Store.Db.InsertSection | src/app/actions/courses.ts:93-97 | the section table gains exactly the new row under a fresh key |
| Store.Db.InsertLesson | src/app/actions/courses.ts:251 | the lesson table gains exactly the new row under a fresh key |
| Store.Db.ReplaceSections | src/app/actions/courses.ts:449-477 | the section table becomes the rewritten one, keeping keys and row ids |
| Store.Db.ReplaceLessons | src/app/actions/courses.ts:497-527 | the lesson table becomes the rewritten one, keeping keys and row ids |
| Store.Db.InsertQuiz | src/app/actions/quiz.ts:58-68 | the quiz table gains exactly the new row under a fresh key |
| Store.Db.InsertQuestion | src/app/actions/quiz.ts:87-92 | the question table gains exactly the new row under a fresh key |
| Store.Db.InsertOption | src/app/actions/quiz.ts:114-119 | the option table gains exactly the new row under a fresh key |
| Store.RemoveInserted | src/app/actions/courses.ts:86-89 | deleting a row just inserted under a new key restores the table, so a rollback delete that succeeds leaves no trace |

## Left out

- Authentication provider calls (sign-in, registration, sign-out, session lookup) are not modelled; the current profile is an `Option<Profile>` input, which is all the actions use.
- The datastore client and its query builder are replaced by in-memory tables; a failed write is an input flag, and foreign-key checks and row-level security are not modelled.
- `revalidatePath` and `redirect` are cache and navigation effects with no bearing on the state modelled.
- Dates are integer timestamps with `now` passed in; date parsing, invalid dates, `formatDateRange` and `toDateTimeLocalString` are not modelled.
- Empty-string dates from forms are read as absent dates, so `isApplicationOpen` is modelled on runs whose optional dates are absent or valid.
- The slug's base-36 timestamp suffix is a parameter, and lower-casing covers ASCII letters only: Unicode case mapping is not modelled.
- QuizActions.Score: `Math.round(correct / total * 100)` is modelled as the exact rational `(200·correct + total) / (2·total)` in integer division; floating-point error in the original is not modelled.
- `Promise.all` batches run their calls concurrently; the model performs them one after another in list order, and no interleaving of concurrent requests is modelled, including the unlocked check-then-write sequences of the apply, decision and quiz-creation actions.
- The order in which the datastore returns rows with equal sort keys is not specified by the source; it is a parameter of the model, whose sort is proved stable (`Seqs.SortByStable`), keeping the fetched order among ties.
- The order of a quiz's questions as fetched is a parameter; grading is proved not to depend on it.
- Identifiers are abstract numbers rather than strings, so the falsy empty-string answer has no counterpart: a question counts as unanswered exactly when it is absent from the answer map.
- The progress lookup key `${course_run_id}-${lesson_id}` is modelled as the pair of the two ids, which assumes distinct pairs give distinct strings (true for the fixed-length identifiers the datastore generates).
- An attempt's `started_at` is the datastore default: the time of the first submission, kept on later resubmissions.
- The profile page's quiz count (`flatMap` over the lessons' quizzes) only feeds the display and is not modelled.
- QuizForm.Form: `isSubmitted` reads the `existingAttempt` prop, so a form opened without a stored attempt stays editable after a successful submission until the page is reloaded with the stored attempt; the model keeps this behaviour.
- The local state updates after section and lesson creation, and the update and delete actions for sections and lessons other than `updateLessonAction`, are not modelled.
- DriveUrl.NormalizeIdempotent: normalising twice equals normalising once only when the extracted id holds no `/`; the code is followed, and `NotIdempotentForSlashInId` gives a URL where a second pass changes the result.
- ProfilePage.ContinueEnabled: the "Derslere devam et" link is rendered through `Button asChild`, which passes `disabled` on to the link only as `aria-disabled` (src/components/ui/button.tsx:60-79); the model states when the link is marked disabled, and following the link itself is not blocked.
- A failed read of a row an action then needs (the enrollment or run of a decision, the run of an application, a lesson or course looked up before a write) is reported with the same not-found error as a missing row; the model produces those errors only for missing rows. The unchecked reads whose failure lets an action go on (the student's existing application, the seat and quiz counts, and the highest lesson or section index read before an insert without an explicit index) are modelled as input flags.
- React rendering, hooks, the drag-and-drop library (its `arrayMove` is taken as "remove at the old index, insert at the new one") and the UI kit are not modelled.
