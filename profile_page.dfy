/** The student's profile page (src/app/profile/page.tsx): the progress
    lookup built from the student's progress rows, and per enrollment the
    completed-lesson count, the "all theory complete" test, the continue
    gate and the role and status labels. */
module ProfilePage {
  import opened Types
  import opened Seqs

  /** A fetched progress row with the two columns of its lookup key. */
  datatype ProgressRow = ProgressRow(runId: Id, lessonId: Id, progress: Progress)

  /** The lookup key `${course_run_id}-${lesson_id}`, as a pair. */
  type LessonKey = (Id, Id)

  function KeyOf(row: ProgressRow): LessonKey {
    (row.runId, row.lessonId)
  }

  /** The lookup after setting every row in turn. */
  function ProgressMap(rows: seq<ProgressRow>): map<LessonKey, Progress> {
    if rows == [] then map[]
    else ProgressMap(rows[..|rows| - 1])[KeyOf(rows[|rows| - 1]) := rows[|rows| - 1].progress]
  }

  /** The last row with a given key. */
  predicate LastWithKey(rows: seq<ProgressRow>, k: LessonKey, j: int) {
    0 <= j < |rows| && KeyOf(rows[j]) == k &&
    forall i :: j < i < |rows| ==> KeyOf(rows[i]) != k
  }

  /** A key is looked up exactly when some row carries it. */
  lemma {:induction false} LookupHasKey(rows: seq<ProgressRow>, k: LessonKey)
    ensures k in ProgressMap(rows) <==> exists i :: 0 <= i < |rows| && KeyOf(rows[i]) == k
  {
    if rows != [] {
      var p := rows[..|rows| - 1];
      LookupHasKey(p, k);
      if KeyOf(rows[|rows| - 1]) != k && exists i :: 0 <= i < |rows| && KeyOf(rows[i]) == k {
        var i :| 0 <= i < |rows| && KeyOf(rows[i]) == k;
        assert p[i] == rows[i];
      }
    }
  }

  /** The lookup gives the progress of the last row with the key: later
      rows overwrite earlier ones. */
  lemma {:induction false} LastWins(rows: seq<ProgressRow>, k: LessonKey, j: int)
    requires LastWithKey(rows, k, j)
    ensures k in ProgressMap(rows) && ProgressMap(rows)[k] == rows[j].progress
  {
    var p := rows[..|rows| - 1];
    if j < |rows| - 1 {
      assert KeyOf(rows[|rows| - 1]) != k;
      assert LastWithKey(p, k, j);
      LastWins(p, k, j);
    }
  }

  /** `progressRows.forEach(row => progressByLesson.set(key(row), row))`. */
  method BuildProgressMap(rows: seq<ProgressRow>) returns (m: map<LessonKey, Progress>)
    ensures m == ProgressMap(rows)
  {
    m := map[];
    for i := 0 to |rows|
      invariant m == ProgressMap(rows[..i])
    {
      assert rows[..i + 1][..i] == rows[..i];
      m := m[KeyOf(rows[i]) := rows[i].progress];
    }
    assert rows[..|rows|] == rows;
  }

  /** `progressByLesson.get(key)?.is_completed`. */
  predicate IsCompleted(lookup: map<LessonKey, Progress>, runId: Id, lesson: Lesson) {
    (runId, lesson.id) in lookup && lookup[(runId, lesson.id)].isCompleted
  }

  function CompletedIn(lookup: map<LessonKey, Progress>, runId: Id): Lesson -> bool {
    lesson => IsCompleted(lookup, runId, lesson)
  }

  /** `lessons.filter(completed).length`: between 0 and the lesson count. */
  function CompletedCount(lookup: map<LessonKey, Progress>, runId: Id, lessons: seq<Lesson>): (n: nat)
    ensures n <= |lessons|
  {
    |Filter(lessons, CompletedIn(lookup, runId))|
  }

  /** `completedCount === lessons.length && lessons.length > 0`. */
  predicate HasCompletedAllTheory(lookup: map<LessonKey, Progress>, runId: Id, lessons: seq<Lesson>) {
    CompletedCount(lookup, runId, lessons) == |lessons| && |lessons| > 0
  }

  /** All theory is complete exactly when there is a lesson and every lesson
      of the course has a completed progress row for this enrollment's run. */
  lemma AllTheoryMeansEveryLesson(lookup: map<LessonKey, Progress>, runId: Id, lessons: seq<Lesson>)
    ensures HasCompletedAllTheory(lookup, runId, lessons) <==>
              |lessons| > 0 && forall i :: 0 <= i < |lessons| ==> IsCompleted(lookup, runId, lessons[i])
  {
    FilterKeepsAll(lessons, CompletedIn(lookup, runId));
  }

  /** The "continue with lessons" link is marked `aria-disabled` unless
      `hasCompletedAllTheory && enrollment.status === "approved"`; the
      button wraps the link, which passes `disabled` on only as that mark. */
  predicate ContinueEnabled(lookup: map<LessonKey, Progress>, runId: Id, lessons: seq<Lesson>, status: EnrollmentStatus) {
    HasCompletedAllTheory(lookup, runId, lessons) && status == Approved
  }

  /** The continue link is marked enabled only for an approved student who
      completed every lesson. */
  lemma ContinueNeedsApprovalAndLessons(lookup: map<LessonKey, Progress>, runId: Id, lessons: seq<Lesson>, status: EnrollmentStatus)
    ensures ContinueEnabled(lookup, runId, lessons, status) <==>
              status == Approved && |lessons| > 0 &&
              forall i :: 0 <= i < |lessons| ==> IsCompleted(lookup, runId, lessons[i])
  {
    AllTheoryMeansEveryLesson(lookup, runId, lessons);
  }

  /** `roleLabel`: admin and instructor have their own label, anything else
      reads as student. */
  function RoleLabel(role: Role): (s: string)
    ensures s == "Admin" <==> role == Admin
    ensures s == "Eğitmen" <==> role == Instructor
    ensures s == "Öğrenci" <==> role == Student
  {
    match role
    case Admin => "Admin"
    case Instructor => "Eğitmen"
    case Student => "Öğrenci"
  }

  /** `statusLabel`: approved, rejected, anything else pending. */
  function StatusLabel(status: EnrollmentStatus): (s: string)
    ensures s == "Onaylandı" <==> status == Approved
    ensures s == "Reddedildi" <==> status == Rejected
    ensures s == "Beklemede" <==> status == Requested
  {
    match status
    case Approved => "Onaylandı"
    case Rejected => "Reddedildi"
    case Requested => "Beklemede"
  }

  /** `statusVariant`: the badge colour for the same three cases. */
  function StatusVariant(status: EnrollmentStatus): (s: string)
    ensures s == "success" <==> status == Approved
    ensures s == "danger" <==> status == Rejected
    ensures s == "warning" <==> status == Requested
  {
    match status
    case Approved => "success"
    case Rejected => "danger"
    case Requested => "warning"
  }

  /** The badge's colour and text always describe the same status. */
  lemma BadgeAgrees(status: EnrollmentStatus)
    ensures StatusVariant(status) == "success" <==> StatusLabel(status) == "Onaylandı"
    ensures StatusVariant(status) == "danger" <==> StatusLabel(status) == "Reddedildi"
    ensures StatusVariant(status) == "warning" <==> StatusLabel(status) == "Beklemede"
  {
  }
}
