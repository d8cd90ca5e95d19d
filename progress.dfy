/** The lesson progress upsert of src/app/actions/progress.ts. */
module LessonProgress {
  import opened Types
  import opened Store

  /** A row in which `completed_at` is set exactly when the lesson is marked
      completed, and a last-viewed time is always present. */
  predicate Consistent(p: Progress) {
    p.lastViewedAt.Some? && (p.completedAt.Some? <==> p.isCompleted)
  }

  /** The row the action writes at time `now`. */
  function ProgressRow(completed: bool, now: int): (p: Progress)
    ensures Consistent(p)
    ensures p.isCompleted == completed && p.lastViewedAt == Some(now)
    ensures p.completedAt.Some? ==> p.completedAt == Some(now)
  {
    Progress(completed, Some(now), if completed then Some(now) else None)
  }

  /** The upsert on `(student_id, course_run_id, lesson_id)`. */
  function Upsert(progress: map<(Id, Id, Id), Progress>, studentId: Id, runId: Id, lessonId: Id,
                  completed: bool, now: int): (r: map<(Id, Id, Id), Progress>)
    ensures r.Keys == progress.Keys + {(studentId, runId, lessonId)}
    ensures forall k :: k in progress && k != (studentId, runId, lessonId) ==> r[k] == progress[k]
  {
    progress[(studentId, runId, lessonId) := ProgressRow(completed, now)]
  }

  /** A later call for the same student, run and lesson overwrites the
      earlier one entirely. */
  lemma UpsertOverwrites(progress: map<(Id, Id, Id), Progress>, studentId: Id, runId: Id, lessonId: Id,
                         c1: bool, t1: int, c2: bool, t2: int)
    ensures Upsert(Upsert(progress, studentId, runId, lessonId, c1, t1), studentId, runId, lessonId, c2, t2)
            == Upsert(progress, studentId, runId, lessonId, c2, t2)
  {
  }

  /** The upsert keeps every row consistent. */
  lemma UpsertKeepsConsistent(progress: map<(Id, Id, Id), Progress>, studentId: Id, runId: Id, lessonId: Id,
                              completed: bool, now: int)
    requires forall k :: k in progress ==> Consistent(progress[k])
    ensures var r := Upsert(progress, studentId, runId, lessonId, completed, now);
      forall k :: k in r ==> Consistent(r[k])
  {
  }

  /** Unmarking a completed lesson clears its completion time. */
  lemma UnmarkClearsCompletion(progress: map<(Id, Id, Id), Progress>, studentId: Id, runId: Id, lessonId: Id,
                               now: int)
    ensures Upsert(progress, studentId, runId, lessonId, false, now)[(studentId, runId, lessonId)].completedAt.None?
  {
  }

  /** `updateLessonProgressAction`: only a signed-in caller is required (no
      enrollment check); the returned time is the stored last-viewed time.
      `storeFails` stands for an upsert error. */
  method UpdateLessonProgress(db: Db, profile: Option<Profile>, lessonId: Id, runId: Id, completed: bool,
                              now: int, storeFails: bool) returns (r: Result<int>)
    requires db.Valid()
    modifies db`progress
    ensures db.Valid()
    ensures profile.None? ==> r == Failure(LoginRequired)
    ensures profile.Some? && storeFails ==> r == Failure(ProgressNotSaved)
    ensures r.Failure? ==> db.progress == old(db.progress)
    ensures profile.Some? && !storeFails ==>
      && r == Success(now)
      && db.progress == Upsert(old(db.progress), profile.value.id, runId, lessonId, completed, now)
      && db.progress[(profile.value.id, runId, lessonId)].lastViewedAt == Some(r.value)
  {
    if profile.None? {
      return Failure(LoginRequired);
    }
    if storeFails {
      return Failure(ProgressNotSaved);
    }
    db.progress := Upsert(db.progress, profile.value.id, runId, lessonId, completed, now);
    r := Success(now);
  }
}
