/** The datastore the server actions read and write, as in-memory tables.
    Every table is a map from row key to row; the progress and attempt tables
    are keyed by their unique column tuples, so at most one row per key holds
    by construction. `nextId` stands for the datastore's key generator. */
module Store {
  import opened Types

  /** The `(student_id, course_run_id)` uniqueness of the enrollments table. */
  predicate UniqueApplications(es: map<Id, Enrollment>) {
    forall a, b :: a in es && b in es && es[a].studentId == es[b].studentId && es[a].runId == es[b].runId ==> a == b
  }

  /** At most one quiz per lesson, the rule quiz creation checks for; no
      table constraint backs it. */
  predicate OneQuizPerLesson(qs: map<Id, Quiz>) {
    forall a, b :: a in qs && b in qs && qs[a].lessonId == qs[b].lessonId ==> a == b
  }

  /** Deleting a row just inserted under a new key restores the table. */
  lemma RemoveInserted<T>(m: map<Id, T>, k: Id, v: T)
    requires k !in m
    ensures m[k := v] - {k} == m
  {
    assert (m[k := v] - {k}).Keys == m.Keys;
  }

  class Db {
    var profiles: map<Id, Profile>
    var courses: map<Id, Course>
    var runs: map<Id, CourseRun>
    var sections: map<Id, Section>
    var lessons: map<Id, Lesson>
    var enrollments: map<Id, Enrollment>
    /** keyed by (student, course run, lesson) */
    var progress: map<(Id, Id, Id), Progress>
    var quizzes: map<Id, Quiz>
    var questions: map<Id, Question>
    var options: map<Id, QuizOption>
    /** keyed by (quiz, student) */
    var attempts: map<(Id, Id), Attempt>
    var nextId: Id

    /** Every generated key is below `nextId` and is the row's own id; the
        enrollments table is unique on student and run. */
    ghost predicate Valid()
      reads this
    {
      && (forall k :: k in profiles ==> profiles[k].id == k)
      && (forall k :: k in courses ==> k < nextId && courses[k].id == k)
      && (forall k :: k in runs ==> k < nextId && runs[k].id == k)
      && (forall k :: k in sections ==> k < nextId && sections[k].id == k)
      && (forall k :: k in lessons ==> k < nextId && lessons[k].id == k)
      && (forall k :: k in enrollments ==> k < nextId && enrollments[k].id == k)
      && (forall k :: k in quizzes ==> k < nextId && quizzes[k].id == k)
      && (forall k :: k in questions ==> k < nextId && questions[k].id == k)
      && (forall k :: k in options ==> k < nextId && options[k].id == k)
      && UniqueApplications(enrollments)
    }

    constructor Empty()
      ensures Valid()
      ensures profiles == map[] && courses == map[] && runs == map[] && sections == map[]
      ensures lessons == map[] && enrollments == map[] && progress == map[]
      ensures quizzes == map[] && questions == map[] && options == map[] && attempts == map[]
      ensures nextId == 0
    {
      profiles, courses, runs, sections, lessons := map[], map[], map[], map[], map[];
      enrollments, progress := map[], map[];
      quizzes, questions, options, attempts := map[], map[], map[], map[];
      nextId := 0;
    }

    /** A key no table holds yet. */
    method FreshId() returns (id: Id)
      requires Valid()
      modifies this`nextId
      ensures Valid()
      ensures id == old(nextId) && nextId == id + 1
      ensures id !in courses && id !in runs && id !in sections && id !in lessons
      ensures id !in enrollments && id !in quizzes && id !in questions && id !in options
    {
      id := nextId;
      nextId := nextId + 1;
    }

    /** Inserts a course under a key the datastore generates. */
    method InsertCourse(row: Course) returns (k: Id)
      requires Valid()
      modifies this`courses, this`nextId
      ensures Valid()
      ensures k == old(nextId) && nextId == k + 1 && k !in old(courses)
      ensures courses == old(courses)[k := row.(id := k)]
    {
      k := nextId;
      nextId := nextId + 1;
      courses := courses[k := row.(id := k)];
    }

    /** Inserts a course run under a key the datastore generates. */
    method InsertRun(row: CourseRun) returns (k: Id)
      requires Valid()
      modifies this`runs, this`nextId
      ensures Valid()
      ensures k == old(nextId) && nextId == k + 1 && k !in old(runs)
      ensures runs == old(runs)[k := row.(id := k)]
    {
      k := nextId;
      nextId := nextId + 1;
      runs := runs[k := row.(id := k)];
    }

    /** Inserts a section under a key the datastore generates. */
    method InsertSection(row: Section) returns (k: Id)
      requires Valid()
      modifies this`sections, this`nextId
      ensures Valid()
      ensures k == old(nextId) && nextId == k + 1 && k !in old(sections)
      ensures sections == old(sections)[k := row.(id := k)]
    {
      k := nextId;
      nextId := nextId + 1;
      sections := sections[k := row.(id := k)];
    }

    /** Inserts a lesson under a key the datastore generates. */
    method InsertLesson(row: Lesson) returns (k: Id)
      requires Valid()
      modifies this`lessons, this`nextId
      ensures Valid()
      ensures k == old(nextId) && nextId == k + 1 && k !in old(lessons)
      ensures lessons == old(lessons)[k := row.(id := k)]
    {
      k := nextId;
      nextId := nextId + 1;
      lessons := lessons[k := row.(id := k)];
    }

    /** Deletes a course row. */
    method DeleteCourse(k: Id)
      requires Valid()
      modifies this`courses
      ensures Valid()
      ensures courses == old(courses) - {k}
    {
      courses := courses - {k};
    }

    /** Writes back a sections table with the same keys and row ids. */
    method ReplaceSections(m: map<Id, Section>)
      requires Valid()
      requires m.Keys == sections.Keys && forall k :: k in m ==> m[k].id == k
      modifies this`sections
      ensures Valid()
      ensures sections == m
    {
      sections := m;
    }

    /** Writes back a lessons table with the same keys and row ids. */
    method ReplaceLessons(m: map<Id, Lesson>)
      requires Valid()
      requires m.Keys == lessons.Keys && forall k :: k in m ==> m[k].id == k
      modifies this`lessons
      ensures Valid()
      ensures lessons == m
    {
      lessons := m;
    }

    /** Inserts a quiz under a key the datastore generates. */
    method InsertQuiz(row: Quiz) returns (k: Id)
      requires Valid()
      modifies this`quizzes, this`nextId
      ensures Valid()
      ensures k == old(nextId) && nextId == k + 1 && k !in old(quizzes)
      ensures quizzes == old(quizzes)[k := row.(id := k)]
    {
      k := nextId;
      nextId := nextId + 1;
      quizzes := quizzes[k := row.(id := k)];
    }

    /** Inserts a question under a key the datastore generates. */
    method InsertQuestion(row: Question) returns (k: Id)
      requires Valid()
      modifies this`questions, this`nextId
      ensures Valid()
      ensures k == old(nextId) && nextId == k + 1 && k !in old(questions)
      ensures questions == old(questions)[k := row.(id := k)]
    {
      k := nextId;
      nextId := nextId + 1;
      questions := questions[k := row.(id := k)];
    }

    /** Inserts an answer option under a key the datastore generates. */
    method InsertOption(row: QuizOption) returns (k: Id)
      requires Valid()
      modifies this`options, this`nextId
      ensures Valid()
      ensures k == old(nextId) && nextId == k + 1 && k !in old(options)
      ensures options == old(options)[k := row.(id := k)]
    {
      k := nextId;
      nextId := nextId + 1;
      options := options[k := row.(id := k)];
    }
  }
}
