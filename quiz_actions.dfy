/** The quiz server actions of src/app/actions/quiz.ts: creating a quiz, its
    questions and options, marking options correct, and grading a student's
    submission. */
module QuizActions {
  import opened Types
  import opened Text
  import opened Auth
  import opened Store
  import opened Seqs

  // ---------------------------------------------------------------------
  // createQuizForLessonAction
  // ---------------------------------------------------------------------

  datatype NewQuiz = NewQuiz(
    lessonId: Id,
    title: string,
    description: Option<string>,
    passingScore: int,
    durationSeconds: Option<int>)

  /** The instructor of the course a lesson belongs to; none when the course
      row is missing, so that only an admin passes the ownership test. */
  function LessonOwner(courses: map<Id, Course>, lesson: Lesson): (owner: Option<Id>)
    ensures owner.Some? ==> lesson.courseId in courses && courses[lesson.courseId].instructorId == owner
    ensures lesson.courseId !in courses ==> owner.None?
  {
    if lesson.courseId in courses then courses[lesson.courseId].instructorId else None
  }

  /** The lesson already has a quiz (the counted query returns more than zero). */
  predicate HasQuiz(quizzes: map<Id, Quiz>, lessonId: Id) {
    exists q :: q in quizzes && quizzes[q].lessonId == lessonId
  }

  /** The checks before the insert, in the order the action makes them. The
      quiz count fails open: a failed count (`countFails`) reads as 0. */
  function CreateQuizGate(profile: Option<Profile>, lessons: map<Id, Lesson>, courses: map<Id, Course>,
                          quizzes: map<Id, Quiz>, lessonId: Id, countFails: bool): (e: Option<Error>)
    ensures e == Some(QuizCreateForbidden) <==> !IsStaff(profile)
    ensures e == Some(LessonNotFound) <==> IsStaff(profile) && lessonId !in lessons
    ensures e == Some(NotLessonOwner) <==>
      IsStaff(profile) && lessonId in lessons && !OwnerOrAdmin(profile.value, LessonOwner(courses, lessons[lessonId]))
    ensures e == Some(QuizAlreadyExists) <==>
      IsStaff(profile) && lessonId in lessons && OwnerOrAdmin(profile.value, LessonOwner(courses, lessons[lessonId]))
      && !countFails && HasQuiz(quizzes, lessonId)
    ensures e.None? <==>
      IsStaff(profile) && lessonId in lessons && OwnerOrAdmin(profile.value, LessonOwner(courses, lessons[lessonId]))
      && (countFails || !HasQuiz(quizzes, lessonId))
  {
    if !IsStaff(profile) then Some(QuizCreateForbidden)
    else if lessonId !in lessons then Some(LessonNotFound)
    else if !OwnerOrAdmin(profile.value, LessonOwner(courses, lessons[lessonId])) then Some(NotLessonOwner)
    else if !countFails && HasQuiz(quizzes, lessonId) then Some(QuizAlreadyExists)
    else None
  }

  /** `createQuizForLessonAction`; `countFails` stands for a failed count of
      the lesson's quizzes, which the original does not check, and
      `storeFails` for an insert error. */
  method CreateQuizForLesson(db: Db, profile: Option<Profile>, payload: NewQuiz, countFails: bool, storeFails: bool)
    returns (r: Result<()>)
    requires db.Valid()
    modifies db`quizzes, db`nextId
    ensures db.Valid()
    ensures var gate := CreateQuizGate(profile, db.lessons, db.courses, old(db.quizzes), payload.lessonId, countFails);
      r == if gate.Some? then Failure(gate.value) else if storeFails then Failure(QuizNotCreated) else Success(())
    ensures r.Failure? ==> db.quizzes == old(db.quizzes)
    ensures r.Success? ==>
      db.quizzes == old(db.quizzes)[old(db.nextId) := Quiz(old(db.nextId), payload.lessonId, payload.title,
                                                           payload.description, payload.passingScore,
                                                           payload.durationSeconds)]
    ensures !countFails && OneQuizPerLesson(old(db.quizzes)) ==> OneQuizPerLesson(db.quizzes)
  {
    var gate := CreateQuizGate(profile, db.lessons, db.courses, db.quizzes, payload.lessonId, countFails);
    if gate.Some? {
      return Failure(gate.value);
    }
    if storeFails {
      return Failure(QuizNotCreated);
    }
    ghost var before := db.quizzes;
    var row := Quiz(0, payload.lessonId, payload.title, payload.description,
                    payload.passingScore, payload.durationSeconds);
    var k := db.InsertQuiz(row);
    if !countFails && OneQuizPerLesson(before) {
      InsertKeepsOneQuizPerLesson(before, k, row.(id := k));
    }
    r := Success(());
  }

  /** Adding a quiz for a lesson that has none keeps one quiz per lesson. */
  lemma InsertKeepsOneQuizPerLesson(quizzes: map<Id, Quiz>, k: Id, row: Quiz)
    requires OneQuizPerLesson(quizzes) && k !in quizzes && !HasQuiz(quizzes, row.lessonId)
    ensures OneQuizPerLesson(quizzes[k := row])
  {
  }

  /** Once a lesson has a quiz, every further request for it whose count is
      read is refused. */
  lemma SecondQuizRefused(profile: Option<Profile>, lessons: map<Id, Lesson>, courses: map<Id, Course>,
                          quizzes: map<Id, Quiz>, k: Id, row: Quiz)
    ensures CreateQuizGate(profile, lessons, courses, quizzes[k := row], row.lessonId, false).Some?
  {
    assert quizzes[k := row][k].lessonId == row.lessonId;
  }

  /** A failed count opens the check: an owner's request for a lesson that
      already has a quiz passes the gate, and the insert leaves the lesson
      with two quizzes. */
  lemma CountFailureAllowsSecondQuiz(profile: Option<Profile>, lessons: map<Id, Lesson>, courses: map<Id, Course>,
                                     quizzes: map<Id, Quiz>, k: Id, row: Quiz)
    requires IsStaff(profile) && row.lessonId in lessons
    requires OwnerOrAdmin(profile.value, LessonOwner(courses, lessons[row.lessonId]))
    requires HasQuiz(quizzes, row.lessonId) && k !in quizzes
    ensures CreateQuizGate(profile, lessons, courses, quizzes, row.lessonId, true).None?
    ensures !OneQuizPerLesson(quizzes[k := row])
  {
    var q :| q in quizzes && quizzes[q].lessonId == row.lessonId;
    var after := quizzes[k := row];
    assert q in after && k in after && after[q].lessonId == after[k].lessonId && q != k;
  }

  // ---------------------------------------------------------------------
  // createQuizQuestionAction, createQuizOptionAction
  // ---------------------------------------------------------------------

  /** `createQuizQuestionAction`: a blank prompt is refused; the order index
      defaults to 0. The prompt is stored as given, untrimmed. */
  method CreateQuizQuestion(db: Db, quizId: Id, prompt: string, orderIndex: Option<int>, storeFails: bool)
    returns (r: Result<()>)
    requires db.Valid()
    modifies db`questions, db`nextId
    ensures db.Valid()
    ensures r == if IsBlank(prompt) then Failure(PromptRequired)
                 else if storeFails then Failure(QuestionNotCreated) else Success(())
    ensures r.Failure? ==> db.questions == old(db.questions)
    ensures r.Success? ==>
      db.questions == old(db.questions)[old(db.nextId) :=
        Question(old(db.nextId), quizId, prompt, if orderIndex.Some? then orderIndex.value else 0)]
  {
    if IsBlank(prompt) {
      return Failure(PromptRequired);
    }
    if storeFails {
      return Failure(QuestionNotCreated);
    }
    var _ := db.InsertQuestion(Question(0, quizId, prompt, if orderIndex.Some? then orderIndex.value else 0));
    r := Success(());
  }

  /** `createQuizOptionAction`: a blank text is refused. */
  method CreateQuizOption(db: Db, questionId: Id, text: string, isCorrect: bool, storeFails: bool)
    returns (r: Result<()>)
    requires db.Valid()
    modifies db`options, db`nextId
    ensures db.Valid()
    ensures r == if IsBlank(text) then Failure(OptionTextRequired)
                 else if storeFails then Failure(OptionNotCreated) else Success(())
    ensures r.Failure? ==> db.options == old(db.options)
    ensures r.Success? ==>
      db.options == old(db.options)[old(db.nextId) := QuizOption(old(db.nextId), questionId, text, isCorrect)]
  {
    if IsBlank(text) {
      return Failure(OptionTextRequired);
    }
    if storeFails {
      return Failure(OptionNotCreated);
    }
    var _ := db.InsertOption(QuizOption(0, questionId, text, isCorrect));
    r := Success(());
  }

  // ---------------------------------------------------------------------
  // toggleQuizOptionCorrectAction
  // ---------------------------------------------------------------------

  /** The options table after setting one option's correctness flag. */
  function SetCorrect(options: map<Id, QuizOption>, optionId: Id, isCorrect: bool): (r: map<Id, QuizOption>)
    requires optionId in options
    ensures r.Keys == options.Keys
    ensures r[optionId].isCorrect == isCorrect
    ensures r[optionId].(isCorrect := options[optionId].isCorrect) == options[optionId]
    ensures forall k :: k in options && k != optionId ==> r[k] == options[k]
  {
    options[optionId := options[optionId].(isCorrect := isCorrect)]
  }

  /** Marking an option correct does not unmark its siblings: a question may
      have several correct options. */
  lemma {:induction false} SeveralCorrect(options: map<Id, QuizOption>, a: Id, b: Id)
    requires a in options && b in options && a != b
    ensures var r := SetCorrect(SetCorrect(options, a, true), b, true);
      r[a].isCorrect && r[b].isCorrect
  {
    var r1 := SetCorrect(options, a, true);
    assert r1[a].isCorrect;
    assert SetCorrect(r1, b, true)[a] == r1[a];
  }

  /** Setting the flag back to its old value restores the table. */
  lemma SetCorrectUndo(options: map<Id, QuizOption>, optionId: Id, isCorrect: bool)
    requires optionId in options
    ensures SetCorrect(SetCorrect(options, optionId, isCorrect), optionId, options[optionId].isCorrect) == options
  {
    var r := SetCorrect(SetCorrect(options, optionId, isCorrect), optionId, options[optionId].isCorrect);
    assert r.Keys == options.Keys;
    assert forall k :: k in options ==> r[k] == options[k];
  }

  /** `toggleQuizOptionCorrectAction`: only `is_correct` of the matched row
      changes; no matching row, or a store error, is reported. */
  method ToggleQuizOptionCorrect(db: Db, optionId: Id, isCorrect: bool, storeFails: bool)
    returns (r: Result<()>)
    requires db.Valid()
    modifies db`options
    ensures db.Valid()
    ensures r == if optionId !in old(db.options) || storeFails then Failure(OptionNotUpdated) else Success(())
    ensures r.Failure? ==> db.options == old(db.options)
    ensures r.Success? ==> db.options == SetCorrect(old(db.options), optionId, isCorrect)
  {
    if optionId !in db.options || storeFails {
      return Failure(OptionNotUpdated);
    }
    db.options := SetCorrect(db.options, optionId, isCorrect);
    r := Success(());
  }

  // ---------------------------------------------------------------------
  // submitQuizAttemptAction: grading
  // ---------------------------------------------------------------------

  /** Option `a` exists and is one of question `q`'s own options. */
  predicate IsOptionOf(options: map<Id, QuizOption>, a: Id, q: Id) {
    a in options && options[a].questionId == q
  }

  /** What the grading loop reports for one question: unanswered, an option
      of another question or none at all, or nothing wrong. */
  function Check(q: Id, answers: map<Id, Id>, options: map<Id, QuizOption>): Option<Error> {
    if q !in answers then Some(Unanswered)
    else if !IsOptionOf(options, answers[q], q) then Some(InvalidOption)
    else None
  }

  /** The question is answered with one of its own options, a correct one. */
  predicate AnsweredCorrectly(q: Id, answers: map<Id, Id>, options: map<Id, QuizOption>) {
    q in answers && IsOptionOf(options, answers[q], q) && options[answers[q]].isCorrect
  }

  /** The error the loop over questions `qs` stops on, if any. */
  function FirstProblem(qs: seq<Id>, answers: map<Id, Id>, options: map<Id, QuizOption>): Option<Error>
    decreases |qs|
  {
    if qs == [] then None
    else
      var e := FirstProblem(qs[..|qs| - 1], answers, options);
      if e.Some? then e else Check(qs[|qs| - 1], answers, options)
  }

  /** The number of questions answered correctly. */
  function CorrectCount(qs: seq<Id>, answers: map<Id, Id>, options: map<Id, QuizOption>): (n: nat)
    ensures n <= |qs|
    decreases |qs|
  {
    if qs == [] then 0
    else CorrectCount(qs[..|qs| - 1], answers, options)
         + (if AnsweredCorrectly(qs[|qs| - 1], answers, options) then 1 else 0)
  }

  /** Once a prefix of the questions has a problem, the whole list reports it. */
  lemma {:induction false} FirstProblemPrefix(qs: seq<Id>, i: nat, answers: map<Id, Id>, options: map<Id, QuizOption>)
    requires i <= |qs| && FirstProblem(qs[..i], answers, options).Some?
    ensures FirstProblem(qs, answers, options) == FirstProblem(qs[..i], answers, options)
    decreases |qs|
  {
    if i < |qs| {
      var p := qs[..|qs| - 1];
      assert p[..i] == qs[..i];
      FirstProblemPrefix(p, i, answers, options);
    } else {
      assert qs[..i] == qs;
    }
  }

  /** Grading goes through only when every question is answered with one of
      its own options. */
  lemma {:induction false} FirstProblemNone(qs: seq<Id>, answers: map<Id, Id>, options: map<Id, QuizOption>)
    ensures FirstProblem(qs, answers, options).None? <==>
      forall i :: 0 <= i < |qs| ==> qs[i] in answers && IsOptionOf(options, answers[qs[i]], qs[i])
    decreases |qs|
  {
    if qs != [] {
      var p := qs[..|qs| - 1];
      FirstProblemNone(p, answers, options);
      assert forall i :: 0 <= i < |p| ==> p[i] == qs[i];
    }
  }

  /** The reported error is the one of the first question in order that fails. */
  lemma {:induction false} FirstProblemIsFirst(qs: seq<Id>, answers: map<Id, Id>, options: map<Id, QuizOption>)
    requires FirstProblem(qs, answers, options).Some?
    ensures exists i :: 0 <= i < |qs| && FirstProblem(qs[..i], answers, options).None?
                        && Check(qs[i], answers, options) == FirstProblem(qs, answers, options)
    decreases |qs|
  {
    var p := qs[..|qs| - 1];
    if FirstProblem(p, answers, options).Some? {
      FirstProblemIsFirst(p, answers, options);
      var i :| 0 <= i < |p| && FirstProblem(p[..i], answers, options).None?
               && Check(p[i], answers, options) == FirstProblem(p, answers, options);
      assert p[..i] == qs[..i];
      assert p[i] == qs[i];
    } else {
      assert qs[..|qs| - 1] == p;
    }
  }

  /** Every answer correct gives the full count, and only then. */
  lemma {:induction false} CorrectCountFull(qs: seq<Id>, answers: map<Id, Id>, options: map<Id, QuizOption>)
    ensures CorrectCount(qs, answers, options) == |qs| <==>
      forall i :: 0 <= i < |qs| ==> AnsweredCorrectly(qs[i], answers, options)
    decreases |qs|
  {
    if qs != [] {
      var p := qs[..|qs| - 1];
      CorrectCountFull(p, answers, options);
      assert forall i :: 0 <= i < |p| ==> p[i] == qs[i];
    }
  }

  /** No correct answer gives a zero count, and only then. */
  lemma {:induction false} CorrectCountZero(qs: seq<Id>, answers: map<Id, Id>, options: map<Id, QuizOption>)
    ensures CorrectCount(qs, answers, options) == 0 <==>
      forall i :: 0 <= i < |qs| ==> !AnsweredCorrectly(qs[i], answers, options)
    decreases |qs|
  {
    if qs != [] {
      var p := qs[..|qs| - 1];
      CorrectCountZero(p, answers, options);
      assert forall i :: 0 <= i < |p| ==> p[i] == qs[i];
    }
  }

  /** The questions of a list that are answered correctly. */
  ghost function CorrectSet(qs: seq<Id>, answers: map<Id, Id>, options: map<Id, QuizOption>): set<Id> {
    set q | q in qs && AnsweredCorrectly(q, answers, options)
  }

  /** Over a list without repeats, the count is the size of the set of
      correctly answered questions, whatever their order. */
  lemma {:induction false} CorrectCountIsSetSize(qs: seq<Id>, answers: map<Id, Id>, options: map<Id, QuizOption>)
    requires Distinct(qs)
    ensures CorrectCount(qs, answers, options) == |CorrectSet(qs, answers, options)|
    decreases |qs|
  {
    if qs != [] {
      var p := qs[..|qs| - 1];
      var x := qs[|qs| - 1];
      assert Distinct(p);
      CorrectCountIsSetSize(p, answers, options);
      assert qs == p + [x];
      assert x !in p;
      if AnsweredCorrectly(x, answers, options) {
        assert CorrectSet(qs, answers, options) == CorrectSet(p, answers, options) + {x};
      } else {
        assert CorrectSet(qs, answers, options) == CorrectSet(p, answers, options);
      }
    }
  }

  /** Two repeat-free listings of the same questions have the same length. */
  lemma SameListingLength(qs1: seq<Id>, qs2: seq<Id>)
    requires Distinct(qs1) && Distinct(qs2)
    requires forall q :: q in qs1 <==> q in qs2
    ensures |qs1| == |qs2|
  {
    DistinctCard(qs1);
    DistinctCard(qs2);
    assert Elements(qs1) == Elements(qs2);
  }

  /** Two repeat-free listings of the same questions count alike. */
  lemma SameListingCount(qs1: seq<Id>, qs2: seq<Id>, answers: map<Id, Id>, options: map<Id, QuizOption>)
    requires Distinct(qs1) && Distinct(qs2)
    requires forall q :: q in qs1 <==> q in qs2
    ensures CorrectCount(qs1, answers, options) == CorrectCount(qs2, answers, options)
  {
    CorrectCountIsSetSize(qs1, answers, options);
    CorrectCountIsSetSize(qs2, answers, options);
    assert CorrectSet(qs1, answers, options) == CorrectSet(qs2, answers, options);
  }

  /** Two listings of the same questions pass or fail grading alike. */
  lemma SameListingProblems(qs1: seq<Id>, qs2: seq<Id>, answers: map<Id, Id>, options: map<Id, QuizOption>)
    requires forall q :: q in qs1 <==> q in qs2
    ensures FirstProblem(qs1, answers, options).None? <==> FirstProblem(qs2, answers, options).None?
  {
    FirstProblemNone(qs1, answers, options);
    FirstProblemNone(qs2, answers, options);
    if FirstProblem(qs1, answers, options).None? {
      forall i | 0 <= i < |qs2|
        ensures qs2[i] in answers && IsOptionOf(options, answers[qs2[i]], qs2[i])
      {
        assert qs2[i] in qs2;
        var j :| 0 <= j < |qs1| && qs1[j] == qs2[i];
      }
    }
    if FirstProblem(qs2, answers, options).None? {
      forall i | 0 <= i < |qs1|
        ensures qs1[i] in answers && IsOptionOf(options, answers[qs1[i]], qs1[i])
      {
        assert qs1[i] in qs1;
        var j :| 0 <= j < |qs2| && qs2[j] == qs1[i];
      }
    }
  }

  /** The datastore returns a quiz's questions in no fixed order: two
      listings of the same questions grade alike. */
  lemma GradingIgnoresOrder(qs1: seq<Id>, qs2: seq<Id>, answers: map<Id, Id>, options: map<Id, QuizOption>)
    requires Distinct(qs1) && Distinct(qs2)
    requires forall q :: q in qs1 <==> q in qs2
    ensures |qs1| == |qs2|
    ensures CorrectCount(qs1, answers, options) == CorrectCount(qs2, answers, options)
    ensures FirstProblem(qs1, answers, options).None? <==> FirstProblem(qs2, answers, options).None?
  {
    SameListingLength(qs1, qs2);
    SameListingCount(qs1, qs2, answers, options);
    SameListingProblems(qs1, qs2, answers, options);
  }

  /** The loop of lines 203-217: the first failing question ends grading with
      its error; otherwise the number of correct answers. */
  method Grade(qs: seq<Id>, answers: map<Id, Id>, options: map<Id, QuizOption>) returns (r: Result<nat>)
    ensures r == if FirstProblem(qs, answers, options).Some? then Failure(FirstProblem(qs, answers, options).value)
                 else Success(CorrectCount(qs, answers, options))
  {
    var correct := 0;
    var i := 0;
    while i < |qs|
      invariant 0 <= i <= |qs|
      invariant FirstProblem(qs[..i], answers, options).None?
      invariant correct == CorrectCount(qs[..i], answers, options)
    {
      var q := qs[i];
      assert qs[..i + 1][..i] == qs[..i];
      if q !in answers {
        FirstProblemPrefix(qs, i + 1, answers, options);
        return Failure(Unanswered);
      }
      var a := answers[q];
      if !(a in options && options[a].questionId == q) {
        FirstProblemPrefix(qs, i + 1, answers, options);
        return Failure(InvalidOption);
      }
      if options[a].isCorrect {
        correct := correct + 1;
      }
      i := i + 1;
    }
    assert qs[..|qs|] == qs;
    r := Success(correct);
  }

  // ---------------------------------------------------------------------
  // submitQuizAttemptAction: score
  // ---------------------------------------------------------------------

  /** Division by a positive divisor brackets the dividend. */
  lemma DivBounds(n: int, d: int)
    requires d > 0
    ensures d * (n / d) <= n < d * (n / d) + d
  {
    assert n == d * (n / d) + n % d;
  }

  /** A positive factor keeps a strict order at least one factor apart. */
  lemma MulStep(d: int, x: int, y: int)
    requires d > 0 && x < y
    ensures d * x + d <= d * y
  {
    var k := y - x;
    assert d * y == d * x + d * k;
    assert d * k == d * (k - 1) + d;
    assert d * (k - 1) >= 0;
  }

  /** `Math.round((correct / total) * 100)` over exact rationals: the
      percentage rounded half up. */
  function Score(correct: nat, total: nat): (s: int)
    requires total > 0
    ensures 0 <= s
    ensures correct <= total ==> s <= 100
    ensures 2 * total * s - total <= 200 * correct < 2 * total * s + total
  {
    var d := 2 * total;
    var n := 200 * correct + total;
    DivBounds(n, d);
    assert correct <= total ==> n / d <= 100 by {
      if correct <= total && n / d > 100 {
        MulStep(d, 100, n / d);
      }
    }
    n / d
  }

  /** The score is the integer nearest to the percentage, halves rounding up:
      no other integer meets the bounds. */
  lemma ScoreUnique(correct: nat, total: nat, s: int)
    requires total > 0
    requires 2 * total * s - total <= 200 * correct < 2 * total * s + total
    ensures s == Score(correct, total)
  {
    var s0 := Score(correct, total);
    if s < s0 {
      MulStep(2 * total, s, s0);
    } else if s > s0 {
      MulStep(2 * total, s0, s);
    }
  }

  /** All answers correct scores 100; none scores 0. */
  lemma ScoreExtremes(total: nat)
    requires total > 0
    ensures Score(total, total) == 100
    ensures Score(0, total) == 0
  {
    ScoreUnique(total, total, 100);
    ScoreUnique(0, total, 0);
  }

  /** More correct answers never lower the score. */
  lemma ScoreMonotone(c1: nat, c2: nat, total: nat)
    requires total > 0 && c1 <= c2
    ensures Score(c1, total) <= Score(c2, total)
  {
    var s1, s2 := Score(c1, total), Score(c2, total);
    if s1 > s2 {
      MulStep(2 * total, s2, s1);
    }
  }

  /** `score >= quizData.passing_score`. */
  predicate Passed(score: int, passingScore: int) {
    score >= passingScore
  }

  // ---------------------------------------------------------------------
  // submitQuizAttemptAction: access checks and the attempt row
  // ---------------------------------------------------------------------

  /** The student holds an approved enrollment in the course run. */
  predicate HasApproved(enrollments: map<Id, Enrollment>, studentId: Id, runId: Id) {
    exists k :: k in enrollments && enrollments[k].studentId == studentId && enrollments[k].runId == runId
                && enrollments[k].status == Approved
  }

  /** The quiz's questions, as the nested select returns them (a set: the
      datastore gives no order). */
  function QuestionsOf(questions: map<Id, Question>, quizId: Id): set<Id> {
    set k | k in questions && questions[k].quizId == quizId
  }

  /** `order` lists each question of the set exactly once. */
  predicate Enumerates(order: seq<Id>, qs: set<Id>) {
    Distinct(order) && (forall i :: 0 <= i < |order| ==> order[i] in qs) && (forall q :: q in qs ==> q in order)
  }

  /** The checks before grading, in the order the action makes them. */
  function SubmitGate(profile: Option<Profile>, enrollments: map<Id, Enrollment>, quizzes: map<Id, Quiz>,
                      questions: map<Id, Question>, quizId: Id, runId: Id): (e: Option<Error>)
    ensures e == Some(LoginRequired) <==> profile.None?
    ensures e == Some(QuizAccessDenied) <==> profile.Some? && !HasApproved(enrollments, profile.value.id, runId)
    ensures e == Some(QuizNotFound) <==>
      profile.Some? && HasApproved(enrollments, profile.value.id, runId) && quizId !in quizzes
    ensures e == Some(NoQuestions) <==>
      profile.Some? && HasApproved(enrollments, profile.value.id, runId) && quizId in quizzes
      && QuestionsOf(questions, quizId) == {}
    ensures e.None? <==>
      profile.Some? && HasApproved(enrollments, profile.value.id, runId) && quizId in quizzes
      && QuestionsOf(questions, quizId) != {}
  {
    if profile.None? then Some(LoginRequired)
    else if !HasApproved(enrollments, profile.value.id, runId) then Some(QuizAccessDenied)
    else if quizId !in quizzes then Some(QuizNotFound)
    else if QuestionsOf(questions, quizId) == {} then Some(NoQuestions)
    else None
  }

  /** The upsert on `(quiz_id, student_id)`: a first submission creates the
      row (started now); a resubmission overwrites answers, score and
      submission time and keeps the start time. */
  function RecordAttempt(attempts: map<(Id, Id), Attempt>, quizId: Id, studentId: Id,
                         answers: map<Id, Id>, score: int, now: int): (r: map<(Id, Id), Attempt>)
    ensures r.Keys == attempts.Keys + {(quizId, studentId)}
    ensures forall k :: k in attempts && k != (quizId, studentId) ==> r[k] == attempts[k]
    ensures r[(quizId, studentId)].status == Submitted
    ensures r[(quizId, studentId)].answers == Some(answers) && r[(quizId, studentId)].score == Some(score)
    ensures r[(quizId, studentId)].submittedAt == Some(now)
  {
    var key := (quizId, studentId);
    var startedAt := if key in attempts then attempts[key].startedAt else now;
    attempts[key := Attempt(Submitted, Some(answers), Some(score), startedAt, Some(now))]
  }

  /** A resubmission leaves one row per student and quiz, holding the latest
      answers and score and the first start time. */
  lemma Resubmission(attempts: map<(Id, Id), Attempt>, quizId: Id, studentId: Id,
                     a1: map<Id, Id>, s1: int, t1: int, a2: map<Id, Id>, s2: int, t2: int)
    ensures var once := RecordAttempt(attempts, quizId, studentId, a1, s1, t1);
      var twice := RecordAttempt(once, quizId, studentId, a2, s2, t2);
      && twice.Keys == once.Keys
      && twice[(quizId, studentId)] ==
         Attempt(Submitted, Some(a2), Some(s2), once[(quizId, studentId)].startedAt, Some(t2))
      && ((quizId, studentId) in attempts ==>
            once[(quizId, studentId)].startedAt == attempts[(quizId, studentId)].startedAt)
  {
  }

  datatype Submission = Submission(score: int, passed: bool)

  /** Under the gate, the listing of the quiz's questions is not empty. */
  lemma NonEmptyListing(order: seq<Id>, qs: set<Id>)
    requires Enumerates(order, qs) && qs != {}
    ensures |order| > 0
  {
    var q :| q in qs;
    assert q in order;
  }

  /** `submitQuizAttemptAction`. `order` is the quiz's questions as the
      datastore lists them; `now` the submission time; `storeFails` an upsert
      error. */
  method SubmitQuizAttempt(db: Db, profile: Option<Profile>, quizId: Id, runId: Id, answers: map<Id, Id>,
                           order: seq<Id>, now: int, storeFails: bool)
    returns (r: Result<Submission>)
    requires db.Valid()
    requires quizId in db.quizzes ==> Enumerates(order, QuestionsOf(db.questions, quizId))
    modifies db`attempts
    ensures db.Valid()
    ensures r.Failure? ==> db.attempts == old(db.attempts)
    ensures var gate := SubmitGate(profile, db.enrollments, db.quizzes, db.questions, quizId, runId);
      gate.Some? ==> r == Failure(gate.value)
    ensures var gate := SubmitGate(profile, db.enrollments, db.quizzes, db.questions, quizId, runId);
      gate.None? ==> |order| > 0
    ensures var gate := SubmitGate(profile, db.enrollments, db.quizzes, db.questions, quizId, runId);
      gate.None? && FirstProblem(order, answers, db.options).Some? ==>
        r == Failure(FirstProblem(order, answers, db.options).value)
    ensures var gate := SubmitGate(profile, db.enrollments, db.quizzes, db.questions, quizId, runId);
      gate.None? && FirstProblem(order, answers, db.options).None? ==>
        var s := Score(CorrectCount(order, answers, db.options), |order|);
        && r == (if storeFails then Failure(AttemptNotSaved)
                 else Success(Submission(s, Passed(s, db.quizzes[quizId].passingScore))))
        && (!storeFails ==> db.attempts == RecordAttempt(old(db.attempts), quizId, profile.value.id, answers, s, now))
  {
    var gate := SubmitGate(profile, db.enrollments, db.quizzes, db.questions, quizId, runId);
    if gate.Some? {
      return Failure(gate.value);
    }
    NonEmptyListing(order, QuestionsOf(db.questions, quizId));
    var graded := Grade(order, answers, db.options);
    if graded.Failure? {
      return Failure(graded.error);
    }
    var score := Score(graded.value, |order|);
    var passed := score >= db.quizzes[quizId].passingScore;
    if storeFails {
      return Failure(AttemptNotSaved);
    }
    db.attempts := RecordAttempt(db.attempts, quizId, profile.value.id, answers, score, now);
    r := Success(Submission(score, passed));
  }
}
