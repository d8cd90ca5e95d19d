/** Row shapes and enumerations of the learning platform's datastore
    (src/lib/database.types.ts), the tagged results every server action
    returns, and the error tags that stand for the actions' messages. */
module Types {

  /** Every row key of the datastore (a uuid in the original) is abstracted to a number. */
  type Id = nat

  datatype Option<+T> = None | Some(value: T)

  /** `user_role` */
  datatype Role = Student | Instructor | Admin

  /** `enrollment_status` */
  datatype EnrollmentStatus = Requested | Approved | Rejected

  /** `quiz_attempt_status` */
  datatype AttemptStatus = InProgress | Submitted | Graded

  datatype Profile = Profile(id: Id, email: string, fullName: Option<string>, role: Role)

  datatype Course = Course(
    id: Id,
    instructorId: Option<Id>,
    title: string,
    slug: string,
    summary: Option<string>,
    description: Option<string>,
    coverImageUrl: Option<string>,
    isPublished: bool)

  /** A scheduled offering of a course; timestamps are integers. */
  datatype CourseRun = CourseRun(
    id: Id,
    courseId: Id,
    runLabel: Option<string>,
    accessStart: int,
    accessEnd: Option<int>,
    applicationStart: Option<int>,
    applicationEnd: Option<int>,
    enrollmentLimit: Option<int>)

  datatype Section = Section(id: Id, courseId: Id, title: string, orderIndex: int)

  datatype Lesson = Lesson(
    id: Id,
    courseId: Id,
    sectionId: Id,
    title: string,
    videoUrl: string,
    content: Option<string>,
    orderIndex: int,
    isPublished: bool)

  datatype Enrollment = Enrollment(
    id: Id,
    studentId: Id,
    runId: Id,
    status: EnrollmentStatus,
    receiptNo: string,
    decidedAt: Option<int>,
    createdAt: int)

  /** A progress row; its key (student, run, lesson) is the key of the progress table. */
  datatype Progress = Progress(
    isCompleted: bool,
    lastViewedAt: Option<int>,
    completedAt: Option<int>)

  datatype Quiz = Quiz(
    id: Id,
    lessonId: Id,
    title: string,
    description: Option<string>,
    passingScore: int,
    durationSeconds: Option<int>)

  datatype Question = Question(id: Id, quizId: Id, prompt: string, orderIndex: int)

  datatype QuizOption = QuizOption(id: Id, questionId: Id, text: string, isCorrect: bool)

  /** A quiz attempt; its key (quiz, student) is the key of the attempts table.
      `answers` maps a question id to the chosen option id. */
  datatype Attempt = Attempt(
    status: AttemptStatus,
    answers: Option<map<Id, Id>>,
    score: Option<int>,
    startedAt: int,
    submittedAt: Option<int>)

  /** One tag per user-facing message of the server actions. */
  datatype Error =
    // authorization and login
    | LoginRequired            // "Giriş yapmalısınız."
    | ApplyLoginRequired       // "Başvuru yapabilmek için giriş yapmalısınız."
    | CourseCreateForbidden    // "Kurs oluşturma yetkiniz yok."
    | SectionCreateForbidden   // "Bölüm oluşturma yetkiniz yok."
    | QuizCreateForbidden      // "Quiz oluşturma yetkiniz yok."
    | NotCourseOwner           // "Bu kurs için yetkiniz yok."
    | NotLessonOwner           // "Bu ders için yetkiniz yok."
    | RoleChangeForbidden      // "Yetkiniz yok."
    | QuizAccessDenied         // "Bu quiz için erişim yetkiniz yok."
    // validation
    | TitleRequired
    | AccessStartRequired
    | ApplicationStartRequired
    | TitleAndVideoRequired
    | SectionTitleRequired
    | ReceiptRequired
    | PromptRequired
    | OptionTextRequired
    // lookups
    | CourseUnavailable        // "Kurs bilgisi alınamadı."
    | SectionNotFound
    | RunNotFound              // "Seçilen takvim bulunamadı."
    | RunUnavailable           // "Dönem bilgisi alınamadı."
    | EnrollmentNotFound
    | LessonNotFound
    | QuizNotFound
    // business rules
    | OutsideApplicationWindow
    | ApplicationCapacityFull
    | ApprovalCapacityFull
    | QuizAlreadyExists
    | NoQuestions
    | Unanswered
    | InvalidOption
    // datastore write failures, one per action message
    | CourseNotSaved
    | ScheduleNotSet
    | RunNotCreated
    | ScheduleNotUpdated
    | LessonNotCreated
    | SectionNotCreated
    | LessonNotUpdated
    | SectionsNotReordered
    | LessonsNotReordered
    | EnrollmentNotUpdated
    | ApplicationNotSaved
    | QuizNotCreated
    | QuestionNotCreated
    | OptionNotCreated
    | OptionNotUpdated
    | AttemptNotSaved
    | ProgressNotSaved
    | RoleNotUpdated

  /** The `{ success: true, ... } | { error }` shape every action returns. */
  datatype Result<+T> = Success(value: T) | Failure(error: Error)
}
