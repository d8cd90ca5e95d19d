/** The student's quiz form (src/components/quiz/quiz-attempt-form.tsx): the
    answers and result state seeded from the stored attempt, the lock that
    keeps a submitted quiz read-only, the answer choice and the handling of
    the submit action's outcome. */
module QuizForm {
  import opened Types
  import opened QuizActions

  /** `existingAttempt?.answers ?? {}`. */
  function InitialAnswers(existing: Option<Attempt>): (r: map<Id, Id>)
    ensures existing.Some? && existing.value.answers.Some? ==> r == existing.value.answers.value
    ensures existing.None? || existing.value.answers.None? ==> r == map[]
  {
    if existing.Some? && existing.value.answers.Some? then existing.value.answers.value else map[]
  }

  /** A result exists only for a stored attempt with a score; whether it
      passed is decided by the same rule the server grades with. */
  function InitialResult(existing: Option<Attempt>, passingScore: int): (r: Option<Submission>)
    ensures r.Some? <==> existing.Some? && existing.value.score.Some?
    ensures r.Some? ==> r.value.score == existing.value.score.value
    ensures r.Some? ==> (r.value.passed <==> Passed(r.value.score, passingScore))
  {
    if existing.Some? && existing.value.score.Some? then
      var s := existing.value.score.value;
      Some(Submission(s, s >= passingScore))
    else None
  }

  /** `existingAttempt?.status === "submitted" && result !== null`. */
  predicate Locked(existing: Option<Attempt>, result: Option<Submission>) {
    existing.Some? && existing.value.status == Submitted && result.Some?
  }

  /** The lock reads the stored attempt the form was opened with, so a form
      opened without one stays unlocked whatever results it receives. */
  lemma LockNeedsStoredAttempt(result: Option<Submission>)
    ensures !Locked(None, result)
  {
  }

  /** Reopening the form after a successful submission shows the submitted
      answers and the score and verdict the server returned, read-only. */
  lemma ReopenShowsSubmission(attempts: map<(Id, Id), Attempt>, quizId: Id, studentId: Id,
                              answers: map<Id, Id>, score: int, now: int, passingScore: int)
    ensures var stored := Some(RecordAttempt(attempts, quizId, studentId, answers, score, now)[(quizId, studentId)]);
      && InitialAnswers(stored) == answers
      && InitialResult(stored, passingScore) == Some(Submission(score, Passed(score, passingScore)))
      && Locked(stored, InitialResult(stored, passingScore))
  {
    var stored := Some(RecordAttempt(attempts, quizId, studentId, answers, score, now)[(quizId, studentId)]);
    var r := InitialResult(stored, passingScore);
    assert r.Some? && r.value.score == score;
  }

  /** The radio button's change handler: ignored when locked, otherwise
      `{ ...prev, [questionId]: optionId }`. */
  function ChooseAnswer(answers: map<Id, Id>, locked: bool, questionId: Id, optionId: Id): (r: map<Id, Id>)
    ensures locked ==> r == answers
    ensures !locked ==> questionId in r && r[questionId] == optionId
    ensures !locked ==> r.Keys == answers.Keys + {questionId}
    ensures forall q :: q in answers && q != questionId ==> q in r && r[q] == answers[q]
  {
    if locked then answers else answers[questionId := optionId]
  }

  /** Choosing twice for the same question keeps only the second choice;
      choosing for different questions does not depend on the order. */
  lemma ChoicesCommute(answers: map<Id, Id>, q1: Id, o1: Id, q2: Id, o2: Id)
    ensures ChooseAnswer(ChooseAnswer(answers, false, q1, o1), false, q1, o2) == ChooseAnswer(answers, false, q1, o2)
    ensures q1 != q2 ==>
      ChooseAnswer(ChooseAnswer(answers, false, q1, o1), false, q2, o2) ==
      ChooseAnswer(ChooseAnswer(answers, false, q2, o2), false, q1, o1)
  {
    var a := ChooseAnswer(ChooseAnswer(answers, false, q1, o1), false, q1, o2);
    assert a.Keys == ChooseAnswer(answers, false, q1, o2).Keys;
    if q1 != q2 {
      var b := ChooseAnswer(ChooseAnswer(answers, false, q1, o1), false, q2, o2);
      var c := ChooseAnswer(ChooseAnswer(answers, false, q2, o2), false, q1, o1);
      assert b.Keys == c.Keys;
    }
  }

  /** The status line shown after a successful submission. */
  function PassMessage(passed: bool): (s: string)
    ensures s != ""
  {
    if passed then "Tebrikler, quiz başarıyla tamamlandı." else "Quiz tekrar denemesi önerilir."
  }

  /** The messages differ, so the status line tells a pass from a fail. */
  lemma PassMessageTellsOutcome(p1: bool, p2: bool)
    ensures PassMessage(p1) == PassMessage(p2) <==> p1 == p2
  {
    if p1 != p2 {
      assert PassMessage(true)[0] != PassMessage(false)[0];
    }
  }

  /** The form's state. `existing` and `passingScore` are the component's
      props; the other fields are its `useState` hooks. */
  class Form {
    const existing: Option<Attempt>
    const passingScore: int
    var answers: map<Id, Id>
    var result: Option<Submission>
    var statusMessage: Option<string>
    var error: Option<Error>

    constructor (existing: Option<Attempt>, passingScore: int)
      ensures this.existing == existing && this.passingScore == passingScore
      ensures answers == InitialAnswers(existing)
      ensures result == InitialResult(existing, passingScore)
      ensures statusMessage.None? && error.None?
    {
      this.existing := existing;
      this.passingScore := passingScore;
      answers := InitialAnswers(existing);
      result := InitialResult(existing, passingScore);
      statusMessage := None;
      error := None;
    }

    /** `isSubmitted`. */
    predicate IsSubmitted()
      reads this
    {
      Locked(existing, result)
    }

    /** Selecting `optionId` for `questionId`. */
    method Choose(questionId: Id, optionId: Id)
      modifies this`answers
      ensures answers == ChooseAnswer(old(answers), IsSubmitted(), questionId, optionId)
    {
      if IsSubmitted() {
        return;
      }
      answers := answers[questionId := optionId];
    }

    /** The submit handler: both messages are cleared, then an error is shown,
        or the returned score and verdict become the result. */
    method ApplySubmission(outcome: Result<Submission>)
      modifies this`result, this`statusMessage, this`error
      ensures outcome.Failure? ==>
        error == Some(outcome.error) && statusMessage.None? && result == old(result)
      ensures outcome.Success? ==>
        error.None? && result == Some(outcome.value) && statusMessage == Some(PassMessage(outcome.value.passed))
    {
      error := None;
      statusMessage := None;
      match outcome
      case Failure(e) =>
        error := Some(e);
      case Success(s) =>
        result := Some(s);
        statusMessage := Some(PassMessage(s.passed));
    }
  }
}
