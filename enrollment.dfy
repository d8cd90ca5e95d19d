/** The enrollment rules of src/app/actions/courses.ts: `applyToCourseAction`
    (a student applies to a course run with a payment receipt number) and
    `updateEnrollmentStatusAction` (an instructor approves or rejects an
    application). Both guard a seat cap: applications count the non-rejected
    rows of the run, approvals count its approved rows. */
module Enrollment {
  import opened Types
  import opened Text
  import opened Store

  /** The two outcomes an instructor can choose. */
  datatype Decision = Approve | Reject

  function DecisionStatus(d: Decision): EnrollmentStatus {
    match d
    case Approve => Approved
    case Reject => Rejected
  }

  predicate SameApplicant(e: Enrollment, student: Id, run: Id) {
    e.studentId == student && e.runId == run
  }

  /** Rows of `run` whose status is not `rejected`. */
  function ActiveKeys(es: map<Id, Enrollment>, run: Id): set<Id> {
    set k | k in es && es[k].runId == run && es[k].status != Rejected
  }

  function ActiveCount(es: map<Id, Enrollment>, run: Id): nat {
    |ActiveKeys(es, run)|
  }

  /** Rows of `run` whose status is `approved`. */
  function ApprovedKeys(es: map<Id, Enrollment>, run: Id): set<Id> {
    set k | k in es && es[k].runId == run && es[k].status == Approved
  }

  function ApprovedCount(es: map<Id, Enrollment>, run: Id): nat {
    |ApprovedKeys(es, run)|
  }

  /** Approved rows are non-rejected, so the approval count never exceeds the
      application count. */
  lemma ApprovedWithinActive(es: map<Id, Enrollment>, run: Id)
    ensures ApprovedCount(es, run) <= ActiveCount(es, run)
  {
    SubsetCardinality(ApprovedKeys(es, run), ActiveKeys(es, run));
  }

  lemma {:induction false} SubsetCardinality(a: set<Id>, b: set<Id>)
    requires a <= b
    ensures |a| <= |b|
  {
    if a != {} {
      var x :| x in a;
      SubsetCardinality(a - {x}, b - {x});
    }
  }

  /** Writing one row moves at most that row in or out of a run's active set. */
  lemma ActiveKeysUpdate(es: map<Id, Enrollment>, k: Id, e: Enrollment, run: Id)
    ensures ActiveKeys(es[k := e], run) ==
      (ActiveKeys(es, run) - {k}) + (if e.runId == run && e.status != Rejected then {k} else {})
  {
  }

  /** Writing one row moves at most that row in or out of a run's approved set. */
  lemma ApprovedKeysUpdate(es: map<Id, Enrollment>, k: Id, e: Enrollment, run: Id)
    ensures ApprovedKeys(es[k := e], run) ==
      (ApprovedKeys(es, run) - {k}) + (if e.runId == run && e.status == Approved then {k} else {})
  {
  }

  /** `hasActiveEnrollment`: the student already holds a non-rejected row for the run. */
  predicate HasActiveApplication(es: map<Id, Enrollment>, student: Id, run: Id) {
    exists k :: k in es && SameApplicant(es[k], student, run) && es[k].status != Rejected
  }

  /** The server's window test: the window opens at `application_start`, or
      at `access_start` when that is absent, and closes at `application_end`,
      else `access_end`, else never. */
  predicate OutsideWindow(run: CourseRun, now: int) {
    var start := if run.applicationStart.Some? then run.applicationStart.value else run.accessStart;
    var end := if run.applicationEnd.Some? then run.applicationEnd else run.accessEnd;
    start > now || (end.Some? && now > end.value)
  }

  /** The chosen run exists and belongs to the course. */
  predicate RunOfCourse(runs: map<Id, CourseRun>, courseId: Id, runId: Id) {
    runId in runs && runs[runId].courseId == courseId
  }

  /** The seat cap turns the application away: the run has a numeric limit,
      the student is not seen to hold an active row, and the counted active
      rows fill the limit. Both reads fail open: a failed read of the
      student's row (`existingFails`) reads as no row, and a failed count
      (`countFails`) reads as 0. */
  predicate CapacityRefuses(run: CourseRun, es: map<Id, Enrollment>, student: Id,
                            existingFails: bool, countFails: bool) {
    run.enrollmentLimit.Some? && !(!existingFails && HasActiveApplication(es, student, run.id))
    && (if countFails then 0 else ActiveCount(es, run.id)) >= run.enrollmentLimit.value
  }

  /** The checks of `applyToCourseAction` in the order they fire; None when
      all pass. */
  function ApplyGate(profile: Option<Profile>, receiptNo: string, runs: map<Id, CourseRun>,
                     es: map<Id, Enrollment>, courseId: Id, runId: Id, now: int,
                     existingFails: bool, countFails: bool): (e: Option<Error>)
    requires forall k :: k in runs ==> runs[k].id == k
    ensures profile.None? ==> e == Some(ApplyLoginRequired)
    ensures profile.Some? && IsBlank(receiptNo) ==> e == Some(ReceiptRequired)
    ensures e == Some(RunNotFound) <==>
      profile.Some? && !IsBlank(receiptNo) && !RunOfCourse(runs, courseId, runId)
    ensures e == Some(OutsideApplicationWindow) <==>
      profile.Some? && !IsBlank(receiptNo) && RunOfCourse(runs, courseId, runId)
      && OutsideWindow(runs[runId], now)
    ensures e == Some(ApplicationCapacityFull) <==>
      profile.Some? && !IsBlank(receiptNo) && RunOfCourse(runs, courseId, runId)
      && !OutsideWindow(runs[runId], now) && CapacityRefuses(runs[runId], es, profile.value.id, existingFails, countFails)
    ensures e.None? <==>
      profile.Some? && !IsBlank(receiptNo) && RunOfCourse(runs, courseId, runId)
      && !OutsideWindow(runs[runId], now) && !CapacityRefuses(runs[runId], es, profile.value.id, existingFails, countFails)
  {
    if profile.None? then Some(ApplyLoginRequired)
    else if IsBlank(receiptNo) then Some(ReceiptRequired)
    else if !RunOfCourse(runs, courseId, runId) then Some(RunNotFound)
    else if OutsideWindow(runs[runId], now) then Some(OutsideApplicationWindow)
    else if CapacityRefuses(runs[runId], es, profile.value.id, existingFails, countFails) then Some(ApplicationCapacityFull)
    else None
  }

  /** The columns the upsert writes over an existing row. */
  function Renew(e: Enrollment, receiptNo: string): Enrollment {
    e.(status := Requested, receiptNo := receiptNo, decidedAt := None)
  }

  /** The upsert on `(student_id, course_run_id)`: an existing row gets status
      `requested`, the new receipt and a cleared decision time (keeping its
      key and creation time); otherwise a new row is inserted under `newKey`. */
  function UpsertApplication(es: map<Id, Enrollment>, newKey: Id, student: Id, run: Id,
                             receiptNo: string, now: int): map<Id, Enrollment>
  {
    if exists k :: k in es && SameApplicant(es[k], student, run) then
      map k | k in es :: if SameApplicant(es[k], student, run) then Renew(es[k], receiptNo) else es[k]
    else
      es[newKey := Enrollment(newKey, student, run, Requested, receiptNo, None, now)]
  }

  /** After the upsert exactly one row holds the pair, it is a fresh
      application carrying the new receipt, and every other row is untouched;
      the table stays unique on the pair. */
  lemma UpsertApplicationRow(es: map<Id, Enrollment>, newKey: Id, student: Id, run: Id,
                             receiptNo: string, now: int)
    requires UniqueApplications(es) && newKey !in es
    ensures var r := UpsertApplication(es, newKey, student, run, receiptNo, now);
      && UniqueApplications(r)
      && (exists k :: k in r && SameApplicant(r[k], student, run))
      && (forall k :: k in r && SameApplicant(r[k], student, run) ==>
            r[k].status == Requested && r[k].receiptNo == receiptNo && r[k].decidedAt.None?
            && (k in es ==> r[k].id == es[k].id && r[k].createdAt == es[k].createdAt)
            && (k !in es ==> k == newKey && r[k].id == newKey && r[k].createdAt == now))
      && (forall k :: k in es && !SameApplicant(es[k], student, run) ==> k in r && r[k] == es[k])
      && (forall k :: k in r ==> k in es || k == newKey)
      && (forall k :: k in es ==> k in r)
  {
    var r := UpsertApplication(es, newKey, student, run, receiptNo, now);
    if exists k :: k in es && SameApplicant(es[k], student, run) {
      var k0 :| k0 in es && SameApplicant(es[k0], student, run);
      assert k0 in r && SameApplicant(r[k0], student, run);
    } else {
      assert newKey in r && SameApplicant(r[newKey], student, run);
    }
  }

  /** On a table unique on the pair, the upsert over an existing row is a
      single-row write. */
  lemma UpsertOverExisting(es: map<Id, Enrollment>, newKey: Id, student: Id, run: Id,
                           receiptNo: string, now: int, k0: Id)
    requires UniqueApplications(es) && k0 in es && SameApplicant(es[k0], student, run)
    ensures UpsertApplication(es, newKey, student, run, receiptNo, now) == es[k0 := Renew(es[k0], receiptNo)]
  {
  }

  lemma RenewActiveCount(es: map<Id, Enrollment>, k0: Id, receiptNo: string, other: Id)
    requires k0 in es
    ensures ActiveCount(es[k0 := Renew(es[k0], receiptNo)], other) ==
      if other == es[k0].runId && es[k0].status == Rejected then ActiveCount(es, other) + 1
      else ActiveCount(es, other)
  {
    var before := ActiveKeys(es, other);
    ActiveKeysUpdate(es, k0, Renew(es[k0], receiptNo), other);
    if other == es[k0].runId && es[k0].status == Rejected {
      assert k0 !in before;
      assert before - {k0} == before;
    } else if other == es[k0].runId {
      assert k0 in before;
      assert before - {k0} + {k0} == before;
    } else {
      assert before - {k0} == before;
    }
  }

  lemma InsertActiveCount(es: map<Id, Enrollment>, e: Enrollment, other: Id)
    requires e.id !in es && e.status == Requested
    ensures ActiveCount(es[e.id := e], other) ==
      if other == e.runId then ActiveCount(es, other) + 1 else ActiveCount(es, other)
  {
    var before := ActiveKeys(es, other);
    ActiveKeysUpdate(es, e.id, e, other);
    assert e.id !in before;
    assert before - {e.id} == before;
  }

  /** The upsert adds one active row to the run exactly when the student held
      no active row there; other runs keep their counts. */
  lemma UpsertActiveCount(es: map<Id, Enrollment>, newKey: Id, student: Id, run: Id,
                          receiptNo: string, now: int, other: Id)
    requires UniqueApplications(es) && newKey !in es
    ensures var r := UpsertApplication(es, newKey, student, run, receiptNo, now);
      ActiveCount(r, other) ==
        if other == run && !HasActiveApplication(es, student, run) then ActiveCount(es, other) + 1
        else ActiveCount(es, other)
  {
    if exists k :: k in es && SameApplicant(es[k], student, run) {
      var k0 :| k0 in es && SameApplicant(es[k0], student, run);
      UpsertOverExisting(es, newKey, student, run, receiptNo, now, k0);
      RenewActiveCount(es, k0, receiptNo, other);
      assert HasActiveApplication(es, student, run) <==> es[k0].status != Rejected;
    } else {
      InsertActiveCount(es, Enrollment(newKey, student, run, Requested, receiptNo, None, now), other);
    }
  }

  /** The upsert keeps every key equal to its row's id and below the next key. */
  lemma UpsertKeepsKeys(es: map<Id, Enrollment>, newKey: Id, student: Id, run: Id, receiptNo: string, now: int)
    requires UniqueApplications(es)
    requires forall k :: k in es ==> k < newKey && es[k].id == k
    ensures var r := UpsertApplication(es, newKey, student, run, receiptNo, now);
      && UniqueApplications(r)
      && (forall k :: k in r ==> k < newKey + 1 && r[k].id == k)
  {
    UpsertApplicationRow(es, newKey, student, run, receiptNo, now);
  }

  /** The application seat cap: if the run's non-rejected rows were within
      its limit before a successful application whose count was read, they
      still are after (even when the student's own row could not be read). */
  lemma ApplyKeepsCapacity(profile: Option<Profile>, receiptNo: string, runs: map<Id, CourseRun>,
                           es: map<Id, Enrollment>, courseId: Id, runId: Id, now: int, newKey: Id,
                           existingFails: bool)
    requires forall k :: k in runs ==> runs[k].id == k
    requires UniqueApplications(es) && newKey !in es
    requires ApplyGate(profile, receiptNo, runs, es, courseId, runId, now, existingFails, false).None?
    requires runs[runId].enrollmentLimit.Some?
    requires ActiveCount(es, runId) <= runs[runId].enrollmentLimit.value
    ensures ActiveCount(UpsertApplication(es, newKey, profile.value.id, runId, receiptNo, now), runId)
      <= runs[runId].enrollmentLimit.value
  {
    UpsertActiveCount(es, newKey, profile.value.id, runId, receiptNo, now, runId);
  }

  /** A failed count opens the seat cap: with a positive limit, an application
      the earlier checks let through is accepted however full the run is, and
      the upsert then takes a full run one row over its limit. */
  lemma ApplyCountFailureOpensCap(profile: Option<Profile>, receiptNo: string, runs: map<Id, CourseRun>,
                                  es: map<Id, Enrollment>, courseId: Id, runId: Id, now: int, newKey: Id,
                                  existingFails: bool)
    requires forall k :: k in runs ==> runs[k].id == k
    requires UniqueApplications(es) && newKey !in es
    requires profile.Some? && !IsBlank(receiptNo) && RunOfCourse(runs, courseId, runId)
    requires !OutsideWindow(runs[runId], now)
    requires runs[runId].enrollmentLimit.Some? && runs[runId].enrollmentLimit.value > 0
    requires !HasActiveApplication(es, profile.value.id, runId)
    requires ActiveCount(es, runId) == runs[runId].enrollmentLimit.value
    ensures ApplyGate(profile, receiptNo, runs, es, courseId, runId, now, existingFails, true).None?
    ensures ActiveCount(UpsertApplication(es, newKey, profile.value.id, runId, receiptNo, now), runId)
      == runs[runId].enrollmentLimit.value + 1
  {
    UpsertActiveCount(es, newKey, profile.value.id, runId, receiptNo, now, runId);
  }

  /** `applyToCourseAction`. `existingFails` and `countFails` stand for
      failed reads of the student's row and of the active count, which the
      original does not check; `storeFails` stands for a failed upsert. */
  method ApplyToCourse(db: Db, profile: Option<Profile>, courseId: Id, runId: Id, receiptNo: string,
                       now: int, existingFails: bool, countFails: bool, storeFails: bool) returns (r: Result<()>)
    requires db.Valid()
    modifies db`enrollments, db`nextId
    ensures db.Valid()
    ensures var gate := ApplyGate(profile, receiptNo, db.runs, old(db.enrollments), courseId, runId, now,
                                  existingFails, countFails);
      && (gate.Some? ==> r == Failure(gate.value))
      && (gate.None? && storeFails ==> r == Failure(ApplicationNotSaved))
      && (gate.None? && !storeFails ==>
            && r == Success(())
            && db.enrollments == UpsertApplication(old(db.enrollments), old(db.nextId), profile.value.id,
                                                   runId, receiptNo, now))
    ensures r.Failure? ==> db.enrollments == old(db.enrollments) && db.nextId == old(db.nextId)
  {
    var gate := ApplyGate(profile, receiptNo, db.runs, db.enrollments, courseId, runId, now, existingFails, countFails);
    if gate.Some? {
      return Failure(gate.value);
    }
    if storeFails {
      return Failure(ApplicationNotSaved);
    }
    var newKey := db.FreshId();
    UpsertKeepsKeys(db.enrollments, newKey, profile.value.id, runId, receiptNo, now);
    db.enrollments := UpsertApplication(db.enrollments, newKey, profile.value.id, runId, receiptNo, now);
    r := Success(());
  }

  /** The approval cap fires: approving a row that is not yet approved, on a
      run with a numeric limit whose counted approved rows already fill it; a
      failed count (`countFails`) reads as 0. */
  predicate ApprovalRefused(es: map<Id, Enrollment>, run: CourseRun, enrollmentId: Id, decision: Decision,
                            countFails: bool)
    requires enrollmentId in es
  {
    && decision == Approve
    && es[enrollmentId].status != Approved
    && run.enrollmentLimit.Some?
    && (if countFails then 0 else ApprovedCount(es, es[enrollmentId].runId)) >= run.enrollmentLimit.value
  }

  /** The checks of `updateEnrollmentStatusAction` in the order they fire. */
  function DecideGate(es: map<Id, Enrollment>, runs: map<Id, CourseRun>, enrollmentId: Id,
                      decision: Decision, countFails: bool): (e: Option<Error>)
    ensures enrollmentId !in es ==> e == Some(EnrollmentNotFound)
    ensures enrollmentId in es && es[enrollmentId].runId !in runs ==> e == Some(RunUnavailable)
    ensures e == Some(ApprovalCapacityFull) <==>
      enrollmentId in es && es[enrollmentId].runId in runs
      && ApprovalRefused(es, runs[es[enrollmentId].runId], enrollmentId, decision, countFails)
    ensures e.None? <==>
      enrollmentId in es && es[enrollmentId].runId in runs
      && !ApprovalRefused(es, runs[es[enrollmentId].runId], enrollmentId, decision, countFails)
    ensures decision == Reject ==> e != Some(ApprovalCapacityFull)
  {
    if enrollmentId !in es then Some(EnrollmentNotFound)
    else if es[enrollmentId].runId !in runs then Some(RunUnavailable)
    else if ApprovalRefused(es, runs[es[enrollmentId].runId], enrollmentId, decision, countFails) then Some(ApprovalCapacityFull)
    else None
  }

  /** The write: only `status` and `decided_at` of that one row change. */
  function Decide(es: map<Id, Enrollment>, enrollmentId: Id, decision: Decision, now: int): map<Id, Enrollment>
    requires enrollmentId in es
  {
    es[enrollmentId := es[enrollmentId].(status := DecisionStatus(decision), decidedAt := Some(now))]
  }

  /** The approval seat cap: a decision the gate lets through after reading
      the count never takes any run with a numeric limit from within its
      limit to above it. */
  lemma DecideKeepsApprovalCapacity(es: map<Id, Enrollment>, runs: map<Id, CourseRun>, enrollmentId: Id,
                                    decision: Decision, now: int, run: Id)
    requires forall k :: k in runs ==> runs[k].id == k
    requires DecideGate(es, runs, enrollmentId, decision, false).None?
    requires run in runs && runs[run].enrollmentLimit.Some?
    requires ApprovedCount(es, run) <= runs[run].enrollmentLimit.value
    ensures ApprovedCount(Decide(es, enrollmentId, decision, now), run) <= runs[run].enrollmentLimit.value
  {
    var before := ApprovedKeys(es, run);
    var e := es[enrollmentId].(status := DecisionStatus(decision), decidedAt := Some(now));
    ApprovedKeysUpdate(es, enrollmentId, e, run);
    SubsetCardinality(before - {enrollmentId}, before);
    if es[enrollmentId].runId == run && decision == Approve && es[enrollmentId].status == Approved {
      assert enrollmentId in before;
      assert before - {enrollmentId} + {enrollmentId} == before;
    }
  }

  /** A failed count opens the approval cap: with a positive limit, approving
      a pending row of a run whose approved rows fill the limit passes the
      gate, and the write takes the run one approval over its limit. */
  lemma DecideCountFailureOpensCap(es: map<Id, Enrollment>, runs: map<Id, CourseRun>, enrollmentId: Id, now: int)
    requires enrollmentId in es && es[enrollmentId].runId in runs
    requires var run := runs[es[enrollmentId].runId];
      run.enrollmentLimit.Some? && run.enrollmentLimit.value > 0
      && ApprovedCount(es, es[enrollmentId].runId) == run.enrollmentLimit.value
    requires es[enrollmentId].status != Approved
    ensures DecideGate(es, runs, enrollmentId, Approve, true).None?
    ensures ApprovedCount(Decide(es, enrollmentId, Approve, now), es[enrollmentId].runId)
      == runs[es[enrollmentId].runId].enrollmentLimit.value + 1
  {
    var run := es[enrollmentId].runId;
    var before := ApprovedKeys(es, run);
    ApprovedKeysUpdate(es, enrollmentId, es[enrollmentId].(status := Approved, decidedAt := Some(now)), run);
    assert enrollmentId !in before;
    assert before - {enrollmentId} == before;
  }

  /** `updateEnrollmentStatusAction`. `countFails` stands for a failed read
      of the approved count, which the original does not check; `storeFails`
      for a failed update. */
  method UpdateEnrollmentStatus(db: Db, enrollmentId: Id, decision: Decision, now: int,
                                countFails: bool, storeFails: bool)
    returns (r: Result<()>)
    requires db.Valid()
    modifies db`enrollments
    ensures db.Valid()
    ensures var gate := DecideGate(old(db.enrollments), db.runs, enrollmentId, decision, countFails);
      && (gate.Some? ==> r == Failure(gate.value))
      && (gate.None? && storeFails ==> r == Failure(EnrollmentNotUpdated))
      && (gate.None? && !storeFails ==>
            && r == Success(())
            && db.enrollments == Decide(old(db.enrollments), enrollmentId, decision, now))
    ensures r.Failure? ==> db.enrollments == old(db.enrollments)
  {
    var gate := DecideGate(db.enrollments, db.runs, enrollmentId, decision, countFails);
    if gate.Some? {
      return Failure(gate.value);
    }
    if storeFails {
      return Failure(EnrollmentNotUpdated);
    }
    db.enrollments := Decide(db.enrollments, enrollmentId, decision, now);
    r := Success(());
  }
}
