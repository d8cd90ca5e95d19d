/** The client-side logic of src/components/course-application-form.tsx:
    which runs accept applications now, which run the form preselects, and
    the status line shown for an existing application. */
module ApplicationForm {
  import opened Types
  import opened Seqs
  import Rules = Enrollment

  /** `application_start`, falling back to `access_start`. */
  function WindowStart(run: CourseRun): int {
    if run.applicationStart.Some? then run.applicationStart.value else run.accessStart
  }

  /** `application_end ?? access_end`; none means the window never closes. */
  function WindowEnd(run: CourseRun): Option<int> {
    if run.applicationEnd.Some? then run.applicationEnd else run.accessEnd
  }

  /** `isApplicationOpen`: start and end are both inclusive. */
  predicate IsApplicationOpen(run: CourseRun, now: int) {
    WindowStart(run) <= now && (WindowEnd(run).None? || now <= WindowEnd(run).value)
  }

  /** The form and the server agree: a run is open exactly when the apply
      action does not reject the time as outside the window. */
  lemma OpenIffNotOutside(run: CourseRun, now: int)
    ensures IsApplicationOpen(run, now) <==> !Rules.OutsideWindow(run, now)
  {
  }

  /** Both ends of the window are part of it, and a window without an end
      stays open from its start on. */
  lemma WindowInclusive(run: CourseRun, now: int)
    ensures WindowEnd(run).Some? && WindowStart(run) <= WindowEnd(run).value ==>
      IsApplicationOpen(run, WindowStart(run)) && IsApplicationOpen(run, WindowEnd(run).value)
    ensures WindowEnd(run).None? && WindowStart(run) <= now ==> IsApplicationOpen(run, now)
    ensures now < WindowStart(run) ==> !IsApplicationOpen(run, now)
  {
  }

  /** `openRuns`: the runs open now, in their listed order. */
  function OpenRuns(runs: seq<CourseRun>, now: int): (r: seq<CourseRun>)
    ensures forall i :: 0 <= i < |r| ==> IsApplicationOpen(r[i], now) && r[i] in runs
    ensures forall i :: 0 <= i < |runs| && IsApplicationOpen(runs[i], now) ==> runs[i] in r
  {
    Filter(runs, run => IsApplicationOpen(run, now))
  }

  /** The first open run in a listing is the head of `openRuns`. */
  lemma {:induction false} FirstOpenRun(runs: seq<CourseRun>, now: int, i: nat)
    requires i < |runs| && IsApplicationOpen(runs[i], now)
    requires forall j :: 0 <= j < i ==> !IsApplicationOpen(runs[j], now)
    ensures OpenRuns(runs, now) != [] && OpenRuns(runs, now)[0] == runs[i]
  {
    if i > 0 {
      FirstOpenRun(runs[1..], now, i - 1);
    }
  }

  /** With no open run, `openRuns` is empty. */
  lemma NoOpenRun(runs: seq<CourseRun>, now: int)
    requires forall j :: 0 <= j < |runs| ==> !IsApplicationOpen(runs[j], now)
    ensures OpenRuns(runs, now) == []
  {
    FilterNone(runs, run => IsApplicationOpen(run, now));
  }

  /** The initially selected run: that of the existing application, else the
      first open run, else the first run; none stands for "". */
  function InitialSelection(existing: Option<Enrollment>, runs: seq<CourseRun>, now: int): Option<Id> {
    var open := OpenRuns(runs, now);
    if existing.Some? then Some(existing.value.runId)
    else if open != [] then Some(open[0].id)
    else if runs != [] then Some(runs[0].id)
    else None
  }

  /** What the preselection picks, stated against the listing itself. */
  lemma InitialSelectionCases(existing: Option<Enrollment>, runs: seq<CourseRun>, now: int)
    ensures existing.Some? ==> InitialSelection(existing, runs, now) == Some(existing.value.runId)
    ensures existing.None? ==> forall i ::
      (0 <= i < |runs| && IsApplicationOpen(runs[i], now) && forall j :: 0 <= j < i ==> !IsApplicationOpen(runs[j], now))
      ==> InitialSelection(existing, runs, now) == Some(runs[i].id)
    ensures existing.None? && (forall j :: 0 <= j < |runs| ==> !IsApplicationOpen(runs[j], now)) ==>
      InitialSelection(existing, runs, now) == if runs == [] then None else Some(runs[0].id)
  {
    if existing.None? {
      forall i | 0 <= i < |runs| && IsApplicationOpen(runs[i], now) && forall j :: 0 <= j < i ==> !IsApplicationOpen(runs[j], now)
        ensures InitialSelection(existing, runs, now) == Some(runs[i].id)
      {
        FirstOpenRun(runs, now, i);
      }
      if forall j :: 0 <= j < |runs| ==> !IsApplicationOpen(runs[j], now) {
        NoOpenRun(runs, now);
      }
    }
  }

  datatype StatusMessage = ApplicationApproved | ApplicationUnderReview | ApplicationRejected

  /** The status line: approved, requested, and anything else as rejected;
      no line without an application. */
  function StatusText(existing: Option<Enrollment>): (m: Option<StatusMessage>)
    ensures m.None? <==> existing.None?
    ensures m == Some(ApplicationApproved) <==> existing.Some? && existing.value.status == Approved
    ensures m == Some(ApplicationUnderReview) <==> existing.Some? && existing.value.status == Requested
    ensures m == Some(ApplicationRejected) <==> existing.Some? && existing.value.status == Rejected
  {
    if existing.None? then None
    else match existing.value.status
      case Approved => Some(ApplicationApproved)
      case Requested => Some(ApplicationUnderReview)
      case Rejected => Some(ApplicationRejected)
  }
}
