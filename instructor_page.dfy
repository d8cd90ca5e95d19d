/** The instructor dashboard (src/app/instructor/page.tsx): the courses in
    the viewer's scope, newest first, and per course the enrollment totals
    over its runs and the run shown as its schedule. */
module InstructorPage {
  import opened Types
  import opened Auth
  import opened Seqs

  /** A run joined with its enrollments. */
  datatype RunWithEnrollments = RunWithEnrollments(run: CourseRun, enrollments: seq<Enrollment>)

  /** A fetched course joined with its runs and lessons. */
  datatype CourseCard = CourseCard(
    course: Course,
    createdAt: int,
    runs: seq<RunWithEnrollments>,
    lessons: seq<Lesson>)

  /** `.match(profile?.role === "admin" ? {} : { instructor_id: profile?.id ?? "" })`:
      the empty-string id of an absent profile matches no course. */
  predicate InScope(profile: Option<Profile>, card: CourseCard) {
    profile.Some? && OwnerOrAdmin(profile.value, card.course.instructorId)
  }

  function InScopeOf(profile: Option<Profile>): CourseCard -> bool {
    card => InScope(profile, card)
  }

  /** `.order("created_at", { ascending: false })`, as ascending by the negated key. */
  function NewestFirstKey(card: CourseCard): int {
    -card.createdAt
  }

  function Dashboard(profile: Option<Profile>, cards: seq<CourseCard>): (r: seq<CourseCard>)
    ensures SortedBy(r, NewestFirstKey)
    ensures forall i :: 0 <= i < |r| ==> InScope(profile, r[i]) && r[i] in cards
    ensures forall x :: x in cards && InScope(profile, x) ==> x in r
  {
    var sorted := SortBy(cards, NewestFirstKey);
    FilterSorted(sorted, InScopeOf(profile), NewestFirstKey);
    var r := Filter(sorted, InScopeOf(profile));
    assert forall i :: 0 <= i < |r| ==> r[i] in cards by {
      forall i | 0 <= i < |r|
        ensures r[i] in cards
      {
        assert r[i] in multiset(sorted);
      }
    }
    assert forall x :: x in cards && InScope(profile, x) ==> x in r by {
      forall x | x in cards && InScope(profile, x)
        ensures x in r
      {
        assert x in multiset(cards);
        assert x in sorted;
      }
    }
    r
  }

  /** An admin's dashboard is every course; one without a profile is empty. */
  lemma AdminAndAnonymousScopes(profile: Option<Profile>, cards: seq<CourseCard>)
    ensures profile.Some? && profile.value.role == Admin ==> |Dashboard(profile, cards)| == |cards|
    ensures profile.None? ==> Dashboard(profile, cards) == []
  {
    var sorted := SortBy(cards, NewestFirstKey);
    if profile.Some? && profile.value.role == Admin {
      FilterAll(sorted, InScopeOf(profile));
    }
    if profile.None? {
      FilterNone(sorted, InScopeOf(profile));
    }
  }

  function IsApproved(e: Enrollment): bool {
    e.status == Approved
  }

  /** `course_runs.reduce((acc, run) => acc + run.enrollments.length, 0)`. */
  function TotalEnrollments(runs: seq<RunWithEnrollments>): (n: nat)
    ensures runs == [] ==> n == 0
  {
    if runs == [] then 0
    else TotalEnrollments(runs[..|runs| - 1]) + |runs[|runs| - 1].enrollments|
  }

  /** The same fold over `run.enrollments.filter(approved)`. */
  function ApprovedEnrollments(runs: seq<RunWithEnrollments>): (n: nat)
    ensures runs == [] ==> n == 0
  {
    if runs == [] then 0
    else ApprovedEnrollments(runs[..|runs| - 1]) + |Filter(runs[|runs| - 1].enrollments, IsApproved)|
  }

  /** Every enrollment of the course, run after run. */
  function AllEnrollments(runs: seq<RunWithEnrollments>): seq<Enrollment> {
    if runs == [] then [] else AllEnrollments(runs[..|runs| - 1]) + runs[|runs| - 1].enrollments
  }

  /** The totals count the course's enrollments and its approved ones. */
  lemma {:induction false} TotalsCountEnrollments(runs: seq<RunWithEnrollments>)
    ensures TotalEnrollments(runs) == |AllEnrollments(runs)|
    ensures ApprovedEnrollments(runs) == |Filter(AllEnrollments(runs), IsApproved)|
  {
    if runs != [] {
      var p := runs[..|runs| - 1];
      TotalsCountEnrollments(p);
      FilterAppend(AllEnrollments(p), runs[|runs| - 1].enrollments, IsApproved);
    }
  }

  /** Approved enrollments never outnumber all enrollments, and they are all
      of them exactly when every enrollment is approved. */
  lemma ApprovedAtMostTotal(runs: seq<RunWithEnrollments>)
    ensures ApprovedEnrollments(runs) <= TotalEnrollments(runs)
    ensures ApprovedEnrollments(runs) == TotalEnrollments(runs) <==>
              forall e :: e in AllEnrollments(runs) ==> e.status == Approved
  {
    TotalsCountEnrollments(runs);
    var all := AllEnrollments(runs);
    FilterKeepsAll(all, IsApproved);
    assert (forall i :: 0 <= i < |all| ==> IsApproved(all[i])) <==>
           (forall e :: e in all ==> e.status == Approved);
  }

  /** `course.course_runs[0] ?? null`. */
  function Schedule(runs: seq<RunWithEnrollments>): (r: Option<CourseRun>)
    ensures r.None? <==> runs == []
    ensures r.Some? ==> r.value == runs[0].run
  {
    if runs == [] then None else Some(runs[0].run)
  }
}
