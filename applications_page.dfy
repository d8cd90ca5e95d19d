/** The instructor's pending-applications listing
    (src/app/instructor/applications/page.tsx): the datastore query keeps
    the `requested` enrollments oldest first, and the page then keeps the
    rows the viewer may decide on. */
module ApplicationsPage {
  import opened Types
  import opened Auth
  import opened Seqs

  /** A fetched enrollment joined with its run's course owner. */
  datatype ApplicationRow = ApplicationRow(enrollment: Enrollment, courseInstructor: Option<Id>)

  predicate IsRequested(row: ApplicationRow) {
    row.enrollment.status == Requested
  }

  function CreatedAt(row: ApplicationRow): int {
    row.enrollment.createdAt
  }

  /** `.eq("status", "requested").order("created_at", { ascending: true })`. */
  function Pending(rows: seq<ApplicationRow>): (r: seq<ApplicationRow>)
    ensures SortedBy(r, CreatedAt)
    ensures forall i :: 0 <= i < |r| ==> IsRequested(r[i])
    ensures forall x :: x in rows && IsRequested(x) ==> multiset(r)[x] == multiset(rows)[x]
    ensures forall x :: x in r ==> x in rows
  {
    var kept := Filter(rows, IsRequested);
    var r := SortBy(kept, CreatedAt);
    forall x | x in rows && IsRequested(x)
      ensures multiset(r)[x] == multiset(rows)[x]
    {
      FilterCount(rows, IsRequested, x);
    }
    forall i | 0 <= i < |r|
      ensures IsRequested(r[i]) && r[i] in rows
    {
      assert r[i] in multiset(r);
      assert r[i] in kept;
    }
    r
  }

  /** The page filter: an admin sees every row, anyone else the rows of the
      courses they teach; `profile?.id` of an absent profile matches nothing. */
  predicate Visible(profile: Option<Profile>, row: ApplicationRow) {
    profile.Some? && OwnerOrAdmin(profile.value, row.courseInstructor)
  }

  function VisibleTo(profile: Option<Profile>): ApplicationRow -> bool {
    row => Visible(profile, row)
  }

  function ApplicationsFor(profile: Option<Profile>, rows: seq<ApplicationRow>): (r: seq<ApplicationRow>)
    ensures forall i :: 0 <= i < |r| ==> IsRequested(r[i]) && Visible(profile, r[i])
    ensures forall x :: x in rows && IsRequested(x) && Visible(profile, x) ==> x in r
  {
    Filter(Pending(rows), VisibleTo(profile))
  }

  /** An admin keeps the whole pending listing, in its order. */
  lemma AdminSeesAll(admin: Profile, rows: seq<ApplicationRow>)
    requires admin.role == Admin
    ensures ApplicationsFor(Some(admin), rows) == Pending(rows)
  {
    FilterAll(Pending(rows), VisibleTo(Some(admin)));
  }

  /** Without a profile nothing is listed. */
  lemma NoProfileSeesNothing(rows: seq<ApplicationRow>)
    ensures ApplicationsFor(None, rows) == []
  {
    FilterNone(Pending(rows), VisibleTo(None));
  }

  /** A non-admin keeps exactly the pending rows of the courses they teach. */
  lemma OthersSeeOwnCourses(viewer: Profile, rows: seq<ApplicationRow>, x: ApplicationRow)
    requires viewer.role != Admin
    ensures x in ApplicationsFor(Some(viewer), rows) <==>
              x in rows && IsRequested(x) && x.courseInstructor == Some(viewer.id)
  {
  }

  /** The page filter keeps the pending order and adds nothing: the listing
      embeds into the pending rows by increasing positions. */
  lemma ListingKeepsOrder(profile: Option<Profile>, rows: seq<ApplicationRow>)
    ensures exists idx :: Embedding(ApplicationsFor(profile, rows), Pending(rows), idx)
  {
    var idx := KeptPositions(Pending(rows), VisibleTo(profile));
    assert Embedding(ApplicationsFor(profile, rows), Pending(rows), idx);
  }

  /** Listings never grow: a viewer sees at most the pending rows, and the
      pending rows are at most the fetched ones. */
  lemma ListingBounded(profile: Option<Profile>, rows: seq<ApplicationRow>)
    ensures |ApplicationsFor(profile, rows)| <= |Pending(rows)| <= |rows|
  {
  }
}
