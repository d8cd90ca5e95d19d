/** `partitionCoursesByRunState` of src/lib/courses.ts: the course catalogue
    splits the published courses into open, upcoming and past ones by the
    access dates of their runs. */
module Catalog {
  import opened Types
  import opened Seqs

  /** A course as the catalogue query returns it, with its runs. */
  datatype Listing = Listing(course: Course, runs: seq<CourseRun>)

  datatype Bucket = Open | Upcoming | Past

  /** The run's access period contains `now`, both ends inclusive; a run
      without an end stays open. */
  predicate RunOpen(run: CourseRun, now: int) {
    run.accessStart <= now && (run.accessEnd.None? || run.accessEnd.value >= now)
  }

  /** `runs.some(...)` for the open test. */
  predicate HasOpenRun(runs: seq<CourseRun>, now: int) {
    exists i :: 0 <= i < |runs| && RunOpen(runs[i], now)
  }

  /** `runs.some(...)` for a run whose access has not started. */
  predicate HasUpcomingRun(runs: seq<CourseRun>, now: int) {
    exists i :: 0 <= i < |runs| && runs[i].accessStart > now
  }

  /** The bucket one course goes to. */
  function BucketOf(c: Listing, now: int): (b: Bucket)
    ensures b == Open <==> HasOpenRun(c.runs, now)
    ensures b == Upcoming <==> !HasOpenRun(c.runs, now) && HasUpcomingRun(c.runs, now)
    ensures b == Past <==> !HasOpenRun(c.runs, now) && !HasUpcomingRun(c.runs, now)
  {
    if HasOpenRun(c.runs, now) then Open
    else if HasUpcomingRun(c.runs, now) then Upcoming
    else Past
  }

  /** A course without runs is past. */
  lemma NoRunsIsPast(course: Course, now: int)
    ensures BucketOf(Listing(course, []), now) == Past
  {
  }

  /** A course whose every run has ended is past. */
  lemma EndedRunsArePast(c: Listing, now: int)
    requires forall i :: 0 <= i < |c.runs| ==> c.runs[i].accessStart <= now
    requires forall i :: 0 <= i < |c.runs| ==> c.runs[i].accessEnd.Some? && c.runs[i].accessEnd.value < now
    ensures BucketOf(c, now) == Past
  {
  }

  /** The test `BucketOf(c, now) == b`, as one named function value. */
  function GoesTo(b: Bucket, now: int): Listing -> bool {
    c => BucketOf(c, now) == b
  }

  /** The courses of one bucket, in input order. */
  function InBucket(courses: seq<Listing>, b: Bucket, now: int): (r: seq<Listing>)
    ensures forall i :: 0 <= i < |r| ==> BucketOf(r[i], now) == b
  {
    Filter(courses, GoesTo(b, now))
  }

  /** One more course at the end lands in its own bucket only. */
  lemma InBucketSnoc(courses: seq<Listing>, c: Listing, b: Bucket, now: int)
    ensures InBucket(courses + [c], b, now) == InBucket(courses, b, now) + if BucketOf(c, now) == b then [c] else []
  {
    FilterAppend(courses, [c], GoesTo(b, now));
    assert Filter([c], GoesTo(b, now)) == (if BucketOf(c, now) == b then [c] else []) + Filter([], GoesTo(b, now));
  }

  /** The three buckets together are the input: every course lands in exactly
      one of them, as often as it occurs. */
  lemma {:induction false} BucketsPartition(courses: seq<Listing>, now: int)
    ensures multiset(InBucket(courses, Open, now)) + multiset(InBucket(courses, Upcoming, now))
            + multiset(InBucket(courses, Past, now)) == multiset(courses)
  {
    if courses != [] {
      var init := courses[..|courses| - 1];
      var c := courses[|courses| - 1];
      BucketsPartition(init, now);
      assert courses == init + [c];
      InBucketSnoc(init, c, Open, now);
      InBucketSnoc(init, c, Upcoming, now);
      InBucketSnoc(init, c, Past, now);
    }
  }

  /** The `forEach` that pushes each course onto the array of its bucket. */
  method PartitionCoursesByRunState(courses: seq<Listing>, now: int)
    returns (open: seq<Listing>, upcoming: seq<Listing>, past: seq<Listing>)
    ensures open == InBucket(courses, Open, now)
    ensures upcoming == InBucket(courses, Upcoming, now)
    ensures past == InBucket(courses, Past, now)
  {
    open, upcoming, past := [], [], [];
    var i := 0;
    while i < |courses|
      invariant 0 <= i <= |courses|
      invariant open == InBucket(courses[..i], Open, now)
      invariant upcoming == InBucket(courses[..i], Upcoming, now)
      invariant past == InBucket(courses[..i], Past, now)
    {
      var c := courses[i];
      assert courses[..i + 1] == courses[..i] + [c];
      InBucketSnoc(courses[..i], c, Open, now);
      InBucketSnoc(courses[..i], c, Upcoming, now);
      InBucketSnoc(courses[..i], c, Past, now);
      if HasOpenRun(c.runs, now) {
        open := open + [c];
      } else if HasUpcomingRun(c.runs, now) {
        upcoming := upcoming + [c];
      } else {
        past := past + [c];
      }
      i := i + 1;
    }
    assert courses[..|courses|] == courses;
  }
}
