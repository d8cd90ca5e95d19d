/** The two-pass reindex of `reorderCourseSectionsAction` and
    `reorderLessonsAction` (src/app/actions/courses.ts). Each pass sends one
    update per listed id, filtered on the id and on the parent course (and
    section, for lessons); the first pass writes `position + 1000`, the second
    `position`. Every update of a pass can fail on its own; a pass that saw a
    failure ends the action with an error and nothing is rolled back. The
    `orderIndex` the client sends along with each id is not read. */
module Reorder {
  import opened Types
  import opened Store
  import opened Seqs

  /** Some request of a pass over `n` ids failed. */
  predicate AnyFails(n: nat, fails: set<nat>) {
    exists i :: 0 <= i < n && i in fails
  }

  /** The table after one pass: for each position `i` whose request succeeds,
      the row `ids[i]`, when it exists and lies in `scope`, gets index
      `i + offset`. */
  function Pass<T>(m: map<Id, T>, scope: set<Id>, ids: seq<Id>, offset: int, fails: set<nat>,
                   withIndex: (T, int) -> T): (r: map<Id, T>)
    ensures r.Keys == m.Keys
    decreases |ids|
  {
    if ids == [] then m
    else
      var i := |ids| - 1;
      var prev := Pass(m, scope, ids[..i], offset, fails, withIndex);
      if i !in fails && ids[i] in prev && ids[i] in scope then prev[ids[i] := withIndex(prev[ids[i]], i + offset)]
      else prev
  }

  /** A listed row of the scope whose request succeeded holds its position
      plus the offset. */
  lemma {:induction false} PassAt<T>(m: map<Id, T>, scope: set<Id>, ids: seq<Id>, offset: int, fails: set<nat>,
                                     withIndex: (T, int) -> T, j: nat)
    requires Distinct(ids) && j < |ids| && j !in fails && ids[j] in m && ids[j] in scope
    ensures Pass(m, scope, ids, offset, fails, withIndex)[ids[j]] == withIndex(m[ids[j]], j + offset)
    decreases |ids|
  {
    var i := |ids| - 1;
    var prev := Pass(m, scope, ids[..i], offset, fails, withIndex);
    if j < i {
      assert Distinct(ids[..i]);
      PassAt(m, scope, ids[..i], offset, fails, withIndex, j);
      assert ids[..i][j] == ids[j] && ids[i] != ids[j];
    } else {
      PassUntouched(m, scope, ids[..i], offset, fails, withIndex, ids[j]);
    }
  }

  /** A row outside the scope, or listed only at positions whose request
      failed, keeps its value. */
  lemma {:induction false} PassUntouched<T>(m: map<Id, T>, scope: set<Id>, ids: seq<Id>, offset: int, fails: set<nat>,
                                            withIndex: (T, int) -> T, k: Id)
    requires k in m
    requires k !in scope || forall j :: 0 <= j < |ids| && ids[j] == k ==> j in fails
    ensures Pass(m, scope, ids, offset, fails, withIndex)[k] == m[k]
    decreases |ids|
  {
    if ids != [] {
      var i := |ids| - 1;
      assert forall j :: 0 <= j < i ==> ids[..i][j] == ids[j];
      PassUntouched(m, scope, ids[..i], offset, fails, withIndex, k);
    }
  }

  /** A pass keeps whatever the index update keeps, for example the row's
      key and its parent ids, so the scope of the next pass is unchanged. */
  lemma {:induction false} PassKeeps<T, U>(m: map<Id, T>, scope: set<Id>, ids: seq<Id>, offset: int, fails: set<nat>,
                                           withIndex: (T, int) -> T, f: T -> U)
    requires forall t, i :: f(withIndex(t, i)) == f(t)
    ensures forall k :: k in m ==> f(Pass(m, scope, ids, offset, fails, withIndex)[k]) == f(m[k])
    decreases |ids|
  {
    if ids != [] {
      var i := |ids| - 1;
      var prev := Pass(m, scope, ids[..i], offset, fails, withIndex);
      PassKeeps(m, scope, ids[..i], offset, fails, withIndex, f);
      var r := Pass(m, scope, ids, offset, fails, withIndex);
      assert r == if i !in fails && ids[i] in prev && ids[i] in scope
                  then prev[ids[i] := withIndex(prev[ids[i]], i + offset)] else prev;
      forall k | k in m ensures f(r[k]) == f(m[k]) {
        assert k in prev && f(prev[k]) == f(m[k]);
        if i !in fails && ids[i] in prev && ids[i] in scope && k == ids[i] {
          assert r[k] == withIndex(prev[k], i + offset);
          KeepsAt(withIndex, f, prev[k], i + offset);
        } else {
          assert r[k] == prev[k];
        }
      }
    }
  }

  lemma KeepsAt<T, U>(withIndex: (T, int) -> T, f: T -> U, t: T, n: int)
    requires forall t, i :: f(withIndex(t, i)) == f(t)
    ensures f(withIndex(t, n)) == f(t)
  {
  }

  lemma OverridesAt<T>(withIndex: (T, int) -> T, t: T, a: int, b: int)
    requires forall t, a, b :: withIndex(withIndex(t, a), b) == withIndex(t, b)
    ensures withIndex(withIndex(t, a), b) == withIndex(t, b)
  {
  }

  /** When an index update overrides the previous one, two clean passes over
      distinct ids leave the same table as the second pass alone: the
      temporary `+1000` positions leave no trace. */
  lemma TwoPassesAsOne<T>(m: map<Id, T>, scope: set<Id>, ids: seq<Id>, o1: int, o2: int,
                          withIndex: (T, int) -> T)
    requires Distinct(ids)
    requires forall t, a, b :: withIndex(withIndex(t, a), b) == withIndex(t, b)
    ensures Pass(Pass(m, scope, ids, o1, {}, withIndex), scope, ids, o2, {}, withIndex)
         == Pass(m, scope, ids, o2, {}, withIndex)
  {
    var p1 := Pass(m, scope, ids, o1, {}, withIndex);
    var lhs := Pass(p1, scope, ids, o2, {}, withIndex);
    var rhs := Pass(m, scope, ids, o2, {}, withIndex);
    forall k | k in m ensures lhs[k] == rhs[k] {
      if k in scope && exists j :: 0 <= j < |ids| && ids[j] == k {
        var j :| 0 <= j < |ids| && ids[j] == k;
        PassAt(m, scope, ids, o1, {}, withIndex, j);
        PassAt(p1, scope, ids, o2, {}, withIndex, j);
        PassAt(m, scope, ids, o2, {}, withIndex, j);
        OverridesAt(withIndex, m[k], j + o1, j + o2);
      } else {
        PassUntouched(m, scope, ids, o1, {}, withIndex, k);
        PassUntouched(p1, scope, ids, o2, {}, withIndex, k);
        PassUntouched(m, scope, ids, o2, {}, withIndex, k);
      }
    }
  }

  /** One pass: one update per listed id, in list order. */
  method RunPass<T>(m: map<Id, T>, scope: set<Id>, ids: seq<Id>, offset: int, fails: set<nat>,
                    withIndex: (T, int) -> T) returns (r: map<Id, T>, failed: bool)
    ensures r == Pass(m, scope, ids, offset, fails, withIndex)
    ensures failed <==> AnyFails(|ids|, fails)
  {
    r := m;
    failed := false;
    var i := 0;
    while i < |ids|
      invariant 0 <= i <= |ids|
      invariant r == Pass(m, scope, ids[..i], offset, fails, withIndex)
      invariant failed <==> exists j :: 0 <= j < i && j in fails
    {
      assert ids[..i + 1][..i] == ids[..i];
      if i in fails {
        failed := true;
      } else if ids[i] in r && ids[i] in scope {
        r := r[ids[i] := withIndex(r[ids[i]], i + offset)];
      }
      i := i + 1;
    }
    assert ids[..|ids|] == ids;
  }

  function SetSectionIndex(s: Section, i: int): Section {
    s.(orderIndex := i)
  }

  function SectionParent(s: Section): (Id, Id) {
    (s.id, s.courseId)
  }

  /** The sections of a course: the rows the update filter can reach. */
  function SectionsOf(sections: map<Id, Section>, courseId: Id): set<Id> {
    set k | k in sections && sections[k].courseId == courseId
  }

  /** `reorderCourseSectionsAction`; `fails1` and `fails2` are the positions
      whose update request fails in the first and the second pass. */
  method ReorderCourseSections(db: Db, courseId: Id, ids: seq<Id>, fails1: set<nat>, fails2: set<nat>)
    returns (r: Result<()>)
    requires db.Valid()
    modifies db`sections
    ensures db.Valid()
    ensures ids == [] ==> r == Success(()) && db.sections == old(db.sections)
    ensures ids != [] ==>
      var scope := SectionsOf(old(db.sections), courseId);
      var p1 := Pass(old(db.sections), scope, ids, 1000, fails1, SetSectionIndex);
      && (AnyFails(|ids|, fails1) ==> r == Failure(SectionsNotReordered) && db.sections == p1)
      && (!AnyFails(|ids|, fails1) ==>
            && db.sections == Pass(p1, scope, ids, 0, fails2, SetSectionIndex)
            && r == if AnyFails(|ids|, fails2) then Failure(SectionsNotReordered) else Success(()))
  {
    if ids == [] {
      return Success(());
    }
    var scope := SectionsOf(db.sections, courseId);
    PassKeeps(db.sections, scope, ids, 1000, fails1, SetSectionIndex, SectionParent);
    var p1, failed1 := RunPass(db.sections, scope, ids, 1000, fails1, SetSectionIndex);
    db.ReplaceSections(p1);
    if failed1 {
      return Failure(SectionsNotReordered);
    }
    PassKeeps(p1, scope, ids, 0, fails2, SetSectionIndex, SectionParent);
    var p2, failed2 := RunPass(p1, scope, ids, 0, fails2, SetSectionIndex);
    db.ReplaceSections(p2);
    r := if failed2 then Failure(SectionsNotReordered) else Success(());
  }

  /** After a fully successful reorder over distinct ids, the `j`-th listed
      section of the course is at index `j`, with every other field as before;
      every other section is untouched. */
  lemma ReorderedSections(sections: map<Id, Section>, courseId: Id, ids: seq<Id>)
    requires Distinct(ids)
    ensures var scope := SectionsOf(sections, courseId);
      var after := Pass(Pass(sections, scope, ids, 1000, {}, SetSectionIndex), scope, ids, 0, {}, SetSectionIndex);
      && after.Keys == sections.Keys
      && (forall j :: 0 <= j < |ids| && ids[j] in scope ==> after[ids[j]] == sections[ids[j]].(orderIndex := j))
      && (forall k :: k in sections && (k !in scope || k !in ids) ==> after[k] == sections[k])
  {
    var scope := SectionsOf(sections, courseId);
    TwoPassesAsOne(sections, scope, ids, 1000, 0, SetSectionIndex);
    forall j | 0 <= j < |ids| && ids[j] in scope {
      PassAt(sections, scope, ids, 0, {}, SetSectionIndex, j);
    }
    forall k | k in sections && (k !in scope || k !in ids) {
      PassUntouched(sections, scope, ids, 0, {}, SetSectionIndex, k);
    }
  }

  /** After a successful first pass over distinct ids, every listed section
      of the course sits at its position plus 1000. */
  lemma FirstPassSections(sections: map<Id, Section>, courseId: Id, ids: seq<Id>, fails: set<nat>)
    requires Distinct(ids) && !AnyFails(|ids|, fails)
    ensures var scope := SectionsOf(sections, courseId);
      forall j :: 0 <= j < |ids| && ids[j] in scope ==>
        Pass(sections, scope, ids, 1000, fails, SetSectionIndex)[ids[j]].orderIndex == j + 1000
  {
    var scope := SectionsOf(sections, courseId);
    forall j | 0 <= j < |ids| && ids[j] in scope {
      PassAt(sections, scope, ids, 1000, fails, SetSectionIndex, j);
    }
  }

  function SetLessonIndex(l: Lesson, i: int): Lesson {
    l.(orderIndex := i)
  }

  function LessonParent(l: Lesson): (Id, Id, Id) {
    (l.id, l.courseId, l.sectionId)
  }

  /** The lessons of one section of a course. */
  function LessonsOf(lessons: map<Id, Lesson>, courseId: Id, sectionId: Id): set<Id> {
    set k | k in lessons && lessons[k].courseId == courseId && lessons[k].sectionId == sectionId
  }

  /** `reorderLessonsAction`, the same two passes over the lessons of one
      section. */
  method ReorderLessons(db: Db, courseId: Id, sectionId: Id, ids: seq<Id>, fails1: set<nat>, fails2: set<nat>)
    returns (r: Result<()>)
    requires db.Valid()
    modifies db`lessons
    ensures db.Valid()
    ensures ids == [] ==> r == Success(()) && db.lessons == old(db.lessons)
    ensures ids != [] ==>
      var scope := LessonsOf(old(db.lessons), courseId, sectionId);
      var p1 := Pass(old(db.lessons), scope, ids, 1000, fails1, SetLessonIndex);
      && (AnyFails(|ids|, fails1) ==> r == Failure(LessonsNotReordered) && db.lessons == p1)
      && (!AnyFails(|ids|, fails1) ==>
            && db.lessons == Pass(p1, scope, ids, 0, fails2, SetLessonIndex)
            && r == if AnyFails(|ids|, fails2) then Failure(LessonsNotReordered) else Success(()))
  {
    if ids == [] {
      return Success(());
    }
    var scope := LessonsOf(db.lessons, courseId, sectionId);
    PassKeeps(db.lessons, scope, ids, 1000, fails1, SetLessonIndex, LessonParent);
    var p1, failed1 := RunPass(db.lessons, scope, ids, 1000, fails1, SetLessonIndex);
    db.ReplaceLessons(p1);
    if failed1 {
      return Failure(LessonsNotReordered);
    }
    PassKeeps(p1, scope, ids, 0, fails2, SetLessonIndex, LessonParent);
    var p2, failed2 := RunPass(p1, scope, ids, 0, fails2, SetLessonIndex);
    db.ReplaceLessons(p2);
    r := if failed2 then Failure(LessonsNotReordered) else Success(());
  }

  /** After a fully successful reorder over distinct ids, the `j`-th listed
      lesson of the section is at index `j`, with every other field as
      before; lessons of other sections or courses, and unlisted lessons, are
      untouched. */
  lemma ReorderedLessons(lessons: map<Id, Lesson>, courseId: Id, sectionId: Id, ids: seq<Id>)
    requires Distinct(ids)
    ensures var scope := LessonsOf(lessons, courseId, sectionId);
      var after := Pass(Pass(lessons, scope, ids, 1000, {}, SetLessonIndex), scope, ids, 0, {}, SetLessonIndex);
      && after.Keys == lessons.Keys
      && (forall j :: 0 <= j < |ids| && ids[j] in scope ==> after[ids[j]] == lessons[ids[j]].(orderIndex := j))
      && (forall k :: k in lessons && (k !in scope || k !in ids) ==> after[k] == lessons[k])
  {
    var scope := LessonsOf(lessons, courseId, sectionId);
    TwoPassesAsOne(lessons, scope, ids, 1000, 0, SetLessonIndex);
    forall j | 0 <= j < |ids| && ids[j] in scope {
      PassAt(lessons, scope, ids, 0, {}, SetLessonIndex, j);
    }
    forall k | k in lessons && (k !in scope || k !in ids) {
      PassUntouched(lessons, scope, ids, 0, {}, SetLessonIndex, k);
    }
  }
}
