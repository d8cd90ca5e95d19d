/** The curriculum editor of src/components/instructor/curriculum-builder.tsx:
    the initial ordering of sections and lessons, dragging a section or a
    lesson, and the local updates after a rename or a delete. */
module Curriculum {
  import opened Types
  import opened Seqs

  /** A section in the editor's state, with its lessons in display order. */
  datatype LocalSection = LocalSection(id: Id, courseId: Id, title: string, orderIndex: int, lessons: seq<Lesson>)

  /** A section as fetched; its nested lesson list may be absent. */
  datatype FetchedSection = FetchedSection(id: Id, courseId: Id, title: string, orderIndex: int,
                                           lessons: Option<seq<Lesson>>)

  /** One `{ id, orderIndex }` entry of a reorder request. */
  datatype Position = Position(id: Id, orderIndex: int)

  /** The server calls a drag issues, in the order they are started. */
  datatype Call =
    | ReorderSections(positions: seq<Position>)
    | ReorderLessons(sectionId: Id, positions: seq<Position>)
    | MoveLessonTo(lessonId: Id, sectionId: Id)

  /** The `type` a dragged item carries in its drag data. */
  datatype DragKind = SectionItem | LessonItem

  /** The item a drag ends over: its id and, for a lesson, the `sectionId`
      of its drag data. */
  datatype DropTarget = DropTarget(id: Id, sectionId: Option<Id>)

  // ---------------------------------------------------------------------
  // sortedInitial
  // ---------------------------------------------------------------------

  function SectionKey(s: LocalSection): int { s.orderIndex }

  function LessonKey(l: Lesson): int { l.orderIndex }

  /** A fetched section with its lessons (none becoming empty) sorted. */
  function Localize(f: FetchedSection): (s: LocalSection)
    ensures s.id == f.id && s.title == f.title && s.orderIndex == f.orderIndex
    ensures SortedBy(s.lessons, LessonKey)
    ensures multiset(s.lessons) == if f.lessons.Some? then multiset(f.lessons.value) else multiset{}
  {
    var ls := if f.lessons.Some? then f.lessons.value else [];
    LocalSection(f.id, f.courseId, f.title, f.orderIndex, SortBy(ls, LessonKey))
  }

  /** Every fetched section localized, in fetched order. */
  function LocalizeAll(fetched: seq<FetchedSection>): (r: seq<LocalSection>)
    ensures |r| == |fetched| && forall i :: 0 <= i < |r| ==> r[i] == Localize(fetched[i])
  {
    seq(|fetched|, i requires 0 <= i < |fetched| => Localize(fetched[i]))
  }

  /** `sortedInitial`: sections by `order_index`, each section's lessons
      likewise. The sections are localized before they are sorted, which
      gives the same list since localizing keeps the sort key. */
  function SortedInitial(fetched: seq<FetchedSection>): (r: seq<LocalSection>)
    ensures |r| == |fetched|
    ensures SortedBy(r, SectionKey)
    ensures forall i :: 0 <= i < |r| ==> SortedBy(r[i].lessons, LessonKey)
    ensures multiset(r) == multiset(LocalizeAll(fetched))
  {
    var local := LocalizeAll(fetched);
    var r := SortBy(local, SectionKey);
    assert forall i :: 0 <= i < |r| ==> SortedBy(r[i].lessons, LessonKey) by {
      forall i | 0 <= i < |r|
        ensures SortedBy(r[i].lessons, LessonKey)
      {
        assert r[i] in multiset(local);
        var j :| 0 <= j < |local| && local[j] == r[i];
      }
    }
    r
  }

  /** The sorts of `sortedInitial` are stable: sections with the same
      `order_index` keep their fetched order, and so do the lessons of a
      section. */
  lemma SortedInitialKeepsTies(fetched: seq<FetchedSection>, v: int)
    ensures Filter(SortedInitial(fetched), KeyIs(SectionKey, v)) == Filter(LocalizeAll(fetched), KeyIs(SectionKey, v))
    ensures forall i :: 0 <= i < |fetched| ==>
      Filter(Localize(fetched[i]).lessons, KeyIs(LessonKey, v))
      == Filter(if fetched[i].lessons.Some? then fetched[i].lessons.value else [], KeyIs(LessonKey, v))
  {
    SortByStable(LocalizeAll(fetched), SectionKey, v);
    forall i | 0 <= i < |fetched|
      ensures Filter(Localize(fetched[i]).lessons, KeyIs(LessonKey, v))
        == Filter(if fetched[i].lessons.Some? then fetched[i].lessons.value else [], KeyIs(LessonKey, v))
    {
      SortByStable(if fetched[i].lessons.Some? then fetched[i].lessons.value else [], LessonKey, v);
    }
  }

  // ---------------------------------------------------------------------
  // handleDragEnd: sections
  // ---------------------------------------------------------------------

  /** `{ id, orderIndex: index }` for each id in turn. */
  function Positions(ids: seq<Id>): (r: seq<Position>)
    ensures |r| == |ids|
    ensures forall i :: 0 <= i < |r| ==> r[i].id == ids[i] && r[i].orderIndex == i
  {
    seq(|ids|, i requires 0 <= i < |ids| => Position(ids[i], i))
  }

  /** The ids of a list, in order (`items.map((item) => item.id)`). */
  function Ids<T>(s: seq<T>, id: T -> Id): (r: seq<Id>)
    ensures |r| == |s| && forall i :: 0 <= i < |s| ==> r[i] == id(s[i])
  {
    seq(|s|, i requires 0 <= i < |s| => id(s[i]))
  }

  function SectionIdOf(s: LocalSection): Id { s.id }

  function LessonIdOf(l: Lesson): Id { l.id }

  /** The section branch: nothing happens unless both section ids are known
      and the section is not dropped on itself; otherwise `arrayMove` and the
      reorder request listing every section at its new position. */
  function DragSection(ss: seq<LocalSection>, activeId: Id, overId: Id)
    : Option<(seq<LocalSection>, seq<Position>)>
  {
    var oldIndex := FindIndex(ss, (s: LocalSection) => s.id == activeId);
    var newIndex := FindIndex(ss, (s: LocalSection) => s.id == overId);
    if oldIndex == -1 || newIndex == -1 || oldIndex == newIndex then None
    else
      var moved := ArrayMove(ss, oldIndex, newIndex);
      Some((moved, Positions(Ids(moved, SectionIdOf))))
  }

  /** What a section drag does, stated without the helper functions. */
  lemma DragSectionSpec(ss: seq<LocalSection>, activeId: Id, overId: Id, from: nat, to: nat)
    requires from < |ss| && ss[from].id == activeId && forall j :: 0 <= j < from ==> ss[j].id != activeId
    requires to < |ss| && ss[to].id == overId && forall j :: 0 <= j < to ==> ss[j].id != overId
    ensures from == to ==> DragSection(ss, activeId, overId).None?
    ensures from != to ==>
      var r := DragSection(ss, activeId, overId);
      && r.Some?
      && |r.value.0| == |ss| && r.value.0[to] == ss[from]
      && RemoveAt(r.value.0, to) == RemoveAt(ss, from)
      && multiset(r.value.0) == multiset(ss)
      && |r.value.1| == |ss|
      && forall i :: 0 <= i < |ss| ==> r.value.1[i] == Position(r.value.0[i].id, i)
  {
    var oldIndex := FindIndex(ss, (s: LocalSection) => s.id == activeId);
    var newIndex := FindIndex(ss, (s: LocalSection) => s.id == overId);
    assert oldIndex == from;
    assert newIndex == to;
  }

  /** An unknown dragged or target id changes nothing. */
  lemma DragUnknownSection(ss: seq<LocalSection>, activeId: Id, overId: Id)
    requires (forall j :: 0 <= j < |ss| ==> ss[j].id != activeId) || (forall j :: 0 <= j < |ss| ==> ss[j].id != overId)
    ensures DragSection(ss, activeId, overId).None?
  {
    var oldIndex := FindIndex(ss, (s: LocalSection) => s.id == activeId);
    var newIndex := FindIndex(ss, (s: LocalSection) => s.id == overId);
    assert oldIndex == -1 || newIndex == -1;
  }

  // ---------------------------------------------------------------------
  // handleDragEnd: lessons
  // ---------------------------------------------------------------------

  /** Every lesson id of the editor, section by section. */
  function AllLessonIds(ss: seq<LocalSection>): seq<Id> {
    if ss == [] then [] else Ids(ss[0].lessons, LessonIdOf) + AllLessonIds(ss[1..])
  }

  /** Replacing one section changes the lesson ids by exactly the ids of the
      old and the new lesson list. */
  lemma {:induction false} AllLessonIdsUpdate(ss: seq<LocalSection>, i: nat, x: LocalSection)
    requires i < |ss|
    ensures multiset(AllLessonIds(ss[i := x])) + multiset(Ids(ss[i].lessons, LessonIdOf))
            == multiset(AllLessonIds(ss)) + multiset(Ids(x.lessons, LessonIdOf))
  {
    var t := ss[i := x];
    var o, n := multiset(Ids(ss[i].lessons, LessonIdOf)), multiset(Ids(x.lessons, LessonIdOf));
    if i == 0 {
      assert t[1..] == ss[1..];
      var b := multiset(AllLessonIds(ss[1..]));
      calc {
        multiset(AllLessonIds(t)) + o;
        n + b + o;
        o + b + n;
        multiset(AllLessonIds(ss)) + n;
      }
    } else {
      assert t[1..] == ss[1..][i - 1 := x];
      assert ss[1..][i - 1] == ss[i];
      AllLessonIdsUpdate(ss[1..], i - 1, x);
      var a := multiset(Ids(ss[0].lessons, LessonIdOf));
      var b, b' := multiset(AllLessonIds(ss[1..])), multiset(AllLessonIds(t[1..]));
      assert b' + o == b + n;
      calc {
        multiset(AllLessonIds(t)) + o;
        a + b' + o;
        a + (b' + o);
        a + (b + n);
        multiset(AllLessonIds(ss)) + n;
      }
    }
  }

  /** Ids of a list with an item removed or inserted. */
  lemma LessonIdsRemoveInsert(ls: seq<Lesson>, k: nat, l: Lesson)
    ensures k < |ls| ==> multiset(Ids(RemoveAt(ls, k), LessonIdOf)) + multiset{ls[k].id} == multiset(Ids(ls, LessonIdOf))
    ensures k <= |ls| ==> multiset(Ids(InsertAt(ls, k, l), LessonIdOf)) == multiset(Ids(ls, LessonIdOf)) + multiset{l.id}
  {
    if k < |ls| {
      assert Ids(RemoveAt(ls, k), LessonIdOf) == RemoveAt(Ids(ls, LessonIdOf), k);
    }
    if k <= |ls| {
      assert Ids(InsertAt(ls, k, l), LessonIdOf) == InsertAt(Ids(ls, LessonIdOf), k, l.id);
    }
  }

  /** `a + c + x == b + c` gives `a + x == b`. */
  lemma MultisetCancel(a: multiset<Id>, b: multiset<Id>, c: multiset<Id>, x: multiset<Id>)
    requires a + (c + x) == b + c
    ensures a + x == b
  {
    assert forall y :: (a + x)[y] == b[y] by {
      forall y ensures (a + x)[y] == b[y] {
        assert (a + (c + x))[y] == (b + c)[y];
      }
    }
  }

  /** The reorder request for one section's lessons. */
  function LessonPositions(s: LocalSection): seq<Position> {
    Positions(Ids(s.lessons, LessonIdOf))
  }

  /** Where the moved lesson lands: the hovered lesson's index, or the end
      of the target list (after the removal) when the drop is not on one of
      its lessons. */
  function InsertIndex(sections: seq<LocalSection>, si: nat, ti: nat, oi: nat, ni: int): int
    requires si < |sections| && ti < |sections| && oi < |sections[si].lessons|
  {
    if ni == -1 then (if si == ti then |sections[si].lessons| - 1 else |sections[ti].lessons|) else ni
  }

  /** Taking the lesson at `oi` out of section `si` and putting a lesson with
      the same id into section `ti` at `ins` keeps the editor's lesson ids. */
  lemma SplicesKeepLessonIds(ss: seq<LocalSection>, si: nat, ti: nat, oi: nat, ins: nat, moved: Lesson)
    requires si < |ss| && ti < |ss| && oi < |ss[si].lessons| && moved.id == ss[si].lessons[oi].id
    requires ins <= |ss[si := ss[si].(lessons := RemoveAt(ss[si].lessons, oi))][ti].lessons|
    ensures var mid := ss[si := ss[si].(lessons := RemoveAt(ss[si].lessons, oi))];
      multiset(AllLessonIds(mid[ti := mid[ti].(lessons := InsertAt(mid[ti].lessons, ins, moved))]))
      == multiset(AllLessonIds(ss))
  {
    var source := ss[si];
    var removed := RemoveAt(source.lessons, oi);
    LessonIdsRemoveInsert(source.lessons, oi, moved);
    AllLessonIdsUpdate(ss, si, source.(lessons := removed));
    var bag0 := multiset(AllLessonIds(ss));
    var mid := ss[si := source.(lessons := removed)];
    var bag1 := multiset(AllLessonIds(mid));
    assert bag1 + multiset{moved.id} == bag0 by {
      MultisetCancel(bag1, bag0, multiset(Ids(removed, LessonIdOf)), multiset{moved.id});
    }
    var targetLessons := mid[ti].lessons;
    var inserted := InsertAt(targetLessons, ins, moved);
    LessonIdsRemoveInsert(targetLessons, ins, moved);
    AllLessonIdsUpdate(mid, ti, mid[ti].(lessons := inserted));
    var last := mid[ti := mid[ti].(lessons := inserted)];
    MultisetCancel(bag1, multiset(AllLessonIds(last)), multiset(Ids(targetLessons, LessonIdOf)), multiset{moved.id});
  }

  /** The splices of the lesson branch on the deep copy: the lesson at `oi`
      leaves section `si`, takes section `ti`'s id, and enters section `ti`
      at the hovered lesson's index `ni`, or at the end when `ni` is -1. */
  method SpliceLesson(sections: seq<LocalSection>, si: nat, ti: nat, oi: nat, ni: int)
    returns (updated: seq<LocalSection>)
    requires si < |sections| && ti < |sections| && oi < |sections[si].lessons|
    requires -1 <= ni < |sections[ti].lessons|
    ensures |updated| == |sections|
    ensures var ins := InsertIndex(sections, si, ti, oi, ni);
      && 0 <= ins < |updated[ti].lessons|
      && updated[ti].lessons[ins] == sections[si].lessons[oi].(sectionId := sections[ti].id)
      && RemoveAt(updated[ti].lessons, ins)
         == if si == ti then RemoveAt(sections[si].lessons, oi) else sections[ti].lessons
    ensures si != ti ==> updated[si].lessons == RemoveAt(sections[si].lessons, oi)
    ensures forall k :: 0 <= k < |sections| ==> updated[k].(lessons := sections[k].lessons) == sections[k]
    ensures forall k :: 0 <= k < |sections| && k != si && k != ti ==> updated[k] == sections[k]
    ensures multiset(AllLessonIds(updated)) == multiset(AllLessonIds(sections))
  {
    updated := sections;
    var source, target := sections[si], sections[ti];
    // splice the lesson out of the source section
    var moved := source.lessons[oi];
    var removed := RemoveAt(source.lessons, oi);
    updated := updated[si := source.(lessons := removed)];
    ghost var mid := updated;
    moved := moved.(sectionId := target.id);
    // splice it into the target section
    var targetLessons := updated[ti].lessons;
    var ins := if ni == -1 then |targetLessons| else ni;
    var inserted := InsertAt(targetLessons, ins, moved);
    updated := updated[ti := updated[ti].(lessons := inserted)];
    SplicesKeepLessonIds(sections, si, ti, oi, ins, moved);
    RemoveInsertedAt(targetLessons, ins, moved);
    forall k | 0 <= k < |sections|
      ensures updated[k].(lessons := sections[k].lessons) == sections[k]
    {
      if k == ti {
        assert updated[k] == mid[k].(lessons := inserted);
        assert mid[k].(lessons := sections[k].lessons) == sections[k];
      } else if k == si {
        assert updated[k] == source.(lessons := removed);
      }
    }
  }

  /** What the lesson branch of `handleDragEnd` does: nothing unless both
      section ids are present and known and the lesson is in its source
      section; otherwise the splices, then the reorder of the target, and
      when the sections differ the reorder of the source and the lesson's
      move, in that order. */
  ghost predicate LessonDrag(sections: seq<LocalSection>, activeId: Id, activeSectionId: Option<Id>,
                             overId: Id, overSectionId: Option<Id>,
                             updated: seq<LocalSection>, calls: seq<Call>)
  {
    && (activeSectionId.None? || overSectionId.None? ==> updated == sections && calls == [])
    && (activeSectionId.Some? && overSectionId.Some? ==>
      var si := FindIndex(sections, (s: LocalSection) => s.id == activeSectionId.value);
      var ti := FindIndex(sections, (s: LocalSection) => s.id == overSectionId.value);
      && (si == -1 || ti == -1 ==> updated == sections && calls == [])
      && (si != -1 && ti != -1 ==>
        var oi := FindIndex(sections[si].lessons, (l: Lesson) => l.id == activeId);
        var ni := FindIndex(sections[ti].lessons, (l: Lesson) => l.id == overId);
        && (oi == -1 ==> updated == sections && calls == [])
        && (oi != -1 ==>
          var ins := InsertIndex(sections, si, ti, oi, ni);
          && |updated| == |sections|
          && 0 <= ins < |updated[ti].lessons|
          && updated[ti].lessons[ins] == sections[si].lessons[oi].(sectionId := sections[ti].id)
          && RemoveAt(updated[ti].lessons, ins)
             == (if si == ti then RemoveAt(sections[si].lessons, oi) else sections[ti].lessons)
          && (si != ti ==> updated[si].lessons == RemoveAt(sections[si].lessons, oi))
          && (forall k :: 0 <= k < |sections| ==> updated[k].(lessons := sections[k].lessons) == sections[k])
          && (forall k :: 0 <= k < |sections| && k != si && k != ti ==> updated[k] == sections[k])
          && multiset(AllLessonIds(updated)) == multiset(AllLessonIds(sections))
          && calls == [ReorderLessons(sections[ti].id, LessonPositions(updated[ti]))]
                      + (if si != ti then [ReorderLessons(sections[si].id, LessonPositions(updated[si])),
                                           MoveLessonTo(sections[si].lessons[oi].id, sections[ti].id)]
                         else []))))
  }

  /** The lesson branch of `handleDragEnd`. */
  method MoveLesson(sections: seq<LocalSection>, activeId: Id, activeSectionId: Option<Id>,
                    overId: Id, overSectionId: Option<Id>)
    returns (updated: seq<LocalSection>, calls: seq<Call>)
    ensures LessonDrag(sections, activeId, activeSectionId, overId, overSectionId, updated, calls)
  {
    updated, calls := sections, [];
    if activeSectionId.None? || overSectionId.None? {
      return;
    }
    var si := FindIndex(sections, (s: LocalSection) => s.id == activeSectionId.value);
    var ti := FindIndex(sections, (s: LocalSection) => s.id == overSectionId.value);
    if si == -1 || ti == -1 {
      return;
    }
    var source, target := sections[si], sections[ti];
    var oi := FindIndex(source.lessons, (l: Lesson) => l.id == activeId);
    var ni := FindIndex(target.lessons, (l: Lesson) => l.id == overId);
    if oi == -1 {
      return;
    }
    updated := SpliceLesson(sections, si, ti, oi, ni);
    // the server calls
    calls := [ReorderLessons(target.id, LessonPositions(updated[ti]))];
    if source.id != target.id {
      calls := calls + [ReorderLessons(source.id, LessonPositions(updated[si])),
                        MoveLessonTo(source.lessons[oi].id, target.id)];
    }
  }

  /** `handleDragEnd`: nothing happens without a drop target or a drag type;
      a section drag goes to the section branch, whose reorder request is the
      one call, and a lesson drag to the lesson branch. */
  method HandleDragEnd(sections: seq<LocalSection>, kind: Option<DragKind>, activeId: Id,
                       activeSectionId: Option<Id>, over: Option<DropTarget>)
    returns (updated: seq<LocalSection>, calls: seq<Call>)
    ensures over.None? || kind.None? ==> updated == sections && calls == []
    ensures over.Some? && kind == Some(SectionItem) ==>
      var d := DragSection(sections, activeId, over.value.id);
      && (d.None? ==> updated == sections && calls == [])
      && (d.Some? ==> updated == d.value.0 && calls == [ReorderSections(d.value.1)])
    ensures over.Some? && kind == Some(LessonItem) ==>
      LessonDrag(sections, activeId, activeSectionId, over.value.id, over.value.sectionId, updated, calls)
  {
    updated, calls := sections, [];
    if over.None? || kind.None? {
      return;
    }
    if kind.value == SectionItem {
      var d := DragSection(sections, activeId, over.value.id);
      if d.Some? {
        updated, calls := d.value.0, [ReorderSections(d.value.1)];
      }
      return;
    }
    updated, calls := MoveLesson(sections, activeId, activeSectionId, over.value.id, over.value.sectionId);
  }

  // ---------------------------------------------------------------------
  // Local updates after a successful rename or delete
  // ---------------------------------------------------------------------

  /** After a rename: the section with that id takes the new title. */
  function RenameSection(ss: seq<LocalSection>, sectionId: Id, title: string): (r: seq<LocalSection>)
    ensures |r| == |ss|
    ensures forall i :: 0 <= i < |r| ==> r[i].(title := ss[i].title) == ss[i]
    ensures forall i :: 0 <= i < |r| ==> r[i].title == if ss[i].id == sectionId then title else ss[i].title
  {
    seq(|ss|, i requires 0 <= i < |ss| => if ss[i].id == sectionId then ss[i].(title := title) else ss[i])
  }

  /** A rename leaves every lesson where it was. */
  lemma {:induction false} RenameKeepsLessons(ss: seq<LocalSection>, sectionId: Id, title: string)
    ensures AllLessonIds(RenameSection(ss, sectionId, title)) == AllLessonIds(ss)
  {
    if ss != [] {
      RenameKeepsLessons(ss[1..], sectionId, title);
      assert RenameSection(ss, sectionId, title)[1..] == RenameSection(ss[1..], sectionId, title);
    }
  }

  /** After a section delete: every section but that one, in order. */
  function DeleteSection(ss: seq<LocalSection>, sectionId: Id): (r: seq<LocalSection>)
    ensures forall i :: 0 <= i < |r| ==> r[i].id != sectionId && r[i] in ss
    ensures forall i :: 0 <= i < |ss| && ss[i].id != sectionId ==> ss[i] in r
  {
    Filter(ss, (s: LocalSection) => s.id != sectionId)
  }

  /** The add-content form, open under one section. */
  datatype AddMode = SelectMode | LessonMode | QuizMode
  datatype AddForm = AddForm(sectionId: Id, mode: AddMode)

  /** The add-content form closes when its section is deleted. */
  function ClearAddForm(form: Option<AddForm>, deleted: Id): (r: Option<AddForm>)
    ensures r.Some? ==> r == form && r.value.sectionId != deleted
    ensures form.Some? && form.value.sectionId != deleted ==> r == form
  {
    if form.Some? && form.value.sectionId == deleted then None else form
  }

  /** The filter test `item.id !== lesson.id`. */
  function Other(lessonId: Id): Lesson -> bool {
    (l: Lesson) => l.id != lessonId
  }

  /** After a lesson delete: that lesson leaves its section's list. */
  function DeleteLesson(ss: seq<LocalSection>, sectionId: Id, lessonId: Id): (r: seq<LocalSection>)
    ensures |r| == |ss|
    ensures forall i :: 0 <= i < |r| ==> r[i].(lessons := ss[i].lessons) == ss[i]
    ensures forall i :: 0 <= i < |r| && ss[i].id != sectionId ==> r[i] == ss[i]
    ensures forall i, j :: 0 <= i < |r| && 0 <= j < |r[i].lessons| && ss[i].id == sectionId ==> r[i].lessons[j].id != lessonId
  {
    seq(|ss|, i requires 0 <= i < |ss| =>
      if ss[i].id == sectionId then ss[i].(lessons := Filter(ss[i].lessons, Other(lessonId)))
      else ss[i])
  }

  /** A lesson delete removes no other lesson: every other id occurs as
      often as before. */
  lemma {:induction false} DeleteLessonKeepsOthers(ss: seq<LocalSection>, sectionId: Id, lessonId: Id, x: Id)
    requires x != lessonId
    ensures multiset(AllLessonIds(DeleteLesson(ss, sectionId, lessonId)))[x] == multiset(AllLessonIds(ss))[x]
  {
    if ss != [] {
      DeleteLessonKeepsOthers(ss[1..], sectionId, lessonId, x);
      assert DeleteLesson(ss, sectionId, lessonId)[1..] == DeleteLesson(ss[1..], sectionId, lessonId);
      var ls := ss[0].lessons;
      var kept := Filter(ls, Other(lessonId));
      assert multiset(Ids(kept, LessonIdOf))[x] == multiset(Ids(ls, LessonIdOf))[x] by {
        LessonIdsFilter(ls, lessonId, x);
      }
    }
  }

  /** Ids of a concatenation. */
  lemma LessonIdsAppend(a: seq<Lesson>, b: seq<Lesson>)
    ensures Ids(a + b, LessonIdOf) == Ids(a, LessonIdOf) + Ids(b, LessonIdOf)
  {
  }

  /** How often an id occurs in the ids of a list with one more lesson in front. */
  lemma LessonIdsConsCount(h: Lesson, t: seq<Lesson>, x: Id)
    ensures multiset(Ids([h] + t, LessonIdOf))[x] == (if h.id == x then 1 else 0) + multiset(Ids(t, LessonIdOf))[x]
  {
    LessonIdsAppend([h], t);
    var ids: seq<Id>, tailIds: seq<Id> := Ids([h] + t, LessonIdOf), Ids(t, LessonIdOf);
    assert ids == [h.id] + tailIds;
    assert multiset(ids) == multiset{h.id} + multiset(tailIds);
  }

  /** Dropping the lessons with one id keeps the count of every other id. */
  lemma {:induction false} LessonIdsFilter(ls: seq<Lesson>, lessonId: Id, x: Id)
    requires x != lessonId
    ensures multiset(Ids(Filter(ls, Other(lessonId)), LessonIdOf))[x] == multiset(Ids(ls, LessonIdOf))[x]
  {
    if ls != [] {
      var p := Other(lessonId);
      var h, t := ls[0], ls[1..];
      var rest := Filter(t, p);
      LessonIdsFilter(t, lessonId, x);
      assert [h] + t == ls;
      LessonIdsConsCount(h, t, x);
      if p(h) {
        assert Filter(ls, p) == [h] + rest;
        LessonIdsConsCount(h, rest, x);
      } else {
        assert Filter(ls, p) == rest;
      }
    }
  }
}
