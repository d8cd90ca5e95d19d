/** The authoring actions of src/app/actions/courses.ts: creating a course
    with its first run and default section, adding and rescheduling runs,
    adding sections and lessons, and patching a lesson. Form dates arrive as
    strings; an empty one is `None`, a filled one its timestamp. */
module CourseActions {
  import opened Types
  import opened Text
  import opened Auth
  import opened Store
  import opened Slug
  import opened DriveUrl

  /** The date and capacity fields the course and schedule forms send. */
  datatype Schedule = Schedule(
    accessStart: Option<int>,
    accessEnd: Option<int>,
    applicationStart: Option<int>,
    applicationEnd: Option<int>,
    enrollmentLimit: Option<int>)

  datatype NewCourse = NewCourse(
    title: string,
    summary: Option<string>,
    description: Option<string>,
    coverImageUrl: Option<string>,
    isPublished: bool,
    schedule: Schedule)

  /** `n` is the index after the last row of the scope by the datastore's
      descending `order_index` order, or 0 for an empty scope. */
  predicate IsNextIndex(indexes: map<Id, int>, n: int) {
    && (indexes == map[] ==> n == 0)
    && (forall k :: k in indexes ==> indexes[k] < n)
    && (indexes != map[] ==> exists k :: k in indexes && n == indexes[k] + 1)
  }

  /** The next index is determined by the scope: it is the largest index plus one. */
  lemma NextIndexUnique(indexes: map<Id, int>, a: int, b: int)
    requires IsNextIndex(indexes, a) && IsNextIndex(indexes, b)
    ensures a == b
  {
    if indexes != map[] {
      var ka :| ka in indexes && a == indexes[ka] + 1;
      var kb :| kb in indexes && b == indexes[kb] + 1;
      assert indexes[ka] < b && indexes[kb] < a;
    }
  }

  /** The query `order by order_index desc limit 1` over the rows in scope,
      plus one. `indexes` maps the rows in scope to their `order_index`. */
  method NextOrderIndex(indexes: map<Id, int>) returns (next: int)
    ensures IsNextIndex(indexes, next)
  {
    var rest := indexes.Keys;
    var found := false;
    next := 0;
    while rest != {}
      invariant rest <= indexes.Keys
      invariant forall k :: k in indexes && k !in rest ==> indexes[k] < next
      invariant found <==> exists k :: k in indexes && k !in rest
      invariant found ==> exists k :: k in indexes && k !in rest && next == indexes[k] + 1
      invariant !found ==> next == 0
      decreases |rest|
    {
      var k :| k in rest;
      if !found || indexes[k] + 1 > next {
        next := indexes[k] + 1;
      }
      found := true;
      rest := rest - {k};
    }
  }

  /** The checks of `createCourseAction` in the order they fire: the role
      check precedes every field check. */
  function CreateCourseGate(profile: Option<Profile>, payload: NewCourse): (e: Option<Error>)
    ensures !IsStaff(profile) ==> e == Some(CourseCreateForbidden)
    ensures IsStaff(profile) && IsBlank(payload.title) ==> e == Some(TitleRequired)
    ensures e == Some(AccessStartRequired) <==>
      IsStaff(profile) && !IsBlank(payload.title) && payload.schedule.accessStart.None?
    ensures e == Some(ApplicationStartRequired) <==>
      IsStaff(profile) && !IsBlank(payload.title) && payload.schedule.accessStart.Some?
      && payload.schedule.applicationStart.None?
    ensures e.None? <==>
      IsStaff(profile) && !IsBlank(payload.title) && payload.schedule.accessStart.Some?
      && payload.schedule.applicationStart.Some?
  {
    if !IsStaff(profile) then Some(CourseCreateForbidden)
    else if IsBlank(payload.title) then Some(TitleRequired)
    else if payload.schedule.accessStart.None? then Some(AccessStartRequired)
    else if payload.schedule.applicationStart.None? then Some(ApplicationStartRequired)
    else None
  }

  /** The new course's slug: the slugified title, a dash, and a suffix that
      the original derives from the clock. */
  function CourseSlug(title: string, suffix: string): string {
    Slugify(title) + "-" + suffix
  }

  /** The slug starts with a well-formed slug of the title and ends with the suffix. */
  lemma CourseSlugShape(title: string, suffix: string)
    ensures var n := |Slugify(title)|;
      && n < |CourseSlug(title, suffix)|
      && IsSlug(CourseSlug(title, suffix)[..n])
      && CourseSlug(title, suffix)[n] == '-'
      && CourseSlug(title, suffix)[n + 1..] == suffix
  {
    var base := Slugify(title);
    SlugifyIsSlug(title);
    var slug := base + "-" + suffix;
    assert slug[..|base|] == base;
    assert slug[|base| + 1..] == suffix;
  }

  /** The title of the section every new course starts with. */
  const DefaultSectionTitle: string := "Genel"

  /** The course row the form creates, owned by its author; the datastore
      assigns the key. */
  function CourseRow(author: Id, payload: NewCourse, slug: string): (row: Course)
    ensures row.instructorId == Some(author) && row.title == payload.title && row.slug == slug
  {
    Course(0, Some(author), payload.title, slug, payload.summary,
      payload.description, payload.coverImageUrl, payload.isPublished)
  }

  /** The second half of `createCourseAction`, once the course row exists:
      its first run (without a label) and its default section at index 0. */
  method AddFirstRunAndSection(db: Db, c: Id, s: Schedule, sectionFails: bool)
    requires db.Valid() && s.accessStart.Some?
    modifies db`runs, db`sections, db`nextId
    ensures db.Valid()
    ensures db.runs == old(db.runs)[old(db.nextId) := CourseRun(old(db.nextId), c, None, s.accessStart.value,
      s.accessEnd, s.applicationStart, s.applicationEnd, s.enrollmentLimit)]
    ensures db.sections == if sectionFails then old(db.sections)
      else old(db.sections)[old(db.nextId) + 1 := Section(old(db.nextId) + 1, c, DefaultSectionTitle, 0)]
  {
    var rid := db.InsertRun(CourseRun(0, c, None, s.accessStart.value, s.accessEnd,
      s.applicationStart, s.applicationEnd, s.enrollmentLimit));
    if !sectionFails {
      var sid := db.InsertSection(Section(0, c, DefaultSectionTitle, 0));
    }
  }

  /** The writes of `createCourseAction` once its checks pass: the course
      row, then its first run and default section; when the run cannot be
      written the course row is deleted again, unless that delete fails too
      (`deleteFails`), whose outcome the original does not look at. */
  method WriteNewCourse(db: Db, author: Id, payload: NewCourse, slug: string,
                        runFails: bool, deleteFails: bool, sectionFails: bool) returns (r: Result<()>)
    requires db.Valid() && payload.schedule.accessStart.Some?
    modifies db`courses, db`runs, db`sections, db`nextId
    ensures db.Valid()
    ensures r == if runFails then Failure(ScheduleNotSet) else Success(())
    ensures r.Failure? ==> db.runs == old(db.runs) && db.sections == old(db.sections)
    ensures r.Failure? ==>
      db.courses == if deleteFails then old(db.courses)[old(db.nextId) := CourseRow(author, payload, slug).(id := old(db.nextId))]
                    else old(db.courses)
    ensures r.Success? ==>
      var c := old(db.nextId);
      var s := payload.schedule;
      && db.courses == old(db.courses)[c := CourseRow(author, payload, slug).(id := c)]
      && db.runs == old(db.runs)[c + 1 := CourseRun(c + 1, c, None, s.accessStart.value, s.accessEnd,
           s.applicationStart, s.applicationEnd, s.enrollmentLimit)]
      && db.sections == if sectionFails then old(db.sections)
                        else old(db.sections)[c + 2 := Section(c + 2, c, DefaultSectionTitle, 0)]
  {
    var row := CourseRow(author, payload, slug);
    var c := db.InsertCourse(row);
    if runFails {
      if !deleteFails {
        db.DeleteCourse(c);
        RemoveInserted(old(db.courses), c, row.(id := c));
      }
      return Failure(ScheduleNotSet);
    }
    AddFirstRunAndSection(db, c, payload.schedule, sectionFails);
    r := Success(());
  }

  /** `createCourseAction`. The four flags stand for failed writes of the
      course, of its first run (after which the course is deleted again), of
      that rollback delete, and of the default section (the original ignores
      the failure of the last two). */
  method CreateCourse(db: Db, profile: Option<Profile>, payload: NewCourse, slugSuffix: string,
                      courseFails: bool, runFails: bool, deleteFails: bool, sectionFails: bool) returns (r: Result<()>)
    requires db.Valid()
    modifies db`courses, db`runs, db`sections, db`nextId
    ensures db.Valid()
    ensures var gate := CreateCourseGate(profile, payload);
      && (gate.Some? ==> r == Failure(gate.value))
      && (gate.None? && courseFails ==> r == Failure(CourseNotSaved))
      && (gate.None? && !courseFails && runFails ==> r == Failure(ScheduleNotSet))
      && (gate.None? && !courseFails && !runFails ==> r == Success(()))
    ensures r.Failure? ==> db.runs == old(db.runs) && db.sections == old(db.sections)
    ensures r.Failure? ==>
      db.courses == if CreateCourseGate(profile, payload).None? && !courseFails && deleteFails
                    then old(db.courses)[old(db.nextId) := CourseRow(profile.value.id, payload,
                           CourseSlug(payload.title, slugSuffix)).(id := old(db.nextId))]
                    else old(db.courses)
    ensures r.Success? ==>
      var c := old(db.nextId);
      var s := payload.schedule;
      && profile.Some?
      && db.courses == old(db.courses)[c := CourseRow(profile.value.id, payload,
           CourseSlug(payload.title, slugSuffix)).(id := c)]
      && db.runs == old(db.runs)[c + 1 := CourseRun(c + 1, c, None, s.accessStart.value, s.accessEnd,
           s.applicationStart, s.applicationEnd, s.enrollmentLimit)]
      && db.sections == if sectionFails then old(db.sections)
                        else old(db.sections)[c + 2 := Section(c + 2, c, DefaultSectionTitle, 0)]
  {
    var gate := CreateCourseGate(profile, payload);
    if gate.Some? {
      return Failure(gate.value);
    }
    if courseFails {
      return Failure(CourseNotSaved);
    }
    r := WriteNewCourse(db, profile.value.id, payload, CourseSlug(payload.title, slugSuffix), runFails, deleteFails, sectionFails);
  }

  /** `createCourseRunAction`: only the access start is required; the run is
      inserted for whatever course id the payload names. */
  method CreateCourseRun(db: Db, courseId: Id, runLabel: Option<string>, s: Schedule, storeFails: bool)
    returns (r: Result<()>)
    requires db.Valid()
    modifies db`runs, db`nextId
    ensures db.Valid()
    ensures s.accessStart.None? ==> r == Failure(AccessStartRequired)
    ensures s.accessStart.Some? && storeFails ==> r == Failure(RunNotCreated)
    ensures s.accessStart.Some? && !storeFails ==>
      && r == Success(())
      && db.runs == old(db.runs)[old(db.nextId) := CourseRun(old(db.nextId), courseId, runLabel,
           s.accessStart.value, s.accessEnd, s.applicationStart, s.applicationEnd, s.enrollmentLimit)]
    ensures r.Failure? ==> db.runs == old(db.runs)
  {
    if s.accessStart.None? {
      return Failure(AccessStartRequired);
    }
    if storeFails {
      return Failure(RunNotCreated);
    }
    var rid := db.InsertRun(CourseRun(0, courseId, runLabel, s.accessStart.value, s.accessEnd,
      s.applicationStart, s.applicationEnd, s.enrollmentLimit));
    r := Success(());
  }

  /** The checks of `updateCourseScheduleAction` in the order they fire:
      login, an existing course and ownership all come before the field check. */
  function ScheduleGate(profile: Option<Profile>, courses: map<Id, Course>, courseId: Id, s: Schedule): (e: Option<Error>)
    ensures profile.None? ==> e == Some(LoginRequired)
    ensures profile.Some? && courseId !in courses ==> e == Some(CourseUnavailable)
    ensures e == Some(NotCourseOwner) <==>
      profile.Some? && courseId in courses && !OwnerOrAdmin(profile.value, courses[courseId].instructorId)
    ensures e == Some(AccessStartRequired) <==>
      profile.Some? && courseId in courses && OwnerOrAdmin(profile.value, courses[courseId].instructorId)
      && s.accessStart.None?
    ensures e.None? <==>
      profile.Some? && courseId in courses && OwnerOrAdmin(profile.value, courses[courseId].instructorId)
      && s.accessStart.Some?
  {
    if profile.None? then Some(LoginRequired)
    else if courseId !in courses then Some(CourseUnavailable)
    else if !OwnerOrAdmin(profile.value, courses[courseId].instructorId) then Some(NotCourseOwner)
    else if s.accessStart.None? then Some(AccessStartRequired)
    else None
  }

  /** The update filtered on both the run id and the course id: a run of
      another course, or a missing run, is left alone (and the update still
      reports no error). Only the schedule columns change. */
  function Reschedule(runs: map<Id, CourseRun>, runId: Id, courseId: Id, s: Schedule): (r: map<Id, CourseRun>)
    requires s.accessStart.Some?
    ensures r.Keys == runs.Keys
    ensures forall k :: k in runs && (k != runId || runs[k].courseId != courseId) ==> r[k] == runs[k]
    ensures runId in runs && runs[runId].courseId == courseId ==>
      && r[runId].id == runs[runId].id && r[runId].courseId == courseId && r[runId].runLabel == runs[runId].runLabel
      && r[runId].accessStart == s.accessStart.value && r[runId].accessEnd == s.accessEnd
      && r[runId].applicationStart == s.applicationStart && r[runId].applicationEnd == s.applicationEnd
      && r[runId].enrollmentLimit == s.enrollmentLimit
  {
    if runId in runs && runs[runId].courseId == courseId then
      runs[runId := runs[runId].(accessStart := s.accessStart.value, accessEnd := s.accessEnd,
        applicationStart := s.applicationStart, applicationEnd := s.applicationEnd,
        enrollmentLimit := s.enrollmentLimit)]
    else runs
  }

  /** `updateCourseScheduleAction`. */
  method UpdateCourseSchedule(db: Db, profile: Option<Profile>, courseId: Id, runId: Id, s: Schedule,
                              storeFails: bool) returns (r: Result<()>)
    requires db.Valid()
    modifies db`runs
    ensures db.Valid()
    ensures var gate := ScheduleGate(profile, db.courses, courseId, s);
      && (gate.Some? ==> r == Failure(gate.value))
      && (gate.None? && storeFails ==> r == Failure(ScheduleNotUpdated))
      && (gate.None? && !storeFails ==> r == Success(()) && db.runs == Reschedule(old(db.runs), runId, courseId, s))
    ensures r.Failure? ==> db.runs == old(db.runs)
  {
    var gate := ScheduleGate(profile, db.courses, courseId, s);
    if gate.Some? {
      return Failure(gate.value);
    }
    if storeFails {
      return Failure(ScheduleNotUpdated);
    }
    db.runs := Reschedule(db.runs, runId, courseId, s);
    r := Success(());
  }

  /** The checks of `createLessonAction`: non-blank title and video address,
      then a section that exists and belongs to the payload's course. */
  function LessonGate(sections: map<Id, Section>, courseId: Id, sectionId: Id, title: string, videoUrl: string)
    : (e: Option<Error>)
    ensures IsBlank(title) || IsBlank(videoUrl) ==> e == Some(TitleAndVideoRequired)
    ensures e.None? <==>
      !IsBlank(title) && !IsBlank(videoUrl) && sectionId in sections && sections[sectionId].courseId == courseId
  {
    if IsBlank(title) || IsBlank(videoUrl) then Some(TitleAndVideoRequired)
    else if sectionId !in sections || sections[sectionId].courseId != courseId then Some(SectionNotFound)
    else None
  }

  /** The `order_index` of every lesson of a section. */
  function LessonIndexes(lessons: map<Id, Lesson>, sectionId: Id): map<Id, int> {
    map k | k in lessons && lessons[k].sectionId == sectionId :: lessons[k].orderIndex
  }

  /** `createLessonAction`. Without an explicit index the lesson goes after
      the section's last lesson; the video address is stored normalised.
      `indexReadFails` stands for a failed read of the section's highest
      index, which the original does not check: the lesson then gets 0. */
  method CreateLesson(db: Db, courseId: Id, sectionId: Id, title: string, videoUrl: string,
                      content: Option<string>, orderIndex: Option<int>, isPublished: bool,
                      indexReadFails: bool, storeFails: bool)
    returns (r: Result<()>)
    requires db.Valid()
    modifies db`lessons, db`nextId
    ensures db.Valid()
    ensures var gate := LessonGate(db.sections, courseId, sectionId, title, videoUrl);
      && (gate.Some? ==> r == Failure(gate.value))
      && (gate.None? && storeFails ==> r == Failure(LessonNotCreated))
      && (gate.None? && !storeFails ==> r == Success(()))
    ensures r.Failure? ==> db.lessons == old(db.lessons)
    ensures r.Success? ==>
      var k := old(db.nextId);
      && k !in old(db.lessons) && k in db.lessons
      && db.lessons == old(db.lessons)[k := Lesson(k, courseId, sectionId, title,
           NormalizeGoogleDriveUrl(videoUrl), content, db.lessons[k].orderIndex, isPublished)]
      && (orderIndex.Some? ==> db.lessons[k].orderIndex == orderIndex.value)
      && (orderIndex.None? && !indexReadFails ==>
            IsNextIndex(LessonIndexes(old(db.lessons), sectionId), db.lessons[k].orderIndex))
      && (orderIndex.None? && indexReadFails ==> db.lessons[k].orderIndex == 0)
  {
    var gate := LessonGate(db.sections, courseId, sectionId, title, videoUrl);
    if gate.Some? {
      return Failure(gate.value);
    }
    var position: int;
    if orderIndex.Some? {
      position := orderIndex.value;
    } else if indexReadFails {
      position := 0;
    } else {
      position := NextOrderIndex(LessonIndexes(db.lessons, sectionId));
    }
    if storeFails {
      return Failure(LessonNotCreated);
    }
    var k := db.InsertLesson(Lesson(0, courseId, sectionId, title, NormalizeGoogleDriveUrl(videoUrl),
      content, position, isPublished));
    r := Success(());
  }

  /** The checks of `createCourseSectionAction` in the order they fire:
      role, then title, then an existing course, then ownership. */
  function SectionGate(profile: Option<Profile>, courses: map<Id, Course>, courseId: Id, title: string)
    : (e: Option<Error>)
    ensures !IsStaff(profile) ==> e == Some(SectionCreateForbidden)
    ensures IsStaff(profile) && IsBlank(title) ==> e == Some(SectionTitleRequired)
    ensures e == Some(CourseUnavailable) <==> IsStaff(profile) && !IsBlank(title) && courseId !in courses
    ensures e == Some(NotCourseOwner) <==>
      IsStaff(profile) && !IsBlank(title) && courseId in courses
      && !OwnerOrAdmin(profile.value, courses[courseId].instructorId)
    ensures e.None? <==>
      IsStaff(profile) && !IsBlank(title) && courseId in courses
      && OwnerOrAdmin(profile.value, courses[courseId].instructorId)
  {
    if !IsStaff(profile) then Some(SectionCreateForbidden)
    else if IsBlank(title) then Some(SectionTitleRequired)
    else if courseId !in courses then Some(CourseUnavailable)
    else if !OwnerOrAdmin(profile.value, courses[courseId].instructorId) then Some(NotCourseOwner)
    else None
  }

  function SectionIndexes(sections: map<Id, Section>, courseId: Id): map<Id, int> {
    map k | k in sections && sections[k].courseId == courseId :: sections[k].orderIndex
  }

  /** `createCourseSectionAction`. Without an explicit index the section goes
      after the course's last section; `indexReadFails` stands for a failed
      read of the course's highest index, which the original does not check:
      the section then gets 0. */
  method CreateCourseSection(db: Db, profile: Option<Profile>, courseId: Id, title: string,
                             orderIndex: Option<int>, indexReadFails: bool, storeFails: bool)
    returns (r: Result<()>)
    requires db.Valid()
    modifies db`sections, db`nextId
    ensures db.Valid()
    ensures var gate := SectionGate(profile, db.courses, courseId, title);
      && (gate.Some? ==> r == Failure(gate.value))
      && (gate.None? && storeFails ==> r == Failure(SectionNotCreated))
      && (gate.None? && !storeFails ==> r == Success(()))
    ensures r.Failure? ==> db.sections == old(db.sections)
    ensures r.Success? ==>
      var k := old(db.nextId);
      && k !in old(db.sections) && k in db.sections
      && db.sections == old(db.sections)[k := Section(k, courseId, title, db.sections[k].orderIndex)]
      && (orderIndex.Some? ==> db.sections[k].orderIndex == orderIndex.value)
      && (orderIndex.None? && !indexReadFails ==>
            IsNextIndex(SectionIndexes(old(db.sections), courseId), db.sections[k].orderIndex))
      && (orderIndex.None? && indexReadFails ==> db.sections[k].orderIndex == 0)
  {
    var gate := SectionGate(profile, db.courses, courseId, title);
    if gate.Some? {
      return Failure(gate.value);
    }
    var position: int;
    if orderIndex.Some? {
      position := orderIndex.value;
    } else if indexReadFails {
      position := 0;
    } else {
      position := NextOrderIndex(SectionIndexes(db.sections, courseId));
    }
    if storeFails {
      return Failure(SectionNotCreated);
    }
    var k := db.InsertSection(Section(0, courseId, title, position));
    r := Success(());
  }

  /** The optional fields of `updateLessonAction`; `content` may be supplied
      as null, hence its two layers. */
  datatype LessonPatch = LessonPatch(
    title: Option<string>,
    isPublished: Option<bool>,
    orderIndex: Option<int>,
    sectionId: Option<Id>,
    videoUrl: Option<string>,
    content: Option<Option<string>>)

  /** A field takes the supplied value, or keeps its own. */
  function Pick<T>(supplied: Option<T>, current: T): T {
    if supplied.Some? then supplied.value else current
  }

  /** The fields supplied overwrite the row (a video address normalised);
      every other field keeps its value. */
  function ApplyPatch(l: Lesson, p: LessonPatch): (n: Lesson)
    ensures n.id == l.id && n.courseId == l.courseId
    ensures n.title == Pick(p.title, l.title)
    ensures n.isPublished == Pick(p.isPublished, l.isPublished)
    ensures n.orderIndex == Pick(p.orderIndex, l.orderIndex)
    ensures n.sectionId == Pick(p.sectionId, l.sectionId)
    ensures n.videoUrl == if p.videoUrl.Some? then NormalizeGoogleDriveUrl(p.videoUrl.value) else l.videoUrl
    ensures n.content == Pick(p.content, l.content)
  {
    l.(title := Pick(p.title, l.title),
       isPublished := Pick(p.isPublished, l.isPublished),
       orderIndex := Pick(p.orderIndex, l.orderIndex),
       sectionId := Pick(p.sectionId, l.sectionId),
       videoUrl := if p.videoUrl.Some? then NormalizeGoogleDriveUrl(p.videoUrl.value) else l.videoUrl,
       content := Pick(p.content, l.content))
  }

  /** An empty patch changes nothing. */
  lemma EmptyPatchIsIdentity(l: Lesson)
    ensures ApplyPatch(l, LessonPatch(None, None, None, None, None, None)) == l
  {
  }

  /** `updateLessonAction`: the update is filtered on both the lesson id and
      the course id; a row of another course, or a missing row, is left alone. */
  method UpdateLesson(db: Db, lessonId: Id, courseId: Id, patch: LessonPatch, storeFails: bool)
    returns (r: Result<()>)
    requires db.Valid()
    modifies db`lessons
    ensures db.Valid()
    ensures storeFails <==> r == Failure(LessonNotUpdated)
    ensures r.Failure? ==> db.lessons == old(db.lessons)
    ensures r.Success? ==>
      db.lessons == if lessonId in old(db.lessons) && old(db.lessons)[lessonId].courseId == courseId
                    then old(db.lessons)[lessonId := ApplyPatch(old(db.lessons)[lessonId], patch)]
                    else old(db.lessons)
  {
    if storeFails {
      return Failure(LessonNotUpdated);
    }
    if lessonId in db.lessons && db.lessons[lessonId].courseId == courseId {
      db.lessons := db.lessons[lessonId := ApplyPatch(db.lessons[lessonId], patch)];
    }
    r := Success(());
  }
}
