/**
 * The live courses page: fetched courses annotated with the viewer's
 * enrollment, the search filter, and the enroll handler, which inserts an
 * enrollment, writes the fetched `student_count` plus one, and re-fetches.
 */
module CoursesLive {
  import opened Wrappers
  import opened Text
  import opened Lists
  import opened Backend

  /** A course row; `isEnrolled` is None (`undefined`) until annotated. */
  datatype Course = Course(
    id: Id, title: string, description: string, instructorName: string, level: string,
    category: string, durationHours: int, studentCount: int, thumbnailUrl: Option<string>,
    createdAt: int, isEnrolled: Option<bool>)

  const LoginToEnroll: string := "Please login to enroll in courses"
  const EnrolledOk: string := "Enrolled successfully!"
  const AlreadyEnrolled: string := "You're already enrolled in this course"
  const EnrollFailed: string := "Failed to enroll"
  const FetchCoursesFailed: string := "Failed to fetch courses"

  // ---------------------------------------------------------------------
  // Status annotation

  /** `{...course, is_enrolled: enrolled.has(course.id)}`. */
  function WithEnrollment(course: Course, enrolled: set<Id>): Course
  {
    course.(isEnrolled := Some(course.id in enrolled))
  }

  /** The annotation `map` over the fetched rows. */
  function AnnotateCourses(rows: seq<Course>, enrolled: set<Id>): seq<Course>
    decreases |rows|
  {
    if rows == [] then [] else [WithEnrollment(rows[0], enrolled)] + AnnotateCourses(rows[1..], enrolled)
  }

  /** `a` is the listing `b` with, at most, another enrollment flag. */
  predicate SameCourse(a: Course, b: Course)
  {
    a.(isEnrolled := b.isEnrolled) == b
  }

  /** Each annotated course is its row, flagged enrolled exactly when its id is in the set. */
  lemma {:induction false} AnnotateCoursesExact(rows: seq<Course>, enrolled: set<Id>)
    ensures |AnnotateCourses(rows, enrolled)| == |rows|
    ensures forall i :: 0 <= i < |rows| ==>
      SameCourse(AnnotateCourses(rows, enrolled)[i], rows[i])
      && AnnotateCourses(rows, enrolled)[i].isEnrolled == Some(rows[i].id in enrolled)
    decreases |rows|
  {
    if rows != [] {
      AnnotateCoursesExact(rows[1..], enrolled);
      var r := AnnotateCourses(rows, enrolled);
      forall i | 1 <= i < |rows|
        ensures r[i] == AnnotateCourses(rows[1..], enrolled)[i - 1] && rows[i] == rows[1..][i - 1]
      {
      }
    }
  }

  /** An enrollment query without data gives the empty set: no course shows as enrolled. */
  lemma NoEnrollmentDataMeansUnflagged(rows: seq<Course>)
    ensures |AnnotateCourses(rows, {})| == |rows|
    ensures forall i :: 0 <= i < |rows| ==> AnnotateCourses(rows, {})[i].isEnrolled == Some(false)
  {
    AnnotateCoursesExact(rows, {});
  }

  function CourseCreatedAt(course: Course): int { course.createdAt }

  /** The backend's `order("created_at", descending)` survives annotation. */
  lemma AnnotateKeepsNewestFirst(rows: seq<Course>, enrolled: set<Id>)
    requires DescendingBy(rows, CourseCreatedAt)
    ensures DescendingBy(AnnotateCourses(rows, enrolled), CourseCreatedAt)
  {
    AnnotateCoursesExact(rows, enrolled);
    var r := AnnotateCourses(rows, enrolled);
    forall i, j | 0 <= i < j < |r| ensures CourseCreatedAt(r[i]) >= CourseCreatedAt(r[j]) {
      assert CourseCreatedAt(rows[i]) >= CourseCreatedAt(rows[j]);
      assert r[i].createdAt == rows[i].createdAt;
      assert r[j].createdAt == rows[j].createdAt;
    }
  }

  // ---------------------------------------------------------------------
  // Client-side filter (as written)

  /**
   * `filteredCourses`' predicate: the lower-cased search term in the title or
   * the instructor's name; the category, unless empty, in the course's
   * category; the level, unless empty, equal to `level`.
   */
  predicate KeepCourse(course: Course, searchTerm: string, category: string, level: string)
  {
    && (Includes(ToLower(course.title), ToLower(searchTerm)) || Includes(ToLower(course.instructorName), ToLower(searchTerm)))
    && (category == "" || Includes(ToLower(course.category), ToLower(category)))
    && (level == "" || course.level == level)
  }

  function CourseMatcher(searchTerm: string, category: string, level: string): Course -> bool
  {
    (course: Course) => KeepCourse(course, searchTerm, category, level)
  }

  /** `courses.filter(...)` with the page's three criteria. */
  function FilterCourses(courses: seq<Course>, searchTerm: string, category: string, level: string): seq<Course>
  {
    Filter(courses, CourseMatcher(searchTerm, category, level))
  }

  /** The filter keeps exactly the matching courses and keeps their order. */
  lemma FilterCoursesSpec(courses: seq<Course>, searchTerm: string, category: string, level: string)
    ensures forall c :: c in FilterCourses(courses, searchTerm, category, level) <==>
      c in courses && KeepCourse(c, searchTerm, category, level)
    ensures IsSubsequence(FilterCourses(courses, searchTerm, category, level), courses)
  {
    FilterMembership(courses, CourseMatcher(searchTerm, category, level));
    FilterIsSubsequence(courses, CourseMatcher(searchTerm, category, level));
  }

  /** With every criterion empty the filter returns the list unchanged. */
  lemma FilterCoursesNoCriteria(courses: seq<Course>)
    ensures FilterCourses(courses, "", "", "") == courses
  {
    forall i | 0 <= i < |courses| ensures CourseMatcher("", "", "")(courses[i]) {
      assert ToLower("") == "";
      IncludesEmpty(ToLower(courses[i].title));
    }
    FilterKeepsAll(courses, CourseMatcher("", "", ""));
  }

  /** Newest-first order survives the filter. */
  lemma FilterCoursesKeepsNewestFirst(courses: seq<Course>, searchTerm: string, category: string, level: string)
    requires DescendingBy(courses, CourseCreatedAt)
    ensures DescendingBy(FilterCourses(courses, searchTerm, category, level), CourseCreatedAt)
  {
    FilterKeepsDescending(courses, CourseMatcher(searchTerm, category, level), CourseCreatedAt);
  }

  /** Choosing "All Levels" sets the criterion to "all", so only courses of level "all" can remain. */
  lemma AllLevelsKeepsOnlyLevelAll(courses: seq<Course>, searchTerm: string, category: string)
    ensures forall c :: c in FilterCourses(courses, searchTerm, category, "all") ==> c.level == "all"
    ensures (forall i :: 0 <= i < |courses| ==> courses[i].level != "all") ==>
      FilterCourses(courses, searchTerm, category, "all") == []
  {
    FilterCoursesSpec(courses, searchTerm, category, "all");
    var r := FilterCourses(courses, searchTerm, category, "all");
    if r != [] {
      assert r[0] in r;
    }
  }

  // ---------------------------------------------------------------------
  // Client-side filter (as evidently intended)

  /** The filter with "all" read as "no level criterion". */
  function FilterCoursesIntended(courses: seq<Course>, searchTerm: string, category: string, level: string): seq<Course>
  {
    FilterCourses(courses, searchTerm, category, if level == "all" then "" else level)
  }

  /** The corrected filter keeps exactly the matching courses, in order, with "all" accepting every level. */
  lemma FilterCoursesIntendedSpec(courses: seq<Course>, searchTerm: string, category: string, level: string)
    ensures forall c :: c in FilterCoursesIntended(courses, searchTerm, category, level) <==>
      && c in courses
      && (Includes(ToLower(c.title), ToLower(searchTerm)) || Includes(ToLower(c.instructorName), ToLower(searchTerm)))
      && (category == "" || Includes(ToLower(c.category), ToLower(category)))
      && (level == "" || level == "all" || c.level == level)
    ensures IsSubsequence(FilterCoursesIntended(courses, searchTerm, category, level), courses)
  {
    FilterCoursesSpec(courses, searchTerm, category, if level == "all" then "" else level);
  }

  /** With the intended reading, "All Levels" filters by nothing but the other two criteria. */
  lemma AllLevelsIntendedIgnoresLevel(courses: seq<Course>, searchTerm: string, category: string)
    ensures FilterCoursesIntended(courses, searchTerm, category, "all") == FilterCourses(courses, searchTerm, category, "")
    ensures FilterCoursesIntended(courses, "", "", "all") == courses
  {
    FilterCoursesNoCriteria(courses);
  }

  // ---------------------------------------------------------------------
  // Looking a course up in the fetched list

  function CourseWithId(id: Id): Course -> bool
  {
    (course: Course) => course.id == id
  }

  /** `courses.find(c => c.id === courseId)`. */
  function FindCourse(courses: seq<Course>, id: Id): Option<Course>
  {
    Find(courses, CourseWithId(id))
  }

  /** Annotating a list does not change which course a lookup by id finds, up to the flag. */
  lemma FindCourseAfterAnnotation(courses: seq<Course>, rows: seq<Course>, id: Id)
    requires |courses| == |rows|
    requires forall i :: 0 <= i < |rows| ==> SameCourse(courses[i], rows[i])
    ensures FindCourse(courses, id).Some? <==> FindCourse(rows, id).Some?
    ensures FindCourse(courses, id).Some? ==>
      var k := FirstIndexWhere(rows, CourseWithId(id));
      k < |rows| && FindCourse(courses, id).value == courses[k] && FindCourse(rows, id).value == rows[k]
  {
    forall i | 0 <= i < |rows| ensures CourseWithId(id)(courses[i]) == CourseWithId(id)(rows[i]) {
      assert courses[i].id == rows[i].id;
    }
    FirstIndexWhereAgree(courses, CourseWithId(id), rows, CourseWithId(id));
  }

  /** The "Enroll Now" button: `!course.is_enrolled && handleEnroll(course.id)`, disabled once enrolled. */
  predicate EnrollButtonActive(course: Course)
  {
    course.isEnrolled != Some(true)
  }

  /** Rows as the `courses` table returns them: the enrollment flag is absent. */
  predicate Unflagged(courses: seq<Course>)
  {
    forall i :: 0 <= i < |courses| ==> courses[i].isEnrolled.None?
  }

  /** A list without enrollment flags has every enroll button active. */
  lemma UnflaggedShowsNothing(courses: seq<Course>)
    requires Unflagged(courses)
    ensures forall i :: 0 <= i < |courses| ==> EnrollButtonActive(courses[i])
  {
  }

  // ---------------------------------------------------------------------
  // The backend's current rows

  /** A `courses` row as the backend returns it now: `student_count` is the stored count. */
  function CurrentRow(row: Course, counts: map<Id, int>): (r: Course)
    ensures r.(studentCount := row.studentCount) == row
    ensures r.studentCount == (if row.id in counts then counts[row.id] else row.studentCount)
  {
    if row.id in counts then row.(studentCount := counts[row.id]) else row
  }

  /** The listing rows with their stored counts. */
  function CurrentRows(rows: seq<Course>, counts: map<Id, int>): (r: seq<Course>)
    ensures |r| == |rows|
    ensures forall i :: 0 <= i < |rows| ==> r[i] == CurrentRow(rows[i], counts)
    ensures Unflagged(rows) ==> Unflagged(r)
  {
    seq(|rows|, i requires 0 <= i < |rows| => CurrentRow(rows[i], counts))
  }

  // ---------------------------------------------------------------------
  // The page

  /** The courses page's state: the viewer, the backend, the fetched `courses` and `loading`. */
  class CoursesPage {
    const user: Option<UserId>
    const store: Store
    var courses: seq<Course>
    var loading: bool

    constructor (user: Option<UserId>, store: Store)
      ensures this.user == user && this.store == store
      ensures courses == [] && loading
    {
      this.user := user;
      this.store := store;
      courses := [];
      loading := true;
    }

    /** The toast one fetch shows: the listing query failed, or its null data cannot be mapped. */
    function FetchToast(listing: Response<Course>): Option<Toast>
    {
      if listing.Failed? || (user.Some? && listing.data.None?) then Some(Error(FetchCoursesFailed)) else None
    }

    /**
     * What `courses` holds after a fetch that started from `prev`: the listed
     * rows, each with its stored `student_count`, annotated for a viewer.
     */
    ghost predicate Shows(prev: seq<Course>, listing: Response<Course>, enrolledMissing: bool)
      reads this, store
    {
      match listing
      case Failed => courses == prev
      case Answered(None) => courses == (if user.None? then [] else prev)
      case Answered(Some(rows)) =>
        var current := CurrentRows(rows, store.studentCount);
        if user.None? then courses == current
        else
          |courses| == |rows|
          && forall i :: 0 <= i < |rows| ==>
            SameCourse(courses[i], current[i])
            && courses[i].isEnrolled == Some(!enrolledMissing && IsEnrolled(store.enrollments, rows[i].id, user.value))
    }

    /** `fetchCourses`: load the courses, annotate them for a logged-in viewer, end loading. */
    method FetchCourses(listing: Response<Course>, enrolledMissing: bool) returns (toast: Option<Toast>)
      modifies this`courses, this`loading
      ensures !loading
      ensures Shows(old(courses), listing, enrolledMissing)
      ensures toast == FetchToast(listing)
      ensures user.None? && listing.Answered? && Unflagged(OrEmpty(listing.data)) ==> Unflagged(courses)
    {
      toast := FetchToast(listing);
      match listing {
        case Failed =>
        case Answered(data) =>
          if user.None? {
            courses := CurrentRows(OrEmpty(data), store.studentCount);
          } else if data.Some? {
            var current := CurrentRows(data.value, store.studentCount);
            var enrolled := if enrolledMissing then {} else store.EnrolledCourseIds(user.value);
            AnnotateCoursesExact(current, enrolled);
            courses := AnnotateCourses(current, enrolled);
          }
      }
      loading := false;
    }

    /**
     * `handleEnroll`: insert the enrollment; unless that raises, write the
     * fetched `student_count` plus one when the course is in the fetched list;
     * then re-fetch. Any raise skips what follows it. The replies' `error`
     * fields are never read, so an insert that fails without raising still
     * leads to the count being written.
     */
    method HandleEnroll(courseId: Id, insertCall: Call, updateCall: Call,
                        listing: Response<Course>, enrolledMissing: bool)
      returns (toasts: seq<Toast>)
      requires store.Valid()
      modifies store`enrollments, store`studentCount, this`courses, this`loading
      ensures store.Valid()
      ensures old(store.enrollments) <= store.enrollments
      ensures user.None? ==>
        toasts == [Error(LoginToEnroll)]
        && store.enrollments == old(store.enrollments) && store.studentCount == old(store.studentCount)
        && courses == old(courses) && loading == old(loading)
      ensures user.Some? ==>
        var refused := insertCall.Raises? || (insertCall.Through? && IsEnrolled(old(store.enrollments), courseId, user.value));
        var shown := FindCourse(old(courses), courseId);
        var counting := !refused && shown.Some?;
        && store.enrollments == (if insertCall.Through? && !refused
                                 then old(store.enrollments) + {Enrollment(courseId, user.value, 0, false)}
                                 else old(store.enrollments))
        && store.studentCount == (if counting && updateCall.Through? && courseId in old(store.studentCount)
                                  then old(store.studentCount)[courseId := shown.value.studentCount + 1]
                                  else old(store.studentCount))
        && (refused ==>
              var code := if insertCall.Raises? then insertCall.failure.code else UniqueViolation;
              toasts == [Error(if code == UniqueViolation then AlreadyEnrolled else EnrollFailed)]
              && courses == old(courses) && loading == old(loading))
        && (counting && updateCall.Raises? ==>
              toasts == [Error(if updateCall.failure.code == UniqueViolation then AlreadyEnrolled else EnrollFailed)]
              && courses == old(courses) && loading == old(loading))
        && (!refused && !(counting && updateCall.Raises?) ==>
              |toasts| >= 1 && toasts[0] == Success(EnrolledOk)
              && toasts[1..] == (if FetchToast(listing).Some? then [FetchToast(listing).value] else [])
              && !loading && Shows(old(courses), listing, enrolledMissing))
      ensures user.Some? && store.studentCount != old(store.studentCount) ==>
        !insertCall.Raises?
        && (insertCall.Through? ==> store.enrollments == old(store.enrollments) + {Enrollment(courseId, user.value, 0, false)})
      ensures user.Some? && insertCall.Returns? ==>
        store.enrollments == old(store.enrollments)
        && (FindCourse(old(courses), courseId).Some? && updateCall.Through? && courseId in old(store.studentCount) ==>
              store.studentCount[courseId] == FindCourse(old(courses), courseId).value.studentCount + 1)
    {
      if user.None? {
        return [Error(LoginToEnroll)];
      }
      var raised, error := store.InsertEnrollment(Enrollment(courseId, user.value, 0, false), insertCall);  // `error` is never read
      if raised.Some? {
        return [Error(if raised.value.code == UniqueViolation then AlreadyEnrolled else EnrollFailed)];
      }
      var course := FindCourse(courses, courseId);
      if course.Some? {
        raised, error := store.UpdateStudentCount(courseId, course.value.studentCount + 1, updateCall);
        if raised.Some? {
          return [Error(if raised.value.code == UniqueViolation then AlreadyEnrolled else EnrollFailed)];
        }
      }
      var fetched := FetchCourses(listing, enrolledMissing);
      toasts := [Success(EnrolledOk)] + (if fetched.Some? then [fetched.value] else []);
    }
  }

  // ---------------------------------------------------------------------
  // Enrolling again

  /**
   * Enrolling in a listed course whose stored and shown count is `n`, with a
   * re-fetch that lists it: the stored count becomes `n + 1`, and the page
   * shows `n + 1` and the course as enrolled, which disables its button.
   * Calling the handler again all the same is refused as a duplicate and the
   * count stays `n + 1`.
   */
  method EnrollTwice(page: CoursesPage, courseId: Id, rows: seq<Course>) returns (first: seq<Toast>, second: seq<Toast>)
    requires page.user.Some? && page.store.Valid()
    requires !IsEnrolled(page.store.enrollments, courseId, page.user.value)
    requires courseId in page.store.studentCount
    requires FindCourse(page.courses, courseId).Some?
    requires FindCourse(page.courses, courseId).value.studentCount == page.store.studentCount[courseId]
    requires exists i :: 0 <= i < |rows| && rows[i].id == courseId
    modifies page.store`enrollments, page.store`studentCount, page`courses, page`loading
    ensures first == [Success(EnrolledOk)] && second == [Error(AlreadyEnrolled)]
    ensures page.store.studentCount == old(page.store.studentCount)[courseId := old(page.store.studentCount)[courseId] + 1]
    ensures page.store.enrollments == old(page.store.enrollments) + {Enrollment(courseId, page.user.value, 0, false)}
    ensures FindCourse(page.courses, courseId).Some?
    ensures FindCourse(page.courses, courseId).value.studentCount == old(page.store.studentCount)[courseId] + 1
    ensures FindCourse(page.courses, courseId).value.isEnrolled == Some(true)
    ensures !EnrollButtonActive(FindCourse(page.courses, courseId).value)
  {
    var u := page.user.value;
    ghost var n := page.store.studentCount[courseId];
    ghost var before := page.courses;
    first := page.HandleEnroll(courseId, Through, Through, Answered(Some(rows)), false);
    assert first == [Success(EnrolledOk)];
    assert page.store.studentCount == old(page.store.studentCount)[courseId := n + 1];
    assert page.Shows(before, Answered(Some(rows)), false);
    var current := CurrentRows(rows, page.store.studentCount);
    FindCourseAfterAnnotation(page.courses, current, courseId);
    var k := FirstIndexWhere(current, CourseWithId(courseId));
    assert current[k].id == courseId && rows[k].id == courseId;
    assert IsEnrolled(page.store.enrollments, rows[k].id, u);
    second := page.HandleEnroll(courseId, Through, Through, Answered(Some(rows)), false);
  }
}
