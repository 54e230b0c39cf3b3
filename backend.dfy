/**
 * The data backend as the pages see it: the relationship tables (saved jobs,
 * applications, enrollments), the `student_count` column of `courses`, and the
 * `jobs` table the job form writes to. The backend's uniqueness constraint on
 * (user, listing) pairs is part of the model: inserting a pair that already
 * exists raises Postgres error 23505 and changes nothing. A write may also
 * fail without raising, handing its failure back in the reply's `error`.
 */
module Backend {
  import opened Wrappers

  type UserId = string
  type Id = string

  /** A failure the backend call raises, caught by the page's `catch` block. */
  datatype Raised = Raised(code: string, message: string)

  /** Postgres `unique_violation`. */
  const UniqueViolation: string := "23505"
  const DuplicateKeyMessage: string := "duplicate key value violates unique constraint"
  const DuplicateKey: Raised := Raised(UniqueViolation, DuplicateKeyMessage)

  /** The answer to a listing or profile query: an error, or data that may be null. */
  datatype Response<T> = Failed | Answered(data: Option<seq<T>>)

  /** A row of `saved_jobs`. */
  datatype SavedJob = SavedJob(userId: UserId, jobId: Id)

  /** A row of `applications`. */
  datatype Application = Application(jobId: Id, applicantId: UserId, status: string)

  /** A row of `enrollments`. */
  datatype Enrollment = Enrollment(courseId: Id, studentId: UserId, progress: int, completed: bool)

  /** A row inserted into `jobs` by the job form; `salaryRange` None is SQL null. */
  datatype JobRecord = JobRecord(
    employerId: UserId, title: string, company: string, description: string,
    location: string, jobType: string, salaryRange: Option<string>, requirements: seq<string>)

  /** `user` has applied to `job`. */
  predicate HasApplied(apps: set<Application>, job: Id, user: UserId)
  {
    exists a :: a in apps && a.jobId == job && a.applicantId == user
  }

  /** `user` is enrolled in `course`. */
  predicate IsEnrolled(rows: set<Enrollment>, course: Id, user: UserId)
  {
    exists e :: e in rows && e.courseId == course && e.studentId == user
  }

  /** The uniqueness constraint on (job, applicant). */
  predicate OneApplicationPerPair(apps: set<Application>)
  {
    forall a, b :: a in apps && b in apps && a.jobId == b.jobId && a.applicantId == b.applicantId ==> a == b
  }

  /** The uniqueness constraint on (course, student). */
  predicate OneEnrollmentPerPair(rows: set<Enrollment>)
  {
    forall e, f :: e in rows && f in rows && e.courseId == f.courseId && e.studentId == f.studentId ==> e == f
  }

  /** Adding an application for a fresh pair keeps the constraint, and the pair then has one. */
  lemma AddApplicationKeepsUnique(apps: set<Application>, a: Application)
    requires OneApplicationPerPair(apps)
    requires !HasApplied(apps, a.jobId, a.applicantId)
    ensures OneApplicationPerPair(apps + {a})
    ensures HasApplied(apps + {a}, a.jobId, a.applicantId)
  {
  }

  /** Adding an enrollment for a fresh pair keeps the constraint, and the pair then has one. */
  lemma AddEnrollmentKeepsUnique(rows: set<Enrollment>, e: Enrollment)
    requires OneEnrollmentPerPair(rows)
    requires !IsEnrolled(rows, e.courseId, e.studentId)
    ensures OneEnrollmentPerPair(rows + {e})
    ensures IsEnrolled(rows + {e}, e.courseId, e.studentId)
  {
  }

  /**
   * How one write call ends. `Through`: the call reaches the table, where a
   * constraint violation raises 23505. `Raises`: the client raises the
   * failure before the table changes. `Returns`: the client hands the failure
   * back in the reply's `error` field without raising, and the table is
   * unchanged.
   */
  datatype Call = Through | Raises(failure: Raised) | Returns(failure: Raised)

  /** The failure a call raises by itself, or None. */
  function Raising(call: Call): (r: Option<Raised>)
    ensures r.Some? <==> call.Raises?
    ensures r.Some? ==> r.value == call.failure
  {
    if call.Raises? then Some(call.failure) else None
  }

  /** The reply's `error` field, or None. */
  function Returned(call: Call): (r: Option<Raised>)
    ensures r.Some? <==> call.Returns?
    ensures r.Some? ==> r.value == call.failure
  {
    if call.Returns? then Some(call.failure) else None
  }

  /**
   * The backend's tables. Every write takes the `Call` that says how it ends,
   * and returns what it raises and the `error` field of its reply.
   */
  class Store {
    var saved: set<SavedJob>
    var applications: set<Application>
    var enrollments: set<Enrollment>
    var studentCount: map<Id, int>
    var jobs: seq<JobRecord>

    /** The uniqueness constraints hold. */
    ghost predicate Valid()
      reads this
    {
      OneApplicationPerPair(applications) && OneEnrollmentPerPair(enrollments)
    }

    /** Empty relationship tables over the given courses' counts. */
    constructor (counts: map<Id, int>)
      ensures Valid()
      ensures saved == {} && applications == {} && enrollments == {}
      ensures studentCount == counts && jobs == []
    {
      saved, applications, enrollments := {}, {}, {};
      studentCount, jobs := counts, [];
    }

    /** `select job_id from saved_jobs where user_id = u`. */
    function SavedJobIds(u: UserId): (ids: set<Id>)
      reads this
      ensures forall j :: j in ids <==> SavedJob(u, j) in saved
    {
      set s | s in saved && s.userId == u :: s.jobId
    }

    /** `select job_id from applications where applicant_id = u`. */
    function AppliedJobIds(u: UserId): (ids: set<Id>)
      reads this
      ensures forall j :: j in ids <==> HasApplied(applications, j, u)
    {
      set a | a in applications && a.applicantId == u :: a.jobId
    }

    /** `select course_id from enrollments where student_id = u`. */
    function EnrolledCourseIds(u: UserId): (ids: set<Id>)
      reads this
      ensures forall c :: c in ids <==> IsEnrolled(enrollments, c, u)
    {
      set e | e in enrollments && e.studentId == u :: e.courseId
    }

    /** Insert into `saved_jobs`; an existing pair raises 23505. */
    method InsertSaved(row: SavedJob, call: Call) returns (raised: Option<Raised>, error: Option<Raised>)
      modifies this`saved
      ensures raised == (if call.Through? && row in old(saved) then Some(DuplicateKey) else Raising(call))
      ensures error == Returned(call)
      ensures saved == (if call.Through? then old(saved) + {row} else old(saved))
    {
      raised, error := Raising(call), Returned(call);
      if call.Through? {
        if row in saved {
          raised := Some(DuplicateKey);
        } else {
          saved := saved + {row};
        }
      }
    }

    /** `delete from saved_jobs where user_id = u and job_id = j`; deleting nothing is no error. */
    method DeleteSaved(u: UserId, j: Id, call: Call) returns (raised: Option<Raised>, error: Option<Raised>)
      modifies this`saved
      ensures raised == Raising(call) && error == Returned(call)
      ensures saved == (if call.Through? then old(saved) - {SavedJob(u, j)} else old(saved))
    {
      raised, error := Raising(call), Returned(call);
      if call.Through? {
        saved := saved - {SavedJob(u, j)};
      }
    }

    /** Insert into `applications`; an existing (job, applicant) pair raises 23505. */
    method InsertApplication(row: Application, call: Call) returns (raised: Option<Raised>, error: Option<Raised>)
      requires Valid()
      modifies this`applications
      ensures Valid()
      ensures raised == (if call.Through? && HasApplied(old(applications), row.jobId, row.applicantId)
                         then Some(DuplicateKey) else Raising(call))
      ensures error == Returned(call)
      ensures applications == (if call.Through? && raised.None? then old(applications) + {row} else old(applications))
    {
      raised, error := Raising(call), Returned(call);
      if call.Through? {
        if exists a :: a in applications && a.jobId == row.jobId && a.applicantId == row.applicantId {
          raised := Some(DuplicateKey);
        } else {
          AddApplicationKeepsUnique(applications, row);
          applications := applications + {row};
        }
      }
    }

    /** Insert into `enrollments`; an existing (course, student) pair raises 23505. */
    method InsertEnrollment(row: Enrollment, call: Call) returns (raised: Option<Raised>, error: Option<Raised>)
      requires Valid()
      modifies this`enrollments
      ensures Valid()
      ensures raised == (if call.Through? && IsEnrolled(old(enrollments), row.courseId, row.studentId)
                         then Some(DuplicateKey) else Raising(call))
      ensures error == Returned(call)
      ensures enrollments == (if call.Through? && raised.None? then old(enrollments) + {row} else old(enrollments))
    {
      raised, error := Raising(call), Returned(call);
      if call.Through? {
        if exists e :: e in enrollments && e.courseId == row.courseId && e.studentId == row.studentId {
          raised := Some(DuplicateKey);
        } else {
          AddEnrollmentKeepsUnique(enrollments, row);
          enrollments := enrollments + {row};
        }
      }
    }

    /** `update courses set student_count = n where id = c`: a missing row is left alone. */
    method UpdateStudentCount(c: Id, n: int, call: Call) returns (raised: Option<Raised>, error: Option<Raised>)
      modifies this`studentCount
      ensures raised == Raising(call) && error == Returned(call)
      ensures studentCount == (if call.Through? && c in old(studentCount) then old(studentCount)[c := n]
                               else old(studentCount))
    {
      raised, error := Raising(call), Returned(call);
      if call.Through? && c in studentCount {
        studentCount := studentCount[c := n];
      }
    }

    /** Insert into `jobs`; the row gets a fresh id, so no constraint can fail. */
    method InsertJob(row: JobRecord, call: Call) returns (raised: Option<Raised>, error: Option<Raised>)
      modifies this`jobs
      ensures raised == Raising(call) && error == Returned(call)
      ensures jobs == (if call.Through? then old(jobs) + [row] else old(jobs))
    {
      raised, error := Raising(call), Returned(call);
      if call.Through? {
        jobs := jobs + [row];
      }
    }
  }
}
